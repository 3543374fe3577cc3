/** The menu-bar icon and the panel it toggles: the status item's view (a
    click detector and an icon that shows whether it is highlighted), the
    panel controllers that open and close a pop-up window under it, and the
    controller that ties one view to the current panel. Drawing, animation
    and window geometry other than the right-edge clamp are AppKit's. */
module StatusPanel {
  import opened Wrappers

  /** An icon, by the resource it was loaded from. */
  datatype Image = Image(name: string)

  const ImagePath: string := "Status.png"
  const HighlightImagePath: string := "StatusHighlighted.png"
  /** Height of the panel's arrow; also the gap kept at the screen's right edge. */
  const ArrowHeight: int := 8

  /** Mouse input to the status item. */
  datatype MouseEvent = Down | Up

  /** The click detector: the pressed flag after an event, and whether the
      event raised `StatusItemClicked` (a release after a press, with a
      listener attached). */
  function Respond(pressed: bool, e: MouseEvent, listening: bool): (r: (bool, bool))
    ensures r.1 <==> e == Up && pressed && listening
    ensures r.0 <==> e == Down
  {
    match e
    case Down => (true, false)
    case Up => (false, pressed && listening)
  }

  /** The clicks a run of mouse events raises, starting from `pressed`. */
  function Clicks(events: seq<MouseEvent>, pressed: bool, listening: bool): nat
  {
    if |events| == 0 then 0
    else
      var (next, clicked) := Respond(pressed, events[0], listening);
      (if clicked then 1 else 0) + Clicks(events[1..], next, listening)
  }

  function Presses(events: seq<MouseEvent>): nat
  {
    if |events| == 0 then 0 else (if events[0] == Down then 1 else 0) + Presses(events[1..])
  }

  function Releases(events: seq<MouseEvent>): nat
  {
    if |events| == 0 then 0 else (if events[0] == Up then 1 else 0) + Releases(events[1..])
  }

  /** Each click needs a press of its own and a release of its own: a press
      yields at most one click, however many releases follow. */
  lemma {:induction false} ClicksNeedPresses(events: seq<MouseEvent>, pressed: bool, listening: bool)
    ensures Clicks(events, pressed, listening) <= Presses(events) + (if pressed then 1 else 0)
    ensures Clicks(events, pressed, listening) <= Releases(events)
  {
    if |events| > 0 {
      var (next, _) := Respond(pressed, events[0], listening);
      ClicksNeedPresses(events[1..], next, listening);
    }
  }

  /** A press and a release make one click; a second release makes none. */
  lemma PressReleaseClicksOnce(listening: bool)
    ensures Clicks([Down, Up], false, listening) == if listening then 1 else 0
    ensures Clicks([Down, Up, Up], false, listening) == if listening then 1 else 0
    ensures Clicks([Up], false, listening) == 0
  {
    assert [Down, Up][1..] == [Up];
    assert [Down, Up, Up][1..] == [Up, Up];
    assert [Up, Up][1..] == [Up];
  }

  /** Without a listener nothing is raised. */
  lemma {:induction false} NoListenerNoClicks(events: seq<MouseEvent>, pressed: bool)
    ensures Clicks(events, pressed, false) == 0
  {
    if |events| > 0 {
      NoListenerNoClicks(events[1..], Respond(pressed, events[0], false).0);
    }
  }

  /** `panelRect.X` after the clamp: a panel whose right edge would pass the
      screen's right edge less `ArrowHeight` is moved left just enough. */
  function ClampToScreen(x: int, width: int, screenRight: int): (r: int)
    ensures r + width <= screenRight - ArrowHeight
    ensures r <= x
    ensures x + width <= screenRight - ArrowHeight ==> r == x
    ensures x + width > screenRight - ArrowHeight ==> r + width == screenRight - ArrowHeight
  {
    if x + width > screenRight - ArrowHeight then x - ((x + width) - (screenRight - ArrowHeight))
    else x
  }

  /** The status item's view. */
  class StatusItemView {
    var mouseDown: bool
    var isHighlighted: bool
    var image: Option<Image>
    var alternateImage: Option<Image>
    /** Whether a redraw has been requested (`NeedsDisplay`). */
    var needsDisplay: bool
    /** Whether a handler is attached to `StatusItemClicked`. */
    var listening: bool

    constructor ()
      ensures !mouseDown && !isHighlighted && !needsDisplay && !listening
      ensures image == None && alternateImage == None
    {
      mouseDown := false;
      isHighlighted := false;
      image := None;
      alternateImage := None;
      needsDisplay := false;
      listening := false;
    }

    /** The click state and icons are as given: opening and closing a panel
        touch only the highlight. */
    predicate KeepsInput(mouseDown0: bool, listening0: bool, image0: Option<Image>, alternateImage0: Option<Image>)
      reads this
    {
      mouseDown == mouseDown0 && listening == listening0 && image == image0 && alternateImage == alternateImage0
    }

    /** The icon `DrawRect` draws: the alternate image while highlighted,
        the image otherwise; `None` draws no icon. */
    function Icon(): Option<Image>
      reads this
    {
      if isHighlighted then alternateImage else image
    }

    method SetImage(value: Option<Image>)
      modifies this`image, this`needsDisplay
      ensures image == value && needsDisplay
    {
      image := value;
      needsDisplay := true;
    }

    method SetAlternateImage(value: Option<Image>)
      modifies this`alternateImage, this`needsDisplay
      ensures alternateImage == value && needsDisplay
    {
      alternateImage := value;
      needsDisplay := true;
    }

    /** Setting the highlight to its current value does nothing at all, not
        even a redraw request. */
    method SetHighlighted(value: bool)
      modifies this`isHighlighted, this`needsDisplay
      ensures isHighlighted == value
      ensures old(isHighlighted) == value ==> unchanged(this)
      ensures old(isHighlighted) != value ==> needsDisplay
    {
      if isHighlighted == value {
        return;
      }
      isHighlighted := value;
      needsDisplay := true;
    }

    method MouseDown()
      modifies this`mouseDown
      ensures (mouseDown, false) == Respond(old(mouseDown), Down, listening)
    {
      mouseDown := true;
    }

    /** Returns whether `StatusItemClicked` was raised. */
    method MouseUp() returns (clicked: bool)
      modifies this`mouseDown
      ensures (mouseDown, clicked) == Respond(old(mouseDown), Up, listening)
      ensures !mouseDown
    {
      clicked := listening && mouseDown;
      mouseDown := false;
    }
  }

  /** A panel controller: whether its panel is open, the view that toggles
      it, and the frame its window was last opened at. */
  class PanelController {
    var isOpen: bool
    var statusItemView: StatusItemView?
    var statusController: StatusPanelController?
    /** `panelRect.X` the last time the panel was opened. */
    var frameX: int
    const frameWidth: int

    constructor (frameWidth: int)
      ensures !isOpen && statusItemView == null && statusController == null
      ensures this.frameWidth == frameWidth
    {
      isOpen := false;
      statusItemView := null;
      statusController := null;
      frameX := 0;
      this.frameWidth := frameWidth;
    }

    /** `Initialize`'s validation: the window must be a `Panel` and the
        background view must be there, or construction throws. */
    static method Create(windowIsPanel: bool, hasBackgroundView: bool, frameWidth: int)
      returns (r: Result<PanelController, string>)
      ensures !windowIsPanel ==> r == Err("Window must inherit from Panel")
      ensures windowIsPanel && !hasBackgroundView ==> r == Err("BackgroundView cannot be NULL")
      ensures windowIsPanel && hasBackgroundView ==>
                r.Ok? && fresh(r.value) && !r.value.isOpen && r.value.statusItemView == null
    {
      if !windowIsPanel {
        return Err("Window must inherit from Panel");
      }
      if !hasBackgroundView {
        return Err("BackgroundView cannot be NULL");
      }
      var c := new PanelController(frameWidth);
      r := Ok(c);
    }

    /** Opens the panel at `anchorX` (the rounded position under the status
        item), clamped to the screen, and highlights the status item. An open
        panel is left exactly as it is. */
    method OpenPanel(anchorX: int, screenRight: int)
      requires isOpen || statusItemView != null
      modifies this`isOpen, this`frameX, statusItemView
      ensures statusItemView != null ==> statusItemView.KeepsInput(old(statusItemView.mouseDown), old(statusItemView.listening), old(statusItemView.image), old(statusItemView.alternateImage))
      ensures old(isOpen) ==> unchanged(this) && (statusItemView != null ==> unchanged(statusItemView))
      ensures !old(isOpen) ==> isOpen && statusItemView.isHighlighted
      ensures !old(isOpen) ==> frameX == ClampToScreen(anchorX, frameWidth, screenRight)
      ensures !old(isOpen) ==> frameX + frameWidth <= screenRight - ArrowHeight
    {
      if isOpen {
        return;
      }
      frameX := ClampToScreen(anchorX, frameWidth, screenRight);
      isOpen := true;
      statusItemView.SetHighlighted(true);
    }

    /** Closes the panel and clears the highlight; a closed panel is left
        exactly as it is. */
    method ClosePanel()
      requires !isOpen || statusItemView != null
      modifies this`isOpen, statusItemView
      ensures statusItemView != null ==> statusItemView.KeepsInput(old(statusItemView.mouseDown), old(statusItemView.listening), old(statusItemView.image), old(statusItemView.alternateImage))
      ensures !old(isOpen) ==> unchanged(this) && (statusItemView != null ==> unchanged(statusItemView))
      ensures old(isOpen) ==> !isOpen && !statusItemView.isHighlighted
      ensures !isOpen
    {
      if !isOpen {
        return;
      }
      isOpen := false;
      statusItemView.SetHighlighted(false);
    }

    /** The window is closing. */
    method WindowWillClose()
      requires !isOpen || statusItemView != null
      modifies this`isOpen, statusItemView
      ensures statusItemView != null ==> statusItemView.KeepsInput(old(statusItemView.mouseDown), old(statusItemView.listening), old(statusItemView.image), old(statusItemView.alternateImage))
      ensures !isOpen
      ensures old(isOpen) ==> !statusItemView.isHighlighted
    {
      ClosePanel();
    }

    /** The window stopped being key: the panel closes only if the window is
        visible. */
    method WindowDidResignKey(windowVisible: bool)
      requires !isOpen || statusItemView != null
      modifies this`isOpen, statusItemView
      ensures statusItemView != null ==> statusItemView.KeepsInput(old(statusItemView.mouseDown), old(statusItemView.listening), old(statusItemView.image), old(statusItemView.alternateImage))
      ensures !windowVisible ==> unchanged(this) && (statusItemView != null ==> unchanged(statusItemView))
      ensures windowVisible ==> !isOpen
    {
      if windowVisible {
        ClosePanel();
      }
    }
  }

  /** Owns the status item and its view, and shows the current panel. */
  class StatusPanelController {
    const view: StatusItemView
    var panel: PanelController
    /** Whether the status item is still in the menu bar (`_statusItem` not null). */
    var hasStatusItem: bool
    /** How many times the status item was removed from the menu bar. */
    var removals: nat
    var disposed: bool

    ghost predicate Valid()
      reads this, panel, view
    {
      && panel.statusItemView == view
      && panel.statusController == this
      && view.listening
      && view.alternateImage == Some(Image(HighlightImagePath))
      && removals == (if hasStatusItem then 0 else 1)
      && (disposed ==> !hasStatusItem)
    }

    /** Creates the status item and its view with both icons, listens to its
        clicks, and links the first panel to the view and to this. */
    constructor (panelController: PanelController)
      modifies panelController
      ensures Valid()
      ensures panel == panelController && fresh(view)
      ensures view.image == Some(Image(ImagePath)) && view.alternateImage == Some(Image(HighlightImagePath))
      ensures !view.isHighlighted && !view.mouseDown
      ensures panelController.isOpen == old(panelController.isOpen)
      ensures hasStatusItem && !disposed
    {
      var v := new StatusItemView();
      v.SetImage(Some(Image(ImagePath)));
      v.SetAlternateImage(Some(Image(HighlightImagePath)));
      v.listening := true;
      view := v;
      panel := panelController;
      hasStatusItem := true;
      removals := 0;
      disposed := false;
      new;
      panelController.statusItemView := v;
      panelController.statusController := this;
    }

    /** Puts the plain icon back. */
    method ResetIcon()
      modifies view`image, view`needsDisplay
      ensures view.image == Some(Image(ImagePath)) && view.needsDisplay
    {
      view.SetImage(Some(Image(ImagePath)));
    }

    /** `OnStatusItemClicked`: flips the highlight, then opens the panel if it
        is now highlighted and closes it otherwise. Whatever the state
        before, the panel is then open exactly when the item is highlighted,
        and the icon shown says so. */
    method OnStatusItemClicked(anchorX: int, screenRight: int)
      requires Valid()
      modifies view, panel
      ensures Valid()
      ensures view.isHighlighted == !old(view.isHighlighted)
      ensures panel.isOpen == view.isHighlighted
      ensures view.Icon() == if panel.isOpen then Some(Image(HighlightImagePath)) else view.image
      ensures view.KeepsInput(old(view.mouseDown), old(view.listening), old(view.image), old(view.alternateImage))
    {
      view.SetHighlighted(!view.isHighlighted);
      if view.isHighlighted {
        panel.OpenPanel(anchorX, screenRight);
      } else {
        panel.ClosePanel();
      }
    }

    /** The mouse is released over the status item; a click reaches
        `OnStatusItemClicked`. */
    method MouseUp(anchorX: int, screenRight: int) returns (clicked: bool)
      requires Valid()
      modifies view, panel
      ensures Valid()
      ensures clicked == old(view.mouseDown) && !view.mouseDown
      ensures view.image == old(view.image) && view.alternateImage == old(view.alternateImage)
      ensures clicked ==> view.isHighlighted == !old(view.isHighlighted) && panel.isOpen == view.isHighlighted
      ensures !clicked ==> view.isHighlighted == old(view.isHighlighted) && panel.isOpen == old(panel.isOpen)
    {
      clicked := view.MouseUp();
      if clicked {
        OnStatusItemClicked(anchorX, screenRight);
      }
    }

    /** The `PanelController` setter. Assigning the current panel does
        nothing. Otherwise the old panel is closed and unlinked, and the new
        one is linked to the view and to this, then opened. */
    method SetPanelController(value: PanelController, anchorX: int, screenRight: int)
      requires Valid()
      modifies this`panel, panel, value, view
      ensures Valid() && panel == value
      ensures view.KeepsInput(old(view.mouseDown), old(view.listening), old(view.image), old(view.alternateImage))
      ensures value == old(panel) ==> unchanged(this, value, view)
      ensures value != old(panel) ==>
                && !old(panel).isOpen
                && old(panel).statusItemView == null
                && old(panel).statusController == null
      ensures value != old(panel) && !old(value.isOpen) ==> value.isOpen && view.isHighlighted
      ensures value != old(panel) && old(value.isOpen) ==>
                value.isOpen && view.isHighlighted == (!old(panel.isOpen) && old(view.isHighlighted))
    {
      if panel == value {
        return;
      }
      var previous := panel;
      previous.ClosePanel();
      previous.statusItemView := null;
      previous.statusController := null;
      panel := value;
      value.statusItemView := view;
      value.statusController := this;
      value.OpenPanel(anchorX, screenRight);
    }

    /** Removes the status item from the menu bar, once. */
    method Dispose()
      requires Valid()
      modifies this`hasStatusItem, this`removals, this`disposed
      ensures Valid()
      ensures disposed && !hasStatusItem && removals == 1
      ensures old(disposed) ==> unchanged(this)
    {
      if disposed {
        return;
      }
      if hasStatusItem {
        removals := removals + 1;
        hasStatusItem := false;
      }
      disposed := true;
    }
  }
}
