/** The login panel: it asks for the account's hash code and the monthly
    allowance, validates the hash code with the usage service, and saves
    both settings. The allowance is stored as a bare number ("30") and shown
    in a pop-up list as a title ("30 GB"). */
module LoginPanel {
  import opened Wrappers
  import opened Strings
  import opened SettingsManager
  import opened UsageChecking

  /** The titles of the allowance pop-up list. */
  const UsageStrings: seq<string> := ["3 GB", "30 GB", "60 GB", "90 GB"]
  const Suffix: string := " GB"
  /** The allowances the list can save. */
  const Allowances: seq<string> := ["3", "30", "60", "90"]

  const IncorrectHashCodeText: string :=
    "The Hash Code you entered is incorrect, please double-check the code you entered."

  /** Exceptions the panel's code can throw. */
  datatype Error = ArgumentOutOfRange | NullReference

  /** `IList<string>.IndexOf`: the first position holding `s`, or -1. */
  function IndexOf(options: seq<string>, s: string): (i: int)
    ensures -1 <= i < |options|
    ensures 0 <= i ==> options[i] == s && forall j :: 0 <= j < i ==> options[j] != s
    ensures i == -1 <==> s !in options
  {
    if |options| == 0 then -1
    else if options[0] == s then 0
    else
      var rest := IndexOf(options[1..], s);
      assert options == [options[0]] + options[1..];
      if rest == -1 then -1 else rest + 1
  }

  /** `Substring(0, Length - 3)`: the title without its last three
      characters; a title shorter than that makes `Substring` throw. */
  function StripSuffix(title: string): (r: Result<string, Error>)
    ensures r.Ok? <==> |title| >= 3
    ensures r.Ok? ==> |r.value| == |title| - 3 && title == r.value + title[|title| - 3..]
  {
    if |title| < 3 then Err(ArgumentOutOfRange)
    else Ok(title[..|title| - 3])
  }

  /** The title shown for a stored allowance; `OnLoggedIn`'s `Substring`
      takes it back to that allowance. */
  function AllowanceTitle(allowance: string): (title: string)
    ensures StripSuffix(title) == Ok(allowance)
  {
    var title := allowance + Suffix;
    assert title[..|title| - 3] == allowance;
    title
  }

  lemma TitleUndoesStrip(title: string)
    requires |title| >= 3 && title[|title| - 3..] == Suffix
    ensures AllowanceTitle(StripSuffix(title).value) == title
  {
  }

  lemma TitleIsInjective(a: string, b: string)
    requires AllowanceTitle(a) == AllowanceTitle(b)
    ensures a == b
  {
  }

  /** Every title ends with " GB", and stripping it gives the allowance at the
      same position: the list can only ever save "3", "30", "60" or "90". */
  lemma TitlesAreAllowances()
    ensures |UsageStrings| == |Allowances|
    ensures forall i :: 0 <= i < |UsageStrings| ==>
              && UsageStrings[i][|UsageStrings[i]| - 3..] == Suffix
              && StripSuffix(UsageStrings[i]) == Ok(Allowances[i])
              && UsageStrings[i] == AllowanceTitle(Allowances[i])
  {
    forall i | 0 <= i < |UsageStrings|
      ensures UsageStrings[i] == AllowanceTitle(Allowances[i])
      ensures StripSuffix(UsageStrings[i]) == Ok(Allowances[i])
    {
      assert UsageStrings[i] == Allowances[i] + Suffix;
    }
  }

  lemma TitleListedIffAllowance(allowance: string)
    ensures AllowanceTitle(allowance) in UsageStrings <==> allowance in Allowances
  {
    TitlesAreAllowances();
    if AllowanceTitle(allowance) in UsageStrings {
      var i :| 0 <= i < |UsageStrings| && UsageStrings[i] == AllowanceTitle(allowance);
      TitleIsInjective(allowance, Allowances[i]);
    }
  }

  /** `Initialize`'s choice for the pop-up list: a blank stored allowance
      leaves the list alone (`None`); otherwise the position of its title, or
      -1 (no selection) when that title is not in the list. */
  function SelectionFor(stored: string): (r: Option<int>)
    ensures IsBlank(stored) <==> r == None
    ensures r.Some? ==> -1 <= r.value < |UsageStrings|
    ensures r.Some? && 0 <= r.value ==> UsageStrings[r.value] == AllowanceTitle(stored)
    ensures r.Some? ==> (r.value == -1 <==> stored !in Allowances)
  {
    TitleListedIffAllowance(stored);
    if IsBlank(stored) then None
    else Some(IndexOf(UsageStrings, AllowanceTitle(stored)))
  }

  /** The allowance `OnLoggedIn` saves for a selection: the selected title
      without its suffix; with nothing selected, `SelectedItem` is null. */
  function SavedAllowance(selected: int): (r: Result<string, Error>)
    requires -1 <= selected < |UsageStrings|
    ensures selected == -1 <==> r == Err(NullReference)
    ensures r.Ok? ==> r.value in Allowances && AllowanceTitle(r.value) == UsageStrings[selected]
  {
    TitlesAreAllowances();
    if selected == -1 then Err(NullReference)
    else StripSuffix(UsageStrings[selected])
  }

  /** A saved allowance selects its own title, which saves it again. */
  lemma AllowanceRoundTrip(stored: string)
    requires stored in Allowances
    ensures SelectionFor(stored).Some?
    ensures SavedAllowance(SelectionFor(stored).value) == Ok(stored)
  {
    assert stored == "3" || stored == "30" || stored == "60" || stored == "90";
    assert !IsWhiteSpace(stored[0]);
    var i := SelectionFor(stored).value;
    TitleIsInjective(SavedAllowance(i).value, stored);
  }

  /** A non-blank allowance that is not one of the four clears the selection,
      and logging in from there finds no selected item. */
  lemma UnknownAllowanceDeselects(stored: string)
    requires !IsBlank(stored) && stored !in Allowances
    ensures SelectionFor(stored) == Some(-1)
    ensures SavedAllowance(-1) == Err(NullReference)
  {
  }

  /** The controller's state: the controls it reads and writes, the settings
      store, and the events and alerts it has raised. */
  class LoginPanelController {
    const settings: SettingsStore
    /** `HashCode.StringValue`, the text field the user types into. */
    var hashCodeText: string
    /** `AllowancePopup`'s selected position, -1 when nothing is selected. */
    var selectedIndex: int
    /** `ViewUsageButton.Enabled`. */
    var buttonEnabled: bool
    /** Whether `ActivityIndicator` is animating. */
    var spinning: bool
    /** The hash code sent for validation whose reply is awaited. */
    var validating: Option<string>
    /** The hash codes carried by the `LoggedIn` events raised. */
    var loggedIn: seq<string>
    /** The texts of the alerts shown. */
    var alerts: seq<string>

    ghost predicate Valid()
      reads this
    {
      -1 <= selectedIndex < |UsageStrings|
    }

    /** Loads the panel (with the text and selection it starts with) and runs
        `Initialize`: each stored setting that is not blank is shown. */
    constructor (settings: SettingsStore, text: string, selection: int)
      requires -1 <= selection < |UsageStrings|
      ensures Valid() && this.settings == settings
      ensures var stored := settings.GetSetting(KeyHashCode);
              hashCodeText == if IsBlank(stored) then text else stored
      ensures selectedIndex == match SelectionFor(settings.GetSetting(KeyAllowance))
                               case None => selection
                               case Some(i) => i
      ensures buttonEnabled && !spinning && validating == None
      ensures loggedIn == [] && alerts == []
    {
      this.settings := settings;
      var hashCode := settings.GetSetting(KeyHashCode);
      var usage := settings.GetSetting(KeyAllowance);
      hashCodeText := if IsBlank(hashCode) then text else hashCode;
      var selected := SelectionFor(usage);
      selectedIndex := if selected.Some? then selected.value else selection;
      buttonEnabled := true;
      spinning := false;
      validating := None;
      loggedIn := [];
      alerts := [];
    }

    /** The user edits the hash code field. */
    method EditHashCode(text: string)
      modifies this`hashCodeText
      ensures hashCodeText == text
    {
      hashCodeText := text;
    }

    /** The user picks an allowance from the list. */
    method SelectAllowance(index: int)
      requires 0 <= index < |UsageStrings|
      modifies this`selectedIndex
      ensures selectedIndex == index
    {
      selectedIndex := index;
    }

    /** `OnLoggedIn`: saves the hash code and the selected allowance, then
        raises `LoggedIn` with that hash code. With nothing selected the
        first line throws and nothing is saved or raised. */
    method OnLoggedIn(hashCode: string) returns (ok: bool)
      requires Valid()
      modifies settings, this`loggedIn
      ensures ok <==> selectedIndex != -1
      ensures !ok ==> settings.elements == old(settings.elements) && loggedIn == old(loggedIn)
      ensures ok ==> (settings.elements ==
                Store(Store(old(settings.elements), KeyHashCode, hashCode), KeyAllowance, SavedAllowance(selectedIndex).value))
      ensures ok ==> settings.GetSetting(KeyHashCode) == hashCode
      ensures ok ==> settings.GetSetting(KeyAllowance) == SavedAllowance(selectedIndex).value
      ensures ok ==> AllowanceTitle(settings.GetSetting(KeyAllowance)) == UsageStrings[selectedIndex]
      ensures ok ==> loggedIn == old(loggedIn) + [hashCode]
      ensures ok ==> settings.persisted == Some(settings.elements)
      ensures !ok ==> settings.persisted == old(settings.persisted)
    {
      var allowance := SavedAllowance(selectedIndex);
      if allowance.Err? {
        return false;
      }
      settings.SetSetting(KeyHashCode, hashCode);
      settings.SetSetting(KeyAllowance, allowance.value);
      loggedIn := loggedIn + [hashCode];
      ok := true;
    }

    /** `LoginClicked`: starts the spinner, disables the button and sends the
        text of the hash code field for validation. */
    method LoginClicked() returns (sent: string)
      modifies this`spinning, this`buttonEnabled, this`validating
      ensures spinning && !buttonEnabled
      ensures sent == hashCodeText && validating == Some(sent)
    {
      spinning := true;
      buttonEnabled := false;
      validating := Some(hashCodeText);
      sent := hashCodeText;
    }

    /** The validation reply as the source handles it: spinner off, button on,
        then on success `OnLoggedIn` with the field's CURRENT text, otherwise
        an alert. */
    method LoginCompleted(resp: RestResponse)
      requires Valid()
      modifies this, settings
      ensures Valid() && !spinning && buttonEnabled && validating == None
      ensures hashCodeText == old(hashCodeText) && selectedIndex == old(selectedIndex)
      ensures !ValidateHashCode(resp) ==>
                && alerts == old(alerts) + [IncorrectHashCodeText]
                && loggedIn == old(loggedIn)
                && settings.elements == old(settings.elements)
      ensures ValidateHashCode(resp) ==> alerts == old(alerts)
      ensures ValidateHashCode(resp) ==>
                (settings.elements ==
                 if selectedIndex == -1 then old(settings.elements)
                 else Store(Store(old(settings.elements), KeyHashCode, hashCodeText),
                            KeyAllowance, SavedAllowance(selectedIndex).value))
      ensures ValidateHashCode(resp) && selectedIndex != -1 ==>
                && settings.GetSetting(KeyHashCode) == hashCodeText
                && settings.GetSetting(KeyAllowance) == SavedAllowance(selectedIndex).value
                && loggedIn == old(loggedIn) + [hashCodeText]
      ensures ValidateHashCode(resp) && selectedIndex == -1 ==> loggedIn == old(loggedIn)
      ensures ValidateHashCode(resp) && selectedIndex != -1 ==> settings.persisted == Some(settings.elements)
      ensures !(ValidateHashCode(resp) && selectedIndex != -1) ==> settings.persisted == old(settings.persisted)
    {
      spinning := false;
      buttonEnabled := true;
      validating := None;
      if ValidateHashCode(resp) {
        var _ := OnLoggedIn(hashCodeText);
      } else {
        alerts := alerts + [IncorrectHashCodeText];
      }
    }

    /** The validation reply handled as intended: what is saved and announced
        is the hash code that was validated, whatever the field holds now. */
    method LoginCompletedValidatedCode(resp: RestResponse)
      requires Valid() && validating.Some?
      modifies this, settings
      ensures Valid() && !spinning && buttonEnabled && validating == None
      ensures hashCodeText == old(hashCodeText) && selectedIndex == old(selectedIndex)
      ensures !ValidateHashCode(resp) ==>
                && alerts == old(alerts) + [IncorrectHashCodeText]
                && loggedIn == old(loggedIn)
                && settings.elements == old(settings.elements)
      ensures ValidateHashCode(resp) ==> alerts == old(alerts)
      ensures ValidateHashCode(resp) ==>
                (settings.elements ==
                 if selectedIndex == -1 then old(settings.elements)
                 else Store(Store(old(settings.elements), KeyHashCode, old(validating).value),
                            KeyAllowance, SavedAllowance(selectedIndex).value))
      ensures ValidateHashCode(resp) && selectedIndex != -1 ==>
                && settings.GetSetting(KeyHashCode) == old(validating).value
                && settings.GetSetting(KeyAllowance) == SavedAllowance(selectedIndex).value
                && loggedIn == old(loggedIn) + [old(validating).value]
      ensures ValidateHashCode(resp) && selectedIndex == -1 ==> loggedIn == old(loggedIn)
      ensures ValidateHashCode(resp) && selectedIndex != -1 ==> settings.persisted == Some(settings.elements)
      ensures !(ValidateHashCode(resp) && selectedIndex != -1) ==> settings.persisted == old(settings.persisted)
    {
      var sent := validating.value;
      spinning := false;
      buttonEnabled := true;
      validating := None;
      if ValidateHashCode(resp) {
        var _ := OnLoggedIn(sent);
      } else {
        alerts := alerts + [IncorrectHashCodeText];
      }
    }
  }

  /** A reply that accepts the hash code. */
  function AcceptingReply(): (resp: RestResponse)
    ensures ValidateHashCode(resp)
  {
    RestResponse(None, false, UsageReturnValue("1", "Valid", "", "", "", 0, 0, 0.0, 0.0, 0.0))
  }

  /** The user types a valid code, clicks, and edits the field before the
      reply arrives: the source saves the edited, never-validated text. */
  method EditDuringValidation() returns (validated: string, saved: string)
    ensures validated == "valid-code" && saved == "edited"
    ensures validated != saved
  {
    var store := new SettingsStore(None);
    var panel := new LoginPanelController(store, "", 0);
    panel.EditHashCode("valid-code");
    validated := panel.LoginClicked();
    panel.EditHashCode("edited");
    panel.LoginCompleted(AcceptingReply());
    saved := store.GetSetting(KeyHashCode);
  }

  /** The same session with the reply handled as intended. */
  method EditDuringValidationCorrected() returns (validated: string, saved: string)
    ensures validated == "valid-code" && saved == validated
  {
    var store := new SettingsStore(None);
    var panel := new LoginPanelController(store, "", 0);
    panel.EditHashCode("valid-code");
    validated := panel.LoginClicked();
    panel.EditHashCode("edited");
    panel.LoginCompletedValidatedCode(AcceptingReply());
    saved := store.GetSetting(KeyHashCode);
  }
}
