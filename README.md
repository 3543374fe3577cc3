# Aquiss usage checker: a Dafny model of its logic

AquissUsageChecker is a macOS menu-bar application. It asks the Aquiss usage
service for an account's broadband usage every 30 minutes and shows it in a
panel that drops down from a status-bar icon. Most of it is AppKit glue. This
project models the parts that have logic of their own:

- **Settings store** (`Settings.dfy`, module `SettingsManager`). This is the
  flat key/value table held as child elements of one `settings` XML element.
  `SetSetting` updates the first element with that name or appends a new one.
  `GetSetting` returns the first element's text, or `""` when there is none.
  The class `SettingsStore` holds the elements as a sequence. Pure functions
  (`FindElement`, `Lookup`, `Store`, `AsMap`) specify it, and lemmas prove the
  store behaves as a dictionary.
- **Unix timestamps** (`Timestamps.dfy`, module `UsefulExtensions`). A .NET
  `DateTime` is modelled as a tick count (100 ns units since year 1) plus a
  kind. `AddSeconds` is modelled with its range checks, `ToLocalTime` and
  `ToUniversalTime` with the time zone passed in, and `ToTimestamp` with its
  truncation toward zero.
- **Usage checker** (`UsageChecker.dfy`, module `UsageChecking`). This covers
  the reply record, the service's success/failure dispatch rule,
  `CreateUsageInformation`, and the `UsageChecker` object. The object holds the
  cached snapshot, the timer flag, the requests it has sent and the events it
  has raised. Each completed request is one step (`RequestCompleted`),
  specified by the pure function `Fetch`.
- **Login panel** (`LoginPanel.dfy`). A stored allowance such as `"30"` is
  shown as the pop-up title `"30 GB"` and saved back by dropping the last three
  characters. The panel looks the title up in the fixed option list, saves the
  settings in `OnLoggedIn`, and runs the two halves of `LoginClicked` (click,
  then validation reply).
- **Status item and panels** (`StatusPanel.dfy`). This covers the status
  item's press/release click detector, the highlight and icon setters, the
  panel controllers' idempotent open and close, the right-edge clamp, and the
  controller that swaps panels and disposes of the status item.

`Wrappers.dfy` holds `Option` (a C# null) and `Result` (a thrown exception).
`Strings.dfy` holds .NET's `char.IsWhiteSpace` and `string.IsNullOrWhiteSpace`.

No modelled code compares usage with the allowance or sends a notification,
and the only settings keys are `hashcode` and `allowance`; the model has no
usage thresholds or notifications either.

## Model

| member | source | states |
|---|---|---|
| `SettingsManager.FindElement` | AquissUsageChecker/Util/SettingsManager.cs:100 | The element lookup finds the first element with that name, or reports that no element has it. |
| `SettingsManager.Lookup` | AquissUsageChecker/Util/SettingsManager.cs:100-105 | GetSetting's value is `""` when no element has the key; otherwise it is the text of an element with that key. |
| `SettingsManager.Store` | AquissUsageChecker/Util/SettingsManager.cs:73-81 | SetSetting either keeps the element count or appends exactly the new element. |
| `SettingsManager.AsMap` | AquissUsageChecker/Util/SettingsManager.cs:100-105 | The dictionary view has exactly the keys that some element carries. |
| `SettingsManager.GetAfterSet` | AquissUsageChecker/Util/SettingsManager.cs:73-103 | After `SetSetting(k, v)`, `GetSetting(k)` returns `v`. |
| `SettingsManager.SetExistingInPlace` | AquissUsageChecker/Util/SettingsManager.cs:73-76 | Setting an existing key overwrites its first element in place and adds no element. |
| `SettingsManager.SetNewAppends` | AquissUsageChecker/Util/SettingsManager.cs:78-81 | Setting a new key appends exactly one element at the end. |
| `SettingsManager.SetLeavesOthers` | AquissUsageChecker/Util/SettingsManager.cs:73-81 | Setting one key leaves every other key's value unchanged. |
| `SettingsManager.SetKeepsKeysUnique` | AquissUsageChecker/Util/SettingsManager.cs:73-81 | One SetSetting keeps element names unique. |
| `SettingsManager.KeysStayUnique` | AquissUsageChecker/Util/SettingsManager.cs:73-81 | Any sequence of SetSetting calls keeps unique names unique (proved by induction). |
| `SettingsManager.FreshStoreStaysUnique` | AquissUsageChecker/Util/SettingsManager.cs:57-81 | Starting from the fresh `<settings/>` document, names never repeat. |
| `SettingsManager.LookupIsMap` | AquissUsageChecker/Util/SettingsManager.cs:96-106 | GetSetting is a dictionary lookup with `""` as default, first element winning. |
| `SettingsManager.StoreKeys` | AquissUsageChecker/Util/SettingsManager.cs:73-81 | After SetSetting(k, v) the names present are exactly the old names plus `k`. |
| `SettingsManager.StoreIsMapUpdate` | AquissUsageChecker/Util/SettingsManager.cs:69-85 | SetSetting is a dictionary update, even on a document with repeated names. |
| `SettingsManager.SettingsStore.constructor` | AquissUsageChecker/Util/SettingsManager.cs:57-60 | The store holds the loaded file's elements, or none when there is no file. |
| `SettingsManager.SettingsStore.GetSetting` | AquissUsageChecker/Util/SettingsManager.cs:96-107 | The value is the dictionary entry for the key, or `""` when the key has no element. |
| `SettingsManager.SettingsStore.SetSetting` | AquissUsageChecker/Util/SettingsManager.cs:69-85 | The new elements are `Store(old, k, v)`. The dictionary gains `k := v`, no other key changes, and the saved copy equals memory. |
| `UsefulExtensions.AddSeconds` | AquissUsageChecker/Util/UsefulExtensions.cs:38-52 | `DateTime.AddSeconds` on whole seconds succeeds exactly when the shifted tick count stays within 0001-01-01 and 9999-12-31, and keeps the kind. |
| `UsefulExtensions.MillisCheckIsRedundant` | AquissUsageChecker/Util/UsefulExtensions.cs:38-52 | The millisecond bound of `AddSeconds` never rejects a whole number of seconds that the tick range accepts: `AddSeconds` is `AddTicks` of the seconds in ticks. |
| `UsefulExtensions.ToDateTime` | AquissUsageChecker/Util/UsefulExtensions.cs:36-39 | The `int` overload never throws and gives the UTC instant `t` seconds after the epoch. |
| `UsefulExtensions.ToDateTimeInt64` | AquissUsageChecker/Util/UsefulExtensions.cs:50-53 | The `Int64` overload succeeds exactly for `t` between -62135596800 and 253402300799. It then gives the UTC instant `t` seconds after the epoch. |
| `UsefulExtensions.ToLocalTime` | AquissUsageChecker/UsageChecker.cs:178-179 | Converting to local time always yields a local-kind value. |
| `UsefulExtensions.ToUniversalTime` | AquissUsageChecker/Util/UsefulExtensions.cs:80 | Converting to UTC always yields a UTC-kind value. |
| `UsefulExtensions.TruncatedSeconds` | AquissUsageChecker/Util/UsefulExtensions.cs:81 | A tick count becomes whole seconds rounded toward zero, bounded within one second on the side of zero. |
| `UsefulExtensions.ToTimestamp` | AquissUsageChecker/Util/UsefulExtensions.cs:78-82 | The timestamp always lies in the range `ToDateTime(Int64)` accepts. It is the value's UTC form, less the epoch, in whole seconds toward zero; the kind test is the same as always calling `ToUniversalTime`. |
| `UsefulExtensions.WholeSecondRoundTrip` | AquissUsageChecker/Util/UsefulExtensions.cs:50-82 | A UTC value on a whole second comes back unchanged from `ToDateTime(ToTimestamp(d))`. |
| `UsefulExtensions.EpochIsZero` | AquissUsageChecker/Util/UsefulExtensions.cs:25-53 | Timestamp 0 is 1970-01-01T00:00:00 UTC, for both overloads. |
| `UsefulExtensions.OverloadsAgree` | AquissUsageChecker/Util/UsefulExtensions.cs:36-53 | The `int` and `Int64` overloads agree on every 32-bit value. |
| `UsefulExtensions.ToDateTimeIsMonotonic` | AquissUsageChecker/Util/UsefulExtensions.cs:50-53 | A later timestamp gives a strictly later instant. |
| `UsefulExtensions.RoundTrip` | AquissUsageChecker/Util/UsefulExtensions.cs:50-82 | `ToTimestamp(ToDateTime(t)) == t` for every in-range `Int64`, whatever the time zone, in exact arithmetic; the source's `double` agrees up to t = 115292150460 (see "Left out"). |
| `UsefulExtensions.RoundTripInt32` | AquissUsageChecker/Util/UsefulExtensions.cs:36-82 | `ToTimestamp(ToDateTime(t)) == t` for every `int`. |
| `UsefulExtensions.UtcIgnoresZone` | AquissUsageChecker/Util/UsefulExtensions.cs:80 | A UTC value is used as it is; the time zone plays no part. |
| `UsefulExtensions.NonUtcConvertedFirst` | AquissUsageChecker/Util/UsefulExtensions.cs:80 | A local or unspecified value is converted to UTC first. |
| `UsefulExtensions.TruncatesTowardZero` | AquissUsageChecker/Util/UsefulExtensions.cs:81 | A fraction of a second is dropped toward zero. After 1970 the timestamp rounds down; before 1970 it rounds up. |
| `UsefulExtensions.LocalRoundTrip` | AquissUsageChecker/Util/UsefulExtensions.cs:78-82 | A UTC instant shown in local time maps back to the same timestamp, provided the zone gives the same offset for the local reading and the shift stays in range; exact arithmetic, as for `RoundTrip`. |
| `UsageChecking.CreateUsageInformation` | AquissUsageChecker/UsageChecker.cs:168-181 | The result is null exactly when `Response` is not `"Valid"`. It throws exactly when the reply is valid and a timestamp is out of range. Otherwise total/off-peak/peak are copied unchanged and both dates are local. |
| `UsageChecking.DatesIgnoreDisplayText` | AquissUsageChecker/UsageChecker.cs:178-179 | The en-GB date strings do not affect the snapshot. |
| `UsageChecking.DatesComeFromTimestamps` | AquissUsageChecker/UsageChecker.cs:178-179 | The snapshot's start and end dates denote the reply's two Unix timestamps. This holds when the zone reads local time back to the same offset; exact arithmetic, as for `RoundTrip`. |
| `UsageChecking.ValidReplyReplacesCache` | AquissUsageChecker/UsageChecker.cs:117-123 | A delivered `"Valid"` reply replaces the cache with exactly the snapshot `CreateUsageInformation` builds from it (figures and dates) and raises `UsageUpdated` with it. |
| `UsageChecking.InvalidReplyClearsCache` | AquissUsageChecker/UsageChecker.cs:124-130 | A delivered non-`"Valid"` reply clears the cache. It alerts "Invalid Hash Code" exactly once, and `UsageUpdated(null)` comes last. |
| `UsageChecking.TransportFailureKeepsCache` | AquissUsageChecker/UsageChecker.cs:131 | A transport failure alerts the service's error text (null read as empty). The cache is unchanged and no `UsageUpdated` is raised. |
| `UsageChecking.EveryReplyNotifiesOnce` | AquissUsageChecker/UsageChecker.cs:97-130 | Every delivered reply raises `UsageUpdated` exactly once, carrying the value now cached. |
| `UsageChecking.TransportSucceeded` | AquissUsageChecker/Service/AquissService.cs:55 | The success callback runs when there is no exception and the error text is null, empty or white space; any exception, or an error text with a visible character, sends the reply to the failure callback. |
| `UsageChecking.ValidateHashCode` | AquissUsageChecker/UsageChecker.cs:107-110 | Validation passes exactly when the reply reaches the success callback and `CreateUsageInformation` would not return null for it, in any time zone. |
| `UsageChecking.Fetch` | AquissUsageChecker/UsageChecker.cs:117-131 | Whenever a completed request changes the cached usage, listeners get a `UsageUpdated` with the new value, and no request raises more than one. |
| `UsageChecking.ValidationMatchesFetch` | AquissUsageChecker/UsageChecker.cs:107-131 | `ValidateHashCode` passes true exactly when a fetch with the same reply alerts nothing. |
| `UsageChecking.UsageChecker.constructor` | AquissUsageChecker/UsageChecker.cs:62-68 | A new checker has a running timer, no cached usage, and one request sent for its hash code. |
| `UsageChecking.UsageChecker.SetupAutoFetch` | AquissUsageChecker/UsageChecker.cs:70-77 | Afterwards a timer is running. |
| `UsageChecking.UsageChecker.StopAutoFetch` | AquissUsageChecker/UsageChecker.cs:79-86 | Afterwards no timer exists. With none to begin with, nothing changes. |
| `UsageChecking.UsageChecker.Dispose` | AquissUsageChecker/UsageChecker.cs:154-158 | Dispose is idempotent and leaves no timer. |
| `UsageChecking.UsageChecker.UpdateUsageInformation` | AquissUsageChecker/UsageChecker.cs:115-117 | It sends exactly one request, with the checker's hash code. |
| `UsageChecking.UsageChecker.TimerElapsed` | AquissUsageChecker/UsageChecker.cs:74-76 | A timer tick, which happens only while the timer exists, sends one request. |
| `UsageChecking.UsageChecker.RequestCompleted` | AquissUsageChecker/UsageChecker.cs:115-131 | The cache and the raised events follow `Fetch`. A transport failure keeps the cache, and a delivered invalid reply clears it. |
| `LoginPanel.IndexOf` | AquissUsageChecker/LoginPanel/LoginPanelController.cs:81 | `IndexOf` gives the first position holding the string, and -1 exactly when the string is absent. |
| `LoginPanel.AllowanceTitle` | AquissUsageChecker/LoginPanel/LoginPanelController.cs:80-90 | The title `Initialize` builds (line 80) is taken back to the same allowance by `OnLoggedIn`'s `Substring(0, Length - 3)` (line 90), for every allowance. |
| `LoginPanel.StripSuffix` | AquissUsageChecker/LoginPanel/LoginPanelController.cs:90 | `Substring(0, Length - 3)` succeeds exactly for titles of length 3 or more. The result plus the last three characters is the title. |
| `LoginPanel.TitleUndoesStrip` | AquissUsageChecker/LoginPanel/LoginPanelController.cs:89-90 | A title ending in `" GB"` is rebuilt from its stripped value. |
| `LoginPanel.TitlesAreAllowances` | AquissUsageChecker/LoginPanel/LoginPanelController.cs:42 | Every option ends with `" GB"`, and stripping it gives `"3"`, `"30"`, `"60"` or `"90"`. |
| `LoginPanel.TitleListedIffAllowance` | AquissUsageChecker/LoginPanel/LoginPanelController.cs:42-81 | The title of a stored allowance is among the four options exactly when the allowance is `"3"`, `"30"`, `"60"` or `"90"`. |
| `LoginPanel.SelectionFor` | AquissUsageChecker/LoginPanel/LoginPanelController.cs:78-82 | A blank stored allowance leaves the list untouched. Any other value selects the index of its title, which is -1 exactly when the value is not one of the four. |
| `LoginPanel.SavedAllowance` | AquissUsageChecker/LoginPanel/LoginPanelController.cs:89-90 | With an item selected, the saved allowance is one of the four and its title is the selected one. With none selected, `SelectedItem` is null. |
| `LoginPanel.AllowanceRoundTrip` | AquissUsageChecker/LoginPanel/LoginPanelController.cs:78-90 | Saved value → selected title → saved value gives back the same allowance. |
| `LoginPanel.UnknownAllowanceDeselects` | AquissUsageChecker/LoginPanel/LoginPanelController.cs:80-89 | An unknown non-blank allowance selects -1, and logging in from there finds no selected item. |
| `LoginPanel.LoginPanelController.constructor` | AquissUsageChecker/LoginPanel/LoginPanelController.cs:70-83 | `Initialize` shows the stored hash code and selects the stored allowance, but only for values that are not blank. |
| `LoginPanel.LoginPanelController.OnLoggedIn` | AquissUsageChecker/LoginPanel/LoginPanelController.cs:87-98 | It saves the hash code and the stripped allowance, so both read back, then raises `LoggedIn` with that hash code; the file on disk then equals the store. With nothing selected it saves, writes and raises nothing. |
| `LoginPanel.LoginPanelController.LoginClicked` | AquissUsageChecker/LoginPanel/LoginPanelController.cs:105-111 | The spinner starts, the button is disabled, and the field's text is sent for validation. |
| `LoginPanel.LoginPanelController.LoginCompleted` | AquissUsageChecker/LoginPanel/LoginPanelController.cs:111-124 | The spinner stops and the button is re-enabled on either outcome. Failure alerts and saves nothing. On success the store becomes the field's current text under `hashcode` and the selected allowance under `allowance`, with no other key changed, and `LoggedIn` carries that text; with nothing selected, nothing is saved or raised. The file is rewritten exactly when something is saved. |
| `LoginPanel.LoginPanelController.LoginCompletedValidatedCode` | AquissUsageChecker/LoginPanel/LoginPanelController.cs:92-124 | This is the corrected completion. It behaves like `LoginCompleted`, but on success the saved and announced hash code is the one that was validated; with nothing selected, nothing is saved or raised, and the file is rewritten exactly when something is saved. |
| `LoginPanel.EditDuringValidation` | AquissUsageChecker/LoginPanel/LoginPanelController.cs:111-120 | As written, editing the field during validation saves a hash code that differs from the validated one. |
| `LoginPanel.EditDuringValidationCorrected` | AquissUsageChecker/LoginPanel/LoginPanelController.cs:92-93 | With the correction, the same session saves the validated hash code. |
| `StatusPanel.Respond` | AquissUsageChecker/StatusPanel/StatusItemView.cs:102-117 | An event raises `StatusItemClicked` exactly when it is a release after a press with a listener attached; afterwards the item counts as pressed exactly when the event was a press. |
| `StatusPanel.PressReleaseClicksOnce` | AquissUsageChecker/StatusPanel/StatusItemView.cs:102-117 | A press and a release make one click (with a listener), a second release makes none, and a release alone makes none. |
| `StatusPanel.ClicksNeedPresses` | AquissUsageChecker/StatusPanel/StatusItemView.cs:102-117 | Over any run of mouse events, clicks never exceed releases, nor presses (plus one if already pressed). One press yields at most one click. |
| `StatusPanel.NoListenerNoClicks` | AquissUsageChecker/StatusPanel/StatusItemView.cs:113-114 | With no listener attached, no click is raised. |
| `StatusPanel.ClampToScreen` | AquissUsageChecker/StatusPanel/PanelController.cs:160-161 | After the clamp, the right edge is at most the screen's right edge minus `ArrowHeight`. A panel that fits is not moved; one that does not is moved left just far enough. |
| `StatusPanel.StatusItemView.constructor` | AquissUsageChecker/StatusPanel/StatusItemView.cs:35-40 | A new view is not pressed, not highlighted, has no icons and no listener. |
| `StatusPanel.StatusItemView.SetImage` | AquissUsageChecker/StatusPanel/StatusItemView.cs:45-53 | Setting `Image` always stores it and requests a redraw. |
| `StatusPanel.StatusItemView.SetAlternateImage` | AquissUsageChecker/StatusPanel/StatusItemView.cs:56-64 | Setting `AlternateImage` always stores it and requests a redraw. |
| `StatusPanel.StatusItemView.SetHighlighted` | AquissUsageChecker/StatusPanel/StatusItemView.cs:75-86 | Setting the current value changes nothing, redraw flag included. A new value is stored and requests a redraw. |
| `StatusPanel.StatusItemView.MouseDown` | AquissUsageChecker/StatusPanel/StatusItemView.cs:102-107 | A press sets the pressed flag, as the click detector says. |
| `StatusPanel.StatusItemView.MouseUp` | AquissUsageChecker/StatusPanel/StatusItemView.cs:109-117 | A release clicks exactly when pressed with a listener attached, and it always clears the pressed flag. |
| `StatusPanel.PanelController.Create` | AquissUsageChecker/StatusPanel/PanelController.cs:68-74 | Construction throws unless the window is a `Panel` and the background view exists; each case has its own message. |
| `StatusPanel.PanelController.OpenPanel` | AquissUsageChecker/StatusPanel/PanelController.cs:148-197 | On an open panel, nothing changes. A closed panel opens, highlights the status item, and is placed by the clamp. |
| `StatusPanel.PanelController.ClosePanel` | AquissUsageChecker/StatusPanel/PanelController.cs:202-215 | On a closed panel, nothing changes. An open panel closes and clears the highlight. |
| `StatusPanel.PanelController.WindowWillClose` | AquissUsageChecker/StatusPanel/PanelController.cs:83 | When the window closes, the panel closes. |
| `StatusPanel.PanelController.WindowDidResignKey` | AquissUsageChecker/StatusPanel/PanelController.cs:84-88 | Losing key status closes the panel only when the window is visible. |
| `StatusPanel.StatusPanelController.constructor` | AquissUsageChecker/StatusPanel/StatusPanelController.cs:46-58 | The view gets both icons and a click listener. The initial panel is linked to the view and back to this controller. |
| `StatusPanel.StatusPanelController.ResetIcon` | AquissUsageChecker/StatusPanel/StatusPanelController.cs:62-65 | The plain icon is put back and a redraw requested. |
| `StatusPanel.StatusPanelController.OnStatusItemClicked` | AquissUsageChecker/StatusPanel/StatusPanelController.cs:113-121 | The highlight flips. Afterwards the panel is open exactly when the item is highlighted, whatever the state before. The icon `DrawRect` draws (lines 92-95 of StatusItemView.cs) is then "StatusHighlighted.png" while the panel is open and the plain image while it is closed. |
| `StatusPanel.StatusPanelController.MouseUp` | AquissUsageChecker/StatusPanel/StatusPanelController.cs:55 | A release after a press reaches the click handler. Any other release changes neither highlight nor panel. The icons are never changed. |
| `StatusPanel.StatusPanelController.SetPanelController` | AquissUsageChecker/StatusPanel/StatusPanelController.cs:94-111 | Re-assigning the current panel is a no-op. Otherwise the old panel is closed and unlinked, and the new one is linked to the view and this controller, then opened. The view's icons, pressed flag and listener are never changed. |
| `StatusPanel.StatusPanelController.Dispose` | AquissUsageChecker/StatusPanel/StatusPanelController.cs:125-155 | Dispose is idempotent. The status item is removed exactly once and then gone. |

## Findings

| source | as written | input that shows it | evidently intended | confidence | as-written member | corrected member |
|---|---|---|---|---|---|---|
| AquissUsageChecker/LoginPanel/LoginPanelController.cs:111-120 | The field's text is validated when Login is clicked, but `OnLoggedIn` re-reads `HashCode.StringValue` when the reply arrives. Only the button is disabled, so the field can still be edited. | Type `valid-code`, click Login, change the field to `edited` before the reply. The reply accepts `valid-code`, yet `edited` is saved and announced. | Save the hash code that was validated ("Save verified valid login details"). | medium; not executed | `LoginPanel.EditDuringValidation` (via `LoginPanelController.LoginCompleted`) | `LoginPanel.LoginPanelController.LoginCompletedValidatedCode`, `LoginPanel.EditDuringValidationCorrected` |

## Left out

- Settings file I/O is not modelled: the folder and file creation, XML load and save, and the lock. The saved copy is a ghost field set on each `SetSetting`.
- Element names are not checked. `XElement` rejects names that are not valid XML names; the application only uses `hashcode` and `allowance`.
- `ToTimestamp` computes whole seconds exactly. The source truncates the `double` `TotalSeconds`. From about t = 9×10⁸ (mid-1998) on, and likewise before 1941, a fraction one or two ticks short of the next second rounds up there: t = 1700000000 plus 9999999 ticks gives 1700000001, where the model gives 1700000000. Once the tick count no longer fits a `double`'s 53-bit significand (t ≥ 115292150461, around the year 5623), whole seconds are lost as well: t = 115292150461 gives 1152921504610000000 ticks, which becomes the `double` 1152921504609999872, and `ToTimestamp` returns 115292150460.
- `RoundTrip`: holds for the model's exact arithmetic on the whole `DateTime` range; the source's `double` arithmetic matches it only for t ≤ 115292150460, and drops a second for some larger t (115292150461 → 115292150460).
- `LocalRoundTrip`: the same limit as `RoundTrip`.
- `DatesComeFromTimestamps`: the same limit as `RoundTrip`, for timestamps in a reply after the year 5623.
- `WholeSecondRoundTrip`: the same limit as `RoundTrip`; the source loses a second for some whole-second dates with t ≥ 115292150461.
- `TruncatesTowardZero`: holds for the model's exact arithmetic only; for |t| above about 9×10⁸ the source's `double` rounds a fraction one or two ticks short of the next second up (1700000000 plus 9999999 ticks gives 1700000001).
- The `double` overload of `ToDateTime` is floating point and is not modelled.
- `AddSeconds` is modelled only on whole seconds, as both integer overloads call it.
- The time zone behind `ToLocalTime`/`ToUniversalTime` is a parameter: two offset functions. Out-of-range results are clamped.
- Threading is left out: the timer thread, the lock around the cache, `NSAutoreleasePool`, and `InvokeOnMainThread`/`BeginInvokeOnMainThread`. Each callback is one atomic step, and events are logged in call order.
- Alerts (`NSAlert`) are logged as their text.
- `CreateUsageInformation` throws on an out-of-range `Int64` timestamp. The model stops that callback with nothing changed. What RestSharp's callback thread then does with the exception is not modelled.
- The HTTP client and RestSharp's parsing are not modelled. A completed request is an input: the error text, an exception flag and the parsed reply.
- Usage figures are `float` in the source and `real` here. They are only copied.
- `OnLoggedIn` with nothing selected throws on a null `SelectedItem`. The model saves and raises nothing; what happens after the throw is not modelled.
- `WhatIsHashCodeClicked` and `QuitClicked` only show an alert or raise an event, and are not modelled.
- `LoginPanelController` inherits from `PanelController` in the source. Here the login logic is its own class, and opening/closing is modelled once, in `PanelController`.
- Geometry is not modelled: the panel's unclamped X (rounded float arithmetic), `StatusRectForWindow`, `GlobalRect`, `HandleWindowDidResize`, icon centring and the open/close animation. `OpenPanel` takes the unclamped X and the screen's right edge as integers.
- `Window.IsVisible` is an AppKit state, passed to `WindowDidResignKey`.
- `StatusPanel.PanelController.Create`: the window styling and event hookup after validation are not modelled.
- `SetPanelController` to a panel that is already open leaves it open with the highlight possibly cleared. The contract states this case. The application only ever passes freshly created, closed panels.
- Not modelled: `TintIcon` (CoreImage), `ImageUtil` and `ImageExtensions` (floating-point colour and image code), `BackgroundView` drawing, and keychain access in `Auth`.
- Not modelled: the usage panel's label formatting, and the application delegate's wiring of panels and checker.
