# dialog-manager overlay state machine, in Dafny

This project models the core of `src/DialogMgr.ts` of the dialog-manager
library. That file drives a single modal dialog overlay and one toast box on a
web page. Its module-level state has four parts:

- the active dialog slot: type, parameters and result;
- the overlay's display state: none, fadeIn, fadeOut or transparentOverlay;
- the delayed-display timer used by `showProgressInfo`;
- the toast's display state and timer.

The public functions `showFatalError`, `showProgressInfo`, `closeProgressInfo`,
`showMsg`, `promptConfirmation`, `promptInput` and `showToast` change that
state. So do the DOM event handlers (animation end, clicks on the overlay,
OK and Cancel, keydown, focusin) and the two timers.

The model has two layers.

- **DialogMachine** (`machine.dfy`) is the specification: a value `Mgr` that
  holds the whole module state, and one transition function per function of
  the source. The state is grouped into records:
  - `Slot`: the active dialog;
  - `Root`: the overlay's display state and its CSS classes;
  - `FrameView`: what the header, content and footer show;
  - `Focus`: the focus jail;
  - `Promises`: the promises handed out and the onClose log;
  - `Delayed`: the delayed-display timer;
  - `Toast`: the toast's state, timer, text and classes.

  An `Event` datatype and `Step`/`Run` replay any sequence of API calls, DOM
  events and timer expiries.
- **DialogMgr.DialogManager** (`manager.dfy`) is a class whose fields are those
  records. Its methods update the fields in place, statement by statement, in
  the order the source does. Each method is proved to produce exactly the
  machine's transition (`Snapshot() == M.X(old(Snapshot()), …)`). The public
  methods also keep `Valid()`, the machine invariant.

Promises are modelled as identifiers. `showMsg`, `promptConfirmation` and
`promptInput` each hand out the next number. `onClose(result)` appends
`Settled(id, result)` to a log, so "resolved exactly once, with this value" is
a statement about that log. Timers are modelled as pending slots: a
`DelayedTimerFires` or `ToastTimerFires` event runs the callback.

Supporting modules:

- `types.dfy` (DialogTypes): the value types;
- `messages.dfy` (Messages): the dialog-parameter builders
  (`getDialogParmsFromMsgParms` and the object literals of every public
  function), the toast duration default and the prompt's form processor;
- `jstext.dfy` (JsText): JavaScript's `String.prototype.trim`, with the white
  space and line terminator sets of ECMA-262, sections 12.2 and 12.3;
- `invariants.dfy` (DialogInvariants): the invariant and its preservation by
  every event;
- `dialog_properties.dfy` (DialogProperties): the behaviour of the handlers,
  the focus jail and the promises;
- `progress_properties.dfy` (ProgressProperties, ToastProperties): the
  delayed progress display, title memory and toast lifecycle.

The invariant `DialogMachine.Invariant` has six parts:

- the overlay's CSS classes match its display state, and the fadeOut class is
  present only with animation support; the toast's classes match in the same
  way;
- an active dialog still holds its default result (only the OK handler
  changes the result, and it then closes the dialog), and it is consistent
  with the frame the user sees: the shown buttons, the focused element, the
  wait cursor and the overlay state;
- a pending delayed display means no dialog is active, the overlay is
  transparent and the wait cursor is on;
- every promise in the log was handed out, and none is resolved twice;
- the active dialog's promise is still unresolved;
- no promise is lost: each one handed out is pending in the open dialog or
  has been resolved.

## Model

| member | source | states |
|---|---|---|
| DialogMachine.SetRootDisplay | src/DialogMgr.ts:74-79 | the overlay takes the new display state; each class matches it (fadeOut only with animation support); the wait cursor class is kept |
| DialogProperties.SetDisplayStateEffect | src/DialogMgr.ts:71-79 | before init, or when the state is already the requested one, nothing changes; otherwise only the overlay changes, it takes the new state, and the fadeOut class is on exactly when fading out with animation support |
| DialogMachine.AutoFocusElement | src/DialogMgr.ts:84-91 | the frame without parameters; otherwise the explicit element if one is given, else Cancel if shown, else OK if shown, else the frame (each case is an if-and-only-if) |
| DialogMgr.DialogManager.GetAutoFocusElement | src/DialogMgr.ts:84-91 | returns the machine's auto-focus choice for the active parameters and changes nothing |
| DialogMachine.CloseDialog | src/DialogMgr.ts:93-100 | a no-op before init or without an active dialog; otherwise the dialog becomes inactive, the overlay goes to fadeOut or none as `fade` says, the focus jail is released, and exactly the active dialog's onClose entry is appended with the current result; parameters, result, frame, timers, toast and wait cursor are untouched, and after a real close nothing else changes: the remembered progress title, the alert and promise counters, the last focused element, initDone and animation support stay as they were |
| DialogMachine.OpenModalDialog | src/DialogMgr.ts:115-126 | after the call init is done; the slot holds the new type, parameters and default result; the delayed timer is cleared; the overlay fades in; the wait cursor is on iff the dialog is a progress info; focus is jailed on the auto-focus element; the frame shows the header iff a non-empty title is given, the title text, the content, the width class, the footer iff a button is shown, and exactly the requested buttons; and the previous active dialog, if any, is resolved once |
| DialogInvariants.InitialSatisfiesInvariant | src/DialogMgr.ts:6-11 | the state before any call satisfies the invariant, with no dialog and an empty log |
| DialogInvariants.InitPreserves | src/DialogMgr.ts:41-69 | init keeps the invariant, sets initDone, and leaves the dialog slot, the promises and the delayed timer alone |
| DialogInvariants.CloseDialogPreserves | src/DialogMgr.ts:93-100 | closing keeps the invariant: the resolved promise is never resolved again |
| DialogInvariants.OpenPreserves | src/DialogMgr.ts:115-126 | opening a dialog whose promise is fresh keeps the invariant |
| DialogInvariants.NewPromiseIsFresh | src/DialogMgr.ts:286-287 | the promise a new executor gets has not been handed out or resolved before |
| DialogInvariants.ShowFatalErrorPreserves | src/DialogMgr.ts:237-243 | showFatalError keeps the invariant |
| DialogInvariants.ShowMsgPreserves | src/DialogMgr.ts:285-293 | showMsg keeps the invariant |
| DialogInvariants.PromptConfirmationPreserves | src/DialogMgr.ts:296-306 | promptConfirmation keeps the invariant |
| DialogInvariants.PromptInputPreserves | src/DialogMgr.ts:312-354 | promptInput keeps the invariant |
| DialogInvariants.ProgressOpenOrUpdatePreserves | src/DialogMgr.ts:262-269 | the immediate branch of showProgressInfo (update in place or open) keeps the invariant |
| DialogInvariants.ShowProgressInfoPreserves | src/DialogMgr.ts:253-269 | showProgressInfo keeps the invariant in both its deferred and its immediate branch |
| DialogInvariants.DelayedDisplayTimeoutPreserves | src/DialogMgr.ts:185-187 | the delayed-display timer firing keeps the invariant |
| DialogInvariants.CloseProgressInfoPreserves | src/DialogMgr.ts:273-283 | closeProgressInfo keeps the invariant |
| DialogInvariants.SetResultThenClosePreserves | src/DialogMgr.ts:138-149 | setting any result and then closing, as the OK handler does, keeps the invariant |
| DialogInvariants.OkButtonPreserves | src/DialogMgr.ts:138-149 | the OK handler keeps the invariant under every form-processor outcome |
| DialogInvariants.ShowToastPreserves | src/DialogMgr.ts:377-388 | showToast keeps the invariant |
| DialogInvariants.CallPreserves | src/DialogMgr.ts:237-388 | every public function keeps the invariant |
| DialogInvariants.HandlerPreserves | src/DialogMgr.ts:130-174 | every DOM event and timer callback keeps the invariant |
| DialogInvariants.StepPreserves | src/DialogMgr.ts:130-388 | every event of any kind keeps the invariant |
| DialogInvariants.RunPreserves | src/DialogMgr.ts:130-388 | every sequence of events keeps the invariant |
| DialogInvariants.ReachableSettledOnce | src/DialogMgr.ts:93-100 | in every reachable state only promises handed out are resolved, none twice; the open dialog's promise is pending; and every other promise handed out has been resolved exactly once |
| DialogInvariants.CloseResolvesActive | src/DialogMgr.ts:99-100 | after init, closing resolves the open dialog's promise |
| DialogInvariants.AccountedCarriesOver | src/DialogMgr.ts:93-126 | a transition that keeps the counter, only appends to the log, and leaves the old dialog's promise pending or resolved loses no promise |
| DialogInvariants.ShowProgressInfoGrowsLog | src/DialogMgr.ts:253-269 | showProgressInfo only appends to the onClose log and never takes a promise number back |
| DialogInvariants.CloseProgressInfoGrowsLog | src/DialogMgr.ts:273-283 | closeProgressInfo only appends to the onClose log |
| DialogInvariants.OkButtonGrowsLog | src/DialogMgr.ts:138-149 | the OK handler only appends to the onClose log |
| DialogInvariants.CallGrowsLog | src/DialogMgr.ts:237-388 | no public function removes or rewrites an onClose entry or lowers the promise counter |
| DialogInvariants.HandlerGrowsLog | src/DialogMgr.ts:130-186 | no DOM event or timer removes or rewrites an onClose entry or lowers the promise counter |
| DialogInvariants.StepGrowsLog | src/DialogMgr.ts:130-388 | no event removes or rewrites an onClose entry or lowers the promise counter |
| DialogInvariants.RunGrowsLog | src/DialogMgr.ts:130-388 | the same for any sequence of events |
| DialogInvariants.RunConcat | src/DialogMgr.ts:130-388 | running two event sequences one after the other equals running their concatenation |
| DialogProperties.AnimationEndOnlyEndsFadeOut | src/DialogMgr.ts:130-132 | animation end turns fadeOut into none and changes nothing in any other display state; only the overlay is touched |
| DialogProperties.FadeThenAnimationEndIsPlainClose | src/DialogMgr.ts:93-100 | closing with fade and then receiving animation end gives the same state as closing without fade |
| DialogProperties.FocusOnShownControl | src/DialogMgr.ts:84-91 | for an active dialog the jailed focus is on a control that is shown: Cancel only if shown, OK only if shown and Cancel is not, the frame only if neither is; the explicit element iff one was given |
| DialogProperties.StartFocusJailIdempotent | src/DialogMgr.ts:164-169 | starting the jail twice is the same as once, and the jail is on afterwards |
| DialogProperties.FocusInRefocusesIff | src/DialogMgr.ts:171-174 | focus is pulled back iff a dialog is active and the target is an element outside the overlay; the state is unchanged either way |
| DialogProperties.RootClickClosesIff | src/DialogMgr.ts:134-136 | a click closes the dialog iff it hit the overlay itself and the active dialog is closable; otherwise it changes nothing, and when it closes it is closeDialog without fade |
| DialogProperties.EscapeClosesIff | src/DialogMgr.ts:154-158 | a keydown closes the dialog iff the key is "Escape" or "Esc" and the active dialog is closable; otherwise it changes nothing |
| DialogProperties.KeyDownPreventedIff | src/DialogMgr.ts:154-160 | the key's default action is prevented iff it closes the dialog or the overlay is transparent |
| DialogProperties.KeysSwallowedDuringDelay | src/DialogMgr.ts:159-160 | while a delayed progress display is pending, every key is swallowed and nothing changes |
| DialogProperties.OkClickOutcomes | src/DialogMgr.ts:138-149 | with a form processor: an aborted validation changes nothing, another error raises one alert and keeps the dialog open, a value closes it without fade and resolves it with that value; without one it closes and resolves with `true` |
| DialogProperties.CancelKeepsResult | src/DialogMgr.ts:151-152 | Cancel closes without fade and resolves with the result as it stands, which is always the dialog's default result |
| DialogProperties.ShowProgressInfoResolution | src/DialogMgr.ts:253-269 | showProgressInfo resolves nothing, or only the dialog it replaces with that dialog's current result; a surviving dialog keeps its result |
| DialogProperties.DelayedDisplayTimeoutResolution | src/DialogMgr.ts:185-187 | the delayed-display timer resolves nothing and keeps any surviving dialog's result |
| DialogProperties.CloseProgressInfoResolution | src/DialogMgr.ts:273-283 | closeProgressInfo resolves at most the active dialog, with its current result |
| DialogProperties.OpenResolution | src/DialogMgr.ts:115-126 | opening a dialog resolves at most the one it replaces, and the new dialog's promise is a different, newer one |
| DialogProperties.ShowFatalErrorResolution | src/DialogMgr.ts:237-243 | showFatalError resolves at most the dialog it replaces, with its current result |
| DialogProperties.PromiseDialogResolution | src/DialogMgr.ts:285-354 | showMsg, promptConfirmation and promptInput resolve at most the dialog they replace, and the dialog they open carries the promise they just handed out |
| DialogProperties.CallResolvesWithCurrentResult | src/DialogMgr.ts:237-388 | no public function resolves anything other than the active dialog, with its current result |
| DialogProperties.HandlerResolvesWithCurrentResult | src/DialogMgr.ts:130-174 | no DOM event or timer other than OK resolves anything other than the active dialog with its current result, and none changes that result |
| DialogProperties.NonOkEventResolvesWithCurrentResult | src/DialogMgr.ts:130-388 | apart from the OK button, no event changes the active dialog's result, and every onClose call is the active dialog's, with its result of the moment |
| DialogProperties.StepKeepsConfirmationFalse | src/DialogMgr.ts:296-306 | while no OK click happens, a confirmation's promise stays resolved only with `false`, and its result, while it is open, stays `false` |
| DialogProperties.ConfirmationFalseUnlessOk | src/DialogMgr.ts:296-306 | the same over any OK-free sequence of events |
| DialogProperties.PromptConfirmationYieldsFalseUnlessOk | src/DialogMgr.ts:295-306 | a confirmation opened now and followed by any OK-free sequence of events is resolved, if at all, only with `false` |
| DialogProperties.HandlersInertBeforeInit | src/DialogMgr.ts:60-65 | before init no DOM event or timer changes anything, since no listener is registered yet |
| DialogProperties.UserDismissals | src/DialogMgr.ts:134-158 | on a closable dialog, Cancel, Escape, Esc and an outside click all close without fade and resolve with the current result, which is the dialog's default result (`undefined` for showMsg and promptInput, `false` for promptConfirmation), whatever happened since it opened |
| DialogProperties.PromptConfirmationAnswers | src/DialogMgr.ts:296-306 | OK resolves the confirmation with `true`; Cancel, Escape and an outside click resolve it with `false` |
| DialogProperties.PromptInputAnswers | src/DialogMgr.ts:312-354 | focus goes to the input field; OK with a valid form resolves with the trimmed input; OK with an invalid form leaves the state exactly as it was |
| DialogProperties.PromptInputDismissals | src/DialogMgr.ts:312-354 | Cancel, Esc and an outside click resolve the input prompt with `undefined` |
| DialogProperties.ShowMsgAnswers | src/DialogMgr.ts:285-293 | focus goes to OK; OK resolves with `true`; Escape and an outside click resolve with `undefined` |
| DialogProperties.OpeningReplacesActive | src/DialogMgr.ts:115-122 | opening a dialog over another resolves the other's promise once with its current result and leaves the new promise pending |
| DialogProperties.FatalErrorCannotBeDismissed | src/DialogMgr.ts:235-243 | a fatal error shows no buttons or footer, is titled "Fatal error" unless a title is given, and ignores every click on the overlay and every key |
| ProgressProperties.LastTitle | src/DialogMgr.ts:252-255 | the remembered title is the last non-empty title given (the one with no non-empty title after it), or the earlier one when no call gives a non-empty title |
| ProgressProperties.ProgressCalls | src/DialogMgr.ts:253 | a sequence of showProgressInfo calls, one per parameter set, in order |
| ProgressProperties.ShowProgressInfoTitle | src/DialogMgr.ts:255 | showProgressInfo keeps the previous title when the new one is missing or empty and takes the new one otherwise |
| ProgressProperties.RememberedTitleIsLastGiven | src/DialogMgr.ts:252-255 | after any sequence of showProgressInfo calls the title is the last non-empty one given, or the earlier one if none was |
| ProgressProperties.ProgressCallsConcat | src/DialogMgr.ts:253 | the calls for two parameter sequences are the concatenation of the calls for each |
| ProgressProperties.DeferredShowsOverlayOnly | src/DialogMgr.ts:256-261 | with a positive delay and no dialog open, only the transparent overlay and the wait cursor appear, and the timer holds the parameters; frame, promises and toast are untouched |
| ProgressProperties.RestartKeepsOnlyLatest | src/DialogMgr.ts:181-184 | a second deferred call replaces the first one's pending display |
| ProgressProperties.DelayedFireOpensProgress | src/DialogMgr.ts:185-187 | when the timer fires, the progress dialog opens with the pending message and remembered title, fading in with the wait cursor; firing again changes nothing |
| ProgressProperties.TwoDelayedCallsOpenOnce | src/DialogMgr.ts:181-193 | two deferred calls followed by the timer open one progress dialog showing the second message, and no timer is left pending |
| ProgressProperties.CloseWithinDelayPreventsOpen | src/DialogMgr.ts:273-283 | closeProgressInfo inside the delay removes the overlay and the wait cursor, cancels the timer and forgets the title; nothing opens later |
| ProgressProperties.ActiveProgressUpdatedInPlace | src/DialogMgr.ts:255-267 | over an active progress dialog, showProgressInfo changes only the frame and the remembered title: the frame gets the new content, the width of the new message and the remembered title as header text; slot, overlay, focus, promises and timer are kept |
| ProgressProperties.ProgressReplacesOtherDialog | src/DialogMgr.ts:262-269 | over any other active dialog, showProgressInfo opens at once (even with a delay) and resolves the replaced dialog once |
| ProgressProperties.CloseProgressInfoEffect | src/DialogMgr.ts:273-283 | closeProgressInfo is a no-op before init; it never resolves a promise; it clears the timer and the title; it fades out an active progress dialog; it clears overlay and wait cursor when nothing is open; it leaves another dialog alone |
| ProgressProperties.CloseProgressInfoSettles | src/DialogMgr.ts:273-283 | two calls in a row resolve nothing, and a third changes nothing at all |
| ToastProperties.ShowToastEffect | src/DialogMgr.ts:377-388 | showToast leaves the toast fading in with its text and one timer of the effective duration, and changes nothing else beyond init |
| ToastProperties.SupersededToastLeavesNoTrace | src/DialogMgr.ts:379-385 | a toast shown over another gives the same state as showing only the second |
| ToastProperties.ToastTimerFadesOutLatest | src/DialogMgr.ts:385-388 | the timer fades out the latest toast's text and is not rearmed |
| ToastProperties.ToastLifecycle | src/DialogMgr.ts:362-369 | animation end does nothing while the toast fades in; after the timer and animation end the toast is hidden with no class left on it |
| Messages.GetDialogParmsFromMsgParms | src/DialogMgr.ts:220-233 | a prompt-type dialog with the given title, the chosen content and width, and neither buttons nor close, focus, processor or onClose |
| Messages.ContentAlternativesIgnored | src/DialogMgr.ts:217-228 | a non-empty text hides the HTML and node alternatives, and a non-empty HTML hides the node |
| Messages.PlaceholderIff | src/DialogMgr.ts:225-228 | the content is the "(no text)" placeholder iff that is the text given or no alternative is given |
| Messages.TextWidthBoundary | src/DialogMgr.ts:229-231 | without an explicit width a text message is wide iff it has more than 500 characters; an explicit width always wins |
| Messages.HtmlWidthOnlyWithoutText | src/DialogMgr.ts:232 | without a text or explicit width an HTML message is wide iff it has more than 800 characters |
| Messages.FatalErrorParms | src/DialogMgr.ts:237-242 | fatal-error type, not closable, no buttons, no onClose, title defaulted to "Fatal error" |
| Messages.ProgressDialogParms | src/DialogMgr.ts:262-265 | a progress dialog without buttons or close, titled with the remembered title, showing the message's content with the message's width |
| Messages.MsgDialogParms | src/DialogMgr.ts:288-292 | closable, OK only, resolves its promise, default result `undefined`; shows the message's content, title and width; no input field is focused |
| Messages.ConfirmationParms | src/DialogMgr.ts:299-305 | closable, OK and Cancel, resolves its promise, default result `false`; shows the message's content, title and width; no input field is focused |
| Messages.PromptInputDialogParms | src/DialogMgr.ts:344-353 | closable, OK and Cancel, the input field focused, a form processor, resolves its promise |
| Messages.PromptInputProcessor | src/DialogMgr.ts:337-343 | an invalid form aborts validation (never another error); a valid one yields exactly the input with white space trimmed from both ends, a string with no white space at either end and no longer than the input |
| Messages.EffectiveToastDuration | src/DialogMgr.ts:375-384 | a missing or zero duration becomes 1500; any other duration is kept |
| JsText.TrimStart | src/DialogMgr.ts:336 | a suffix of the input that does not start with white space, after a prefix made only of white space |
| JsText.TrimEnd | src/DialogMgr.ts:336 | a prefix of the input that does not end with white space, before a suffix made only of white space |
| JsText.TrimIsTrimmed | src/DialogMgr.ts:343 | trim's result has white space at neither end and is no longer than the input |
| JsText.TrimIsInnerSlice | src/DialogMgr.ts:343 | trim's result is a contiguous slice of the input |
| JsText.TrimOfPadded | src/DialogMgr.ts:335-343 | trimming a trimmed string with white space added at both ends gives it back |
| JsText.TrimIdempotent | src/DialogMgr.ts:335-343 | trimming twice (on blur and again in the processor) is the same as once |
| JsText.TrimKeepsNonWhiteSpace | src/DialogMgr.ts:343 | an input with any non-white-space character trims to a non-empty string |
| JsText.TrimEmptyIff | src/DialogMgr.ts:343 | trim gives the empty string iff the input is all white space |
| DialogMachine.Init | src/DialogMgr.ts:41-69 | runs once: records animation support, sets the display state to none and marks init done; properties in `DialogInvariants.InitPreserves` |
| DialogMachine.SetDisplayState | src/DialogMgr.ts:71-79 | the guarded display-state change; properties in `DialogProperties.SetDisplayStateEffect` |
| DialogMachine.SetWaitCursor | src/DialogMgr.ts:81-82 | sets the wait cursor class and nothing else |
| DialogMachine.UpdateDialog | src/DialogMgr.ts:102-113 | fills the frame from the parameters; its effect inside openModalDialog is stated by `DialogMachine.OpenModalDialog` |
| DialogMachine.AnimationEndEventHandler | src/DialogMgr.ts:130-132 | ends a fade-out; properties in `DialogProperties.AnimationEndOnlyEndsFadeOut` |
| DialogMachine.RootElementClickEventHandler | src/DialogMgr.ts:134-136 | closes on a click on the overlay itself; properties in `DialogProperties.RootClickClosesIff` |
| DialogMachine.OkButtonClickEventHandler | src/DialogMgr.ts:138-149 | runs the form processor or sets the result to `true`, then closes; properties in `DialogProperties.OkClickOutcomes` |
| DialogMachine.CancelButtonClickEventHandler | src/DialogMgr.ts:151-152 | closes; properties in `DialogProperties.CancelKeepsResult` |
| DialogMachine.DocumentKeyDownEventHandler | src/DialogMgr.ts:154-160 | closes on Escape; properties in `DialogProperties.EscapeClosesIff` and `DialogProperties.KeyDownPreventedIff` |
| DialogMachine.DocumentFocusInEventHandler | src/DialogMgr.ts:171-174 | refocuses; properties in `DialogProperties.FocusInRefocusesIff` |
| DialogMachine.ShowFatalError | src/DialogMgr.ts:237-243 | opens the fatal-error dialog; properties in `DialogProperties.FatalErrorCannotBeDismissed` |
| DialogMachine.ShowProgressInfo | src/DialogMgr.ts:253-269 | defers, updates in place or opens; properties in `ProgressProperties` |
| DialogMachine.DelayedDisplayTimeout | src/DialogMgr.ts:185-187 | the delayed-display timer callback; properties in `ProgressProperties.DelayedFireOpensProgress` |
| DialogMachine.CloseProgressInfo | src/DialogMgr.ts:273-283 | properties in `ProgressProperties.CloseProgressInfoEffect` |
| DialogMachine.ShowMsg | src/DialogMgr.ts:285-293 | hands out a promise and opens the message; properties in `DialogProperties.ShowMsgAnswers` |
| DialogMachine.PromptConfirmation | src/DialogMgr.ts:296-306 | hands out a promise and opens the confirmation; properties in `DialogProperties.PromptConfirmationAnswers` |
| DialogMachine.PromptInput | src/DialogMgr.ts:312-354 | hands out a promise and opens the input prompt; properties in `DialogProperties.PromptInputAnswers` |
| DialogMachine.SetToastDisplayState | src/DialogMgr.ts:362-365 | sets the toast's state and classes; properties in `ToastProperties.ToastLifecycle` |
| DialogMachine.ToastAnimationEndEventHandler | src/DialogMgr.ts:367-369 | ends the toast's fade-out; properties in `ToastProperties.ToastLifecycle` |
| DialogMachine.ShowToast | src/DialogMgr.ts:377-385 | properties in `ToastProperties.ShowToastEffect` and `ToastProperties.SupersededToastLeavesNoTrace` |
| DialogMachine.ToastTimeout | src/DialogMgr.ts:386-388 | properties in `ToastProperties.ToastTimerFadesOutLatest` |
| DialogMachine.Step | src/DialogMgr.ts:130-388 | dispatches each event to its function; properties in `DialogInvariants.StepPreserves` |
| Messages.MessageContent | src/DialogMgr.ts:224-228 | the content alternative chosen; properties in `Messages.ContentAlternativesIgnored` and `Messages.PlaceholderIff` |
| Messages.MessageWide | src/DialogMgr.ts:229-233 | the width chosen; properties in `Messages.TextWidthBoundary` and `Messages.HtmlWidthOnlyWithoutText` |
| Messages.RememberedTitle | src/DialogMgr.ts:255 | keeps the previous title when the new one is missing or empty; properties in `ProgressProperties.RememberedTitleIsLastGiven` |
| JsText.Trim | src/DialogMgr.ts:336-343 | properties in `JsText.TrimIsTrimmed`, `JsText.TrimIsInnerSlice` and `JsText.TrimOfPadded` |
| DialogMgr.DialogManager.constructor | src/DialogMgr.ts:6-11 | the fields start as the machine's initial state, which satisfies the invariant |
| DialogMgr.DialogManager.Init | src/DialogMgr.ts:41-69 | the fields become the machine's init transition |
| DialogMgr.DialogManager.SetDisplayState | src/DialogMgr.ts:71-79 | the fields become the machine's setDisplayState transition |
| DialogMgr.DialogManager.SetWaitCursor | src/DialogMgr.ts:81-82 | only the overlay's wait cursor class changes |
| DialogMgr.DialogManager.CloseDialog | src/DialogMgr.ts:93-100 | the fields become the machine's closeDialog transition |
| DialogMgr.DialogManager.UpdateDialog | src/DialogMgr.ts:102-113 | the frame shows the parameters' title, content, width and buttons; nothing else changes |
| DialogMgr.DialogManager.OpenModalDialog | src/DialogMgr.ts:115-126 | the fields become the machine's openModalDialog transition, step by step as in the source |
| DialogMgr.DialogManager.AnimationEndEventHandler | src/DialogMgr.ts:130-132 | the machine's animation-end transition; the invariant is kept |
| DialogMgr.DialogManager.RootElementClickEventHandler | src/DialogMgr.ts:134-136 | the machine's overlay-click transition; the invariant is kept |
| DialogMgr.DialogManager.OkButtonClickEventHandler | src/DialogMgr.ts:138-149 | the machine's OK transition under the processor's outcome; the invariant is kept |
| DialogMgr.DialogManager.CancelButtonClickEventHandler | src/DialogMgr.ts:151-152 | the machine's Cancel transition; the invariant is kept |
| DialogMgr.DialogManager.DocumentKeyDownEventHandler | src/DialogMgr.ts:154-160 | the machine's keydown transition, and it reports whether the default action was prevented; the invariant is kept |
| DialogMgr.DialogManager.StartFocusJail | src/DialogMgr.ts:164-166 | the focus jail is on; nothing else changes |
| DialogMgr.DialogManager.StopFocusJail | src/DialogMgr.ts:168-169 | the focus jail is off; nothing else changes |
| DialogMgr.DialogManager.DocumentFocusInEventHandler | src/DialogMgr.ts:171-174 | reports whether focus is pulled back into the dialog; the state is the machine's |
| DialogMgr.DialogManager.StartDelayedDisplayTimer | src/DialogMgr.ts:181-184 | the previous pending display is replaced by the new one |
| DialogMgr.DialogManager.CancelDelayedDisplayTimer | src/DialogMgr.ts:189-193 | no display is pending afterwards |
| DialogMgr.DialogManager.DelayedDisplayTimeout | src/DialogMgr.ts:185-187 | the machine's timer transition; the invariant is kept |
| DialogMgr.DialogManager.ShowFatalError | src/DialogMgr.ts:237-243 | the machine's showFatalError transition; the invariant is kept |
| DialogMgr.DialogManager.ShowProgressInfo | src/DialogMgr.ts:253-269 | the machine's showProgressInfo transition; the invariant is kept |
| DialogMgr.DialogManager.ShowProgressInfoSteps | src/DialogMgr.ts:253-269 | the statement-by-statement body of showProgressInfo produces the machine's transition |
| DialogMgr.DialogManager.CloseProgressInfo | src/DialogMgr.ts:273-283 | the machine's closeProgressInfo transition; the invariant is kept |
| DialogMgr.DialogManager.ShowMsg | src/DialogMgr.ts:285-293 | returns the promise it hands out; the machine's showMsg transition; the invariant is kept |
| DialogMgr.DialogManager.PromptConfirmation | src/DialogMgr.ts:296-306 | returns the promise it hands out; the machine's promptConfirmation transition; the invariant is kept |
| DialogMgr.DialogManager.PromptInput | src/DialogMgr.ts:312-354 | returns the promise it hands out; the machine's promptInput transition; the invariant is kept |
| DialogMgr.DialogManager.SetToastDisplayState | src/DialogMgr.ts:362-365 | the toast takes the new state with matching classes |
| DialogMgr.DialogManager.ToastAnimationEndEventHandler | src/DialogMgr.ts:367-369 | the machine's toast animation-end transition; the invariant is kept |
| DialogMgr.DialogManager.ShowToast | src/DialogMgr.ts:377-385 | the machine's showToast transition; the invariant is kept |
| DialogMgr.DialogManager.ToastTimeout | src/DialogMgr.ts:386-388 | the machine's toast timer transition; the invariant is kept |

## Left out

- The DOM is left out: element lookup, `insertAdjacentHTML`, the CSS and HTML templates (src/DialogMgr.ts:392-514) and `setClass` (519-524). The model keeps what the user sees: the display state, the classes, the header, the content, the width and the button visibility.
- Content nodes are left out. `genContentTextElement`, `genContentFrameElement` and `createFragment` (197-210) become the `Content` alternatives; HTML is not parsed.
- Scrolling is left out. The `nextTick` scroll reset in updateDialog (107-109) has no state the model keeps.
- Listener registration is left out. Init's `addEventListener` calls are implied: handlers are events of `Step`. `Step` also accepts them before init, when the source has no listener yet; every handler is then a no-op (`DialogProperties.HandlersInertBeforeInit`). The focus jail is a flag rather than a registered listener.
- Timers are left out as timers. `setTimeout` and `clearTimeout` become a pending slot; elapsed time is not modelled, and the delay and duration values are only stored.
- Promise asynchrony is left out. The executors run synchronously, as they do in JavaScript. Resolving a promise is modelled as a log entry; what the caller's continuation does afterwards, and any re-entrant call from it, is not modelled.
- `alert` is modelled as a counter; its text is not.
- The browser's `reportValidity` becomes a boolean parameter of `Messages.PromptInputProcessor`. The submit and blur listeners of the input form (326-336) are not modelled as events. Trimming on blur is covered by `JsText.TrimIdempotent`.
- Numbers are unbounded integers. A NaN delay or duration is not modelled. JavaScript's `length` counts UTF-16 code units; the model counts `char`s.
- Truthiness is modelled only where the source tests it: the delay, the duration, the strings and the optional booleans.
- The initial `displayState` is modelled as none. In the source it is undefined until init runs, which only matters to the handlers. Those are not registered before init.
- `FormInputProcessorException`'s class (24-26) is modelled as the `ValidationAbort` outcome. IE's `isFormInputProcessorException` detection is taken as correct.
- The test pages and rollup configurations are not part of this model.

### Where the code says more than its comments

The model follows the code in each of these places:

- closeDialog keeps `activeDialogParms` and `dialogResult`; only the type is cleared.
- The OK handler does not check that a dialog is active. With no active dialog it can still rewrite `dialogResult`, which the next open resets.
- updateDialog changes only the frame; the parameters are set by openModalDialog.
- Without animation support the display state still goes to fadeOut; only the fadeOut class is left off. That state then stays until an animation end, and all handlers treat it as closed.
- A second closeProgressInfo during a fade-out removes the overlay and the wait cursor at once. It resolves nothing; a third call changes nothing.
- closeDialog does not reset the wait cursor. The next open or closeProgressInfo does.
- showProgressInfo replaces any other active dialog at once, even when a delay is given, and even a fatal error.
- The Cancel and OK handlers do not check the buttons' visibility. Hidden buttons cannot be clicked; `DialogProperties.FatalErrorCannotBeDismissed` states that a fatal error shows none.
