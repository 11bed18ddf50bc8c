/** Properties of opening, closing and answering a modal dialog: the close
    paths, the focus target, the OK and Cancel buttons, the outside click and
    the Escape key, and what the promises of showMsg, promptConfirmation and
    promptInput resolve to. */
module DialogProperties {
  import opened DialogTypes
  import Messages
  import JsText
  import opened DialogMachine
  import opened DialogInvariants

  // ---- Display state and animation end ------------------------------------

  /** setDisplayState is a no-op before init or when the state is unchanged;
      otherwise only the root changes, and its classes show the new state,
      with the fadeOut class only where animation is supported. */
  lemma SetDisplayStateEffect(m: Mgr, s: DisplayState)
    ensures !m.initDone || m.root.displayState == s ==> SetDisplayState(m, s) == m
    ensures m.initDone && m.root.displayState != s ==>
      && SetDisplayState(m, s) == m.(root := SetDisplayState(m, s).root)
      && SetDisplayState(m, s).root.displayState == s
      && RootClassesMatch(SetDisplayState(m, s).root, m.animationSupported)
      && (SetDisplayState(m, s).root.fadeOutClass <==> s == FadeOut && m.animationSupported)
  {
  }

  /** animationend acts only on a fade-out: it moves it to `none` and
      changes nothing else. */
  lemma AnimationEndOnlyEndsFadeOut(m: Mgr)
    requires m.initDone
    ensures var r := AnimationEndEventHandler(m);
      && r == m.(root := r.root)
      && (m.root.displayState == FadeOut ==> r.root.displayState == DisplayNone)
      && (m.root.displayState != FadeOut ==> r == m)
      && r.root.waitCursorClass == m.root.waitCursorClass
  {
  }

  /** Closing with fade and letting the animation end is the same as closing
      without fade. */
  lemma FadeThenAnimationEndIsPlainClose(m: Mgr)
    requires Invariant(m) && Active(m)
    ensures AnimationEndEventHandler(CloseDialog(m, true)) == CloseDialog(m, false)
  {
  }

  // ---- Focus ----------------------------------------------------------------

  /** While a dialog is active, focus is on a control it actually shows: the
      Cancel button only if shown, the OK button only if shown and there is no
      Cancel button, the frame only if there is no control to focus. */
  lemma FocusOnShownControl(m: Mgr)
    requires Invariant(m) && Active(m)
    ensures var dp := m.slot.activeDialogParms.value;
      && (m.focus.lastFocused == Some(CancelButton) ==> m.frame.cancelShown && !dp.focusElement)
      && (m.focus.lastFocused == Some(OkButton) ==> m.frame.okShown && !m.frame.cancelShown && !dp.focusElement)
      && (m.focus.lastFocused == Some(FocusTarget.Frame) ==> !m.frame.okShown && !m.frame.cancelShown && !dp.focusElement)
      && (m.focus.lastFocused == Some(Explicit) <==> dp.focusElement)
  {
  }

  /** startFocusJail removes the listener before adding it, so starting the
      jail twice leaves one listener. */
  lemma StartFocusJailIdempotent(m: Mgr)
    ensures StartFocusJail(StartFocusJail(m)) == StartFocusJail(m)
    ensures StartFocusJail(m).focus.focusJailOn
  {
  }

  /** The jail moves focus back only when it is on and the focused target is
      an element outside the overlay; the element it picks is the one the
      dialog was opened with, so the rest of the state does not change. */
  lemma FocusInRefocusesIff(m: Mgr, targetIsElement: bool, insideRoot: bool)
    requires Invariant(m)
    ensures FocusInRefocuses(m, targetIsElement, insideRoot) <==> Active(m) && targetIsElement && !insideRoot
    ensures DocumentFocusInEventHandler(m, targetIsElement, insideRoot) == m
  {
  }

  // ---- Outside click and Escape ---------------------------------------------

  /** A click closes the dialog exactly when its target is the overlay root,
      a dialog is active and it is closable; otherwise nothing happens. */
  lemma RootClickClosesIff(m: Mgr, targetIsRoot: bool)
    requires Invariant(m)
    ensures var r := RootElementClickEventHandler(m, targetIsRoot);
      && (Active(m) && !Active(r) <==> targetIsRoot && Active(m) && m.slot.activeDialogParms.value.closeEnabled)
      && (!OutsideClickCloses(m, targetIsRoot) ==> r == m)
      && (OutsideClickCloses(m, targetIsRoot) ==> r == CloseDialog(m, false))
  {
  }

  /** A key closes the dialog exactly when it is Escape (or the legacy
      "Esc"), a dialog is active and it is closable. */
  lemma EscapeClosesIff(m: Mgr, key: string)
    requires Invariant(m)
    ensures var r := DocumentKeyDownEventHandler(m, key);
      && (Active(m) && !Active(r) <==> (key == "Escape" || key == "Esc") && Active(m) && m.slot.activeDialogParms.value.closeEnabled)
      && (!EscapeCloses(m, key) ==> r == m)
  {
  }

  /** A key's default action is suppressed exactly when it closes the dialog
      or the transparent overlay of a delayed display is showing. */
  lemma KeyDownPreventedIff(m: Mgr, key: string)
    requires Invariant(m)
    ensures KeyDownDefaultPrevented(m, key) <==>
      m.initDone && (EscapeCloses(m, key) || m.root.displayState == TransparentOverlay)
  {
    if m.initDone && EscapeCloses(m, key) {
      assert DocumentKeyDownEventHandler(m, key).root.displayState == DisplayNone;
    }
  }

  /** While a delayed display is pending every key is swallowed and nothing
      else happens. */
  lemma KeysSwallowedDuringDelay(m: Mgr, key: string)
    requires Invariant(m) && m.initDone && m.delayed.delayedTimer.Some?
    ensures KeyDownDefaultPrevented(m, key)
    ensures DocumentKeyDownEventHandler(m, key) == m
  {
  }

  // ---- OK and Cancel --------------------------------------------------------

  /** What the OK button does to an active dialog. With a form processor, a
      validation abort changes nothing, another exception is alerted and the
      dialog stays open, and a returned value is the result the dialog closes
      with. Without one, the dialog closes with `true`. Closing is without fade. */
  lemma OkClickOutcomes(m: Mgr, outcome: ProcessorOutcome)
    requires Invariant(m) && Active(m)
    ensures var dp := m.slot.activeDialogParms.value;
      var r := OkButtonClickEventHandler(m, outcome);
      && (dp.formInputProcessor && outcome.ValidationAbort? ==> r == m)
      && (dp.formInputProcessor && outcome.OtherError? ==> r == m.(alertCount := m.alertCount + 1))
      && (dp.formInputProcessor && outcome.Valid? ==>
            && !Active(r) && r.root.displayState == DisplayNone && r.slot.dialogResult == outcome.value
            && r.promises.settlements == m.promises.settlements +
                 (if dp.onClose.Some? then [Settled(dp.onClose.value, outcome.value)] else []))
      && (!dp.formInputProcessor ==>
            && !Active(r) && r.root.displayState == DisplayNone && r.slot.dialogResult == Bool(true)
            && r.promises.settlements == m.promises.settlements +
                 (if dp.onClose.Some? then [Settled(dp.onClose.value, Bool(true))] else []))
  {
  }

  /** Cancel closes without fade and resolves with the result as it stands,
      which for an open dialog is always its default result. */
  lemma CancelKeepsResult(m: Mgr)
    requires Invariant(m) && Active(m)
    ensures var dp := m.slot.activeDialogParms.value;
      var r := CancelButtonClickEventHandler(m);
      && !Active(r) && r.root.displayState == DisplayNone
      && r.promises.settlements == m.promises.settlements +
           (if dp.onClose.Some? then [Settled(dp.onClose.value, m.slot.dialogResult)] else [])
      && m.slot.dialogResult == dp.defaultDialogResult
  {
  }

  // ---- What a promise resolves to -------------------------------------------

  /** Every resolution of `p` in `s` is with `v`. */
  predicate ResolvedOnlyWith(s: seq<Settlement>, p: PromiseId, v: Value) {
    forall i :: 0 <= i < |s| && s[i].promise == p ==> s[i].result == v
  }

  /** The resolutions an event made: none, or the active dialog's with its
      result of the moment. */
  predicate ResolvesActiveWithCurrent(m: Mgr, r: Mgr) {
    || r.promises.settlements == m.promises.settlements
    || (ActivePromise(m).Some? &&
        r.promises.settlements == m.promises.settlements + [Settled(ActivePromise(m).value, m.slot.dialogResult)])
  }

  /** The open dialog after an event is the one before (with its result
      untouched) or one with a promise handed out by the event itself. */
  predicate KeepsOrReplacesActive(m: Mgr, r: Mgr) {
    ActivePromise(r).Some? ==>
      if ActivePromise(r) == ActivePromise(m) then r.slot.dialogResult == m.slot.dialogResult
      else ActivePromise(r).value >= m.promises.promiseCount
  }

  lemma ShowProgressInfoResolution(m: Mgr, pp: ProgressInfoParms)
    requires Invariant(m)
    ensures ResolvesActiveWithCurrent(m, ShowProgressInfo(m, pp))
    ensures KeepsOrReplacesActive(m, ShowProgressInfo(m, pp))
  {
    assert WithRememberedTitle(m, pp).slot == m.slot && WithRememberedTitle(m, pp).promises == m.promises;
  }

  lemma DelayedDisplayTimeoutResolution(m: Mgr)
    requires Invariant(m)
    ensures DelayedDisplayTimeout(m).promises.settlements == m.promises.settlements
    ensures KeepsOrReplacesActive(m, DelayedDisplayTimeout(m))
  {
    if m.delayed.delayedTimer.Some? {
      var m1 := m.(delayed := m.delayed.(delayedTimer := None));
      var pp := m.delayed.delayedTimer.value.parms.(delayTime := Some(0));
      assert WithRememberedTitle(m1, pp).slot == m.slot && WithRememberedTitle(m1, pp).promises == m.promises;
    }
  }

  lemma CloseProgressInfoResolution(m: Mgr)
    requires Invariant(m)
    ensures ResolvesActiveWithCurrent(m, CloseProgressInfo(m))
    ensures KeepsOrReplacesActive(m, CloseProgressInfo(m))
  {
  }

  /** Apart from the OK button, no event changes the result of the open
      dialog, and every onClose call an event makes is the active dialog's,
      with the result it has at that moment. */
  lemma NonOkEventResolvesWithCurrentResult(m: Mgr, e: Event)
    requires Invariant(m) && !e.OkClick?
    ensures ResolvesActiveWithCurrent(m, Step(m, e))
    ensures KeepsOrReplacesActive(m, Step(m, e))
  {
    if IsCall(e) {
      CallResolvesWithCurrentResult(m, e);
    } else {
      HandlerResolvesWithCurrentResult(m, e);
    }
  }

  /** Opening a dialog whose promise is at least `n`, over one whose promise
      is below `n`, resolves at most the one it replaces. */
  lemma OpenResolution(m: Mgr, dp: DialogParms, n: nat)
    requires ActivePromise(m).Some? ==> ActivePromise(m).value < n
    requires dp.onClose.Some? ==> dp.onClose.value >= n
    ensures ResolvesActiveWithCurrent(m, OpenModalDialog(m, dp))
    ensures var r := OpenModalDialog(m, dp);
      ActivePromise(r).Some? ==> ActivePromise(r) != ActivePromise(m) && ActivePromise(r).value >= n
  {
  }

  lemma ShowFatalErrorResolution(m: Mgr, mp: MsgParms)
    requires Invariant(m)
    ensures ResolvesActiveWithCurrent(m, ShowFatalError(m, mp))
    ensures KeepsOrReplacesActive(m, ShowFatalError(m, mp))
  {
    OpenResolution(m, Messages.FatalErrorParms(mp), m.promises.promiseCount);
  }

  /** The three functions that hand out a promise and open a dialog with it. */
  lemma PromiseDialogResolution(m: Mgr, dp: DialogParms)
    requires Invariant(m) && dp.onClose == Some(m.promises.promiseCount)
    ensures ResolvesActiveWithCurrent(m, OpenModalDialog(NewPromise(m), dp))
    ensures KeepsOrReplacesActive(m, OpenModalDialog(NewPromise(m), dp))
  {
    OpenResolution(NewPromise(m), dp, m.promises.promiseCount);
  }

  lemma CallResolvesWithCurrentResult(m: Mgr, e: Event)
    requires Invariant(m) && IsCall(e)
    ensures ResolvesActiveWithCurrent(m, Step(m, e))
    ensures KeepsOrReplacesActive(m, Step(m, e))
  {
    var n := m.promises.promiseCount;
    match e
    case CallShowFatalError(mp) => ShowFatalErrorResolution(m, mp);
    case CallShowProgressInfo(pp) => ShowProgressInfoResolution(m, pp);
    case CallCloseProgressInfo => CloseProgressInfoResolution(m);
    case CallShowMsg(mp) => PromiseDialogResolution(m, Messages.MsgDialogParms(mp, n));
    case CallPromptConfirmation(mp) => PromiseDialogResolution(m, Messages.ConfirmationParms(mp, n));
    case CallPromptInput(ip) => PromiseDialogResolution(m, Messages.PromptInputDialogParms(ip, n));
    case CallShowToast(tp) =>
  }

  lemma HandlerResolvesWithCurrentResult(m: Mgr, e: Event)
    requires Invariant(m) && !IsCall(e) && !e.OkClick?
    ensures ResolvesActiveWithCurrent(m, Step(m, e))
    ensures KeepsOrReplacesActive(m, Step(m, e))
  {
    match e
    case DelayedTimerFires => DelayedDisplayTimeoutResolution(m);
    case _ =>
  }

  /** A confirmation whose promise has only ever been resolved with `false`
      and that, while open, still holds `false`. */
  predicate ConfirmationFalseSoFar(m: Mgr, p: PromiseId) {
    && Invariant(m)
    && p < m.promises.promiseCount
    && ResolvedOnlyWith(m.promises.settlements, p, Bool(false))
    && (ActivePromise(m) == Some(p) ==> m.slot.dialogResult == Bool(false))
  }

  lemma StepKeepsConfirmationFalse(m: Mgr, e: Event, p: PromiseId)
    requires ConfirmationFalseSoFar(m, p) && !e.OkClick?
    ensures ConfirmationFalseSoFar(Step(m, e), p)
  {
    StepPreserves(m, e);
    StepGrowsLog(m, e);
    NonOkEventResolvesWithCurrentResult(m, e);
    var s := m.promises.settlements;
    var t := Step(m, e).promises.settlements;
    forall i | 0 <= i < |t| && t[i].promise == p ensures t[i].result == Bool(false) {
      if i < |s| { assert t[i] == s[i]; }
    }
  }

  /** No OK click, no `true`: whatever else happens after promptConfirmation
      (Cancel, Escape, an outside click, another dialog replacing it, timers,
      toasts), its promise is resolved only with `false`. */
  lemma {:induction false} ConfirmationFalseUnlessOk(m: Mgr, es: seq<Event>, p: PromiseId)
    requires ConfirmationFalseSoFar(m, p)
    requires forall i :: 0 <= i < |es| ==> !es[i].OkClick?
    ensures ResolvedOnlyWith(Run(m, es).promises.settlements, p, Bool(false))
    ensures ConfirmationFalseSoFar(Run(m, es), p)
    decreases |es|
  {
    if es != [] {
      StepKeepsConfirmationFalse(m, es[0], p);
      ConfirmationFalseUnlessOk(Step(m, es[0]), es[1..], p);
    }
  }

  /** promptConfirmation opens with its fresh promise pending and `false`
      as the result; so without an OK click it resolves to `false` only. */
  lemma PromptConfirmationYieldsFalseUnlessOk(m: Mgr, mp: MsgParms, es: seq<Event>)
    requires Invariant(m)
    requires forall i :: 0 <= i < |es| ==> !es[i].OkClick?
    ensures ResolvedOnlyWith(Run(PromptConfirmation(m, mp), es).promises.settlements, m.promises.promiseCount, Bool(false))
  {
    var p := m.promises.promiseCount;
    var m1 := PromptConfirmation(m, mp);
    PromptConfirmationPreserves(m, mp);
    var s := m1.promises.settlements;
    forall i | 0 <= i < |s| ensures s[i].promise != p {
    }
    ConfirmationFalseUnlessOk(m1, es, p);
  }

  /** Before init no listener is registered: every DOM event and timer leaves
      the state as it is. */
  lemma HandlersInertBeforeInit(m: Mgr, e: Event)
    requires Invariant(m) && !m.initDone && !IsCall(e)
    ensures Step(m, e) == m
  {
  }

  /** On a closable dialog, Cancel, Escape and a click outside the frame all
      close it without fade and resolve it with the result as it stands, that
      is, with the dialog's default result: `undefined` for showMsg and
      promptInput, `false` for promptConfirmation. */
  lemma UserDismissals(m: Mgr)
    requires Invariant(m) && Active(m) && m.slot.activeDialogParms.value.closeEnabled
    ensures Step(m, CancelClick) == CloseDialog(m, false)
    ensures Step(m, KeyDown("Escape")) == CloseDialog(m, false)
    ensures Step(m, KeyDown("Esc")) == CloseDialog(m, false)
    ensures Step(m, RootClick(true)) == CloseDialog(m, false)
    ensures CloseDialog(m, false).promises.settlements == m.promises.settlements + ClosingSettlement(m)
    ensures var dp := m.slot.activeDialogParms.value;
      ClosingSettlement(m) == (if dp.onClose.Some? then [Settled(dp.onClose.value, dp.defaultDialogResult)] else [])
  {
  }

  /** An OK click on the confirmation resolves it with `true`; Cancel,
      Escape and an outside click resolve it with `false`. */
  lemma PromptConfirmationAnswers(m: Mgr, mp: MsgParms, outcome: ProcessorOutcome)
    requires Invariant(m)
    ensures var m1 := PromptConfirmation(m, mp);
      var p := m.promises.promiseCount;
      && Step(m1, OkClick(outcome)).promises.settlements == m1.promises.settlements + [Settled(p, Bool(true))]
      && Step(m1, CancelClick).promises.settlements == m1.promises.settlements + [Settled(p, Bool(false))]
      && Step(m1, KeyDown("Escape")).promises.settlements == m1.promises.settlements + [Settled(p, Bool(false))]
      && Step(m1, RootClick(true)).promises.settlements == m1.promises.settlements + [Settled(p, Bool(false))]
  {
    var m1 := PromptConfirmation(m, mp);
    PromptConfirmationPreserves(m, mp);
    assert ClosingSettlement(m1) == [Settled(m.promises.promiseCount, Bool(false))];
    UserDismissals(m1);
    OkClickOutcomes(m1, outcome);
  }

  /** promptInput: OK with a valid form resolves with the trimmed input; OK
      with an invalid form leaves everything as it was (the dialog stays
      open). */
  lemma PromptInputAnswers(m: Mgr, pp: PromptInputParms, input: string)
    requires Invariant(m)
    ensures var m1 := PromptInput(m, pp);
      var p := m.promises.promiseCount;
      && m1.focus.lastFocused == Some(Explicit)
      && Step(m1, OkClick(Messages.PromptInputProcessor(true, input))).promises.settlements ==
           m1.promises.settlements + [Settled(p, Str(JsText.Trim(input)))]
      && Step(m1, OkClick(Messages.PromptInputProcessor(false, input))) == m1
  {
    var m1 := PromptInput(m, pp);
    PromptInputPreserves(m, pp);
    OkClickOutcomes(m1, Messages.PromptInputProcessor(true, input));
    OkClickOutcomes(m1, Messages.PromptInputProcessor(false, input));
  }

  /** promptInput: Cancel, Escape and an outside click resolve it with
      `undefined`. */
  lemma PromptInputDismissals(m: Mgr, pp: PromptInputParms)
    requires Invariant(m)
    ensures var m1 := PromptInput(m, pp);
      var p := m.promises.promiseCount;
      && Step(m1, CancelClick).promises.settlements == m1.promises.settlements + [Settled(p, Undefined)]
      && Step(m1, KeyDown("Esc")).promises.settlements == m1.promises.settlements + [Settled(p, Undefined)]
      && Step(m1, RootClick(true)).promises.settlements == m1.promises.settlements + [Settled(p, Undefined)]
  {
    var m1 := PromptInput(m, pp);
    PromptInputPreserves(m, pp);
    assert ClosingSettlement(m1) == [Settled(m.promises.promiseCount, Undefined)];
    UserDismissals(m1);
  }

  /** showMsg resolves (with `undefined`) when OK, Escape or an outside click
      closes it. */
  lemma ShowMsgAnswers(m: Mgr, mp: MsgParms, outcome: ProcessorOutcome)
    requires Invariant(m)
    ensures var m1 := ShowMsg(m, mp);
      var p := m.promises.promiseCount;
      && m1.focus.lastFocused == Some(OkButton)
      && Step(m1, OkClick(outcome)).promises.settlements == m1.promises.settlements + [Settled(p, Bool(true))]
      && Step(m1, KeyDown("Escape")).promises.settlements == m1.promises.settlements + [Settled(p, Undefined)]
      && Step(m1, RootClick(true)).promises.settlements == m1.promises.settlements + [Settled(p, Undefined)]
  {
    var m1 := ShowMsg(m, mp);
    ShowMsgPreserves(m, mp);
    assert ClosingSettlement(m1) == [Settled(m.promises.promiseCount, Undefined)];
    UserDismissals(m1);
    OkClickOutcomes(m1, outcome);
  }

  /** Opening a dialog over another one resolves the other's promise with
      its result of the moment, and leaves the new one pending. */
  lemma OpeningReplacesActive(m: Mgr, mp: MsgParms)
    requires Invariant(m) && ActivePromise(m).Some?
    ensures var r := ShowMsg(m, mp);
      && r.promises.settlements == m.promises.settlements + [Settled(ActivePromise(m).value, m.slot.dialogResult)]
      && ActivePromise(r) == Some(m.promises.promiseCount)
  {
  }

  // ---- Fatal error ----------------------------------------------------------

  /** A fatal error shows no buttons and can be dismissed neither by a click
      nor by a key; its title defaults to "Fatal error". */
  lemma FatalErrorCannotBeDismissed(m: Mgr, mp: MsgParms, targetIsRoot: bool, key: string)
    requires Invariant(m)
    ensures var m1 := ShowFatalError(m, mp);
      && m1.slot.activeDialogType == Some(FatalError)
      && !m1.frame.okShown && !m1.frame.cancelShown && !m1.frame.footerShown
      && m1.frame.headerText == (if mp.titleText.Some? then mp.titleText.value else "Fatal error")
      && RootElementClickEventHandler(m1, targetIsRoot) == m1
      && DocumentKeyDownEventHandler(m1, key) == m1
  {
    var dp := Messages.FatalErrorParms(mp);
    assert ShowFatalError(m, mp).slot.activeDialogParms == Some(dp);
  }
}
