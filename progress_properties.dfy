/** Properties of the progress-info popup (its delayed display, in-place
    update, remembered title and closing) and of the toast. */
module ProgressProperties {
  import opened DialogTypes
  import Messages
  import opened DialogMachine
  import opened DialogInvariants

  // ---- Remembered title -----------------------------------------------------

  /** No call after position `i` gives a non-empty title. */
  predicate NoTitleAfter(pps: seq<ProgressInfoParms>, i: int) {
    forall j :: 0 <= j < |pps| && i < j ==> !Messages.Truthy(pps[j].msg.titleText)
  }

  /** The title a sequence of showProgressInfo calls leaves behind: the last
      non-empty one, else the one remembered before. */
  function LastTitle(pps: seq<ProgressInfoParms>, previous: Option<string>): (t: Option<string>)
    ensures t == previous || exists i :: 0 <= i < |pps| && Messages.Truthy(pps[i].msg.titleText) && t == pps[i].msg.titleText
    ensures NoTitleAfter(pps, -1) ==> t == previous
    ensures forall i :: 0 <= i < |pps| && Messages.Truthy(pps[i].msg.titleText) && NoTitleAfter(pps, i) ==>
      t == pps[i].msg.titleText
    decreases |pps|
  {
    if pps == [] then previous
    else
      var front := pps[..|pps| - 1];
      var t := LastTitle(front, previous);
      assert forall i :: -1 <= i < |front| && NoTitleAfter(pps, i) ==> NoTitleAfter(front, i);
      Messages.RememberedTitle(pps[|pps| - 1].msg.titleText, t)
  }

  function ProgressCalls(pps: seq<ProgressInfoParms>): (es: seq<Event>)
    ensures |es| == |pps| && forall i :: 0 <= i < |pps| ==> es[i] == CallShowProgressInfo(pps[i])
  {
    if pps == [] then [] else [CallShowProgressInfo(pps[0])] + ProgressCalls(pps[1..])
  }

  lemma ShowProgressInfoTitle(m: Mgr, pp: ProgressInfoParms)
    ensures ShowProgressInfo(m, pp).progressInfoTitleText == Messages.RememberedTitle(pp.msg.titleText, m.progressInfoTitleText)
  {
    var m2 := WithRememberedTitle(m, pp);
    assert m2.progressInfoTitleText == Messages.RememberedTitle(pp.msg.titleText, m.progressInfoTitleText);
  }

  /** Across any number of showProgressInfo calls the popup keeps the last
      non-empty title it was given; a call without one keeps the previous. */
  lemma {:induction false} RememberedTitleIsLastGiven(m: Mgr, pps: seq<ProgressInfoParms>)
    ensures Run(m, ProgressCalls(pps)).progressInfoTitleText == LastTitle(pps, m.progressInfoTitleText)
    decreases |pps|
  {
    if pps != [] {
      var n := |pps| - 1;
      var front := pps[..n];
      assert pps == front + [pps[n]];
      ProgressCallsConcat(front, [pps[n]]);
      RunConcat(m, ProgressCalls(front), ProgressCalls([pps[n]]));
      RememberedTitleIsLastGiven(m, front);
      var m1 := Run(m, ProgressCalls(front));
      ShowProgressInfoTitle(m1, pps[n]);
      assert ProgressCalls([pps[n]]) == [CallShowProgressInfo(pps[n])];
      assert Run(m1, [CallShowProgressInfo(pps[n])]) == ShowProgressInfo(m1, pps[n]);
    }
  }

  lemma ProgressCallsConcat(a: seq<ProgressInfoParms>, b: seq<ProgressInfoParms>)
    ensures ProgressCalls(a + b) == ProgressCalls(a) + ProgressCalls(b)
  {
  }

  // ---- Delayed display -------------------------------------------------------

  /** With a positive delay and no dialog open, showProgressInfo opens
      nothing: it shows the transparent overlay with the wait cursor and arms
      the one delayed timer for this message; the dialog frame is untouched
      and no promise is resolved. */
  lemma DeferredShowsOverlayOnly(m: Mgr, pp: ProgressInfoParms)
    requires Invariant(m) && !Active(m) && DefersDisplay(pp)
    ensures var r := ShowProgressInfo(m, pp);
      && !Active(r)
      && r.root.displayState == TransparentOverlay && r.root.transparentOverlayClass && r.root.waitCursorClass
      && r.delayed == Delayed(Some(PendingDisplay(pp.delayTime.value, pp)), Some(ProgressInfo))
      && r.frame == m.frame && r.promises == m.promises && r.toast == m.toast
  {
  }

  /** A second delayed call restarts the timer: only the latest message is
      pending, and there is still one timer. */
  lemma RestartKeepsOnlyLatest(m: Mgr, pp1: ProgressInfoParms, pp2: ProgressInfoParms)
    requires Invariant(m) && !Active(m) && DefersDisplay(pp1) && DefersDisplay(pp2)
    ensures ShowProgressInfo(ShowProgressInfo(m, pp1), pp2).delayed ==
      Delayed(Some(PendingDisplay(pp2.delayTime.value, pp2)), Some(ProgressInfo))
  {
    DeferredShowsOverlayOnly(m, pp1);
    ShowProgressInfoPreserves(m, pp1);
    DeferredShowsOverlayOnly(ShowProgressInfo(m, pp1), pp2);
  }

  /** When the delayed timer fires, the pending message opens as a progress
      popup with the remembered title, nothing more is pending, and a second
      firing does nothing. */
  lemma DelayedFireOpensProgress(m: Mgr)
    requires Invariant(m) && m.delayed.delayedTimer.Some?
    ensures var pd := m.delayed.delayedTimer.value;
      var r := DelayedDisplayTimeout(m);
      && r.slot.activeDialogType == Some(ProgressInfo)
      && r.frame.content == Some(Messages.MessageContent(pd.parms.msg))
      && r.frame.headerText == (if r.progressInfoTitleText.Some? then r.progressInfoTitleText.value else "")
      && r.progressInfoTitleText == Messages.RememberedTitle(pd.parms.msg.titleText, m.progressInfoTitleText)
      && r.root.displayState == FadeIn && r.root.waitCursorClass
      && r.delayed == Delayed(None, None)
      && r.promises == m.promises
      && DelayedDisplayTimeout(r) == r
  {
    var pd := m.delayed.delayedTimer.value;
    var m1 := m.(delayed := m.delayed.(delayedTimer := None));
    var pp := pd.parms.(delayTime := Some(0));
    var m2 := WithRememberedTitle(m1, pp);
    assert !Active(m2);
    var dp := Messages.ProgressDialogParms(pp.msg, m2.progressInfoTitleText);
    assert DelayedDisplayTimeout(m) == OpenModalDialog(m2, dp);
  }

  /** Two delayed calls and then the timer: exactly one popup opens, showing
      the second message. */
  lemma TwoDelayedCallsOpenOnce(m: Mgr, pp1: ProgressInfoParms, pp2: ProgressInfoParms)
    requires Invariant(m) && !Active(m) && DefersDisplay(pp1) && DefersDisplay(pp2)
    ensures var r := Run(m, [CallShowProgressInfo(pp1), CallShowProgressInfo(pp2), DelayedTimerFires]);
      && r.slot.activeDialogType == Some(ProgressInfo)
      && r.frame.content == Some(Messages.MessageContent(pp2.msg))
      && r.delayed == Delayed(None, None)
      && Step(r, DelayedTimerFires) == r
  {
    var m1 := ShowProgressInfo(m, pp1);
    var m2 := ShowProgressInfo(m1, pp2);
    RestartKeepsOnlyLatest(m, pp1, pp2);
    ShowProgressInfoPreserves(m, pp1);
    ShowProgressInfoPreserves(m1, pp2);
    DelayedFireOpensProgress(m2);
    RunOfThree(m, CallShowProgressInfo(pp1), CallShowProgressInfo(pp2), DelayedTimerFires);
  }

  /** Running three events is stepping through them in order. */
  lemma RunOfThree(m: Mgr, a: Event, b: Event, c: Event)
    ensures Run(m, [a, b, c]) == Step(Step(Step(m, a), b), c)
  {
    var es := [a, b, c];
    var m1 := Step(m, a);
    var m2 := Step(m1, b);
    assert es[1..] == [b, c] && [b, c][1..] == [c] && [c][1..] == [];
    assert Run(m2, [c]) == Run(Step(m2, c), []);
    assert Run(m1, [b, c]) == Run(m2, [c]);
    assert Run(m, es) == Run(m1, [b, c]);
  }

  /** closeProgressInfo inside the delay window: the overlay goes, the wait
      cursor goes, the title is forgotten, and the timer never fires. */
  lemma CloseWithinDelayPreventsOpen(m: Mgr, pp: ProgressInfoParms)
    requires Invariant(m) && !Active(m) && DefersDisplay(pp)
    ensures var r := CloseProgressInfo(ShowProgressInfo(m, pp));
      && !Active(r)
      && r.root.displayState == DisplayNone && !r.root.waitCursorClass
      && r.delayed == Delayed(None, None)
      && r.progressInfoTitleText.None?
      && r.promises == m.promises
      && DelayedDisplayTimeout(r) == r
  {
    DeferredShowsOverlayOnly(m, pp);
  }

  /** An open progress popup is updated in place: the same dialog stays
      active, nothing is closed or resolved, only the rendered message changes. */
  lemma ActiveProgressUpdatedInPlace(m: Mgr, pp: ProgressInfoParms)
    requires Invariant(m) && m.slot.activeDialogType == Some(ProgressInfo)
    ensures var r := ShowProgressInfo(m, pp);
      && r == m.(frame := r.frame, progressInfoTitleText := r.progressInfoTitleText)
      && r.slot == m.slot && r.root == m.root && r.focus == m.focus
      && r.promises == m.promises && r.delayed == m.delayed
      && r.frame.content == Some(Messages.MessageContent(pp.msg))
      && r.frame.wideClass == Messages.MessageWide(pp.msg)
      && r.progressInfoTitleText == Messages.RememberedTitle(pp.msg.titleText, m.progressInfoTitleText)
      && r.frame.headerText == (if r.progressInfoTitleText.Some? then r.progressInfoTitleText.value else "")
  {
  }

  /** Any other open dialog is replaced at once, even when a delay is given:
      it is closed, resolving its promise with its result of the moment. */
  lemma ProgressReplacesOtherDialog(m: Mgr, pp: ProgressInfoParms)
    requires Invariant(m) && Active(m) && m.slot.activeDialogType != Some(ProgressInfo)
    ensures var r := ShowProgressInfo(m, pp);
      && r.slot.activeDialogType == Some(ProgressInfo)
      && r.promises.settlements == m.promises.settlements + ClosingSettlement(m)
  {
    var m2 := WithRememberedTitle(m, pp);
    assert m2.slot == m.slot && m2.promises == m.promises;
  }

  // ---- closeProgressInfo ------------------------------------------------------

  /** closeProgressInfo does nothing before init. After it, no progress popup
      is open or pending and the title is forgotten: an open popup fades out,
      and with no dialog open the overlay and the wait cursor are reset. A
      dialog of another type stays open. It never resolves a promise. */
  lemma CloseProgressInfoEffect(m: Mgr)
    requires Invariant(m)
    ensures !m.initDone ==> CloseProgressInfo(m) == m
    ensures var r := CloseProgressInfo(m);
      && r.promises == m.promises
      && (m.initDone ==> r.progressInfoTitleText.None? && r.delayed == Delayed(None, None))
      && (m.initDone && m.slot.activeDialogType == Some(ProgressInfo) ==>
            !Active(r) && r.root.displayState == FadeOut)
      && (m.initDone && !Active(m) ==> r.root.displayState == DisplayNone && !r.root.waitCursorClass)
      && (Active(m) && m.slot.activeDialogType != Some(ProgressInfo) ==> r.slot == m.slot && r.root == m.root)
  {
  }

  /** A second call resolves nothing either, and from the third call on
      nothing changes at all. */
  lemma CloseProgressInfoSettles(m: Mgr)
    requires Invariant(m)
    ensures var r1 := CloseProgressInfo(m);
      var r2 := CloseProgressInfo(r1);
      && r2.promises == m.promises
      && CloseProgressInfo(r2) == r2
  {
    CloseProgressInfoPreserves(m);
    CloseProgressInfoEffect(m);
    var r1 := CloseProgressInfo(m);
    CloseProgressInfoEffect(r1);
  }
}

/** Properties of the toast. */
module ToastProperties {
  import opened DialogTypes
  import Messages
  import opened DialogMachine

  /** showToast replaces the text, fades in, and arms one timer for the given
      duration, or 1500 ms when it is missing or 0; the dialog part of the
      state is not touched beyond init. */
  lemma ShowToastEffect(m: Mgr, tp: ToastParms)
    ensures var r := ShowToast(m, tp);
      && r.toast == Toast(ToastFadeIn, Some(Messages.EffectiveToastDuration(tp.duration)), tp.msgText, true, false)
      && r == Init(m).(toast := r.toast)
  {
  }

  /** A toast shown over another leaves no trace of the first: its timer is
      cancelled and only the second one's is pending. */
  lemma SupersededToastLeavesNoTrace(m: Mgr, a: ToastParms, b: ToastParms)
    ensures ShowToast(ShowToast(m, a), b) == ShowToast(m, b)
  {
  }

  /** The timer fades out the toast on display, and fires once. */
  lemma ToastTimerFadesOutLatest(m: Mgr, a: ToastParms, b: ToastParms)
    ensures var r := ToastTimeout(ShowToast(ShowToast(m, a), b));
      && r.toast.toastDisplayState == ToastFadeOut && r.toast.toastText == b.msgText
      && r.toast.toastTimer.None?
      && ToastTimeout(r) == r
  {
    SupersededToastLeavesNoTrace(m, a, b);
  }

  /** Shown, timed out and animated out, a toast is hidden again with no
      class left on it; animation end does nothing while it is fading in. */
  lemma ToastLifecycle(m: Mgr, tp: ToastParms)
    ensures var shown := ShowToast(m, tp);
      var hidden := ToastAnimationEndEventHandler(ToastTimeout(shown));
      && ToastAnimationEndEventHandler(shown) == shown
      && hidden.toast.toastDisplayState == ToastNone
      && !hidden.toast.toastFadeInClass && !hidden.toast.toastFadeOutClass
      && hidden.toast.toastText == tp.msgText
  {
  }
}
