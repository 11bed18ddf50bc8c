/** The invariant of module DialogMachine holds in the initial state and is
    kept by every transition, hence by every sequence of events; along any
    run the promise log only grows, so a promise once resolved keeps its
    result and no promise is resolved twice. */
module DialogInvariants {
  import opened DialogTypes
  import Messages
  import opened DialogMachine

  lemma InitialSatisfiesInvariant(animationCapable: bool)
    ensures Invariant(Initial(animationCapable))
    ensures !Active(Initial(animationCapable)) && Initial(animationCapable).promises.settlements == []
  {
  }

  lemma InitPreserves(m: Mgr)
    requires Invariant(m)
    ensures Invariant(Init(m)) && Init(m).initDone
    ensures Init(m).slot == m.slot && Init(m).promises == m.promises && Init(m).delayed == m.delayed
  {
  }

  /** Appending the resolution of an unresolved, handed-out promise keeps the
      log free of double resolutions. */
  lemma AppendFresh(s: seq<Settlement>, count: nat, p: PromiseId, v: Value)
    requires forall i :: 0 <= i < |s| ==> s[i].promise < count
    requires forall i, j :: 0 <= i < j < |s| ==> s[i].promise != s[j].promise
    requires p < count && Unsettled(s, p)
    ensures var t := s + [Settled(p, v)];
      && (forall i :: 0 <= i < |t| ==> t[i].promise < count)
      && (forall i, j :: 0 <= i < j < |t| ==> t[i].promise != t[j].promise)
  {
    var t := s + [Settled(p, v)];
    forall i, j | 0 <= i < j < |t| ensures t[i].promise != t[j].promise {
      if j == |s| {
        assert t[i] == s[i];
      } else {
        assert t[i] == s[i] && t[j] == s[j];
      }
    }
  }

  /** A resolution stays in a log that only grows. */
  lemma ResolvedGrows(s: seq<Settlement>, t: seq<Settlement>, p: PromiseId)
    requires s <= t && Resolved(s, p)
    ensures Resolved(t, p)
  {
    var i :| 0 <= i < |s| && s[i].promise == p;
    assert t[i] == s[i];
  }

  /** A transition that keeps the promise counter, only appends to the log,
      and leaves the old open dialog's promise and the `pending` one either
      pending in the new open dialog or resolved, loses no promise. */
  lemma AccountedCarriesOver(m: Mgr, r: Mgr, pending: Option<PromiseId>)
    requires AllAccountedFor(m, pending)
    requires r.promises.promiseCount == m.promises.promiseCount
    requires m.promises.settlements <= r.promises.settlements
    requires ActivePromise(m).Some? ==>
      ActivePromise(r) == ActivePromise(m) || Resolved(r.promises.settlements, ActivePromise(m).value)
    requires pending.Some? ==> ActivePromise(r) == pending || Resolved(r.promises.settlements, pending.value)
    ensures AllAccountedFor(r, None)
  {
    forall p | 0 <= p < r.promises.promiseCount
      ensures ActivePromise(r) == Some(p) || Resolved(r.promises.settlements, p)
    {
      if Resolved(m.promises.settlements, p) {
        ResolvedGrows(m.promises.settlements, r.promises.settlements, p);
      }
    }
  }

  /** Closing resolves the open dialog's promise. */
  lemma CloseResolvesActive(m: Mgr, fade: bool)
    requires m.initDone && ActivePromise(m).Some?
    ensures Resolved(CloseDialog(m, fade).promises.settlements, ActivePromise(m).value)
  {
    var s := m.promises.settlements;
    var t := CloseDialog(m, fade).promises.settlements;
    assert t == s + [Settled(ActivePromise(m).value, m.slot.dialogResult)];
    assert t[|s|].promise == ActivePromise(m).value;
  }

  /** After a close the slot is empty and the closed dialog's promise, if it
      had one, is resolved for good. */
  lemma CloseDialogPreserves(m: Mgr, fade: bool)
    requires Invariant(m)
    ensures Invariant(CloseDialog(m, fade))
  {
    SetResultThenClosePreserves(m, m.slot.dialogResult, fade);
    assert m.(slot := m.slot.(dialogResult := m.slot.dialogResult)) == m;
  }

  /** The OK handler's close: setting the result first and then closing
      keeps the invariant, whatever the result is. */
  lemma SetResultThenClosePreserves(m: Mgr, v: Value, fade: bool)
    requires Invariant(m)
    ensures Invariant(CloseDialog(m.(slot := m.slot.(dialogResult := v)), fade))
  {
    var m' := m.(slot := m.slot.(dialogResult := v));
    var r := CloseDialog(m', fade);
    if m'.initDone && Active(m') {
      var dp := m'.slot.activeDialogParms.value;
      if dp.onClose.Some? {
        AppendFresh(m'.promises.settlements, m'.promises.promiseCount, dp.onClose.value, v);
        CloseResolvesActive(m', fade);
      }
      assert ActivePromise(r).None?;
    }
    AccountedCarriesOver(m', r, None);
  }

  /** What openModalDialog needs from the dialog it opens: its promise, if
      any, was handed out, is unresolved, and is not the one of the dialog it
      replaces. */
  predicate FreshPromise(m: Mgr, dp: DialogParms) {
    dp.onClose.Some? ==>
      && dp.onClose.value < m.promises.promiseCount
      && Unsettled(m.promises.settlements, dp.onClose.value)
      && ActivePromise(m) != dp.onClose
  }

  /** openModalDialog establishes the invariant from any state whose dialog
      slot, toast and promise log are consistent; a pending delayed display,
      even a half-cancelled one, is cleared by it. */
  lemma OpenPreserves(m: Mgr, dp: DialogParms)
    requires RootClassesMatch(m.root, m.animationSupported) && ToastInvariant(m)
    requires DialogSlotInvariant(m) && SettledOnce(m)
    requires FreshPromise(m, dp) && AllAccountedFor(m, dp.onClose)
    requires dp.dialogType == ProgressInfo ==> Messages.IsProgressShape(dp)
    ensures Invariant(OpenModalDialog(m, dp))
  {
    var r := OpenModalDialog(m, dp);
    var s := m.promises.settlements;
    if Active(m) && ClosingSettlement(m) != [] {
      var q := m.slot.activeDialogParms.value.onClose.value;
      AppendFresh(s, m.promises.promiseCount, q, m.slot.dialogResult);
      assert r.promises.settlements == s + [Settled(q, m.slot.dialogResult)];
      assert r.promises.settlements[|s|].promise == q;
      if dp.onClose.Some? {
        var p := dp.onClose.value;
        assert p != q;
        assert Unsettled(r.promises.settlements, p) by {
          forall i | 0 <= i < |r.promises.settlements| ensures r.promises.settlements[i].promise != p {
            if i < |s| { assert r.promises.settlements[i] == s[i]; }
          }
        }
      }
    } else {
      assert r.promises.settlements == s;
    }
    assert ActivePromise(r) == dp.onClose;
    AccountedCarriesOver(m, r, dp.onClose);
  }

  /** The fresh promise the three prompt functions hand out qualifies; until
      the dialog takes it, it is the one pending promise. */
  lemma NewPromiseIsFresh(m: Mgr, dp: DialogParms)
    requires Invariant(m)
    requires dp.onClose == Some(m.promises.promiseCount)
    ensures var n := NewPromise(m);
      && RootClassesMatch(n.root, n.animationSupported) && ToastInvariant(n)
      && DialogSlotInvariant(n) && SettledOnce(n)
      && FreshPromise(n, dp) && AllAccountedFor(n, dp.onClose)
  {
    var s := m.promises.settlements;
    assert Unsettled(s, m.promises.promiseCount) by {
      forall i | 0 <= i < |s| ensures s[i].promise != m.promises.promiseCount {
        assert s[i].promise < m.promises.promiseCount;
      }
    }
  }

  lemma ShowFatalErrorPreserves(m: Mgr, mp: MsgParms)
    requires Invariant(m)
    ensures Invariant(ShowFatalError(m, mp))
  {
    OpenPreserves(m, Messages.FatalErrorParms(mp));
  }

  lemma ShowMsgPreserves(m: Mgr, mp: MsgParms)
    requires Invariant(m)
    ensures Invariant(ShowMsg(m, mp))
  {
    var dp := Messages.MsgDialogParms(mp, m.promises.promiseCount);
    NewPromiseIsFresh(m, dp);
    OpenPreserves(NewPromise(m), dp);
  }

  lemma PromptConfirmationPreserves(m: Mgr, mp: MsgParms)
    requires Invariant(m)
    ensures Invariant(PromptConfirmation(m, mp))
  {
    var dp := Messages.ConfirmationParms(mp, m.promises.promiseCount);
    NewPromiseIsFresh(m, dp);
    OpenPreserves(NewPromise(m), dp);
  }

  lemma PromptInputPreserves(m: Mgr, pp: PromptInputParms)
    requires Invariant(m)
    ensures Invariant(PromptInput(m, pp))
  {
    var dp := Messages.PromptInputDialogParms(pp, m.promises.promiseCount);
    NewPromiseIsFresh(m, dp);
    OpenPreserves(NewPromise(m), dp);
  }

  /** The non-deferring half of showProgressInfo, from a state whose delayed
      display may have just fired. */
  lemma ProgressOpenOrUpdatePreserves(m: Mgr, pp: ProgressInfoParms)
    requires RootClassesMatch(m.root, m.animationSupported) && ToastInvariant(m)
    requires DialogSlotInvariant(m) && SettledOnce(m) && AllAccountedFor(m, None)
    requires Active(m) ==> DelayedInvariant(m)
    requires !DefersDisplay(pp) || Active(WithRememberedTitle(m, pp))
    ensures Invariant(ShowProgressInfo(m, pp))
  {
    var m2 := WithRememberedTitle(m, pp);
    var dp := Messages.ProgressDialogParms(pp.msg, m2.progressInfoTitleText);
    if m2.slot.activeDialogType == Some(ProgressInfo) {
      assert ShowProgressInfo(m, pp) == UpdateDialog(m2, dp);
    } else {
      OpenPreserves(m2, dp);
    }
  }

  lemma ShowProgressInfoPreserves(m: Mgr, pp: ProgressInfoParms)
    requires Invariant(m)
    ensures Invariant(ShowProgressInfo(m, pp))
  {
    var m2 := WithRememberedTitle(m, pp);
    if DefersDisplay(pp) && !Active(m2) {
      var r := ShowProgressInfo(m, pp);
      assert r.root.displayState == TransparentOverlay;
      assert ActivePromise(r).None?;
    } else {
      ProgressOpenOrUpdatePreserves(m, pp);
    }
  }

  lemma DelayedDisplayTimeoutPreserves(m: Mgr)
    requires Invariant(m)
    ensures Invariant(DelayedDisplayTimeout(m))
  {
    if m.delayed.delayedTimer.Some? {
      var pending := m.delayed.delayedTimer.value;
      var m1 := m.(delayed := m.delayed.(delayedTimer := None));
      ProgressOpenOrUpdatePreserves(m1, pending.parms.(delayTime := Some(0)));
    }
  }

  lemma CloseProgressInfoPreserves(m: Mgr)
    requires Invariant(m)
    ensures Invariant(CloseProgressInfo(m))
  {
    if m.initDone {
      var m1 := if m.delayed.delayedDialogType == Some(ProgressInfo) then CancelDelayedDisplayTimer(m) else m;
      if m1.slot.activeDialogType == Some(ProgressInfo) {
        assert m1 == m;
        CloseDialogPreserves(m, true);
      } else if !Active(m1) {
        var r := CloseProgressInfo(m);
        assert r.root.displayState == DisplayNone && r.delayed == Delayed(None, None);
      }
    }
  }

  lemma OkButtonPreserves(m: Mgr, outcome: ProcessorOutcome)
    requires Invariant(m)
    ensures Invariant(OkButtonClickEventHandler(m, outcome))
  {
    if m.initDone {
      if m.slot.activeDialogParms.Some? && m.slot.activeDialogParms.value.formInputProcessor {
        if outcome.Valid? {
          SetResultThenClosePreserves(m, outcome.value, false);
        }
      } else {
        SetResultThenClosePreserves(m, Bool(true), false);
      }
    }
  }

  lemma ShowToastPreserves(m: Mgr, tp: ToastParms)
    requires Invariant(m)
    ensures Invariant(ShowToast(m, tp))
  {
    InitPreserves(m);
  }

  predicate IsCall(e: Event) {
    || e.CallShowFatalError? || e.CallShowProgressInfo? || e.CallCloseProgressInfo? || e.CallShowMsg?
    || e.CallPromptConfirmation? || e.CallPromptInput? || e.CallShowToast?
  }

  /** Every call of a public function keeps the invariant. */
  lemma CallPreserves(m: Mgr, e: Event)
    requires Invariant(m) && IsCall(e)
    ensures Invariant(Step(m, e))
  {
    match e
    case CallShowFatalError(mp) => ShowFatalErrorPreserves(m, mp);
    case CallShowProgressInfo(pp) => ShowProgressInfoPreserves(m, pp);
    case CallCloseProgressInfo => CloseProgressInfoPreserves(m);
    case CallShowMsg(mp) => ShowMsgPreserves(m, mp);
    case CallPromptConfirmation(mp) => PromptConfirmationPreserves(m, mp);
    case CallPromptInput(ip) => PromptInputPreserves(m, ip);
    case CallShowToast(tp) => ShowToastPreserves(m, tp);
  }

  /** Every DOM event and timer keeps the invariant. */
  lemma HandlerPreserves(m: Mgr, e: Event)
    requires Invariant(m) && !IsCall(e)
    ensures Invariant(Step(m, e))
  {
    match e
    case AnimationEnd =>
    case RootClick(t) => CloseDialogPreserves(m, false);
    case OkClick(o) => OkButtonPreserves(m, o);
    case CancelClick => CloseDialogPreserves(m, false);
    case KeyDown(k) => CloseDialogPreserves(m, false);
    case FocusIn(el, inside) =>
    case DelayedTimerFires => DelayedDisplayTimeoutPreserves(m);
    case ToastTimerFires =>
    case ToastAnimationEnd =>
  }

  /** Every event keeps the invariant. */
  lemma StepPreserves(m: Mgr, e: Event)
    requires Invariant(m)
    ensures Invariant(Step(m, e))
  {
    if IsCall(e) {
      CallPreserves(m, e);
    } else {
      HandlerPreserves(m, e);
    }
  }

  /** Every sequence of events keeps the invariant. */
  lemma {:induction false} RunPreserves(m: Mgr, es: seq<Event>)
    requires Invariant(m)
    ensures Invariant(Run(m, es))
    decreases |es|
  {
    if es != [] {
      StepPreserves(m, es[0]);
      RunPreserves(Step(m, es[0]), es[1..]);
    }
  }

  /** Whatever happens after page load, no promise is resolved twice, only
      promises handed out are resolved, and the open dialog's promise is
      still pending. */
  lemma ReachableSettledOnce(animationCapable: bool, es: seq<Event>)
    ensures Invariant(Run(Initial(animationCapable), es))
    ensures SettledOnce(Run(Initial(animationCapable), es))
    ensures var r := Run(Initial(animationCapable), es);
      forall p :: 0 <= p < r.promises.promiseCount && ActivePromise(r) != Some(p) ==>
        ResolvedOnce(r.promises.settlements, p)
  {
    InitialSatisfiesInvariant(animationCapable);
    RunPreserves(Initial(animationCapable), es);
    var r := Run(Initial(animationCapable), es);
    forall p | 0 <= p < r.promises.promiseCount && ActivePromise(r) != Some(p)
      ensures ResolvedOnce(r.promises.settlements, p)
    {
      DistinctResolvedOnce(r.promises.settlements, p);
    }
  }

  /** Promise `p` has been resolved, and only once. */
  predicate ResolvedOnce(s: seq<Settlement>, p: PromiseId) {
    exists i :: 0 <= i < |s| && s[i].promise == p &&
      forall j :: 0 <= j < |s| && s[j].promise == p ==> j == i
  }

  lemma DistinctResolvedOnce(s: seq<Settlement>, p: PromiseId)
    requires forall i, j :: 0 <= i < j < |s| ==> s[i].promise != s[j].promise
    requires Resolved(s, p)
    ensures ResolvedOnce(s, p)
  {
    var i :| 0 <= i < |s| && s[i].promise == p;
    forall j | 0 <= j < |s| && s[j].promise == p ensures j == i {
    }
  }

  /** Only the promise log and counter matter for growth. */
  predicate LogGrows(m: Mgr, r: Mgr) {
    m.promises.settlements <= r.promises.settlements && m.promises.promiseCount <= r.promises.promiseCount
  }

  lemma ShowProgressInfoGrowsLog(m: Mgr, pp: ProgressInfoParms)
    ensures LogGrows(m, ShowProgressInfo(m, pp))
  {
    var m2 := WithRememberedTitle(m, pp);
    assert m2.promises == m.promises;
  }

  lemma CloseProgressInfoGrowsLog(m: Mgr)
    ensures LogGrows(m, CloseProgressInfo(m))
  {
  }

  lemma OkButtonGrowsLog(m: Mgr, outcome: ProcessorOutcome)
    ensures LogGrows(m, OkButtonClickEventHandler(m, outcome))
  {
  }

  lemma CallGrowsLog(m: Mgr, e: Event)
    requires IsCall(e)
    ensures m.promises.settlements <= Step(m, e).promises.settlements
    ensures m.promises.promiseCount <= Step(m, e).promises.promiseCount
  {
    match e
    case CallShowProgressInfo(pp) => ShowProgressInfoGrowsLog(m, pp);
    case CallCloseProgressInfo => CloseProgressInfoGrowsLog(m);
    case _ =>
  }

  lemma HandlerGrowsLog(m: Mgr, e: Event)
    requires !IsCall(e)
    ensures m.promises.settlements <= Step(m, e).promises.settlements
    ensures m.promises.promiseCount <= Step(m, e).promises.promiseCount
  {
    match e
    case OkClick(o) => OkButtonGrowsLog(m, o);
    case DelayedTimerFires =>
      if m.delayed.delayedTimer.Some? {
        ShowProgressInfoGrowsLog(m.(delayed := m.delayed.(delayedTimer := None)),
                                 m.delayed.delayedTimer.value.parms.(delayTime := Some(0)));
      }
    case _ =>
  }

  /** No event takes back a resolution or hands a promise id out again. */
  lemma StepGrowsLog(m: Mgr, e: Event)
    ensures m.promises.settlements <= Step(m, e).promises.settlements
    ensures m.promises.promiseCount <= Step(m, e).promises.promiseCount
  {
    if IsCall(e) {
      CallGrowsLog(m, e);
    } else {
      HandlerGrowsLog(m, e);
    }
  }

  lemma {:induction false} RunGrowsLog(m: Mgr, es: seq<Event>)
    ensures m.promises.settlements <= Run(m, es).promises.settlements
    ensures m.promises.promiseCount <= Run(m, es).promises.promiseCount
    decreases |es|
  {
    if es != [] {
      StepGrowsLog(m, es[0]);
      RunGrowsLog(Step(m, es[0]), es[1..]);
    }
  }

  /** Running two sequences one after the other is running their concatenation. */
  lemma {:induction false} RunConcat(m: Mgr, es: seq<Event>, fs: seq<Event>)
    ensures Run(m, es + fs) == Run(Run(m, es), fs)
    decreases |es|
  {
    if es == [] {
      assert es + fs == fs;
    } else {
      assert (es + fs)[0] == es[0] && (es + fs)[1..] == es[1..] + fs;
      RunConcat(Step(m, es[0]), es[1..], fs);
    }
  }
}
