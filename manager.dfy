/** The dialog manager as the source writes it: one object whose fields are
    the module-level variables (and the DOM state they drive), and one method
    per function, each updating the fields in place. Every method is proved to
    leave the object in the state the matching transition of DialogMachine
    computes from the old one, and the public entry points and event handlers
    keep the machine's invariant. */
module DialogMgr {
  import opened DialogTypes
  import Messages
  import M = DialogMachine
  import I = DialogInvariants

  class DialogManager {
    /** What init() will find: whether the browser knows CSS animations. */
    const animationCapable: bool

    var initDone: bool
    var animationSupported: bool
    /** `activeDialogType`, `activeDialogParms`, `dialogResult`. */
    var slot: M.Slot
    /** `displayState` and the classes of the root element. */
    var root: M.Root
    /** The header, content, footer and buttons of the frame element. */
    var frame: M.FrameView
    /** The focusin listener and the element last focused. */
    var focus: M.Focus
    /** Calls of `alert`. */
    var alertCount: nat
    /** Promises handed out, and their resolutions in order. */
    var promises: M.Promises
    /** `delayedDisplayTimerId` and `delayedDialogType`. */
    var delayed: M.Delayed
    var progressInfoTitleText: Option<string>
    /** `toastDisplayState`, `toastTimerId` and the toast elements. */
    var toast: M.Toast

    /** The fields as one value of the machine's state. */
    function Snapshot(): M.Mgr
      reads this
    {
      M.Mgr(animationCapable, initDone, animationSupported, slot, root, frame, focus,
            alertCount, promises, delayed, progressInfoTitleText, toast)
    }

    ghost predicate Valid()
      reads this
    {
      M.Invariant(Snapshot())
    }

    /** The manager at page load, before init() ran. */
    constructor (animationCapable: bool)
      ensures Snapshot() == M.Initial(animationCapable) && Valid()
    {
      this.animationCapable := animationCapable;
      initDone, animationSupported := false, false;
      slot := M.Slot(None, None, Undefined);
      root := M.Root(DisplayNone, false, false, false, false);
      frame := M.FrameView(true, "", None, false, true, true, true);
      focus := M.Focus(false, None);
      alertCount := 0;
      promises := M.Promises(0, []);
      delayed := M.Delayed(None, None);
      progressInfoTitleText := None;
      toast := M.Toast(ToastNone, None, "", false, false);
      new;
      I.InitialSatisfiesInvariant(animationCapable);
    }

    // ---- Internal functions ---------------------------------------------------

    method Init()
      modifies this
      ensures Snapshot() == M.Init(old(Snapshot()))
    {
      if initDone {
        return;
      }
      animationSupported := animationCapable;
      root := root.(displayState := DisplayNone);
      initDone := true;
    }

    method SetDisplayState(newDisplayState: DisplayState)
      modifies this
      ensures Snapshot() == M.SetDisplayState(old(Snapshot()), newDisplayState)
    {
      if !initDone || root.displayState == newDisplayState {
        return;
      }
      root := root.(displayState := newDisplayState);
      root := root.(fadeInClass := root.displayState == FadeIn,
                    fadeOutClass := root.displayState == FadeOut && animationSupported,
                    transparentOverlayClass := root.displayState == TransparentOverlay);
    }

    method SetWaitCursor(enabled: bool)
      modifies this
      ensures Snapshot() == M.SetWaitCursor(old(Snapshot()), enabled)
    {
      root := root.(waitCursorClass := enabled);
    }

    /** getAutoFocusElement: reads the active parameters, changes nothing. */
    method GetAutoFocusElement() returns (t: FocusTarget)
      ensures t == M.AutoFocusElement(slot.activeDialogParms)
    {
      var dp := slot.activeDialogParms;
      if dp.None? {
        t := FocusTarget.Frame;
      } else if dp.value.focusElement {
        t := Explicit;
      } else if dp.value.cancelButton {
        t := CancelButton;
      } else if dp.value.okButton {
        t := OkButton;
      } else {
        t := FocusTarget.Frame;
      }
    }

    method CloseDialog(fade: bool)
      modifies this
      ensures Snapshot() == M.CloseDialog(old(Snapshot()), fade)
    {
      if !initDone || slot.activeDialogType.None? {
        return;
      }
      slot := slot.(activeDialogType := None);
      SetDisplayState(if fade then FadeOut else DisplayNone);
      StopFocusJail();
      var dp := slot.activeDialogParms;
      if dp.Some? && dp.value.onClose.Some? {
        promises := promises.(settlements := promises.settlements + [Settled(dp.value.onClose.value, slot.dialogResult)]);
      }
    }

    method UpdateDialog(dp: DialogParms)
      modifies this
      ensures Snapshot() == M.UpdateDialog(old(Snapshot()), dp)
    {
      frame := M.FrameView(
        headerShown := Messages.Truthy(dp.titleText),
        headerText := if dp.titleText.Some? then dp.titleText.value else "",
        content := Some(dp.content),
        wideClass := dp.wide,
        footerShown := dp.okButton || dp.cancelButton,
        okShown := dp.okButton,
        cancelShown := dp.cancelButton);
    }

    method OpenModalDialog(dp: DialogParms)
      modifies this
      ensures Snapshot() == M.OpenModalDialog(old(Snapshot()), dp)
    {
      Init();
      CloseDialog(false);
      UpdateDialog(dp);
      CancelDelayedDisplayTimer();
      slot := M.Slot(Some(dp.dialogType), Some(dp), dp.defaultDialogResult);
      SetDisplayState(FadeIn);
      SetWaitCursor(dp.dialogType == ProgressInfo);
      var t := GetAutoFocusElement();
      focus := focus.(lastFocused := Some(t));
      StartFocusJail();
    }

    // ---- Event handlers -------------------------------------------------------

    method AnimationEndEventHandler()
      requires Valid()
      modifies this
      ensures Snapshot() == M.AnimationEndEventHandler(old(Snapshot())) && Valid()
    {
      if root.displayState == FadeOut {
        SetDisplayState(DisplayNone);
      }
    }

    method RootElementClickEventHandler(targetIsRoot: bool)
      requires Valid()
      modifies this
      ensures Snapshot() == M.RootElementClickEventHandler(old(Snapshot()), targetIsRoot) && Valid()
    {
      I.CloseDialogPreserves(Snapshot(), false);
      if targetIsRoot && slot.activeDialogType.Some? && slot.activeDialogParms.Some? && slot.activeDialogParms.value.closeEnabled {
        CloseDialog(false);
      }
    }

    /** `outcome` is what the dialog's form processor does when called. */
    method OkButtonClickEventHandler(outcome: ProcessorOutcome)
      requires Valid()
      modifies this
      ensures Snapshot() == M.OkButtonClickEventHandler(old(Snapshot()), outcome) && Valid()
    {
      I.OkButtonPreserves(Snapshot(), outcome);
      if !initDone {
        return;
      }
      if slot.activeDialogParms.Some? && slot.activeDialogParms.value.formInputProcessor {
        match outcome
        case Valid(v) =>
          slot := slot.(dialogResult := v);
        case ValidationAbort =>
          return;
        case OtherError =>
          alertCount := alertCount + 1;
          return;
      } else {
        slot := slot.(dialogResult := Bool(true));
      }
      CloseDialog(false);
    }

    method CancelButtonClickEventHandler()
      requires Valid()
      modifies this
      ensures Snapshot() == M.CancelButtonClickEventHandler(old(Snapshot())) && Valid()
    {
      I.CloseDialogPreserves(Snapshot(), false);
      CloseDialog(false);
    }

    /** Returns whether the key's default action was prevented. */
    method DocumentKeyDownEventHandler(key: string) returns (prevented: bool)
      requires Valid()
      modifies this
      ensures Snapshot() == M.DocumentKeyDownEventHandler(old(Snapshot()), key) && Valid()
      ensures prevented == M.KeyDownDefaultPrevented(old(Snapshot()), key)
    {
      I.CloseDialogPreserves(Snapshot(), false);
      prevented := false;
      if !initDone {
        return;
      }
      if slot.activeDialogType.Some? {
        if (key == "Escape" || key == "Esc") && slot.activeDialogParms.Some? && slot.activeDialogParms.value.closeEnabled {
          prevented := true;
          CloseDialog(false);
        }
      }
      if root.displayState == TransparentOverlay {
        prevented := true;
      }
    }

    method StartFocusJail()
      modifies this
      ensures Snapshot() == M.StartFocusJail(old(Snapshot()))
    {
      StopFocusJail();
      focus := focus.(focusJailOn := true);
    }

    method StopFocusJail()
      modifies this
      ensures Snapshot() == M.StopFocusJail(old(Snapshot()))
    {
      focus := focus.(focusJailOn := false);
    }

    /** Returns whether focus was moved back into the dialog. */
    method DocumentFocusInEventHandler(targetIsElement: bool, insideRoot: bool) returns (refocused: bool)
      requires Valid()
      modifies this
      ensures Snapshot() == M.DocumentFocusInEventHandler(old(Snapshot()), targetIsElement, insideRoot) && Valid()
      ensures refocused == M.FocusInRefocuses(old(Snapshot()), targetIsElement, insideRoot)
    {
      refocused := focus.focusJailOn && targetIsElement && !insideRoot;
      if refocused {
        var t := GetAutoFocusElement();
        focus := focus.(lastFocused := Some(t));
      }
    }

    // ---- Delayed display ------------------------------------------------------

    method StartDelayedDisplayTimer(dialogType: DialogType, pending: PendingDisplay)
      modifies this
      ensures Snapshot() == M.StartDelayedDisplayTimer(old(Snapshot()), dialogType, pending)
    {
      CancelDelayedDisplayTimer();
      delayed := delayed.(delayedDialogType := Some(dialogType));
      delayed := delayed.(delayedTimer := Some(pending));
    }

    method CancelDelayedDisplayTimer()
      modifies this
      ensures Snapshot() == M.CancelDelayedDisplayTimer(old(Snapshot()))
    {
      if delayed.delayedTimer.Some? {
        delayed := delayed.(delayedTimer := None);
      }
      delayed := delayed.(delayedDialogType := None);
    }

    /** The delayed-display timer fires (its `timeout` callback). */
    method DelayedDisplayTimeout()
      requires Valid()
      modifies this
      ensures Snapshot() == M.DelayedDisplayTimeout(old(Snapshot())) && Valid()
    {
      I.DelayedDisplayTimeoutPreserves(Snapshot());
      if delayed.delayedTimer.None? {
        return;
      }
      var pending := delayed.delayedTimer.value;
      delayed := delayed.(delayedTimer := None);
      ShowProgressInfoSteps(pending.parms.(delayTime := Some(0)));
    }

    // ---- Public functions -------------------------------------------------------

    method ShowFatalError(mp: MsgParms)
      requires Valid()
      modifies this
      ensures Snapshot() == M.ShowFatalError(old(Snapshot()), mp) && Valid()
    {
      I.ShowFatalErrorPreserves(Snapshot(), mp);
      var dp := Messages.GetDialogParmsFromMsgParms(mp).(dialogType := FatalError);
      if dp.titleText.None? {
        dp := dp.(titleText := Some(Messages.FatalErrorTitle));
      }
      OpenModalDialog(dp);
    }

    method ShowProgressInfo(pp: ProgressInfoParms)
      requires Valid()
      modifies this
      ensures Snapshot() == M.ShowProgressInfo(old(Snapshot()), pp) && Valid()
    {
      I.ShowProgressInfoPreserves(Snapshot(), pp);
      ShowProgressInfoSteps(pp);
    }

    /** The body of showProgressInfo, also run by the delayed timer's callback
      from a state where the timer id is already cleared. */
    method ShowProgressInfoSteps(pp: ProgressInfoParms)
      modifies this
      ensures Snapshot() == M.ShowProgressInfo(old(Snapshot()), pp)
    {
      Init();
      progressInfoTitleText := Messages.RememberedTitle(pp.msg.titleText, progressInfoTitleText);
      if pp.delayTime.Some? && pp.delayTime.value > 0 && slot.activeDialogType.None? {
        SetDisplayState(TransparentOverlay);
        SetWaitCursor(true);
        StartDelayedDisplayTimer(ProgressInfo, PendingDisplay(pp.delayTime.value, pp));
        return;
      }
      var dp := Messages.GetDialogParmsFromMsgParms(pp.msg).(dialogType := ProgressInfo, titleText := progressInfoTitleText);
      if slot.activeDialogType == Some(ProgressInfo) {
        UpdateDialog(dp);
      } else {
        OpenModalDialog(dp);
      }
    }

    method CloseProgressInfo()
      requires Valid()
      modifies this
      ensures Snapshot() == M.CloseProgressInfo(old(Snapshot())) && Valid()
    {
      I.CloseProgressInfoPreserves(Snapshot());
      if !initDone {
        return;
      }
      if delayed.delayedDialogType == Some(ProgressInfo) {
        CancelDelayedDisplayTimer();
      }
      if slot.activeDialogType == Some(ProgressInfo) {
        CloseDialog(true);
      } else if slot.activeDialogType.None? {
        SetDisplayState(DisplayNone);
        SetWaitCursor(false);
      }
      progressInfoTitleText := None;
    }

    /** Returns the promise whose resolution the dialog's closing makes. */
    method ShowMsg(mp: MsgParms) returns (p: PromiseId)
      requires Valid()
      modifies this
      ensures p == old(promises.promiseCount) && Snapshot() == M.ShowMsg(old(Snapshot()), mp) && Valid()
    {
      ghost var s0 := Snapshot();
      I.ShowMsgPreserves(s0, mp);
      p := promises.promiseCount;
      promises := promises.(promiseCount := promises.promiseCount + 1);
      assert Snapshot() == M.NewPromise(s0);
      OpenModalDialog(Messages.MsgDialogParms(mp, p));
    }

    method PromptConfirmation(mp: MsgParms) returns (p: PromiseId)
      requires Valid()
      modifies this
      ensures p == old(promises.promiseCount) && Snapshot() == M.PromptConfirmation(old(Snapshot()), mp) && Valid()
    {
      ghost var s0 := Snapshot();
      I.PromptConfirmationPreserves(s0, mp);
      p := promises.promiseCount;
      promises := promises.(promiseCount := promises.promiseCount + 1);
      assert Snapshot() == M.NewPromise(s0);
      OpenModalDialog(Messages.ConfirmationParms(mp, p));
    }

    method PromptInput(pp: PromptInputParms) returns (p: PromiseId)
      requires Valid()
      modifies this
      ensures p == old(promises.promiseCount) && Snapshot() == M.PromptInput(old(Snapshot()), pp) && Valid()
    {
      ghost var s0 := Snapshot();
      I.PromptInputPreserves(s0, pp);
      p := promises.promiseCount;
      promises := promises.(promiseCount := promises.promiseCount + 1);
      assert Snapshot() == M.NewPromise(s0);
      OpenModalDialog(Messages.PromptInputDialogParms(pp, p));
    }

    // ---- Toast ------------------------------------------------------------------

    method SetToastDisplayState(newDisplayState: ToastDisplayState)
      modifies this
      ensures Snapshot() == M.SetToastDisplayState(old(Snapshot()), newDisplayState)
    {
      toast := toast.(toastFadeInClass := newDisplayState == ToastFadeIn);
      toast := toast.(toastFadeOutClass := newDisplayState == ToastFadeOut && animationSupported);
      toast := toast.(toastDisplayState := newDisplayState);
    }

    method ToastAnimationEndEventHandler()
      requires Valid()
      modifies this
      ensures Snapshot() == M.ToastAnimationEndEventHandler(old(Snapshot())) && Valid()
    {
      if toast.toastDisplayState == ToastFadeOut {
        SetToastDisplayState(ToastNone);
      }
    }

    method ShowToast(tp: ToastParms)
      requires Valid()
      modifies this
      ensures Snapshot() == M.ShowToast(old(Snapshot()), tp) && Valid()
    {
      I.ShowToastPreserves(Snapshot(), tp);
      Init();
      if toast.toastTimer.Some? {
        toast := toast.(toastTimer := None);
      }
      toast := toast.(toastText := tp.msgText);
      SetToastDisplayState(ToastFadeIn);
      var duration := Messages.EffectiveToastDuration(tp.duration);
      toast := toast.(toastTimer := Some(duration));
    }

    /** The toast's timer fires (its `timeout` callback). */
    method ToastTimeout()
      requires Valid()
      modifies this
      ensures Snapshot() == M.ToastTimeout(old(Snapshot())) && Valid()
    {
      if toast.toastTimer.None? {
        return;
      }
      toast := toast.(toastTimer := None);
      SetToastDisplayState(ToastFadeOut);
    }
  }
}
