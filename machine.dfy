/** The overlay state machine of the dialog manager, as pure transitions on a
    snapshot of its module-level variables. Each function here corresponds to
    one function of the source and is the specification the imperative class
    in module DialogMgr is proved against. */
module DialogMachine {
  import opened DialogTypes
  import Messages

  /** `activeDialogType`, `activeDialogParms`, `dialogResult`. The parameters
      stay behind after a close; only the type says whether a dialog is active. */
  datatype Slot = Slot(activeDialogType: Option<DialogType>, activeDialogParms: Option<DialogParms>, dialogResult: Value)

  /** `displayState` and the CSS classes on the root element. */
  datatype Root = Root(displayState: DisplayState, fadeInClass: bool, fadeOutClass: bool,
                       transparentOverlayClass: bool, waitCursorClass: bool)

  /** What updateDialog last rendered into the frame. */
  datatype FrameView = FrameView(headerShown: bool, headerText: string, content: Option<Content>, wideClass: bool,
                         footerShown: bool, okShown: bool, cancelShown: bool)

  /** The focusin listener, and the element focus() was last called on. */
  datatype Focus = Focus(focusJailOn: bool, lastFocused: Option<FocusTarget>)

  /** Promises handed out so far, and the onClose calls made (resolutions). */
  datatype Promises = Promises(promiseCount: nat, settlements: seq<Settlement>)

  /** `delayedDisplayTimerId` (with the callback it will run) and `delayedDialogType`. */
  datatype Delayed = Delayed(delayedTimer: Option<PendingDisplay>, delayedDialogType: Option<DialogType>)

  /** `toastDisplayState`, `toastTimerId` (with its duration), the toast text
      and the classes on the toast root. */
  datatype Toast = Toast(toastDisplayState: ToastDisplayState, toastTimer: Option<int>, toastText: string,
                         toastFadeInClass: bool, toastFadeOutClass: bool)

  /** Every module-level variable the core reads or writes, plus the DOM
      effects it has, each reduced to a flag, an enum or a token.
      `animationCapable` is what init() will detect
      (`rootElement.style.animationName !== undefined`). */
  datatype Mgr = Mgr(
    animationCapable: bool,
    initDone: bool,
    animationSupported: bool,
    slot: Slot,
    root: Root,
    frame: FrameView,
    focus: Focus,
    alertCount: nat,
    promises: Promises,
    delayed: Delayed,
    progressInfoTitleText: Option<string>,
    toast: Toast)

  /** The state at page load, before init() ran. The header, footer and both
      buttons of the HTML template start out displayed. */
  function Initial(animationCapable: bool): Mgr {
    Mgr(animationCapable, false, false,
        Slot(None, None, Undefined),
        Root(DisplayNone, false, false, false, false),
        FrameView(true, "", None, false, true, true, true),
        Focus(false, None),
        0,
        Promises(0, []),
        Delayed(None, None),
        None,
        Toast(ToastNone, None, "", false, false))
  }

  predicate Active(m: Mgr) {
    m.slot.activeDialogType.Some?
  }

  // ---- Invariant ------------------------------------------------------------

  /** The root's classes reflect the display state; fadeOut only with animation. */
  predicate RootClassesMatch(root: Root, animationSupported: bool) {
    && root.fadeInClass == (root.displayState == FadeIn)
    && root.fadeOutClass == (root.displayState == FadeOut && animationSupported)
    && root.transparentOverlayClass == (root.displayState == TransparentOverlay)
  }

  /** The toast: classes match its state, and its single timer is armed
      exactly while it is fading in / shown. */
  predicate ToastInvariant(m: Mgr) {
    && m.toast.toastFadeInClass == (m.toast.toastDisplayState == ToastFadeIn)
    && m.toast.toastFadeOutClass == (m.toast.toastDisplayState == ToastFadeOut && m.animationSupported)
    && (m.toast.toastTimer.Some? <==> m.toast.toastDisplayState == ToastFadeIn)
    && (!m.initDone ==> m.toast.toastDisplayState == ToastNone)
  }

  /** What holds of the active dialog: its parameters are the ones opened,
      its result is still their default (only the OK handler changes it, and
      that closes the dialog), the wait cursor shows iff it is a progress
      dialog, focus was last put on its auto-focus element, and the buttons
      shown are its buttons. */
  predicate ActiveDialogConsistent(m: Mgr)
    requires Active(m)
  {
    var dp := m.slot.activeDialogParms;
    && dp.Some?
    && dp.value.dialogType == m.slot.activeDialogType.value
    && m.slot.dialogResult == dp.value.defaultDialogResult
    && (dp.value.dialogType == ProgressInfo ==> Messages.IsProgressShape(dp.value))
    && m.root.waitCursorClass == (dp.value.dialogType == ProgressInfo)
    && m.focus.lastFocused == Some(AutoFocusElement(dp))
    && m.frame.okShown == dp.value.okButton
    && m.frame.cancelShown == dp.value.cancelButton
  }

  /** The dialog slot: `fadeIn` is showing exactly while a dialog is active,
      and the focus jail is on exactly then. */
  predicate DialogSlotInvariant(m: Mgr) {
    && (!m.initDone ==> m.root.displayState == DisplayNone)
    && (m.root.displayState == FadeIn <==> Active(m))
    && (m.focus.focusJailOn <==> Active(m))
    && (Active(m) ==> ActiveDialogConsistent(m))
  }

  /** The delayed display: a timer is pending exactly while the transparent
      overlay shows; it is always for a progress dialog and keeps the wait
      cursor on. */
  predicate DelayedInvariant(m: Mgr) {
    && (m.root.displayState == TransparentOverlay <==> m.delayed.delayedTimer.Some?)
    && (m.delayed.delayedTimer.Some? <==> m.delayed.delayedDialogType.Some?)
    && (m.delayed.delayedDialogType.Some? ==> m.delayed.delayedDialogType == Some(ProgressInfo))
    && (m.delayed.delayedTimer.Some? ==> m.root.waitCursorClass)
  }

  /** The active dialog's promise, if it has one. */
  function ActivePromise(m: Mgr): Option<PromiseId> {
    if Active(m) && m.slot.activeDialogParms.Some? then m.slot.activeDialogParms.value.onClose else None
  }

  predicate Unsettled(s: seq<Settlement>, p: PromiseId) {
    forall i :: 0 <= i < |s| ==> s[i].promise != p
  }

  /** Every promise is resolved at most once, only promises that were handed
      out are resolved, and the active dialog's promise is still unresolved. */
  predicate SettledOnce(m: Mgr) {
    var s := m.promises.settlements;
    && (forall i :: 0 <= i < |s| ==> s[i].promise < m.promises.promiseCount)
    && (forall i, j :: 0 <= i < j < |s| ==> s[i].promise != s[j].promise)
    && (ActivePromise(m).Some? ==>
          ActivePromise(m).value < m.promises.promiseCount && Unsettled(s, ActivePromise(m).value))
  }

  /** Promise `p` has been resolved. */
  predicate Resolved(s: seq<Settlement>, p: PromiseId) {
    exists i :: 0 <= i < |s| && s[i].promise == p
  }

  /** No promise is lost: each one handed out is pending in the open dialog,
      is `pending` (one handed out but not yet given to a dialog), or has
      been resolved. */
  predicate AllAccountedFor(m: Mgr, pending: Option<PromiseId>) {
    forall p :: 0 <= p < m.promises.promiseCount ==>
      ActivePromise(m) == Some(p) || pending == Some(p) || Resolved(m.promises.settlements, p)
  }

  predicate Invariant(m: Mgr) {
    && RootClassesMatch(m.root, m.animationSupported)
    && ToastInvariant(m)
    && DialogSlotInvariant(m)
    && DelayedInvariant(m)
    && SettledOnce(m)
    && AllAccountedFor(m, None)
  }

  // ---- Internal helpers -----------------------------------------------------

  /** init(): runs once; records animation support and resets the display state. */
  function Init(m: Mgr): Mgr {
    if m.initDone then m
    else m.(animationSupported := m.animationCapable, root := m.root.(displayState := DisplayNone), initDone := true)
  }

  /** setDisplayState on the root: the new state and its three classes. */
  function SetRootDisplay(root: Root, s: DisplayState, animationSupported: bool): (r: Root)
    ensures RootClassesMatch(r, animationSupported) && r.displayState == s
    ensures r.waitCursorClass == root.waitCursorClass
  {
    root.(displayState := s,
          fadeInClass := s == FadeIn,
          fadeOutClass := s == FadeOut && animationSupported,
          transparentOverlayClass := s == TransparentOverlay)
  }

  /** setDisplayState: a no-op before init or when the state is unchanged;
      otherwise it sets the state and the three root classes, and nothing else. */
  function SetDisplayState(m: Mgr, s: DisplayState): Mgr {
    if !m.initDone || m.root.displayState == s then m
    else m.(root := SetRootDisplay(m.root, s, m.animationSupported))
  }

  function SetWaitCursor(m: Mgr, enabled: bool): Mgr {
    m.(root := m.root.(waitCursorClass := enabled))
  }

  /** getAutoFocusElement: the explicit focus element, else the Cancel button
      if shown, else the OK button if shown, else the frame; the frame also
      when no dialog was ever opened. */
  function AutoFocusElement(dp: Option<DialogParms>): (t: FocusTarget)
    ensures dp.None? ==> t == FocusTarget.Frame
    ensures t == Explicit <==> dp.Some? && dp.value.focusElement
    ensures t == CancelButton <==> dp.Some? && !dp.value.focusElement && dp.value.cancelButton
    ensures t == OkButton <==> dp.Some? && !dp.value.focusElement && !dp.value.cancelButton && dp.value.okButton
  {
    if dp.None? then FocusTarget.Frame
    else if dp.value.focusElement then Explicit
    else if dp.value.cancelButton then CancelButton
    else if dp.value.okButton then OkButton
    else FocusTarget.Frame
  }

  function StopFocusJail(m: Mgr): Mgr {
    m.(focus := m.focus.(focusJailOn := false))
  }

  /** startFocusJail: removes the focusin listener, then adds it. */
  function StartFocusJail(m: Mgr): Mgr {
    var m1 := StopFocusJail(m);
    m1.(focus := m1.focus.(focusJailOn := true))
  }

  /** The onClose call that closing the active dialog makes, if it has one. */
  function ClosingSettlement(m: Mgr): seq<Settlement> {
    if m.slot.activeDialogParms.Some? && m.slot.activeDialogParms.value.onClose.Some?
    then [Settled(m.slot.activeDialogParms.value.onClose.value, m.slot.dialogResult)]
    else []
  }

  /** closeDialog: a no-op before init or without an active dialog. Otherwise
      the slot is emptied, the display goes to fadeOut if `fade` and to none
      if not, the focus jail is released and onClose is called exactly once,
      with the current result. */
  function CloseDialog(m: Mgr, fade: bool): (r: Mgr)
    ensures !m.initDone || !Active(m) ==> r == m
    ensures m.initDone && Active(m) ==>
      && !Active(r)
      && r.root.displayState == (if fade then FadeOut else DisplayNone)
      && !r.focus.focusJailOn
      && r.promises.settlements == m.promises.settlements + ClosingSettlement(m)
    ensures r.slot.activeDialogParms == m.slot.activeDialogParms && r.slot.dialogResult == m.slot.dialogResult
    ensures r.delayed == m.delayed && r.toast == m.toast && r.frame == m.frame
    ensures r.root.waitCursorClass == m.root.waitCursorClass
    ensures m.initDone && Active(m) ==>
      r == m.(slot := r.slot, root := r.root, focus := m.focus.(focusJailOn := r.focus.focusJailOn),
              promises := m.promises.(settlements := r.promises.settlements))
  {
    if !m.initDone || !Active(m) then m
    else
      var m1 := m.(slot := m.slot.(activeDialogType := None));
      var m2 := SetDisplayState(m1, if fade then FadeOut else DisplayNone);
      var m3 := StopFocusJail(m2);
      m3.(promises := m3.promises.(settlements := m3.promises.settlements + ClosingSettlement(m)))
  }

  /** updateDialog: renders title, content, width and buttons of `dp`. */
  function UpdateDialog(m: Mgr, dp: DialogParms): Mgr {
    m.(frame := FrameView(
      headerShown := Messages.Truthy(dp.titleText),
      headerText := if dp.titleText.Some? then dp.titleText.value else "",
      content := Some(dp.content),
      wideClass := dp.wide,
      footerShown := dp.okButton || dp.cancelButton,
      okShown := dp.okButton,
      cancelShown := dp.cancelButton))
  }

  function CancelDelayedDisplayTimer(m: Mgr): Mgr {
    m.(delayed := Delayed(None, None))
  }

  /** startDelayedDisplayTimer: cancels any pending timer, then arms the one slot. */
  function StartDelayedDisplayTimer(m: Mgr, dialogType: DialogType, pending: PendingDisplay): Mgr {
    var m1 := CancelDelayedDisplayTimer(m);
    m1.(delayed := Delayed(Some(pending), Some(dialogType)))
  }

  /** openModalDialog: init, a silent close of any active dialog, then `dp`
      is rendered, made active with its default result, the display fades
      in, the wait cursor follows the dialog type, focus goes to the
      auto-focus element and the focus jail starts. */
  function OpenModalDialog(m: Mgr, dp: DialogParms): (r: Mgr)
    ensures r.initDone
    ensures r.slot == Slot(Some(dp.dialogType), Some(dp), dp.defaultDialogResult)
    ensures r.delayed == Delayed(None, None)
    ensures r.root.displayState == FadeIn
    ensures r.root.waitCursorClass == (dp.dialogType == ProgressInfo)
    ensures r.focus == Focus(true, Some(AutoFocusElement(Some(dp))))
    ensures r.frame == FrameView(
      headerShown := Messages.Truthy(dp.titleText),
      headerText := if dp.titleText.Some? then dp.titleText.value else "",
      content := Some(dp.content), wideClass := dp.wide,
      footerShown := dp.okButton || dp.cancelButton,
      okShown := dp.okButton, cancelShown := dp.cancelButton)
    ensures r.promises.settlements ==
      m.promises.settlements + (if Active(m) then ClosingSettlement(m) else [])
    ensures r.promises.promiseCount == m.promises.promiseCount
    ensures r.progressInfoTitleText == m.progressInfoTitleText && r.toast == m.toast && r.alertCount == m.alertCount
    ensures r.animationSupported == Init(m).animationSupported
  {
    var m1 := Init(m);
    var m2 := CloseDialog(m1, false);
    var m3 := UpdateDialog(m2, dp);
    var m4 := CancelDelayedDisplayTimer(m3);
    var m5 := m4.(slot := Slot(Some(dp.dialogType), Some(dp), dp.defaultDialogResult));
    var m6 := SetDisplayState(m5, FadeIn);
    var m7 := SetWaitCursor(m6, dp.dialogType == ProgressInfo);
    var m8 := m7.(focus := m7.focus.(lastFocused := Some(AutoFocusElement(m7.slot.activeDialogParms))));
    StartFocusJail(m8)
  }

  // ---- Event handlers -----------------------------------------------------

  /** animationEndEventHandler: ends a fade-out; does nothing otherwise. */
  function AnimationEndEventHandler(m: Mgr): Mgr {
    if m.root.displayState == FadeOut then SetDisplayState(m, DisplayNone) else m
  }

  /** Whether a click reaching rootElementClickEventHandler closes the dialog. */
  predicate OutsideClickCloses(m: Mgr, targetIsRoot: bool) {
    targetIsRoot && Active(m) && m.slot.activeDialogParms.Some? && m.slot.activeDialogParms.value.closeEnabled
  }

  /** rootElementClickEventHandler: a click on the root itself (outside the
      frame) closes a closable active dialog without fade. */
  function RootElementClickEventHandler(m: Mgr, targetIsRoot: bool): Mgr {
    if OutsideClickCloses(m, targetIsRoot) then CloseDialog(m, false) else m
  }

  /** okButtonClickEventHandler, registered by init. With a form processor:
      a returned value becomes the result and the dialog closes; a validation
      abort changes nothing; any other exception is alerted and also leaves
      the dialog open. Without one, the result is `true` and the dialog closes. */
  function OkButtonClickEventHandler(m: Mgr, outcome: ProcessorOutcome): Mgr {
    if !m.initDone then m
    else if m.slot.activeDialogParms.Some? && m.slot.activeDialogParms.value.formInputProcessor then
      match outcome
      case Valid(v) => CloseDialog(m.(slot := m.slot.(dialogResult := v)), false)
      case ValidationAbort => m
      case OtherError => m.(alertCount := m.alertCount + 1)
    else CloseDialog(m.(slot := m.slot.(dialogResult := Bool(true))), false)
  }

  /** cancelButtonClickEventHandler: closes without fade, result unchanged. */
  function CancelButtonClickEventHandler(m: Mgr): Mgr {
    CloseDialog(m, false)
  }

  predicate IsEscapeKey(key: string) {
    key == "Escape" || key == "Esc"
  }

  /** Whether documentKeyDownEventHandler closes the dialog. */
  predicate EscapeCloses(m: Mgr, key: string) {
    Active(m) && IsEscapeKey(key) && m.slot.activeDialogParms.Some? && m.slot.activeDialogParms.value.closeEnabled
  }

  /** documentKeyDownEventHandler's state change (registered by init). */
  function DocumentKeyDownEventHandler(m: Mgr, key: string): Mgr {
    if !m.initDone then m
    else if EscapeCloses(m, key) then CloseDialog(m, false)
    else m
  }

  /** Whether documentKeyDownEventHandler calls preventDefault: when it closes
      the dialog, and whenever the transparent overlay shows afterwards. */
  predicate KeyDownDefaultPrevented(m: Mgr, key: string) {
    m.initDone && (EscapeCloses(m, key) || DocumentKeyDownEventHandler(m, key).root.displayState == TransparentOverlay)
  }

  /** documentFocusInEventHandler, listening only while the jail is on:
      focus landing on an element outside the root is moved back to the
      auto-focus element. */
  predicate FocusInRefocuses(m: Mgr, targetIsElement: bool, insideRoot: bool) {
    m.focus.focusJailOn && targetIsElement && !insideRoot
  }

  function DocumentFocusInEventHandler(m: Mgr, targetIsElement: bool, insideRoot: bool): Mgr {
    if FocusInRefocuses(m, targetIsElement, insideRoot)
    then m.(focus := m.focus.(lastFocused := Some(AutoFocusElement(m.slot.activeDialogParms))))
    else m
  }

  // ---- Public entry points ------------------------------------------------

  /** showFatalError. */
  function ShowFatalError(m: Mgr, mp: MsgParms): Mgr {
    OpenModalDialog(m, Messages.FatalErrorParms(mp))
  }

  /** The delay that makes showProgressInfo defer: given and positive. */
  predicate DefersDisplay(pp: ProgressInfoParms) {
    pp.delayTime.Some? && pp.delayTime.value > 0
  }

  /** The state after showProgressInfo's first steps: init and the title. */
  function WithRememberedTitle(m: Mgr, pp: ProgressInfoParms): Mgr {
    var m1 := Init(m);
    m1.(progressInfoTitleText := Messages.RememberedTitle(pp.msg.titleText, m1.progressInfoTitleText))
  }

  /** showProgressInfo. The remembered title is updated first. A positive
      delay with no active dialog shows only the transparent overlay and the
      wait cursor and (re)arms the single delayed timer. Otherwise an active
      progress dialog is updated in place, and anything else opens a new
      progress dialog. */
  function ShowProgressInfo(m: Mgr, pp: ProgressInfoParms): Mgr {
    var m2 := WithRememberedTitle(m, pp);
    if DefersDisplay(pp) && !Active(m2) then
      var m3 := SetDisplayState(m2, TransparentOverlay);
      var m4 := SetWaitCursor(m3, true);
      StartDelayedDisplayTimer(m4, ProgressInfo, PendingDisplay(pp.delayTime.value, pp))
    else
      var dp := Messages.ProgressDialogParms(pp.msg, m2.progressInfoTitleText);
      if m2.slot.activeDialogType == Some(ProgressInfo) then UpdateDialog(m2, dp)
      else OpenModalDialog(m2, dp)
  }

  /** The delayed-display timer fires: its id is cleared and showProgressInfo
      is re-called with the same message and delay 0. */
  function DelayedDisplayTimeout(m: Mgr): Mgr {
    match m.delayed.delayedTimer
    case None => m
    case Some(pending) =>
      ShowProgressInfo(m.(delayed := m.delayed.(delayedTimer := None)), pending.parms.(delayTime := Some(0)))
  }

  /** closeProgressInfo. */
  function CloseProgressInfo(m: Mgr): Mgr {
    if !m.initDone then m
    else
      var m1 := if m.delayed.delayedDialogType == Some(ProgressInfo) then CancelDelayedDisplayTimer(m) else m;
      var m2 :=
        if m1.slot.activeDialogType == Some(ProgressInfo) then CloseDialog(m1, true)
        else if !Active(m1) then SetWaitCursor(SetDisplayState(m1, DisplayNone), false)
        else m1;
      m2.(progressInfoTitleText := None)
  }

  /** Hands out the next promise. */
  function NewPromise(m: Mgr): Mgr {
    m.(promises := m.promises.(promiseCount := m.promises.promiseCount + 1))
  }

  /** showMsg: hands out promise `promiseCount` and opens a message dialog. */
  function ShowMsg(m: Mgr, mp: MsgParms): Mgr {
    OpenModalDialog(NewPromise(m), Messages.MsgDialogParms(mp, m.promises.promiseCount))
  }

  /** promptConfirmation. */
  function PromptConfirmation(m: Mgr, mp: MsgParms): Mgr {
    OpenModalDialog(NewPromise(m), Messages.ConfirmationParms(mp, m.promises.promiseCount))
  }

  /** promptInput. */
  function PromptInput(m: Mgr, pp: PromptInputParms): Mgr {
    OpenModalDialog(NewPromise(m), Messages.PromptInputDialogParms(pp, m.promises.promiseCount))
  }

  // ---- Toast ----------------------------------------------------------------

  /** setToastDisplayState: sets the toast's state and its two classes. */
  function SetToastDisplayState(m: Mgr, s: ToastDisplayState): Mgr {
    m.(toast := m.toast.(toastFadeInClass := s == ToastFadeIn,
                         toastFadeOutClass := s == ToastFadeOut && m.animationSupported,
                         toastDisplayState := s))
  }

  /** showToast: cancels the pending auto-hide timer, replaces the text,
      fades in and arms one timer. */
  function ShowToast(m: Mgr, tp: ToastParms): Mgr {
    var m1 := Init(m);
    var m2 := m1.(toast := m1.toast.(toastTimer := None));
    var m3 := m2.(toast := m2.toast.(toastText := tp.msgText));
    var m4 := SetToastDisplayState(m3, ToastFadeIn);
    m4.(toast := m4.toast.(toastTimer := Some(Messages.EffectiveToastDuration(tp.duration))))
  }

  /** The toast's auto-hide timer fires: the toast fades out. */
  function ToastTimeout(m: Mgr): Mgr {
    if m.toast.toastTimer.None? then m
    else SetToastDisplayState(m.(toast := m.toast.(toastTimer := None)), ToastFadeOut)
  }

  /** toastAnimationEndEventHandler: a finished fade-out hides the toast. */
  function ToastAnimationEndEventHandler(m: Mgr): Mgr {
    if m.toast.toastDisplayState == ToastFadeOut then SetToastDisplayState(m, ToastNone) else m
  }

  // ---- Event sequences --------------------------------------------------------

  /** Everything that can happen to the manager: a call of a public function,
      a DOM event reaching one of its handlers, or a timer firing. */
  datatype Event =
    | CallShowFatalError(mp: MsgParms)
    | CallShowProgressInfo(pp: ProgressInfoParms)
    | CallCloseProgressInfo
    | CallShowMsg(mp: MsgParms)
    | CallPromptConfirmation(mp: MsgParms)
    | CallPromptInput(ip: PromptInputParms)
    | CallShowToast(tp: ToastParms)
    | AnimationEnd
    | RootClick(targetIsRoot: bool)
    | OkClick(outcome: ProcessorOutcome)
    | CancelClick
    | KeyDown(key: string)
    | FocusIn(targetIsElement: bool, insideRoot: bool)
    | DelayedTimerFires
    | ToastTimerFires
    | ToastAnimationEnd

  function Step(m: Mgr, e: Event): Mgr {
    match e
    case CallShowFatalError(mp) => ShowFatalError(m, mp)
    case CallShowProgressInfo(pp) => ShowProgressInfo(m, pp)
    case CallCloseProgressInfo => CloseProgressInfo(m)
    case CallShowMsg(mp) => ShowMsg(m, mp)
    case CallPromptConfirmation(mp) => PromptConfirmation(m, mp)
    case CallPromptInput(ip) => PromptInput(m, ip)
    case CallShowToast(tp) => ShowToast(m, tp)
    case AnimationEnd => AnimationEndEventHandler(m)
    case RootClick(t) => RootElementClickEventHandler(m, t)
    case OkClick(o) => OkButtonClickEventHandler(m, o)
    case CancelClick => CancelButtonClickEventHandler(m)
    case KeyDown(k) => DocumentKeyDownEventHandler(m, k)
    case FocusIn(el, inside) => DocumentFocusInEventHandler(m, el, inside)
    case DelayedTimerFires => DelayedDisplayTimeout(m)
    case ToastTimerFires => ToastTimeout(m)
    case ToastAnimationEnd => ToastAnimationEndEventHandler(m)
  }

  function Run(m: Mgr, es: seq<Event>): Mgr
    decreases |es|
  {
    if es == [] then m else Run(Step(m, es[0]), es[1..])
  }
}
