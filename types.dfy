/** Value types shared by the dialog manager model: the enums, the parameter
    records a caller hands to the public functions, and the dialog's own
    parameter record (`DialogParms`). DOM nodes and elements are opaque tokens. */
module DialogTypes {

  datatype Option<+T> = None | Some(value: T)

  /** `DialogType`: what kind of dialog occupies the single dialog slot. */
  datatype DialogType = Prompt | ProgressInfo | FatalError

  /** `DisplayState` of the overlay root element. */
  datatype DisplayState = DisplayNone | FadeIn | FadeOut | TransparentOverlay

  /** `ToastDisplayState` of the toast root element. */
  datatype ToastDisplayState = ToastNone | ToastFadeIn | ToastFadeOut

  /** A dialog result. The source types it `any`; the values it actually takes
      are `undefined`, a boolean and the string a prompt returns. */
  datatype Value = Undefined | Bool(b: bool) | Str(s: string)

  /** A DOM node supplied by a caller (`msgNode`). */
  type NodeId = nat

  /** The identity of a promise handed out by `showMsg`, `promptConfirmation`
      or `promptInput`; its `resolve` function is the dialog's `onClose`. */
  type PromiseId = nat

  /** The element placed into the dialog's content area, kept opaque: only
      which builder made it, and from what, is recorded. */
  datatype Content =
    | TextElement(text: string)        // genContentTextElement
    | FramedHtml(html: string)         // genContentFrameElement(createFragment(html))
    | FramedNode(node: NodeId)         // genContentFrameElement(node)
    | PromptForm(promptText: string)   // the form fragment built by promptInput

  /** `DialogParms`. Optional boolean fields of the source are read only for
      their truthiness, so an absent one is `false` here; `focusElement` and
      `formInputProcessor` record only whether the caller supplied one. */
  datatype DialogParms = DialogParms(
    dialogType: DialogType,
    content: Content,
    wide: bool,
    titleText: Option<string>,
    closeEnabled: bool,
    okButton: bool,
    cancelButton: bool,
    focusElement: bool,
    defaultDialogResult: Value,
    formInputProcessor: bool,
    onClose: Option<PromiseId>)

  /** Where the manager moved keyboard focus: the frame, one of the two footer
      buttons, or the explicit `focusElement` of the active dialog. */
  datatype FocusTarget = Frame | OkButton | CancelButton | Explicit

  /** What a call of the dialog's `formInputProcessor` did: returned a value,
      threw a `FormInputProcessorException`, or threw anything else. */
  datatype ProcessorOutcome = Valid(value: Value) | ValidationAbort | OtherError

  /** One call of a dialog's `onClose`, i.e. one promise resolution. */
  datatype Settlement = Settled(promise: PromiseId, result: Value)

  /** `MsgParms`: `msgText`, `msgHtml` and `msgNode` are alternatives. */
  datatype MsgParms = MsgParms(
    titleText: Option<string>,
    msgText: Option<string>,
    msgHtml: Option<string>,
    msgNode: Option<NodeId>,
    wide: Option<bool>)

  /** `ProgressInfoParms`: a message plus an optional delay in milliseconds. */
  datatype ProgressInfoParms = ProgressInfoParms(msg: MsgParms, delayTime: Option<int>)

  /** `PromptInputParms`. */
  datatype PromptInputParms = PromptInputParms(promptText: string, titleText: Option<string>)

  /** `ToastParms`: text and an optional duration in milliseconds. */
  datatype ToastParms = ToastParms(msgText: string, duration: Option<int>)

  /** The pending delayed-display timer: its delay and the progress parameters
      its callback re-submits. */
  datatype PendingDisplay = PendingDisplay(delayTime: int, parms: ProgressInfoParms)
}
