/** The pure parameter builders of the dialog manager: how a message
    (`MsgParms`) becomes dialog parameters, the fixed settings each public
    entry point adds, the remembered progress title, the toast duration and
    the form processor of the input prompt. */
module Messages {
  import opened DialogTypes
  import JsText

  const NoTextPlaceholder: string := "(no text)"
  const FatalErrorTitle: string := "Fatal error"
  const WideTextLength: nat := 500
  const WideHtmlLength: nat := 800
  const DefaultToastDuration: int := 1500

  /** JavaScript truthiness of an optional string: present and not empty. */
  predicate Truthy(s: Option<string>) {
    s.Some? && s.value != ""
  }

  /** The `content` of getDialogParmsFromMsgParms: the first truthy of
      `msgText`, `msgHtml`, `msgNode`, else a "(no text)" placeholder. */
  function MessageContent(mp: MsgParms): Content {
    if Truthy(mp.msgText) then TextElement(mp.msgText.value)
    else if Truthy(mp.msgHtml) then FramedHtml(mp.msgHtml.value)
    else if mp.msgNode.Some? then FramedNode(mp.msgNode.value)
    else TextElement(NoTextPlaceholder)
  }

  /** The `wide` of getDialogParmsFromMsgParms: an explicit hint wins, else a
      long text (over 500) or long HTML (over 800) is wide. */
  function MessageWide(mp: MsgParms): bool {
    if mp.wide.Some? then mp.wide.value
    else if Truthy(mp.msgText) then |mp.msgText.value| > WideTextLength
    else if Truthy(mp.msgHtml) then |mp.msgHtml.value| > WideHtmlLength
    else false
  }

  /** getDialogParmsFromMsgParms: a plain prompt dialog built from a message.
      It carries the caller's title and no controls, callbacks or result. */
  function GetDialogParmsFromMsgParms(mp: MsgParms): (dp: DialogParms)
    ensures dp.dialogType == Prompt
    ensures dp.titleText == mp.titleText
    ensures dp.content == MessageContent(mp) && dp.wide == MessageWide(mp)
    ensures !dp.closeEnabled && !dp.okButton && !dp.cancelButton && !dp.focusElement
    ensures !dp.formInputProcessor && dp.onClose.None? && dp.defaultDialogResult == Undefined
  {
    DialogParms(
      dialogType := Prompt, content := MessageContent(mp), wide := MessageWide(mp),
      titleText := mp.titleText, closeEnabled := false, okButton := false,
      cancelButton := false, focusElement := false, defaultDialogResult := Undefined,
      formInputProcessor := false, onClose := None)
  }

  /** The parameters showFatalError opens: a fatal-error dialog that the user
      can never dismiss and that has no buttons; its title defaults to
      "Fatal error" only when the caller gave none. */
  function FatalErrorParms(mp: MsgParms): (dp: DialogParms)
    ensures dp.dialogType == FatalError
    ensures !dp.closeEnabled && !dp.okButton && !dp.cancelButton && dp.onClose.None?
    ensures dp.titleText == Some(if mp.titleText.Some? then mp.titleText.value else FatalErrorTitle)
    ensures dp.content == MessageContent(mp) && dp.wide == MessageWide(mp)
  {
    var base := GetDialogParmsFromMsgParms(mp).(dialogType := FatalError);
    if base.titleText.None? then base.(titleText := Some(FatalErrorTitle)) else base
  }

  /** The shape every progress-info dialog has: no controls, no callback. */
  predicate IsProgressShape(dp: DialogParms) {
    && dp.dialogType == ProgressInfo
    && !dp.closeEnabled && !dp.okButton && !dp.cancelButton && !dp.focusElement
    && !dp.formInputProcessor && dp.onClose.None?
  }

  /** The parameters showProgressInfo opens or updates with; the title is the
      remembered one, not the message's own. */
  function ProgressDialogParms(mp: MsgParms, title: Option<string>): (dp: DialogParms)
    ensures IsProgressShape(dp)
    ensures dp.titleText == title && dp.content == MessageContent(mp)
    ensures dp.wide == MessageWide(mp)
  {
    GetDialogParmsFromMsgParms(mp).(dialogType := ProgressInfo, titleText := title)
  }

  /** showMsg: closable, an OK button, resolves promise `p`. */
  function MsgDialogParms(mp: MsgParms, p: PromiseId): (dp: DialogParms)
    ensures dp.dialogType == Prompt && dp.closeEnabled && dp.okButton && !dp.cancelButton
    ensures dp.onClose == Some(p) && dp.defaultDialogResult == Undefined && !dp.formInputProcessor
    ensures dp.content == MessageContent(mp) && dp.titleText == mp.titleText
    ensures dp.wide == MessageWide(mp) && !dp.focusElement
  {
    GetDialogParmsFromMsgParms(mp).(closeEnabled := true, okButton := true, onClose := Some(p))
  }

  /** promptConfirmation: closable, OK and Cancel, default result `false`. */
  function ConfirmationParms(mp: MsgParms, p: PromiseId): (dp: DialogParms)
    ensures dp.dialogType == Prompt && dp.closeEnabled && dp.okButton && dp.cancelButton
    ensures dp.onClose == Some(p) && dp.defaultDialogResult == Bool(false) && !dp.formInputProcessor
    ensures dp.content == MessageContent(mp) && dp.titleText == mp.titleText
    ensures dp.wide == MessageWide(mp) && !dp.focusElement
  {
    GetDialogParmsFromMsgParms(mp).(closeEnabled := true, okButton := true,
      cancelButton := true, defaultDialogResult := Bool(false), onClose := Some(p))
  }

  /** promptInput: the input form, closable, OK and Cancel, focus on the input
      field, a form processor, and an `undefined` default result. */
  function PromptInputDialogParms(pp: PromptInputParms, p: PromiseId): (dp: DialogParms)
    ensures dp.dialogType == Prompt && dp.content == PromptForm(pp.promptText)
    ensures dp.titleText == pp.titleText && !dp.wide
    ensures dp.closeEnabled && dp.okButton && dp.cancelButton && dp.focusElement
    ensures dp.formInputProcessor && dp.onClose == Some(p) && dp.defaultDialogResult == Undefined
  {
    DialogParms(
      dialogType := Prompt, content := PromptForm(pp.promptText), wide := false,
      titleText := pp.titleText, closeEnabled := true, okButton := true,
      cancelButton := true, focusElement := true, defaultDialogResult := Undefined,
      formInputProcessor := true, onClose := Some(p))
  }

  /** The form processor of promptInput, given the browser's validity verdict
      and the field's current value: invalid input aborts, valid input yields
      the value with white space trimmed from both ends. */
  function PromptInputProcessor(formValid: bool, inputValue: string): (r: ProcessorOutcome)
    ensures r.Valid? <==> formValid
    ensures r.OtherError? == false
    ensures r.Valid? ==> r.value.Str? && JsText.IsTrimmed(r.value.s) && |r.value.s| <= |inputValue|
    ensures r.Valid? ==> r.value == Str(JsText.Trim(inputValue))
  {
    JsText.TrimIsTrimmed(inputValue);
    if formValid then Valid(Str(JsText.Trim(inputValue))) else ValidationAbort
  }

  /** `mp.titleText || progressInfoTitleText`. */
  function RememberedTitle(newTitle: Option<string>, previous: Option<string>): Option<string> {
    if Truthy(newTitle) then newTitle else previous
  }

  /** `tp.duration || defaultToastDuration`: a missing or zero duration means
      1500 ms; the timer never gets duration zero. */
  function EffectiveToastDuration(duration: Option<int>): (d: int)
    ensures d != 0
    ensures duration.Some? && duration.value != 0 ==> d == duration.value
    ensures duration.None? || duration.value == 0 ==> d == DefaultToastDuration
  {
    if duration.None? || duration.value == 0 then DefaultToastDuration else duration.value
  }

  // ---- Properties of the message mapping ---------------------------------

  /** Only the first truthy alternative decides the content: once `msgText`
      is given, `msgHtml` and `msgNode` are ignored, and once `msgHtml` is
      given, `msgNode` is. */
  lemma ContentAlternativesIgnored(mp: MsgParms, html: Option<string>, node: Option<NodeId>)
    ensures Truthy(mp.msgText) ==> MessageContent(mp.(msgHtml := html, msgNode := node)) == MessageContent(mp)
    ensures Truthy(mp.msgHtml) ==> MessageContent(mp.(msgNode := node)) == MessageContent(mp)
  {
  }

  /** The "(no text)" placeholder shows exactly when no alternative is given
      (or the text itself is that placeholder). */
  lemma PlaceholderIff(mp: MsgParms)
    ensures MessageContent(mp) == TextElement(NoTextPlaceholder) <==>
      (mp.msgText == Some(NoTextPlaceholder) || (!Truthy(mp.msgText) && !Truthy(mp.msgHtml) && mp.msgNode.None?))
  {
  }

  /** With no explicit width hint, a text message is wide exactly when it is
      longer than 500 characters; an explicit hint always wins. */
  lemma TextWidthBoundary(title: Option<string>, text: string, hint: Option<bool>)
    ensures hint.None? ==> (MessageWide(MsgParms(title, Some(text), None, None, hint)) <==> |text| >= 501)
    ensures hint.Some? ==> MessageWide(MsgParms(title, Some(text), None, None, hint)) == hint.value
  {
  }

  /** The HTML length threshold applies only when there is no message text. */
  lemma HtmlWidthOnlyWithoutText(mp: MsgParms)
    requires mp.wide.None? && !Truthy(mp.msgText) && Truthy(mp.msgHtml)
    ensures MessageWide(mp) <==> |mp.msgHtml.value| > 800
  {
  }
}
