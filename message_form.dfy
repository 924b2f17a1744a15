/**
 * The chat input (frontend/src/components/MessageForm.jsx): the request it builds from the
 * text and image-URL inputs, the guard against sending nothing, and the form state around
 * the request. The server's reply to the request is a parameter.
 */
module MessageForm {
  import opened Common
  import opened Models
  import opened JsString
  import ChatService

  /** The body of the send request: `{content, chat_id, type}`. */
  datatype MessagePayload = MessagePayload(content: string, chatId: int, msgType: string)

  /**
   * The request `handleSubmit` sends, or None when both inputs are blank. A non-blank image
   * URL wins and the text is dropped; the content sent is always trimmed and non-empty.
   */
  function BuildPayload(content: string, imageUrl: string, chatId: int): (p: Option<MessagePayload>)
    ensures p.None? <==> AllWhiteSpace(content) && AllWhiteSpace(imageUrl)
    ensures p.Some? ==> p.value.chatId == chatId
    ensures p.Some? && !AllWhiteSpace(imageUrl) ==> p.value.content == Trim(imageUrl) && p.value.msgType == "image"
    ensures p.Some? && AllWhiteSpace(imageUrl) ==> p.value.content == Trim(content) && p.value.msgType == "text"
    ensures p.Some? ==> p.value.content != []
  {
    var text := Trim(content);
    var url := Trim(imageUrl);
    TrimEmptyIffBlank(content);
    TrimEmptyIffBlank(imageUrl);
    if text == [] && url == [] then None
    else if url != [] then Some(MessagePayload(url, chatId, "image"))
    else Some(MessagePayload(text, chatId, "text"))
  }

  /**
   * The type the form sends is the type the server stores: `send_message` keeps a truthy
   * requested type, and the form always sends 'image' or 'text'. The content sent is
   * already trimmed.
   */
  lemma PayloadTypeIsStored(content: string, imageUrl: string, chatId: int)
    requires BuildPayload(content, imageUrl, chatId).Some?
    ensures var p := BuildPayload(content, imageUrl, chatId).value;
            ChatService.StoredType(Some(p.msgType)) == p.msgType
            && (p.msgType == "image" <==> !AllWhiteSpace(imageUrl))
            && Trim(p.content) == p.content
  {
    if AllWhiteSpace(imageUrl) {
      TrimIdempotent(content);
    } else {
      TrimIdempotent(imageUrl);
    }
  }

  /** The form's state: its two inputs, the sending flag and the error shown. */
  class MessageForm {
    const chatId: int
    var content: string
    var imageUrl: string
    var loading: bool
    var error: Option<string>

    constructor (chatId: int)
      ensures this.chatId == chatId
      ensures content == "" && imageUrl == "" && !loading && error == None
    {
      this.chatId := chatId;
      content := "";
      imageUrl := "";
      loading := false;
      error := None;
    }

    /** `handleSubmit` up to the request: nothing at all when both inputs are blank. */
    method BeginSubmit() returns (sent: Option<MessagePayload>)
      modifies this
      ensures sent == BuildPayload(old(content), old(imageUrl), chatId)
      ensures sent.None? ==> unchanged(this)
      ensures sent.Some? ==> loading && error == None && content == old(content) && imageUrl == old(imageUrl)
    {
      sent := BuildPayload(content, imageUrl, chatId);
      if sent.Some? {
        loading := true;
        error := None;
      }
    }

    /**
     * `handleSubmit` once the server has answered: on success the inputs are cleared and the
     * new message goes to `onMessageSent`; on failure the inputs stay and the error is shown.
     */
    method FinishSubmit(reply: Result<Message, Option<string>>) returns (delivered: Option<Message>)
      modifies this
      ensures reply.Ok? ==> content == "" && imageUrl == "" && error == old(error) && delivered == Some(reply.value)
      ensures reply.Err? ==> content == old(content) && imageUrl == old(imageUrl) && delivered == None
                             && error == Some(OrElse(reply.error, "Failed to send message"))
      ensures !loading
    {
      if reply.Ok? {
        content := "";
        imageUrl := "";
        delivered := Some(reply.value);
      } else {
        error := Some(OrElse(reply.error, "Failed to send message"));
        delivered := None;
      }
      loading := false;
    }

    /** `handleSubmit` from start to end, given the server's reply. */
    method HandleSubmit(reply: Result<Message, Option<string>>) returns (sent: Option<MessagePayload>, delivered: Option<Message>)
      modifies this
      ensures sent == BuildPayload(old(content), old(imageUrl), chatId)
      ensures sent.None? ==> unchanged(this) && delivered == None
      ensures sent.Some? && reply.Ok? ==> content == "" && imageUrl == "" && error == None && !loading
                                          && delivered == Some(reply.value)
      ensures sent.Some? && reply.Err? ==> content == old(content) && imageUrl == old(imageUrl) && !loading
                                           && error == Some(OrElse(reply.error, "Failed to send message")) && delivered == None
    {
      sent := BeginSubmit();
      if sent.None? {
        return sent, None;
      }
      delivered := FinishSubmit(reply);
    }

    /** `handleKeyPress`: Enter submits the form, Shift+Enter does not. */
    method HandleKeyPress(key: string, shiftKey: bool, reply: Result<Message, Option<string>>)
      returns (sent: Option<MessagePayload>, delivered: Option<Message>)
      modifies this
      ensures !(key == "Enter" && !shiftKey) ==> unchanged(this) && sent == None && delivered == None
      ensures key == "Enter" && !shiftKey ==> sent == BuildPayload(old(content), old(imageUrl), chatId)
      ensures sent.None? ==> unchanged(this) && delivered == None
      ensures sent.Some? && reply.Ok? ==> content == "" && imageUrl == "" && error == None && !loading
                                          && delivered == Some(reply.value)
      ensures sent.Some? && reply.Err? ==> content == old(content) && imageUrl == old(imageUrl) && !loading
                                           && error == Some(OrElse(reply.error, "Failed to send message")) && delivered == None
    {
      if key == "Enter" && !shiftKey {
        sent, delivered := HandleSubmit(reply);
      } else {
        sent, delivered := None, None;
      }
    }
  }
}
