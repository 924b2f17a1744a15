/**
 * The new-post dialog (frontend/src/components/CreatePostModal.jsx): validation of the
 * inputs, the request it builds, and the dialog state around the request. The server's
 * reply to the request is a parameter.
 */
module CreatePostModal {
  import opened Common
  import opened JsString

  /** The body of the create request: `{content, community_id, media_url, media_type}`. */
  datatype PostPayload = PostPayload(content: string, communityId: int, mediaUrl: Option<string>, mediaType: Option<string>)

  const ContentRequired := "Post content is required"

  /**
   * The request `handleSubmit` sends, or the validation error when the content is blank.
   * The media URL is sent trimmed or as `null`, and the media type is 'image' exactly when a
   * URL is sent.
   */
  function BuildPostPayload(content: string, mediaUrl: string, communityId: int): (r: Result<PostPayload, string>)
    ensures r.Err? <==> AllWhiteSpace(content)
    ensures r.Err? ==> r.error == ContentRequired
    ensures r.Ok? ==> r.value.content == Trim(content) && r.value.content != [] && r.value.communityId == communityId
    ensures r.Ok? ==> (r.value.mediaUrl.None? <==> AllWhiteSpace(mediaUrl))
    ensures r.Ok? && r.value.mediaUrl.Some? ==> r.value.mediaUrl.value == Trim(mediaUrl) && r.value.mediaUrl.value != []
    ensures r.Ok? ==> (r.value.mediaType.Some? <==> r.value.mediaUrl.Some?)
    ensures r.Ok? && r.value.mediaType.Some? ==> r.value.mediaType.value == "image"
  {
    TrimEmptyIffBlank(content);
    TrimEmptyIffBlank(mediaUrl);
    if Trim(content) == [] then Err(ContentRequired)
    else
      var url := if Trim(mediaUrl) != [] then Some(Trim(mediaUrl)) else None;
      var kind := if Trim(mediaUrl) != [] then Some("image") else None;
      Ok(PostPayload(Trim(content), communityId, url, kind))
  }

  /** The dialog's state: its two inputs, the sending flag and the error shown. */
  class CreatePostModal {
    const communityId: int
    var content: string
    var mediaUrl: string
    var loading: bool
    var error: Option<string>

    constructor (communityId: int)
      ensures this.communityId == communityId
      ensures content == "" && mediaUrl == "" && !loading && error == None
    {
      this.communityId := communityId;
      content := "";
      mediaUrl := "";
      loading := false;
      error := None;
    }

    /** `handleSubmit` up to the request: a blank content only shows the validation error. */
    method BeginSubmit() returns (sent: Option<PostPayload>)
      modifies this
      ensures var built := BuildPostPayload(old(content), old(mediaUrl), communityId);
              (built.Err? ==> sent == None && error == Some(ContentRequired) && loading == old(loading))
              && (built.Ok? ==> sent == Some(built.value) && error == None && loading)
      ensures content == old(content) && mediaUrl == old(mediaUrl)
    {
      var built := BuildPostPayload(content, mediaUrl, communityId);
      if built.Err? {
        error := Some(built.error);
        sent := None;
      } else {
        loading := true;
        error := None;
        sent := Some(built.value);
      }
    }

    /**
     * `handleSubmit` once the server has answered: on success the inputs are cleared and
     * `onSuccess` then `onClose` are called; on failure the inputs stay and the error is shown.
     * `callbacks` lists the parent's callbacks in the order they are called.
     */
    method FinishSubmit(reply: Result<(), Option<string>>) returns (callbacks: seq<string>)
      modifies this
      ensures reply.Ok? ==> content == "" && mediaUrl == "" && error == old(error) && callbacks == ["onSuccess", "onClose"]
      ensures reply.Err? ==> content == old(content) && mediaUrl == old(mediaUrl) && callbacks == []
                             && error == Some(OrElse(reply.error, "Failed to create post"))
      ensures !loading
    {
      if reply.Ok? {
        content := "";
        mediaUrl := "";
        callbacks := ["onSuccess", "onClose"];
      } else {
        error := Some(OrElse(reply.error, "Failed to create post"));
        callbacks := [];
      }
      loading := false;
    }

    /** `handleSubmit` from start to end, given the server's reply. */
    method HandleSubmit(reply: Result<(), Option<string>>) returns (sent: Option<PostPayload>, callbacks: seq<string>)
      modifies this
      ensures var built := BuildPostPayload(old(content), old(mediaUrl), communityId);
              (built.Err? ==> sent == None && error == Some(ContentRequired) && loading == old(loading)
                              && content == old(content) && mediaUrl == old(mediaUrl))
              && (built.Ok? ==> sent == Some(built.value))
      ensures sent.None? ==> callbacks == []
      ensures sent.Some? && reply.Ok? ==> content == "" && mediaUrl == "" && error == None && !loading
                                          && callbacks == ["onSuccess", "onClose"]
      ensures sent.Some? && reply.Err? ==> content == old(content) && mediaUrl == old(mediaUrl) && !loading
                                           && error == Some(OrElse(reply.error, "Failed to create post"))
                                           && callbacks == []
    {
      sent := BeginSubmit();
      if sent.None? {
        return sent, [];
      }
      callbacks := FinishSubmit(reply);
    }

    /** `handleClose`: the inputs and the error are cleared and `onClose` is called. */
    method HandleClose() returns (callbacks: seq<string>)
      modifies this
      ensures content == "" && mediaUrl == "" && error == None
      ensures loading == old(loading) && callbacks == ["onClose"]
    {
      content := "";
      mediaUrl := "";
      error := None;
      callbacks := ["onClose"];
    }
  }
}
