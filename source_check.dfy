/** Whether the generator accepts its `-i` input: a readable local file, or a
    well-formed URL that a HEAD request finds serving an MP4 video. */
module SourceCheck {
  import opened Outcomes

  /** The allow-list of content types `checkurl` accepts. */
  const VideoContentTypes: seq<string> := ["video/mp4"]

  /** The verdict of `checkurl` from what the HEAD request reported: whether
      the transfer succeeded, the final status code (redirects followed) and
      the Content-Type header, if any. */
  function UrlVerdict(fetched: bool, status: int, contentType: Option<string>): (ok: bool)
    ensures ok ==> fetched && status == 200
    ensures ok <==> fetched && status == 200 && contentType == Some("video/mp4")
  {
    fetched && status == 200 && contentType.Some? && contentType.value in VideoContentTypes
  }

  /** The input check: `urlOk` is the `checkurl` verdict, which the source asks
      for only when the file is unreadable and the text is a valid URL. */
  function CheckInput(readable: bool, isUrl: bool, urlOk: bool): (r: Option<Error>)
    ensures r.None? <==> readable || (isUrl && urlOk)
    ensures r.Some? ==> r.value == InputUnreadable
  {
    if readable then None
    else if isUrl then (if urlOk then None else Some(InputUnreadable))
    else Some(InputUnreadable)
  }
}
