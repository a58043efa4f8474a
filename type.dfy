/**
 * PageType (type.go): the raw Content-Type, the media type and its parameters.
 * mime.ParseMediaType is not modelled; its answer is an input.
 */
module MediaTypes {
  import opened Wrappers
  import opened Issues

  datatype PageType = PageType(contentType: string, mediaType: string, params: map<string, string>) {
    function ContentType(): string { contentType }
    function MediaType(): string { mediaType }
    function MediaTypeParams(): map<string, string> { params }
  }

  /** mime.ParseMediaType's answer: media type and parameters, or a failure
      with whatever media type it still reported. */
  datatype MediaParse =
    | MediaParsed(mediaType: string, params: map<string, string>)
    | MediaParseFailed(partialMediaType: string, reason: string)

  /** NewPageType: the Content-Type is kept verbatim; a parse failure yields
      the partly filled type together with an error issue in the URL's context. */
  function NewPageType(urlText: string, contentType: string, parseMediaType: string -> MediaParse): (r: (PageType, Option<Issue>))
    ensures r.0.contentType == contentType
    ensures r.1.None? <==> parseMediaType(contentType).MediaParsed?
    ensures r.1.None? ==>
              r.0.mediaType == parseMediaType(contentType).mediaType && r.0.params == parseMediaType(contentType).params
    ensures r.1.Some? ==>
              && r.1.value.IssueCode() == UnableToInspectMediaTypeFromContentType
              && r.1.value.IsError() && r.1.value.IssueContext() == urlText
  {
    match parseMediaType(contentType)
    case MediaParsed(m, ps) => (PageType(contentType, m, ps), None)
    case MediaParseFailed(m, reason) =>
      (PageType(contentType, m, map[]), Some(NewIssue(urlText, UnableToInspectMediaTypeFromContentType, reason, true)))
  }
}
