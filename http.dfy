/**
 * The values the resolver receives from its collaborators: the HTML node
 * tree built by golang.org/x/net/html, URLs, and the HTTP exchange. None of
 * these are computed here; they are inputs to the model.
 */
module Html {

  /** html.NodeType */
  datatype NodeType = ErrorNode | TextNode | DocumentNode | ElementNode | CommentNode | DoctypeNode | RawNode

  /** html.Attribute */
  datatype Attribute = Attribute(namespace: string, key: string, val: string)

  /** html.Node, with the sibling chain FirstChild/NextSibling as a sequence of children. */
  datatype Node = Node(nodeType: NodeType, data: string, attrs: seq<Attribute>, children: seq<Node>)
}

module Http {
  import opened Wrappers
  import Html

  type Byte = bv8

  /** A *url.URL, known by the text its String() method returns. */
  datatype Url = Url(text: string)

  /** The body stream breaks after `afterBytes` bytes with `reason`. */
  datatype StreamFailure = StreamFailure(afterBytes: nat, reason: string)

  /** A response body: the bytes it streams, whether the stream breaks, and
      what html.Parse makes of it (a document tree or a parse error). */
  datatype Body = Body(bytes: seq<Byte>, readFailure: Option<StreamFailure>, document: Result<Html.Node, string>)

  /** The final *http.Response once the client has followed transport redirects:
      the status, resp.Request.URL, the Content-Type header ("" when absent) and the body. */
  datatype Response = Response(statusCode: int, finalURL: Url, contentType: string, body: Body)

  /** What one GET for a URL text yields: http.NewRequest rejects the text,
      client.Do fails, or a response arrives. */
  datatype Exchange =
    | RequestNotBuilt(reason: string)
    | TransportFailed(reason: string)
    | Responded(response: Response)
}
