/**
 * The resource factory (factory.go): option binding, client and policy
 * selection, and the decision tree that turns a URL text into a Page.
 *
 * Everything the factory delegates to is an input: the HTTP exchange,
 * mime.ParseMediaType, html.Parse (already in the response body) and the
 * answers of the policy objects bound from the options, which are known
 * here by the option's identity. The spec functions also return the list
 * of collaborators consulted, in order, so that "never called" can be stated.
 */
module Factories {
  import opened Wrappers
  import opened Errors
  import opened Issues
  import opened Html
  import opened Http
  import opened MediaTypes
  import opened Files
  import opened Pages

  // ---------------------------------------------------------------------------
  // Options

  /** The interfaces (and the two function types) initOptions tests an option for. */
  datatype Capability =
    | WarningTracking | ClientProviding | ClientFunction | RequestPreparing | RequestPrepareFunction
    | RedirectDetecting | MetaDataParsing | ContentDownloading | DownloadErrorDeciding | AttachmentCreating

  /** One option value, known by its identity and the capabilities its dynamic type has. */
  datatype FactoryOption = FactoryOption(id: nat, implements: set<Capability>)

  /** The warning tracker: the factory's own no-op OnWarning, or an option. */
  datatype Tracker = FactoryItself | TrackerOption(id: nat)

  /** The factory's fields: which option each one holds (None for nil). */
  datatype Bindings = Bindings(
    warningTracker: Tracker,
    clientProvider: Option<nat>,
    provideClientFunc: Option<nat>,
    reqPreparer: Option<nat>,
    prepReqFunc: Option<nat>,
    detectRedirectsPolicy: Option<nat>,
    parseMetaDataInHTMLContentPolicy: Option<nat>,
    contentDownloader: Option<nat>,
    contentDownloaderErrorPolicy: Option<nat>,
    fileAttachmentCreator: Option<nat>)

  const Unbound := Bindings(FactoryItself, None, None, None, None, None, None, None, None, None)

  /** The field that capability `c` fills, as the option identity it holds. */
  function Slot(b: Bindings, c: Capability): Option<nat> {
    match c
    case WarningTracking => if b.warningTracker.TrackerOption? then Some(b.warningTracker.id) else None
    case ClientProviding => b.clientProvider
    case ClientFunction => b.provideClientFunc
    case RequestPreparing => b.reqPreparer
    case RequestPrepareFunction => b.prepReqFunc
    case RedirectDetecting => b.detectRedirectsPolicy
    case MetaDataParsing => b.parseMetaDataInHTMLContentPolicy
    case ContentDownloading => b.contentDownloader
    case DownloadErrorDeciding => b.contentDownloaderErrorPolicy
    case AttachmentCreating => b.fileAttachmentCreator
  }

  /** A field after one type assertion for `c`: the option when it implements `c`, else unchanged. */
  function Pick(c: Capability, o: FactoryOption, prev: Option<nat>): Option<nat> {
    if c in o.implements then Some(o.id) else prev
  }

  function PickTracker(o: FactoryOption, prev: Tracker): Tracker {
    if WarningTracking in o.implements then TrackerOption(o.id) else prev
  }

  /** The body of initOptions' loop for one option: every field whose interface it implements now holds it. */
  function Bind(b: Bindings, o: FactoryOption): Bindings {
    Bindings(
      PickTracker(o, b.warningTracker),
      Pick(ClientProviding, o, b.clientProvider),
      Pick(ClientFunction, o, b.provideClientFunc),
      Pick(RequestPreparing, o, b.reqPreparer),
      Pick(RequestPrepareFunction, o, b.prepReqFunc),
      Pick(RedirectDetecting, o, b.detectRedirectsPolicy),
      Pick(MetaDataParsing, o, b.parseMetaDataInHTMLContentPolicy),
      Pick(ContentDownloading, o, b.contentDownloader),
      Pick(DownloadErrorDeciding, o, b.contentDownloaderErrorPolicy),
      Pick(AttachmentCreating, o, b.fileAttachmentCreator))
  }

  /** One option fills exactly the fields of the interfaces it implements, all with itself. */
  lemma BindSlot(b: Bindings, o: FactoryOption, c: Capability)
    ensures Slot(Bind(b, o), c) == if c in o.implements then Some(o.id) else Slot(b, c)
  {
  }

  function BindAll(b: Bindings, options: seq<FactoryOption>): Bindings {
    if options == [] then b else Bind(BindAll(b, options[..|options| - 1]), options[|options| - 1])
  }

  /** The identity of the last option implementing `c`, if any. */
  function LastImplementer(options: seq<FactoryOption>, c: Capability): Option<nat> {
    if options == [] then None
    else if c in options[|options| - 1].implements then Some(options[|options| - 1].id)
    else LastImplementer(options[..|options| - 1], c)
  }

  /** After the loop, every field holds the last option implementing its
      interface, and keeps its previous value when no option does. */
  lemma {:induction false} BindAllSlots(b: Bindings, options: seq<FactoryOption>, c: Capability)
    ensures Slot(BindAll(b, options), c) == if LastImplementer(options, c).Some? then LastImplementer(options, c) else Slot(b, c)
  {
    if options != [] {
      BindAllSlots(b, options[..|options| - 1], c);
      BindSlot(BindAll(b, options[..|options| - 1]), options[|options| - 1], c);
    }
  }

  /** The last implementer is the option at position i exactly when it
      implements `c` and no later option does. */
  lemma {:induction false} LastImplementerWins(options: seq<FactoryOption>, c: Capability, i: nat)
    requires i < |options| && c in options[i].implements
    requires forall j :: i < j < |options| ==> c !in options[j].implements
    ensures LastImplementer(options, c) == Some(options[i].id)
  {
    if i < |options| - 1 {
      var init := options[..|options| - 1];
      assert init[i] == options[i];
      LastImplementerWins(init, c, i);
    }
  }

  /** No field is filled when no option implements its interface. */
  lemma {:induction false} LastImplementerNone(options: seq<FactoryOption>, c: Capability)
    ensures LastImplementer(options, c).None? <==> forall i :: 0 <= i < |options| ==> c !in options[i].implements
  {
    if options != [] {
      var init := options[..|options| - 1];
      LastImplementerNone(init, c);
      if forall i :: 0 <= i < |init| ==> c !in init[i].implements {
        if c !in options[|options| - 1].implements {
          forall i | 0 <= i < |options| ensures c !in options[i].implements {
            if i < |init| { assert init[i] == options[i]; }
          }
        }
      } else {
        var i :| 0 <= i < |init| && c in init[i].implements;
        assert options[i] == init[i];
      }
    }
  }

  // ---------------------------------------------------------------------------
  // Selection functions

  /** The client httpClient yields. */
  datatype Client = ProvidedClient(provider: nat) | FuncClient(fn: nat) | DefaultClient(timeoutSeconds: nat)

  const DefaultTimeoutSeconds := 90

  /** httpClient: the provider, else the function, else a fresh client with a 90 second timeout. */
  function HTTPClient(b: Bindings): (c: Client)
    ensures c.ProvidedClient? <==> b.clientProvider.Some?
    ensures c.ProvidedClient? ==> c.provider == b.clientProvider.value
    ensures c.FuncClient? <==> b.clientProvider.None? && b.provideClientFunc.Some?
    ensures c.FuncClient? ==> c.fn == b.provideClientFunc.value
    ensures c.DefaultClient? ==> c.timeoutSeconds == DefaultTimeoutSeconds
  {
    if b.clientProvider.Some? then ProvidedClient(b.clientProvider.value)
    else if b.provideClientFunc.Some? then FuncClient(b.provideClientFunc.value)
    else DefaultClient(DefaultTimeoutSeconds)
  }

  /** A collaborator the factory consults. */
  datatype Call =
    | ClientObtained(client: Client)
    | RequestPrepared(preparer: nat)
    | RequestSent(via: Client)
    | RedirectPolicyAsked(redirectPolicy: nat)
    | MetaDataPolicyAsked(metaDataPolicy: nat)
    | DownloaderCalled(downloader: nat)
    | StopPolicyAsked(stopPolicy: nat)

  /** What the downloader option answers: ok, the attachment (None for nil) and the error. */
  datatype DownloadAnswer = DownloadAnswer(ok: bool, attachment: Option<FileAttachment>, err: Option<string>)

  /** The world outside the factory: the HTTP exchange for a client and URL
      text, mime.ParseMediaType, and the answer of each bound policy option. */
  datatype Collaborators = Collaborators(
    exchange: (Client, string) -> Exchange,
    parseMediaType: string -> MediaParse,
    detectRedirects: (nat, Url) -> bool,
    parseMetaData: (nat, Url) -> bool,
    download: (nat, Url, Response, Option<PageType>) -> DownloadAnswer,
    stopOnDownloadError: (nat, Url, Option<PageType>, string) -> bool)

  /** prepareHTTPRequest: the preparer option, then the preparing function. */
  function Preparations(b: Bindings): (calls: seq<Call>)
    ensures |calls| <= 2 && forall k :: 0 <= k < |calls| ==> calls[k].RequestPrepared?
    ensures RequestPrepared(b.reqPreparer.value) in calls <== b.reqPreparer.Some?
    ensures b.prepReqFunc.Some? ==> |calls| > 0 && calls[|calls| - 1] == RequestPrepared(b.prepReqFunc.value)
    ensures |calls| == (if b.reqPreparer.Some? then 1 else 0) + (if b.prepReqFunc.Some? then 1 else 0)
    ensures b.reqPreparer.Some? ==> calls[0] == RequestPrepared(b.reqPreparer.value)
  {
    (if b.reqPreparer.Some? then [RequestPrepared(b.reqPreparer.value)] else [])
    + (if b.prepReqFunc.Some? then [RequestPrepared(b.prepReqFunc.value)] else [])
  }

  /** detectRedirectsInHTMLContent: the policy's answer, true without a policy. */
  function DetectRedirectsInHTMLContent(b: Bindings, w: Collaborators, url: Url): (r: (bool, seq<Call>))
    ensures b.detectRedirectsPolicy.None? ==> r == (true, [])
    ensures b.detectRedirectsPolicy.Some? ==> r.1 == [RedirectPolicyAsked(b.detectRedirectsPolicy.value)]
    ensures b.detectRedirectsPolicy.Some? ==> r.0 == w.detectRedirects(b.detectRedirectsPolicy.value, url)
  {
    if b.detectRedirectsPolicy.Some? then
      (w.detectRedirects(b.detectRedirectsPolicy.value, url), [RedirectPolicyAsked(b.detectRedirectsPolicy.value)])
    else (true, [])
  }

  /** parseMetaDataInHTMLContent: asks the policy when there is one, but
      discards its answer and always yields true. */
  function ParseMetaDataInHTMLContent(b: Bindings, w: Collaborators, url: Url): (r: (bool, seq<Call>))
    ensures r.0
    ensures r.1 == if b.parseMetaDataInHTMLContentPolicy.Some? then [MetaDataPolicyAsked(b.parseMetaDataInHTMLContentPolicy.value)] else []
  {
    if b.parseMetaDataInHTMLContentPolicy.Some? then
      var _ := w.parseMetaData(b.parseMetaDataInHTMLContentPolicy.value, url);
      (true, [MetaDataPolicyAsked(b.parseMetaDataInHTMLContentPolicy.value)])
    else (true, [])
  }

  // ---------------------------------------------------------------------------
  // The decision tree

  /** The errors PageFromURL returns, without the xerrors wrapping text. */
  datatype ResolveError =
    | BlankTarget(coded: CodedError)
    | RequestNotCreated(reason: string)
    | RequestFailed(reason: string)
    | UnexpectedStatus(status: StatusCodeError)
    | Unclassifiable(issue: Issue)
    | DownloadFailed(reason: string)

  /** What a resolution returns: the page (None for nil), the error, and the collaborators consulted. */
  datatype Resolution = Resolution(page: Option<PageView>, err: Option<ResolveError>, calls: seq<Call>)

  /** The page pageFromHTTPResponse starts from: the URL and an empty tag map. */
  function FreshPage(url: Url): PageView {
    PageView(Some(url), None, false, false, "", map[], None, false)
  }

  /** The download branch for the page built so far. */
  function DownloadStage(b: Bindings, w: Collaborators, url: Url, resp: Response, p: PageView): (r: Resolution)
    ensures r.page.Some?
    ensures r.err.None? ==> r.page.value.valid && r.page.value == p.(downloadedAttachment := r.page.value.downloadedAttachment, valid := true)
    ensures r.err.Some? ==> r.err.value.DownloadFailed? && r.page.value == p
  {
    if b.contentDownloader.None? then Resolution(Some(p.(valid := true)), None, [])
    else
      var id := b.contentDownloader.value;
      var answer := w.download(id, url, resp, p.pageType);
      if answer.err.Some? then
        if b.contentDownloaderErrorPolicy.Some? then
          var pid := b.contentDownloaderErrorPolicy.value;
          if w.stopOnDownloadError(pid, url, p.pageType, answer.err.value) then
            Resolution(Some(p), Some(DownloadFailed(answer.err.value)), [DownloaderCalled(id), StopPolicyAsked(pid)])
          else Resolution(Some(p.(valid := true)), None, [DownloaderCalled(id), StopPolicyAsked(pid)])
        else Resolution(Some(p.(valid := true)), None, [DownloaderCalled(id)])
      else if answer.ok && answer.attachment.Some? then
        Resolution(Some(p.(downloadedAttachment := answer.attachment, valid := true)), None, [DownloaderCalled(id)])
      else Resolution(Some(p.(valid := true)), None, [DownloaderCalled(id)])
  }

  /** The parsed HTML page: the metadata walk's fields and HTMLParsed set; valid untouched. */
  function ParsedPage(typed: PageView, resp: Response): PageView {
    AfterMetaData(typed, resp.body.document).(htmlParsed := true)
  }

  /** A classified page: the HTML branch when it is text/html and a policy
      asks for parsing, the download branch otherwise. */
  function ClassifiedStage(b: Bindings, w: Collaborators, url: Url, resp: Response, typed: PageView): Resolution
    requires typed.pageType.Some?
  {
    if typed.IsHTML() then
      var (detect, asked) := DetectRedirectsInHTMLContent(b, w, url);
      if detect then Resolution(Some(ParsedPage(typed, resp)), None, asked)
      else
        var (parse, asked2) := ParseMetaDataInHTMLContent(b, w, url);
        if parse then Resolution(Some(ParsedPage(typed, resp)), None, asked + asked2)
        else
          var r := DownloadStage(b, w, url, resp, typed);
          r.(calls := asked + asked2 + r.calls)
    else DownloadStage(b, w, url, resp, typed)
  }

  /** pageFromHTTPResponse. */
  function PageFromHTTPResponseSpec(b: Bindings, w: Collaborators, url: Url, resp: Response): (r: Resolution)
    ensures r.page.Some? && r.page.value.targetURL == Some(url)
    ensures r.err.Some? ==> r.err.value.Unclassifiable? || r.err.value.DownloadFailed?
  {
    if |resp.contentType| > 0 then
      var (typ, issue) := NewPageType(url.text, resp.contentType, w.parseMediaType);
      var typed := FreshPage(url).(pageType := Some(typ));
      if issue.Some? then Resolution(Some(typed), Some(Unclassifiable(issue.value)), [])
      else ClassifiedStage(b, w, url, resp, typed)
    else DownloadStage(b, w, url, resp, FreshPage(url))
  }

  /** The calls made to obtain a client and send the request. */
  function SendCalls(b: Bindings): seq<Call> {
    [ClientObtained(HTTPClient(b))] + Preparations(b) + [RequestSent(HTTPClient(b))]
  }

  /** PageFromURL. */
  function PageFromURLSpec(b: Bindings, w: Collaborators, origURLtext: string): (r: Resolution)
    ensures r.page.None? <==> r.err.Some? && (|| r.err.value.BlankTarget? || r.err.value.RequestNotCreated?
                                            || r.err.value.RequestFailed? || r.err.value.UnexpectedStatus?)
    ensures r.page.Some? ==> r.page.value.targetURL.Some?
  {
    if |origURLtext| == 0 then Resolution(None, Some(BlankTarget(TargetURLIsBlankError())), [])
    else
      var client := HTTPClient(b);
      match w.exchange(client, origURLtext)
      case RequestNotBuilt(reason) => Resolution(None, Some(RequestNotCreated(reason)), [ClientObtained(client)])
      case TransportFailed(reason) => Resolution(None, Some(RequestFailed(reason)), SendCalls(b))
      case Responded(resp) =>
        if resp.statusCode != 200 then
          Resolution(None, Some(UnexpectedStatus(NewStatusCodeError(resp.statusCode))), SendCalls(b))
        else
          var r := PageFromHTTPResponseSpec(b, w, resp.finalURL, resp);
          r.(calls := SendCalls(b) + r.calls)
  }

  // ---------------------------------------------------------------------------
  // Properties of the decision tree

  /** An empty URL text fails with the blank-target error (code 50) before
      any client is obtained or request made. */
  lemma BlankTargetFailsFirst(b: Bindings, w: Collaborators)
    ensures var r := PageFromURLSpec(b, w, "");
            && r.page.None? && r.calls == []
            && r.err == Some(BlankTarget(CodedError("TargetURL is blank", 50)))
  {
  }

  /** A status other than 200 yields no page and a status error carrying the
      actual status, whose own code is always 200. */
  lemma NonOKStatus(b: Bindings, w: Collaborators, origURLtext: string, resp: Response)
    requires |origURLtext| > 0 && w.exchange(HTTPClient(b), origURLtext) == Responded(resp)
    requires resp.statusCode != 200
    ensures var r := PageFromURLSpec(b, w, origURLtext);
            && r.page.None? && r.err.Some? && r.err.value.UnexpectedStatus?
            && r.err.value.status.httpStatusCode == resp.statusCode
            && r.err.value.status.base.code == 200
            && r.calls == SendCalls(b)
  {
  }

  /** Every non-empty text/html response takes the HTML branch, whatever the
      policies answer: the metadata is walked, HTMLParsed is set, no error is
      returned (a parse error is dropped), the downloader is never called,
      and the page is returned with valid still false. */
  lemma HtmlAlwaysParsed(b: Bindings, w: Collaborators, url: Url, resp: Response)
    requires |resp.contentType| > 0
    requires w.parseMediaType(resp.contentType).MediaParsed? && w.parseMediaType(resp.contentType).mediaType == "text/html"
    ensures var r := PageFromHTTPResponseSpec(b, w, url, resp);
            && r.err.None? && r.page.Some?
            && r.page.value.htmlParsed && !r.page.value.valid
            && r.page.value.downloadedAttachment.None?
            && r.page.value.targetURL == Some(url)
            && (forall k :: 0 <= k < |r.calls| ==> !r.calls[k].DownloaderCalled? && !r.calls[k].StopPolicyAsked?)
            && r.page.value == ParsedPage(FreshPage(url).(pageType := Some(NewPageType(url.text, resp.contentType, w.parseMediaType).0)), resp)
  {
    var (typ, issue) := NewPageType(url.text, resp.contentType, w.parseMediaType);
    var typed := FreshPage(url).(pageType := Some(typ));
    assert typed.IsHTML();
    var (detect, asked) := DetectRedirectsInHTMLContent(b, w, url);
    var (parse, asked2) := ParseMetaDataInHTMLContent(b, w, url);
    assert parse;
  }

  /** An HTML response whose head holds <meta property="P" content="C">
      resolves to a page whose MetaTag(P) is C. */
  lemma HtmlPageReportsMetaTag(b: Bindings, w: Collaborators, url: Url, resp: Response, property: string, content: string)
    requires |resp.contentType| > 0
    requires w.parseMediaType(resp.contentType).MediaParsed? && w.parseMediaType(resp.contentType).mediaType == "text/html"
    requires var meta := Node(ElementNode, "meta", [Attribute("", "property", property), Attribute("", "content", content)], []);
             var head := Node(ElementNode, "head", [], [meta]);
             resp.body.document == Success(Node(DocumentNode, "", [], [Node(ElementNode, "html", [], [head])]))
    ensures var r := PageFromHTTPResponseSpec(b, w, url, resp);
            && r.page.Some? && r.page.value.pageType.Some?
            && r.page.value.MetaTag(property) == Success(Some(content))
  {
    HtmlAlwaysParsed(b, w, url, resp);
    var typed := FreshPage(url).(pageType := Some(NewPageType(url.text, resp.contentType, w.parseMediaType).0));
    DocumentMetaTag(typed.(htmlParsed := true), property, content);
    assert AfterMetaData(typed.(htmlParsed := true), resp.body.document) == ParsedPage(typed, resp);
  }

  /** A non-empty Content-Type that does not classify returns the partly built
      page (URL and type set, empty tags, not valid) with the issue, and
      consults nobody. */
  lemma UnclassifiableStops(b: Bindings, w: Collaborators, url: Url, resp: Response)
    requires |resp.contentType| > 0 && w.parseMediaType(resp.contentType).MediaParseFailed?
    ensures var r := PageFromHTTPResponseSpec(b, w, url, resp);
            && r.page.Some? && r.page.value.targetURL == Some(url)
            && r.page.value.pageType.Some? && r.page.value.pageType.value.contentType == resp.contentType
            && r.page.value.metaPropertyTags == map[] && !r.page.value.valid
            && r.err.Some? && r.err.value.Unclassifiable?
            && r.err.value.issue.IssueCode() == UnableToInspectMediaTypeFromContentType
            && r.calls == []
  {
  }

  /** The download branch: the attachment is kept exactly when the downloader
      reports no error, ok and a non-nil attachment; the error is returned
      exactly when an error policy exists and says stop; otherwise the page is valid. */
  lemma {:induction false} DownloadBranch(b: Bindings, w: Collaborators, url: Url, resp: Response, p: PageView)
    requires b.contentDownloader.Some? && p.downloadedAttachment.None? && !p.valid
    ensures var answer := w.download(b.contentDownloader.value, url, resp, p.pageType);
            var stops := answer.err.Some? && b.contentDownloaderErrorPolicy.Some?
                         && w.stopOnDownloadError(b.contentDownloaderErrorPolicy.value, url, p.pageType, answer.err.value);
            var r := DownloadStage(b, w, url, resp, p);
            && r.page.Some?
            && (r.page.value.Attachment().Some? <==> answer.err.None? && answer.ok && answer.attachment.Some?)
            && (r.page.value.Attachment().Some? ==> r.page.value.Attachment() == answer.attachment)
            && (r.err.Some? <==> stops)
            && (r.err.Some? ==> r.err == Some(DownloadFailed(answer.err.value)))
            && (r.page.value.valid <==> !stops)
            && r.calls[0] == DownloaderCalled(b.contentDownloader.value)
  {
  }

  /** Without a downloader the page is simply marked valid. */
  lemma NoDownloaderIsValid(b: Bindings, w: Collaborators, url: Url, resp: Response, p: PageView)
    requires b.contentDownloader.None?
    ensures DownloadStage(b, w, url, resp, p) == Resolution(Some(p.(valid := true)), None, [])
  {
  }

  /** The two outcomes are exclusive: a returned page is either HTML-parsed
      or came through the download branch, never both, and a valid page
      never carries an error. */
  lemma {:induction false} ParsedOrValid(b: Bindings, w: Collaborators, url: Url, resp: Response)
    ensures var r := PageFromHTTPResponseSpec(b, w, url, resp);
            && r.page.Some?
            && !(r.page.value.htmlParsed && r.page.value.valid)
            && (r.page.value.valid ==> r.err.None?)
            && r.page.value.targetURL == Some(url)
  {
    if |resp.contentType| > 0 {
      var (typ, issue) := NewPageType(url.text, resp.contentType, w.parseMediaType);
      var typed := FreshPage(url).(pageType := Some(typ));
      if issue.None? && typed.IsHTML() {
        var (detect, asked) := DetectRedirectsInHTMLContent(b, w, url);
        var (parse, asked2) := ParseMetaDataInHTMLContent(b, w, url);
        assert parse;
      }
    }
  }

  /** A resolved page's URL is the final response URL, not the text asked for. */
  lemma ResolvedPageHasFinalURL(b: Bindings, w: Collaborators, origURLtext: string, resp: Response)
    requires |origURLtext| > 0 && w.exchange(HTTPClient(b), origURLtext) == Responded(resp) && resp.statusCode == 200
    ensures var r := PageFromURLSpec(b, w, origURLtext);
            && r.page.Some? && r.page.value.targetURL == Some(resp.finalURL)
            && r.calls[..|SendCalls(b)|] == SendCalls(b)
  {
    ParsedOrValid(b, w, resp.finalURL, resp);
  }

  // ---------------------------------------------------------------------------
  // The factory object

  class Factory {
    var warningTracker: Tracker
    var clientProvider: Option<nat>
    var provideClientFunc: Option<nat>
    var reqPreparer: Option<nat>
    var prepReqFunc: Option<nat>
    var detectRedirectsPolicy: Option<nat>
    var parseMetaDataInHTMLContentPolicy: Option<nat>
    var contentDownloader: Option<nat>
    var contentDownloaderErrorPolicy: Option<nat>
    var fileAttachmentCreator: Option<nat>

    function Bound(): Bindings
      reads this
    {
      Bindings(warningTracker, clientProvider, provideClientFunc, reqPreparer, prepReqFunc, detectRedirectsPolicy,
               parseMetaDataInHTMLContentPolicy, contentDownloader, contentDownloaderErrorPolicy, fileAttachmentCreator)
    }

    /** NewFactory: a zero factory whose options are then bound. */
    constructor (options: seq<FactoryOption>)
      ensures Bound() == BindAll(Unbound, options)
    {
      warningTracker := FactoryItself;
      clientProvider := None;
      provideClientFunc := None;
      reqPreparer := None;
      prepReqFunc := None;
      detectRedirectsPolicy := None;
      parseMetaDataInHTMLContentPolicy := None;
      contentDownloader := None;
      contentDownloaderErrorPolicy := None;
      fileAttachmentCreator := None;
      new;
      InitOptions(options);
    }

    /** initOptions: the tracker defaults to the factory, then each option
        fills every field whose interface it implements. */
    method InitOptions(options: seq<FactoryOption>)
      modifies this
      ensures Bound() == BindAll(old(Bound()).(warningTracker := FactoryItself), options)
    {
      warningTracker := FactoryItself;
      ghost var start := Bound();
      for i := 0 to |options|
        invariant Bound() == BindAll(start, options[..i])
      {
        BindOption(options[i]);
        assert options[..i + 1][..i] == options[..i];
      }
      assert options[..|options|] == options;
    }

    /** The body of initOptions' loop: each type assertion that succeeds overwrites its field. */
    method BindOption(option: FactoryOption)
      modifies this
      ensures Bound() == Bind(old(Bound()), option)
    {
      warningTracker := PickTracker(option, warningTracker);
      clientProvider := Pick(ClientProviding, option, clientProvider);
      provideClientFunc := Pick(ClientFunction, option, provideClientFunc);
      reqPreparer := Pick(RequestPreparing, option, reqPreparer);
      prepReqFunc := Pick(RequestPrepareFunction, option, prepReqFunc);
      detectRedirectsPolicy := Pick(RedirectDetecting, option, detectRedirectsPolicy);
      parseMetaDataInHTMLContentPolicy := Pick(MetaDataParsing, option, parseMetaDataInHTMLContentPolicy);
      contentDownloader := Pick(ContentDownloading, option, contentDownloader);
      contentDownloaderErrorPolicy := Pick(DownloadErrorDeciding, option, contentDownloaderErrorPolicy);
      fileAttachmentCreator := Pick(AttachmentCreating, option, fileAttachmentCreator);
    }

    /** PageFromURL. The per-call options are accepted and never consulted. */
    method PageFromURL(w: Collaborators, origURLtext: string, callOptions: seq<FactoryOption>)
      returns (page: Page?, err: Option<ResolveError>, calls: seq<Call>)
      ensures var r := PageFromURLSpec(Bound(), w, origURLtext);
              && (page == null <==> r.page.None?)
              && (page != null ==> fresh(page) && page.View() == r.page.value)
              && err == r.err && calls == r.calls
    {
      if |origURLtext| == 0 {
        return null, Some(BlankTarget(TargetURLIsBlankError())), [];
      }
      var client := HTTPClient(Bound());
      calls := [ClientObtained(client)];
      var exchange := w.exchange(client, origURLtext);
      if exchange.RequestNotBuilt? {
        return null, Some(RequestNotCreated(exchange.reason)), calls;
      }
      calls := calls + Preparations(Bound()) + [RequestSent(client)];
      if exchange.TransportFailed? {
        return null, Some(RequestFailed(exchange.reason)), calls;
      }
      var resp := exchange.response;
      if resp.statusCode != 200 {
        return null, Some(UnexpectedStatus(NewStatusCodeError(resp.statusCode))), calls;
      }
      var more;
      page, err, more := PageFromHTTPResponse(w, resp.finalURL, resp);
      calls := calls + more;
    }

    /** pageFromHTTPResponse: builds the page field by field, with early returns. */
    method PageFromHTTPResponse(w: Collaborators, url: Url, resp: Response)
      returns (result: Page, err: Option<ResolveError>, calls: seq<Call>)
      ensures fresh(result)
      ensures PageFromHTTPResponseSpec(Bound(), w, url, resp) == Resolution(Some(result.View()), err, calls)
    {
      calls := [];
      result := new Page();
      result.metaPropertyTags := map[];
      result.targetURL := Some(url);
      if |resp.contentType| > 0 {
        var (typ, issue) := NewPageType(url.text, resp.contentType, w.parseMediaType);
        result.pageType := Some(typ);
        if issue.Some? {
          return result, Some(Unclassifiable(issue.value)), [];
        }
        if result.View().IsHTML() {
          var (detect, asked) := DetectRedirectsInHTMLContent(Bound(), w, url);
          var parse, asked2 := false, [];
          if !detect {
            var answer := ParseMetaDataInHTMLContent(Bound(), w, url);
            parse, asked2 := answer.0, answer.1;
          }
          if detect || parse {
            var _ := result.ParsePageMetaData(resp.body.document);
            result.htmlParsed := true;
            return result, None, asked + asked2;
          }
          calls := asked + asked2;
        }
      }
      var more;
      err, more := DownloadContent(w, url, resp, result);
      calls := calls + more;
    }

    /** The download branch of pageFromHTTPResponse. */
    method DownloadContent(w: Collaborators, url: Url, resp: Response, result: Page)
      returns (err: Option<ResolveError>, calls: seq<Call>)
      modifies result
      ensures DownloadStage(Bound(), w, url, resp, old(result.View())) == Resolution(Some(result.View()), err, calls)
    {
      err, calls := None, [];
      if contentDownloader.Some? {
        var answer := w.download(contentDownloader.value, url, resp, result.pageType);
        calls := [DownloaderCalled(contentDownloader.value)];
        if answer.err.Some? {
          if contentDownloaderErrorPolicy.Some? {
            calls := calls + [StopPolicyAsked(contentDownloaderErrorPolicy.value)];
            if w.stopOnDownloadError(contentDownloaderErrorPolicy.value, url, result.pageType, answer.err.value) {
              return Some(DownloadFailed(answer.err.value)), calls;
            }
          }
        } else if answer.ok && answer.attachment.Some? {
          result.downloadedAttachment := answer.attachment;
        }
      }
      result.valid := true;
    }
  }

  /** A factory built from `options` holds, for each field, the last option
      implementing its interface; the tracker is the factory itself when no
      option tracks warnings. */
  lemma FactoryBindsLastImplementers(options: seq<FactoryOption>, c: Capability)
    ensures Slot(BindAll(Unbound, options), c) == LastImplementer(options, c)
  {
    BindAllSlots(Unbound, options, c);
  }
}
