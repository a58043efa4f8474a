/**
 * The resolved page (page.go): the meta-tag and meta-refresh extractor that
 * walks the HTML node tree, and the read-only accessors.
 *
 * The extractor is specified by folds over the tree: StepNode is what the
 * closure does at one node, WalkNode/WalkForest follow its recursion over
 * the children, and MetaScan, RefreshScan and TagScan follow its three
 * loops over a meta element's attributes. Page.Visit is the closure itself,
 * updating the page's fields in place, and is proved to compute WalkNode.
 */
module Pages {
  import opened Wrappers
  import opened Text
  import opened Html
  import opened Http
  import opened MediaTypes
  import opened Refresh
  import opened Files

  /** What the traversal carries: the closure's inHead flag and the three
      page fields it writes. */
  datatype MetaState = MetaState(inHead: bool, isRedirect: bool, redirectText: string, tags: map<string, string>)

  predicate IsElementNamed(n: Node, name: string) {
    n.nodeType == ElementNode && EqualFold(n.data, name)
  }

  /** An attribute http-equiv="refresh" (both compared case-insensitively, the value trimmed). */
  predicate IsRefreshDirective(a: Attribute) {
    EqualFold(a.key, "http-equiv") && EqualFold(TrimSpace(a.val), "refresh")
  }

  /** An attribute that names a meta tag: property= or name=. */
  predicate IsNaming(a: Attribute) {
    EqualFold(a.key, "property") || EqualFold(a.key, "name")
  }

  predicate IsContent(a: Attribute) {
    EqualFold(a.key, "content")
  }

  /** The body of the innermost refresh loop for one attribute. */
  function RefreshStep(a: Attribute, st: MetaState): MetaState {
    if IsContent(a) then
      match MatchRefreshContent(TrimSpace(a.val))
      case Some(m) => st.(isRedirect := true, redirectText := m.url)
      case None => st
    else st
  }

  /** The refresh loop over the attributes `attrs`, in order. */
  function RefreshScan(attrs: seq<Attribute>, st: MetaState): MetaState {
    if attrs == [] then st else RefreshStep(attrs[|attrs| - 1], RefreshScan(attrs[..|attrs| - 1], st))
  }

  /** The loop that stores every content attribute under the name `name`. */
  function TagScan(attrs: seq<Attribute>, name: string, tags: map<string, string>): map<string, string> {
    if attrs == [] then tags
    else
      var before := TagScan(attrs[..|attrs| - 1], name, tags);
      if IsContent(attrs[|attrs| - 1]) then before[name := attrs[|attrs| - 1].val] else before
  }

  /** One pass of the outer attribute loop of a meta element whose attributes are `all`. */
  function MetaAttrStep(all: seq<Attribute>, a: Attribute, st: MetaState): MetaState {
    var st1 := if IsRefreshDirective(a) then RefreshScan(all, st) else st;
    if IsNaming(a) then st1.(tags := TagScan(all, a.val, st1.tags)) else st1
  }

  /** The outer attribute loop, run over the first attributes `done` of `all`. */
  function MetaScan(all: seq<Attribute>, done: seq<Attribute>, st: MetaState): MetaState {
    if done == [] then st else MetaAttrStep(all, done[|done| - 1], MetaScan(all, done[..|done| - 1], st))
  }

  /** What the closure does at one node, before it visits the children. */
  function StepNode(n: Node, st: MetaState): (r: MetaState)
    ensures r.inHead <==> st.inHead || IsElementNamed(n, "head")
    ensures !(r.inHead && IsElementNamed(n, "meta")) ==> r == st.(inHead := r.inHead)
  {
    var st1 := if IsElementNamed(n, "head") then st.(inHead := true) else st;
    if st1.inHead && IsElementNamed(n, "meta") then
      MetaScanClosedForm(n.attrs, n.attrs, st1);
      MetaScan(n.attrs, n.attrs, st1)
    else st1
  }

  /** The closure applied to `n`: the node itself, then its children in sibling order. */
  function WalkNode(n: Node, st: MetaState): (r: MetaState)
    ensures st.inHead || IsElementNamed(n, "head") ==> r.inHead
    decreases n
  {
    WalkForest(n.children, StepNode(n, st))
  }

  function WalkForest(cs: seq<Node>, st: MetaState): (r: MetaState)
    ensures st.inHead ==> r.inHead
    decreases cs
  {
    if cs == [] then st else WalkNode(cs[|cs| - 1], WalkForest(cs[..|cs| - 1], st))
  }

  // ---------------------------------------------------------------------------
  // What one meta element does, in closed form

  /** The URL of the last content attribute whose trimmed value matches the refresh pattern. */
  function LastRefreshURL(attrs: seq<Attribute>): Option<string> {
    if attrs == [] then None
    else
      var a := attrs[|attrs| - 1];
      if IsContent(a) && MatchRefreshContent(TrimSpace(a.val)).Some? then Some(MatchRefreshContent(TrimSpace(a.val)).value.url)
      else LastRefreshURL(attrs[..|attrs| - 1])
  }

  /** The value of the last content attribute. */
  function LastContent(attrs: seq<Attribute>): Option<string> {
    if attrs == [] then None
    else if IsContent(attrs[|attrs| - 1]) then Some(attrs[|attrs| - 1].val)
    else LastContent(attrs[..|attrs| - 1])
  }

  predicate HasRefreshDirective(attrs: seq<Attribute>) {
    exists i :: 0 <= i < |attrs| && IsRefreshDirective(attrs[i])
  }

  /** The values of the property and name attributes. */
  function NamingValues(attrs: seq<Attribute>): set<string> {
    set i | 0 <= i < |attrs| && IsNaming(attrs[i]) :: attrs[i].val
  }

  /** The effect of a meta element whose attributes are `all`, once the
      attributes `done` have been visited by the outer loop. */
  function MetaEffect(all: seq<Attribute>, done: seq<Attribute>, st: MetaState): MetaState {
    var url := LastRefreshURL(all);
    var content := LastContent(all);
    var redirects := HasRefreshDirective(done) && url.Some?;
    MetaState(
      st.inHead,
      if redirects then true else st.isRedirect,
      if redirects then url.value else st.redirectText,
      if content.Some? then Overlay(st.tags, NamingValues(done), content.value) else st.tags)
  }

  lemma {:induction false} RefreshScanClosedForm(attrs: seq<Attribute>, st: MetaState)
    ensures RefreshScan(attrs, st)
         == if LastRefreshURL(attrs).Some? then st.(isRedirect := true, redirectText := LastRefreshURL(attrs).value) else st
  {
    if attrs != [] {
      RefreshScanClosedForm(attrs[..|attrs| - 1], st);
    }
  }

  lemma {:induction false} TagScanClosedForm(attrs: seq<Attribute>, name: string, tags: map<string, string>)
    ensures TagScan(attrs, name, tags) == if LastContent(attrs).Some? then tags[name := LastContent(attrs).value] else tags
  {
    if attrs != [] {
      TagScanClosedForm(attrs[..|attrs| - 1], name, tags);
    }
  }

  lemma {:induction false} HasRefreshDirectiveSnoc(init: seq<Attribute>, a: Attribute)
    ensures HasRefreshDirective(init + [a]) <==> HasRefreshDirective(init) || IsRefreshDirective(a)
  {
    var done := init + [a];
    if HasRefreshDirective(done) && !IsRefreshDirective(a) {
      var i :| 0 <= i < |done| && IsRefreshDirective(done[i]);
      assert i < |init| && init[i] == done[i];
    }
    if HasRefreshDirective(init) {
      var i :| 0 <= i < |init| && IsRefreshDirective(init[i]);
      assert done[i] == init[i];
    }
    if IsRefreshDirective(a) {
      assert done[|init|] == a;
    }
  }

  lemma {:induction false} NamingValuesSnoc(init: seq<Attribute>, a: Attribute)
    ensures NamingValues(init + [a]) == NamingValues(init) + (if IsNaming(a) then {a.val} else {})
  {
    var done := init + [a];
    forall k | k in NamingValues(done) ensures k in NamingValues(init) + (if IsNaming(a) then {a.val} else {}) {
      var i :| 0 <= i < |done| && IsNaming(done[i]) && done[i].val == k;
      if i < |init| { assert init[i] == done[i]; }
    }
    forall k | k in NamingValues(init) ensures k in NamingValues(done) {
      var i :| 0 <= i < |init| && IsNaming(init[i]) && init[i].val == k;
      assert done[i] == init[i];
    }
    if IsNaming(a) {
      assert done[|init|] == a;
    }
  }

  /** Every key of `names` mapped to `v`, over `tags`. */
  function Overlay(tags: map<string, string>, names: set<string>, v: string): map<string, string> {
    tags + map k | k in names :: v
  }

  lemma OverlayAdd(tags: map<string, string>, names: set<string>, name: string, v: string)
    ensures Overlay(tags, names, v)[name := v] == Overlay(tags, names + {name}, v)
  {
  }

  /** The refresh half of one outer pass: the redirect fields move to the closed form for `init + [a]`. */
  lemma {:induction false} RefreshPartStep(all: seq<Attribute>, init: seq<Attribute>, a: Attribute, st: MetaState)
    ensures var mid := MetaEffect(all, init, st);
            (if IsRefreshDirective(a) then RefreshScan(all, mid) else mid) == MetaEffect(all, init + [a], st).(tags := mid.tags)
  {
    RefreshScanClosedForm(all, MetaEffect(all, init, st));
    HasRefreshDirectiveSnoc(init, a);
  }

  /** The tag half of one outer pass. */
  lemma {:induction false} TagPartStep(all: seq<Attribute>, init: seq<Attribute>, a: Attribute, st: MetaState, tags: map<string, string>)
    requires tags == MetaEffect(all, init, st).tags
    ensures (if IsNaming(a) then TagScan(all, a.val, tags) else tags) == MetaEffect(all, init + [a], st).tags
  {
    NamingValuesSnoc(init, a);
    var content := LastContent(all);
    if IsNaming(a) {
      TagScanClosedForm(all, a.val, tags);
      if content.Some? {
        OverlayAdd(st.tags, NamingValues(init), a.val, content.value);
      }
    } else {
      assert NamingValues(init + [a]) == NamingValues(init);
    }
  }

  /** One pass of the outer loop takes the closed form for `init` to the closed form for `init + [a]`. */
  lemma {:induction false} MetaEffectStep(all: seq<Attribute>, init: seq<Attribute>, a: Attribute, st: MetaState)
    ensures MetaAttrStep(all, a, MetaEffect(all, init, st)) == MetaEffect(all, init + [a], st)
  {
    var mid := MetaEffect(all, init, st);
    var st1 := if IsRefreshDirective(a) then RefreshScan(all, mid) else mid;
    RefreshPartStep(all, init, a, st);
    TagPartStep(all, init, a, st, st1.tags);
  }

  /** The attribute loops in closed form: the redirect fields take the URL of
      the last matching content attribute when the element has a refresh
      directive and some content matches, and are untouched otherwise; every
      property/name value is mapped to the last content value when there is
      one; nothing else changes. */
  lemma {:induction false} MetaScanClosedForm(all: seq<Attribute>, done: seq<Attribute>, st: MetaState)
    ensures MetaScan(all, done, st) == MetaEffect(all, done, st)
  {
    if done != [] {
      var init := done[..|done| - 1];
      MetaScanClosedForm(all, init, st);
      MetaEffectStep(all, init, done[|done| - 1], st);
      assert init + [done[|done| - 1]] == done;
    } else {
      assert NamingValues(done) == {};
      assert (map k | k in NamingValues(done) :: "") == map[];
    }
  }

  /** What a meta element in the head does: MetaEffect over all its attributes. */
  lemma MetaElementEffect(n: Node, st: MetaState)
    requires st.inHead && IsElementNamed(n, "meta")
    ensures StepNode(n, st) == MetaEffect(n.attrs, n.attrs, st)
  {
    MetaScanClosedForm(n.attrs, n.attrs, st);
  }

  /** A meta element with no refresh directive, or none of whose content attributes
      matches, leaves both redirect fields as they were. */
  lemma RedirectNeedsDirectiveAndMatch(n: Node, st: MetaState)
    requires st.inHead && IsElementNamed(n, "meta")
    requires !HasRefreshDirective(n.attrs) || LastRefreshURL(n.attrs).None?
    ensures StepNode(n, st).isRedirect == st.isRedirect && StepNode(n, st).redirectText == st.redirectText
  {
    MetaElementEffect(n, st);
  }

  lemma RefreshDirectiveAttribute()
    ensures IsRefreshDirective(Attribute("", "http-equiv", "refresh"))
    ensures !IsNaming(Attribute("", "http-equiv", "refresh"))
  {
    TrimSpaceUntouched("refresh");
  }

  /** A content attribute "2;url=U" is a refresh match for U. */
  lemma RefreshContentAttribute(url: string)
    requires '\n' !in url && (url == [] || !IsSpace(url[|url| - 1]))
    ensures var a := Attribute("", "content", "2;url=" + url);
            IsContent(a) && !IsNaming(a) && !IsRefreshDirective(a)
            && MatchRefreshContent(TrimSpace(a.val)) == Some(RefreshMatch("2", "", "", url))
  {
    var v := "2;url=" + url;
    assert v[0] == '2' && v[|v| - 1] == if url == [] then '=' else url[|url| - 1];
    TrimSpaceUntouched(v);
    MatchOneDigitDelay(url);
  }

  /** The attributes of <meta http-equiv="refresh" content="2;url=U">: a
      directive, no naming attribute, and U as the refresh URL. */
  lemma {:induction false} RefreshAttributesFacts(url: string)
    requires '\n' !in url && (url == [] || !IsSpace(url[|url| - 1]))
    ensures var attrs := [Attribute("", "http-equiv", "refresh"), Attribute("", "content", "2;url=" + url)];
            && HasRefreshDirective(attrs) && NamingValues(attrs) == {}
            && LastRefreshURL(attrs) == Some(url)
  {
    var directive := Attribute("", "http-equiv", "refresh");
    var content := Attribute("", "content", "2;url=" + url);
    var attrs := [directive, content];
    RefreshDirectiveAttribute();
    RefreshContentAttribute(url);
    assert attrs[0] == directive && attrs[1] == content;
    assert NamingValues(attrs) == {} by {
      forall i | 0 <= i < |attrs| ensures !IsNaming(attrs[i]) {
      }
    }
  }

  /** A meta element in the head with a refresh directive, a matching content
      attribute and no naming attribute sets exactly the two redirect fields. */
  lemma DirectiveElementRedirects(n: Node, st: MetaState, url: string)
    requires st.inHead && IsElementNamed(n, "meta")
    requires HasRefreshDirective(n.attrs) && NamingValues(n.attrs) == {} && LastRefreshURL(n.attrs) == Some(url)
    ensures StepNode(n, st) == st.(isRedirect := true, redirectText := url)
  {
    MetaElementEffect(n, st);
    if LastContent(n.attrs).Some? {
      assert Overlay(st.tags, {}, LastContent(n.attrs).value) == st.tags;
    }
  }

  /** <meta http-equiv="refresh" content="2;url=U"> in the head redirects to U. */
  lemma RefreshElementRedirects(url: string, st: MetaState)
    requires st.inHead && '\n' !in url && (url == [] || !IsSpace(url[|url| - 1]))
    ensures var n := Node(ElementNode, "meta", [Attribute("", "http-equiv", "refresh"), Attribute("", "content", "2;url=" + url)], []);
            StepNode(n, st) == st.(isRedirect := true, redirectText := url)
  {
    var n := Node(ElementNode, "meta", [Attribute("", "http-equiv", "refresh"), Attribute("", "content", "2;url=" + url)], []);
    assert IsElementNamed(n, "meta");
    RefreshAttributesFacts(url);
    DirectiveElementRedirects(n, st, url);
  }

  /** <meta property="P" content="C"> in the head stores C under P and changes nothing else. */
  lemma PropertyElementStoresContent(property: string, content: string, st: MetaState)
    requires st.inHead
    ensures var n := Node(ElementNode, "meta", [Attribute("", "property", property), Attribute("", "content", content)], []);
            StepNode(n, st) == st.(tags := st.tags[property := content])
  {
    var naming := Attribute("", "property", property);
    var value := Attribute("", "content", content);
    var n := Node(ElementNode, "meta", [naming, value], []);
    assert !HasRefreshDirective(n.attrs) by {
      assert !IsRefreshDirective(naming) && !IsRefreshDirective(value);
    }
    assert NamingValues(n.attrs) == {property} by {
      assert IsNaming(naming) && !IsNaming(value);
      assert n.attrs[0] == naming;
    }
    assert LastContent(n.attrs) == Some(content);
    assert Overlay(st.tags, {property}, content) == st.tags[property := content] by {
      OverlayAdd(st.tags, {}, property, content);
      assert Overlay(st.tags, {}, content) == st.tags;
      assert {} + {property} == {property};
    }
    assert MetaEffect(n.attrs, n.attrs, st) == st.(tags := st.tags[property := content]);
    MetaElementEffect(n, st);
  }

  // ---------------------------------------------------------------------------
  // The traversal order

  /** The nodes of a tree in pre-order, children in sibling order. */
  function PreOrder(n: Node): seq<Node>
    decreases n
  {
    [n] + PreOrderForest(n.children)
  }

  function PreOrderForest(cs: seq<Node>): seq<Node>
    decreases cs
  {
    if cs == [] then [] else PreOrderForest(cs[..|cs| - 1]) + PreOrder(cs[|cs| - 1])
  }

  /** StepNode applied to each node of `ns` in turn. */
  function StepAll(ns: seq<Node>, st: MetaState): MetaState {
    if ns == [] then st else StepNode(ns[|ns| - 1], StepAll(ns[..|ns| - 1], st))
  }

  lemma {:induction false} StepAllAppend(xs: seq<Node>, ys: seq<Node>, st: MetaState)
    ensures StepAll(xs + ys, st) == StepAll(ys, StepAll(xs, st))
  {
    if ys == [] {
      assert xs + ys == xs;
    } else {
      StepAllAppend(xs, ys[..|ys| - 1], st);
      assert (xs + ys)[..|xs + ys| - 1] == xs + ys[..|ys| - 1];
      assert (xs + ys)[|xs + ys| - 1] == ys[|ys| - 1];
    }
  }

  /** The recursive closure is a left-to-right pass over the pre-order node
      list, so a later write is a write later in document order. */
  lemma {:induction false} WalkIsPreOrderPass(n: Node, st: MetaState)
    ensures WalkNode(n, st) == StepAll(PreOrder(n), st)
    decreases n
  {
    WalkForestIsPreOrderPass(n.children, StepNode(n, st));
    StepAllAppend([n], PreOrderForest(n.children), st);
    assert StepAll([n], st) == StepNode(n, st) by {
      assert [n][..0] == [];
    }
  }

  lemma {:induction false} WalkForestIsPreOrderPass(cs: seq<Node>, st: MetaState)
    ensures WalkForest(cs, st) == StepAll(PreOrderForest(cs), st)
    decreases cs
  {
    if cs != [] {
      var init, last := cs[..|cs| - 1], cs[|cs| - 1];
      WalkForestIsPreOrderPass(init, st);
      WalkIsPreOrderPass(last, WalkForest(init, st));
      StepAllAppend(PreOrderForest(init), PreOrder(last), st);
    }
  }

  predicate IsHead(n: Node) {
    IsElementNamed(n, "head")
  }

  /** One node sets inHead exactly when it is a head element, and never clears it. */
  lemma StepNodeInHead(n: Node, st: MetaState)
    ensures StepNode(n, st).inHead <==> st.inHead || IsHead(n)
  {
    var st1 := if IsElementNamed(n, "head") then st.(inHead := true) else st;
    MetaScanClosedForm(n.attrs, n.attrs, st1);
  }

  /** inHead after a pass is true exactly when it was true before or some visited node is a head element. */
  lemma {:induction false} InHeadSticky(ns: seq<Node>, st: MetaState)
    ensures StepAll(ns, st).inHead <==> st.inHead || exists i :: 0 <= i < |ns| && IsHead(ns[i])
  {
    if ns != [] {
      var init := ns[..|ns| - 1];
      InHeadSticky(init, st);
      StepNodeInHead(ns[|ns| - 1], StepAll(init, st));
      var inInit := exists i :: 0 <= i < |init| && IsHead(init[i]);
      var inAll := exists i :: 0 <= i < |ns| && IsHead(ns[i]);
      assert inAll <==> inInit || IsHead(ns[|ns| - 1]) by {
        if inAll {
          var i :| 0 <= i < |ns| && IsHead(ns[i]);
          if i < |init| { assert init[i] == ns[i]; }
        }
        if inInit {
          var i :| 0 <= i < |init| && IsHead(init[i]);
          assert ns[i] == init[i];
        }
      }
    }
  }

  /** Before the first head element nothing is recorded: meta elements there are ignored. */
  lemma {:induction false} NothingBeforeHead(ns: seq<Node>, st: MetaState)
    requires !st.inHead
    requires forall i :: 0 <= i < |ns| ==> !IsHead(ns[i])
    ensures StepAll(ns, st) == st
  {
    if ns != [] {
      NothingBeforeHead(ns[..|ns| - 1], st);
    }
  }

  /** Every meta element after the first head element is processed, wherever it sits in the tree. */
  lemma MetaAfterHeadProcessed(ns: seq<Node>, k: nat, st: MetaState)
    requires k < |ns| && IsElementNamed(ns[k], "meta")
    requires st.inHead || exists i :: 0 <= i < k && IsHead(ns[i])
    ensures StepAll(ns[..k + 1], st) == MetaEffect(ns[k].attrs, ns[k].attrs, StepAll(ns[..k], st))
  {
    InHeadSticky(ns[..k], st);
    if !st.inHead {
      var i :| 0 <= i < k && IsHead(ns[i]);
      assert ns[..k][i] == ns[i];
    }
    assert ns[..k + 1][..k] == ns[..k];
    MetaElementEffect(ns[k], StepAll(ns[..k], st));
  }

  // ---------------------------------------------------------------------------
  // The page

  /** A Page value: what the value-receiver accessors see. */
  datatype PageView = PageView(
    targetURL: Option<Url>,
    pageType: Option<PageType>,
    htmlParsed: bool,
    isHTMLRedirect: bool,
    metaRefreshTagContentURLText: string,
    metaPropertyTags: map<string, string>,
    downloadedAttachment: Option<FileAttachment>,
    valid: bool)
  {
    function URL(): Option<Url> { targetURL }

    function IsValid(): bool { valid }

    function Type(): Option<PageType> { pageType }

    /** IsHTML: the media type is exactly "text/html". A page without a type
        makes the Go method dereference a nil interface. */
    function IsHTML(): (r: bool)
      requires pageType.Some?
      ensures r <==> pageType.value.MediaType() == "text/html"
    {
      Type().value.MediaType() == "text/html"
    }

    /** TargetURLText: "NilTargetURL" for a nil URL, otherwise the URL's text. */
    function TargetURLText(): (s: string)
      ensures targetURL.None? ==> s == "NilTargetURL"
      ensures targetURL.Some? ==> s == targetURL.value.text
    {
      if targetURL.None? then "NilTargetURL" else targetURL.value.text
    }

    /** MetaTags: fails for a non-HTML page, then for an unparsed one, and otherwise gives the tag map. */
    function MetaTags(): (r: Result<map<string, string>, string>)
      requires pageType.Some?
      ensures r.Success? <==> IsHTML() && htmlParsed
      ensures r.Success? ==> r.value == metaPropertyTags
      ensures !IsHTML() ==> r == Failure("Meta tags not available in non-HTML content")
    {
      if !IsHTML() then Failure("Meta tags not available in non-HTML content")
      else if !htmlParsed then Failure("Meta tags not available in unparsed HTML (error or policy didn't request parsing)")
      else Success(metaPropertyTags)
    }

    /** MetaTag: the error of MetaTags, or the value stored under `key` (None
        stands for Go's (nil, false)). */
    function MetaTag(key: string): (r: Result<Option<string>, string>)
      requires pageType.Some?
      ensures MetaTags().Failure? ==> r == Failure(MetaTags().error)
      ensures MetaTags().Success? ==> r.Success? && (r.value.Some? <==> key in metaPropertyTags)
      ensures MetaTags().Success? && key in metaPropertyTags ==> r.value == Some(metaPropertyTags[key])
    {
      match MetaTags()
      case Failure(e) => Failure(e)
      case Success(tags) => Success(if key in tags then Some(tags[key]) else None)
    }

    function Redirect(): (bool, string) {
      (isHTMLRedirect, metaRefreshTagContentURLText)
    }

    function Attachment(): Option<FileAttachment> {
      downloadedAttachment
    }
  }

  /** The page after parsePageMetaData: unchanged when html.Parse failed, and
      otherwise with the three extractor fields as the walk leaves them. */
  function AfterMetaData(v: PageView, document: Result<Node, string>): PageView {
    match document
    case Failure(_) => v
    case Success(doc) =>
      var st := WalkNode(doc, MetaState(false, v.isHTMLRedirect, v.metaRefreshTagContentURLText, v.metaPropertyTags));
      v.(isHTMLRedirect := st.isRedirect, metaRefreshTagContentURLText := st.redirectText, metaPropertyTags := st.tags)
  }

  /** The smallest HTML document around one element: html, then head, then `meta`. */
  function HeadDocument(meta: Node): Node {
    Node(DocumentNode, "", [], [Node(ElementNode, "html", [], [Node(ElementNode, "head", [], [meta])])])
  }

  /** Walking such a document from outside the head is one step on the inner
      element with inHead set. */
  lemma WalkHeadDocument(meta: Node, st: MetaState)
    requires !st.inHead && meta.children == [] && !IsElementNamed(meta, "head")
    ensures WalkNode(HeadDocument(meta), st) == StepNode(meta, st.(inHead := true))
  {
    var head := Node(ElementNode, "head", [], [meta]);
    var html := Node(ElementNode, "html", [], [head]);
    var doc := HeadDocument(meta);
    var inHead := st.(inHead := true);
    assert !IsElementNamed(html, "head") by { assert FoldToAscii(html.data[1]) != "head"[1]; }
    assert !IsElementNamed(html, "meta") by { assert FoldToAscii(html.data[0]) != "meta"[0]; }
    assert !IsElementNamed(head, "meta") by { assert FoldToAscii(head.data[0]) != "meta"[0]; }
    assert IsElementNamed(head, "head");
    assert [meta][..0] == [] && [head][..0] == [] && [html][..0] == [];
    assert WalkNode(meta, inHead) == StepNode(meta, inHead);
    assert StepNode(head, st) == inHead;
    assert WalkForest([meta], inHead) == WalkNode(meta, inHead);
    assert StepNode(html, st) == st && WalkForest([head], st) == WalkNode(head, st);
    assert StepNode(doc, st) == st && WalkForest([html], st) == WalkNode(html, st);
  }

  /** A document whose head holds <meta property="P" content="C">: once
      parsed, an HTML page reports C for MetaTag(P). */
  lemma DocumentMetaTag(v: PageView, property: string, content: string)
    requires v.pageType.Some? && v.pageType.value.mediaType == "text/html" && v.htmlParsed
    ensures var meta := Node(ElementNode, "meta", [Attribute("", "property", property), Attribute("", "content", content)], []);
            AfterMetaData(v, Success(HeadDocument(meta))).MetaTag(property) == Success(Some(content))
  {
    var meta := Node(ElementNode, "meta", [Attribute("", "property", property), Attribute("", "content", content)], []);
    var st := MetaState(false, v.isHTMLRedirect, v.metaRefreshTagContentURLText, v.metaPropertyTags);
    assert !IsElementNamed(meta, "head") by { assert FoldToAscii(meta.data[0]) != "head"[0]; }
    WalkHeadDocument(meta, st);
    PropertyElementStoresContent(property, content, st.(inHead := true));
  }

  /** A document whose head holds <meta http-equiv="refresh" content="2;url=U">:
      once parsed, the page's Redirect() reports (true, U). */
  lemma DocumentRedirect(v: PageView, url: string)
    requires '\n' !in url && (url == [] || !IsSpace(url[|url| - 1]))
    ensures var meta := Node(ElementNode, "meta", [Attribute("", "http-equiv", "refresh"), Attribute("", "content", "2;url=" + url)], []);
            AfterMetaData(v, Success(HeadDocument(meta))).Redirect() == (true, url)
  {
    var meta := Node(ElementNode, "meta", [Attribute("", "http-equiv", "refresh"), Attribute("", "content", "2;url=" + url)], []);
    var st := MetaState(false, v.isHTMLRedirect, v.metaRefreshTagContentURLText, v.metaPropertyTags);
    assert !IsElementNamed(meta, "head") by { assert FoldToAscii(meta.data[0]) != "head"[0]; }
    WalkHeadDocument(meta, st);
    RefreshElementRedirects(url, st.(inHead := true));
  }

  /** Page: the factory fills it field by field and parsePageMetaData updates it in place. */
  class Page {
    var targetURL: Option<Url>
    var pageType: Option<PageType>
    var htmlParsed: bool
    var isHTMLRedirect: bool
    var metaRefreshTagContentURLText: string
    var metaPropertyTags: map<string, string>
    var downloadedAttachment: Option<FileAttachment>
    var valid: bool

    /** new(Page): every field at its zero value. */
    constructor ()
      ensures View() == PageView(None, None, false, false, "", map[], None, false)
    {
      targetURL := None;
      pageType := None;
      htmlParsed := false;
      isHTMLRedirect := false;
      metaRefreshTagContentURLText := "";
      metaPropertyTags := map[];
      downloadedAttachment := None;
      valid := false;
    }

    function View(): PageView
      reads this
    {
      PageView(targetURL, pageType, htmlParsed, isHTMLRedirect, metaRefreshTagContentURLText,
               metaPropertyTags, downloadedAttachment, valid)
    }

    function MetaView(inHead: bool): MetaState
      reads this
    {
      MetaState(inHead, isHTMLRedirect, metaRefreshTagContentURLText, metaPropertyTags)
    }

    /** parsePageMetaData: on a parse error the page is left as it was and the
        error returned; otherwise the closure walks the document. */
    method ParsePageMetaData(document: Result<Node, string>) returns (err: Option<string>)
      modifies this
      ensures View() == AfterMetaData(old(View()), document)
      ensures err == if document.Failure? then Some(document.error) else None
    {
      if document.Failure? {
        return Some(document.error);
      }
      var _ := Visit(document.value, false);
      return None;
    }

    /** The recursive closure at node `n`, with the captured flag passed in and out. */
    method Visit(n: Node, inHead: bool) returns (inHeadAfter: bool)
      modifies this
      ensures MetaView(inHeadAfter) == WalkNode(n, old(MetaView(inHead)))
      ensures targetURL == old(targetURL) && pageType == old(pageType) && htmlParsed == old(htmlParsed)
      ensures downloadedAttachment == old(downloadedAttachment) && valid == old(valid)
      decreases n
    {
      var head := inHead;
      if n.nodeType == ElementNode && EqualFold(n.data, "head") {
        head := true;
      }
      if head && n.nodeType == ElementNode && EqualFold(n.data, "meta") {
        VisitMetaAttributes(n.attrs, head);
      }
      assert MetaView(head) == StepNode(n, old(MetaView(inHead)));
      for c := 0 to |n.children|
        invariant MetaView(head) == WalkForest(n.children[..c], StepNode(n, old(MetaView(inHead))))
        invariant targetURL == old(targetURL) && pageType == old(pageType) && htmlParsed == old(htmlParsed)
        invariant downloadedAttachment == old(downloadedAttachment) && valid == old(valid)
      {
        assert n.children[..c + 1][..c] == n.children[..c];
        head := Visit(n.children[c], head);
      }
      assert n.children[..|n.children|] == n.children;
      inHeadAfter := head;
    }

    /** The outer loop over a meta element's attributes. */
    method VisitMetaAttributes(attrs: seq<Attribute>, inHead: bool)
      modifies this
      ensures MetaView(inHead) == MetaScan(attrs, attrs, old(MetaView(inHead)))
      ensures targetURL == old(targetURL) && pageType == old(pageType) && htmlParsed == old(htmlParsed)
      ensures downloadedAttachment == old(downloadedAttachment) && valid == old(valid)
    {
      for i := 0 to |attrs|
        invariant MetaView(inHead) == MetaScan(attrs, attrs[..i], old(MetaView(inHead)))
        invariant targetURL == old(targetURL) && pageType == old(pageType) && htmlParsed == old(htmlParsed)
        invariant downloadedAttachment == old(downloadedAttachment) && valid == old(valid)
      {
        var attr := attrs[i];
        if EqualFold(attr.key, "http-equiv") && EqualFold(TrimSpace(attr.val), "refresh") {
          VisitRefreshContent(attrs, inHead);
        }
        if EqualFold(attr.key, "property") || EqualFold(attr.key, "name") {
          VisitTagContent(attrs, attr.val, inHead);
        }
        assert attrs[..i + 1][..i] == attrs[..i];
      }
      assert attrs[..|attrs|] == attrs;
    }

    /** The loop run for an http-equiv="refresh" attribute: every content
        attribute whose trimmed value matches the refresh pattern sets the redirect. */
    method VisitRefreshContent(attrs: seq<Attribute>, inHead: bool)
      modifies this
      ensures MetaView(inHead) == RefreshScan(attrs, old(MetaView(inHead)))
      ensures targetURL == old(targetURL) && pageType == old(pageType) && htmlParsed == old(htmlParsed)
      ensures downloadedAttachment == old(downloadedAttachment) && valid == old(valid)
    {
      for j := 0 to |attrs|
        invariant MetaView(inHead) == RefreshScan(attrs[..j], old(MetaView(inHead)))
        invariant targetURL == old(targetURL) && pageType == old(pageType) && htmlParsed == old(htmlParsed)
        invariant downloadedAttachment == old(downloadedAttachment) && valid == old(valid)
      {
        assert attrs[..j + 1][..j] == attrs[..j];
        if EqualFold(attrs[j].key, "content") {
          var contentValue := TrimSpace(attrs[j].val);
          var parts := MatchRefreshContent(contentValue);
          if parts.Some? {
            isHTMLRedirect := true;
            metaRefreshTagContentURLText := parts.value.url;
          }
        }
      }
      assert attrs[..|attrs|] == attrs;
    }

    /** The loop run for a property= or name= attribute: every content
        attribute's value is stored under `propertyName`. */
    method VisitTagContent(attrs: seq<Attribute>, propertyName: string, inHead: bool)
      modifies this
      ensures MetaView(inHead) == old(MetaView(inHead)).(tags := TagScan(attrs, propertyName, old(metaPropertyTags)))
      ensures targetURL == old(targetURL) && pageType == old(pageType) && htmlParsed == old(htmlParsed)
      ensures downloadedAttachment == old(downloadedAttachment) && valid == old(valid)
    {
      for j := 0 to |attrs|
        invariant metaPropertyTags == TagScan(attrs[..j], propertyName, old(metaPropertyTags))
        invariant isHTMLRedirect == old(isHTMLRedirect) && metaRefreshTagContentURLText == old(metaRefreshTagContentURLText)
        invariant targetURL == old(targetURL) && pageType == old(pageType) && htmlParsed == old(htmlParsed)
        invariant downloadedAttachment == old(downloadedAttachment) && valid == old(valid)
      {
        assert attrs[..j + 1][..j] == attrs[..j];
        if EqualFold(attrs[j].key, "content") {
          metaPropertyTags := metaPropertyTags[propertyName := attrs[j].val];
        }
      }
      assert attrs[..|attrs|] == attrs;
    }
  }
}
