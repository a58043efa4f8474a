# lectio/resource — a verified model of URL resolution

This project models the core of `lectio/resource`, a Go library that turns a
URL into a resolved `Page`. The pieces modelled are:

- **Fetching and deciding** (`factory.go`). The factory fetches the URL and
  rejects non-200 responses. It classifies the `Content-Type` and then either
  walks the HTML for meta data or hands the response to a content downloader.
- **Meta-data extraction** (`page.go`). The extractor walks the HTML node
  tree in pre-order. It collects `<meta property|name=… content=…>` tags into
  a map and detects `<meta http-equiv="refresh" content="N;url=…">` redirects.
- **Attachment download** (`file.go`). The downloader writes the body to a
  file. It sniffs the first 261 bytes for a file signature and renames the
  file to the detected extension.
- **Issues and coded errors** (`issue.go`, `errors.go`). These are the
  library's issue values and its "LECTIORES-…" coded errors.

## How it is modelled

Each Go file is modelled in its own style. Pure code becomes datatypes,
functions and lemmas. Code that mutates state becomes classes and methods,
and each method is proved equal to a specification function:

- **`Pages.Page`** is a class with the Go fields. `parsePageMetaData`'s
  recursive closure is the recursive method `Page.Visit`, with `for` loops
  over a meta element's attributes. It is proved to compute the fold
  `Pages.WalkNode`. That fold is proved to be a left-to-right pass over the
  pre-order node list. Its per-element effect is proved in closed form:
  - the last matching refresh content wins;
  - every property/name value maps to the last content value.
- **`Factories.Factory`** is a class with the Go fields.
  - `initOptions` is a loop proved to compute the fold `BindAll`. The fold
    is characterised by "the last option implementing an interface wins".
  - `PageFromURL`, `pageFromHTTPResponse` and the download branch are
    methods proved equal to `PageFromURLSpec`, `PageFromHTTPResponseSpec`
    and `DownloadStage`.
  - Each spec also returns the collaborators consulted, in order. This lets
    lemmas state that no client is obtained for a blank URL, and that the
    downloader is never called on the HTML branch.
- **`Files.DownloadFileFromHTTPResp`** works on a `FileSystem` class that
  holds a path-to-bytes map. It is proved equal to `Files.DownloadSpec`. The
  copy step and the type sniffing are the methods `Files.CopyBody` and
  `Files.Sniff`, proved against `Files.CopySpec` and `Files.SniffSpec`. The
  261-byte header read uses an array.

Go library behaviour that the core relies on is written out where it
matters:

- `strings.TrimSpace` uses Unicode white space (`Text.TrimSpace`).
- `strings.EqualFold` is compared against lower-case ASCII keywords
  (`Text.EqualFold`). This includes the Kelvin sign and the long s.
- `%d` is modelled as `Text.Decimal`.
- `path.Ext` is modelled as `Files.PathExt`.
- The refresh regular expression `^(\d?)\s?;\s?url=(.*)$` is matched by
  hand with RE2's meaning of `\s`, `.` and `$` (`Refresh.MatchRefreshContent`).

Everything the library delegates is an input to the model:

- the HTTP exchange;
- `html.Parse`;
- `mime.ParseMediaType`;
- `filetype.Match`;
- the answers of the policy objects passed as options.

Three behaviours of the code are easy to misread and are modelled as written:

- **Refresh pattern.** `page.go:16` allows at most one digit, at most one
  white-space character on each side of `;`, and only a lower-case `url=`.
  `Refresh.MatchRejectsTwoDigits` and `Refresh.MatchRejectsUpperCaseUrl`
  record this.
- **HTML validity.** The HTML branch returns before `Valid` is ever set
  (`factory.go:190-193`), so an HTML page is never valid
  (`Factories.HtmlAlwaysParsed`). The test at `page_test.go:116` expects the
  opposite.
- **Status error code.** The status error sets `Code` to 200 and keeps the
  status in a separate field (`factory.go:165-169`). The struct's embedded
  field is named `Error` (`errors.go:52-55`), and at depth 0 that field hides
  the embedded type's `Error()` method, so the struct has no `Error()` at all.
  The method it does inherit is `Format` (`errors.go:26-28`), which prints the
  embedded value, so fmt shows "LECTIORES-200 …" (`Errors.StatusErrorText`).
  Its own "LECTIORES-<code>:<status>" rendering (`errors.go:58-62`) appears
  only when `FormatError` is called directly (`Errors.FormatStatusError`).

## Model

| member | source | states |
|---|---|---|
| Text.LeadingSpace | page.go:46 | the count is a prefix of white space followed by a non-space (or the end) |
| Text.TrailingSpace | page.go:46 | the count is a suffix of white space preceded by a non-space (or the start) |
| Text.TrimSpace | page.go:46-49 | strings.TrimSpace: the result is a slice of the input, only white space was cut at each end, and the result neither starts nor ends with white space |
| Text.TrimSpaceUntouched | page.go:49 | a text with no white space at either end is its own trim |
| Text.EqualFold | page.go:41-64 | strings.EqualFold against a lower-case ASCII keyword: the same length, and each character folds to the keyword's character (no contract of its own; FoldOrbit and EqualFoldIgnoresCase state what it accepts) |
| Text.FoldOrbit | page.go:41 | a character matches a lower-case letter exactly when it is that letter, its upper case, or for s and k the long s or the Kelvin sign (Unicode's simple fold orbit) |
| Text.EqualFoldIgnoresCase | page.go:41-64 | upper-casing the ASCII letters of a text never changes whether it matches a keyword |
| Text.NatDecimal | errors.go:20 | %d of a natural: non-empty, all digits, leading zero only for 0 |
| Text.Decimal | errors.go:20 | %d of an integer: digits, with a leading '-' for negatives, and no space or ':' (so renderings can be split) |
| Text.ParseNatDecimal | errors.go:20 | reading back the digits %d printed gives the number |
| Text.DecimalRoundTrip | errors.go:20 | %d is invertible on all integers |
| Text.DecimalInjective | issue.go:57 | different integers print differently |
| Text.IndexOf | errors.go:20 | the first occurrence of a character, or the length when absent |
| Errors.TargetURLIsBlankError | errors.go:35-41 | code 50, message "TargetURL is blank" |
| Errors.TargetURLIsNilError | errors.go:43-49 | code 51, message "TargetURL is Nil" |
| Errors.NewStatusCodeError | factory.go:165-170 | the status error keeps the actual status, its code field is 200, its message ends in the status's decimal text |
| Errors.FormatError | errors.go:19-23 | the rendering starts with "LECTIORES-" and ends with the message |
| Errors.FormatErrorRoundTrip | errors.go:19-23 | code and message are read back out of the rendering "LECTIORES-<code> <message>" |
| Errors.ErrorText | errors.go:31-33 | Error() is the rendering, not the bare message, and it parses back to the error |
| Errors.FormatStatusError | errors.go:58-62 | the status rendering starts with "LECTIORES-" and ends with the message |
| Errors.FormatStatusErrorRoundTrip | errors.go:58-62 | code, status and message are read back out of "LECTIORES-<code>:<status> <message>" |
| Errors.StatusErrorText | errors.go:26-28 | fmt prints a status error through the Format it inherits from the embedded Error (its Error() method is hidden by the field named Error), so the text parses back to the embedded code and message, not the status form |
| Errors.BlankErrorText | errors.go:35-41 | the blank-target error's text is "LECTIORES-50 TargetURL is blank" |
| Errors.NilErrorText | errors.go:43-49 | the nil-target error's text is "LECTIORES-51 TargetURL is Nil" |
| Issues.Issue.Error | issue.go:84-86 | Error() returns the message unchanged |
| Issues.Issue.IssueContext | issue.go:63-65 | the context the issue was built with (stated by NewIssue's contract) |
| Issues.Issue.IssueCode | issue.go:67-69 | the code the issue was built with (stated by NewIssue's contract) |
| Issues.Issue.IssueMessage | issue.go:71-73 | `Issue()`: the message the issue was built with (stated by NewIssue's contract) |
| Issues.Issue.IsError | issue.go:75-77 | the error flag the issue was built with (stated by NewIssue's contract) |
| Issues.Issue.IsWarning | issue.go:79-81 | the negated error flag (WarningIsNotError) |
| Issues.NewIssue | issue.go:45-52 | every accessor returns exactly what the issue was built with |
| Issues.NewHTTPResponseIssue | issue.go:54-61 | context, message and flag kept; the code starts with "RESOURCE_E-0300-HTTP-" |
| Issues.WarningIsNotError | issue.go:75-81 | IsWarning is always the negation of IsError |
| Issues.HTTPResponseIssueCodeCarriesStatus | issue.go:54-61 | the code ends in the status's decimal text, which parses back to the status |
| Issues.HTTPResponseIssueCodesDistinct | issue.go:54-61 | different statuses give different codes |
| Issues.CodesDistinct | issue.go:5-19 | the twelve code constants are pairwise distinct |
| Issues.CodeClasses | issue.go:5-19 | the first nine codes are RESOURCE_E-, the two meta-tag codes RESOURCE_W-, the file-type code neither |
| MediaTypes.NewPageType | type.go:15-24 | the Content-Type is kept verbatim; the error issue (code RESOURCE_E-0500, in the URL's context) appears exactly when media-type parsing fails; otherwise media type and parameters are the parser's |
| Refresh.MatchRefreshContent | page.go:16 | FindStringSubmatch with the refresh pattern: a match has at most one digit, at most one \s on each side of ';' and no newline in group 2, and group 2 is the tail of the text (MatchIffWellFormed gives the exact language) |
| Refresh.MatchSound | page.go:16 | a match splits the input into a digit-or-nothing, optional \s, ';', optional \s, "url=" and a URL without newline, which concatenate back to the input |
| Refresh.MatchCuts | page.go:16 | the matcher cuts the input at most one digit in, after at most one \s, at ';', after at most one \s and after "url=", and returns the pieces between the cuts |
| Refresh.MatchComplete | page.go:16 | every such composition is matched, with exactly those groups |
| Refresh.ComposePieces | page.go:16 | in a composed text, each group and separator sits at the offset given by the lengths before it |
| Refresh.MatchIffWellFormed | page.go:16 | the matcher accepts exactly the texts the pattern describes |
| Refresh.MatchOneDigitDelay | page.go:50-56 | "2;url=U" yields group 2 = U verbatim |
| Refresh.MatchRejectsTwoDigits | page.go:16 | "10;url=x" does not match (one digit at most) |
| Refresh.MatchRejectsUpperCaseUrl | page.go:16 | "2;URL=x" does not match (the literal is case-sensitive) |
| Pages.RefreshScanClosedForm | page.go:47-59 | the refresh loop leaves the redirect fields at the URL of the last matching content attribute, or unchanged when none matches |
| Pages.TagScanClosedForm | page.go:61-67 | the tag loop stores the last content value under the name, or changes nothing |
| Pages.MetaScanClosedForm | page.go:45-69 | one meta element: redirect set iff some attribute is a refresh directive and some content matches; every property/name value maps to the last content value; nothing else changes |
| Pages.MetaElementEffect | page.go:44-69 | a meta element inside the head has exactly that closed-form effect |
| Pages.StepNode | page.go:41-70 | inHead holds afterwards iff it held before or the node is a head element; anything but a meta element inside the head leaves the three page fields unchanged |
| Pages.WalkNode | page.go:40-74 | a walk that starts inside the head, or at a head element, ends inside the head |
| Pages.WalkForest | page.go:71-73 | a children loop that starts inside the head ends inside it |
| Pages.RedirectNeedsDirectiveAndMatch | page.go:46-57 | without a refresh directive or a matching content, the redirect fields are untouched |
| Pages.RefreshElementRedirects | page.go:46-57 | `<meta http-equiv="refresh" content="2;url=U">` in the head sets the redirect to U |
| Pages.DirectiveElementRedirects | page.go:46-57 | a meta element in the head with a refresh directive, a matching content attribute and no property/name attribute sets exactly the two redirect fields |
| Pages.RefreshAttributesFacts | page.go:44-57 | the attribute pair http-equiv="refresh", content="2;url=U" holds a directive, no naming attribute, and U as the refresh URL |
| Pages.PropertyElementStoresContent | page.go:61-67 | `<meta property="P" content="C">` in the head stores C under P and changes nothing else |
| Pages.WalkIsPreOrderPass | page.go:40-75 | the recursive closure is one left-to-right pass over the pre-order node list |
| Pages.WalkForestIsPreOrderPass | page.go:71-73 | the children loop is the pass over the concatenated pre-orders of the children |
| Pages.StepNodeInHead | page.go:41-43 | a node sets inHead iff it is a head element, and never clears it |
| Pages.InHeadSticky | page.go:38-43 | after a pass, inHead holds iff it held before or some visited node is a head element |
| Pages.NothingBeforeHead | page.go:44 | nodes before the first head element change nothing |
| Pages.MetaAfterHeadProcessed | page.go:41-44 | every meta element after the first head, anywhere in the tree, is processed |
| Pages.PageView.URL | page.go:80-82 | TargetURL (ResolvedPageHasFinalURL states it is the final response URL) |
| Pages.PageView.IsValid | page.go:85-87 | the valid flag (ParsedOrValid and DownloadBranch state when it is set) |
| Pages.PageView.Type | page.go:90-92 | the page type (UnclassifiableStops and HtmlAlwaysParsed state what it holds) |
| Pages.PageView.IsHTML | page.go:95-97 | true iff the media type is exactly "text/html" |
| Pages.PageView.TargetURLText | page.go:100-105 | "NilTargetURL" for a nil URL, the URL's text otherwise |
| Pages.PageView.MetaTags | page.go:108-116 | succeeds iff the page is HTML and parsed, with the tag map; the non-HTML error takes precedence |
| Pages.PageView.MetaTag | page.go:119-126 | the MetaTags error, or the value under the key and whether it is present |
| Pages.PageView.Redirect | page.go:130-132 | IsHTMLRedirect and the refresh URL text (DocumentRedirect states what a refresh element yields) |
| Pages.PageView.Attachment | page.go:135-137 | the downloaded attachment (DownloadBranch states when it is the downloader's) |
| Pages.WalkHeadDocument | page.go:40-74 | walking a document html > head > element from outside the head is one step on that element with inHead set |
| Pages.DocumentMetaTag | page.go:31-77 | a parsed HTML page whose document holds `<meta property="P" content="C">` in the head reports C for MetaTag(P) |
| Pages.DocumentRedirect | page.go:31-77 | a parsed page whose document holds `<meta http-equiv="refresh" content="2;url=U">` in the head reports (true, U) from Redirect() |
| Pages.Page.constructor | page.go:19-29 | a new page has every field at its zero value |
| Pages.Page.ParsePageMetaData | page.go:31-77 | a parse error leaves the page unchanged and is returned; otherwise the three extractor fields are what the walk over the document leaves |
| Pages.Page.Visit | page.go:40-74 | the closure updates the page as WalkNode says and touches no other field |
| Pages.Page.VisitMetaAttributes | page.go:45-69 | the attribute loop updates the page as MetaScan says |
| Pages.Page.VisitRefreshContent | page.go:47-59 | the refresh loop updates the redirect fields as RefreshScan says |
| Pages.Page.VisitTagContent | page.go:63-67 | the tag loop updates the tag map as TagScan says |
| Files.FileAttachment.Delete | file.go:49-51 | exactly DestPath is removed from DestFS |
| Files.FileAttachment.URL | file.go:34-36 | TargetURL (DownloadNilCreator states it is the URL passed in) |
| Files.FileAttachment.IsValid | file.go:39-41 | the Valid flag (DownloadOkIffNoError states it is set exactly on success) |
| Files.FileAttachment.Type | file.go:44-46 | the declared content type (DownloadNilCreator states it is the type passed in) |
| Files.Deleted | file.go:50 | the path is gone and every other path is untouched |
| Files.Renamed | file.go:105 | the contents move to the new path; other paths are untouched |
| Files.PathExt | file.go:103 | path.Ext: a suffix that is empty or starts with the last '.' of the last path element |
| Files.Stem | file.go:104 | the path minus its extension, which glued back gives the path |
| Files.PathExtAfterDot | file.go:104 | the extension of stem + "." + ext is "." + ext |
| Files.NewPathExtension | file.go:102-106 | the renamed path ends in "." + the detected extension and keeps the old stem |
| Files.NewPath | file.go:102-104 | the current path without its extension, ".", and the detected extension (NewPathExtension states what path.Ext then reports) |
| Files.SniffWindow | file.go:93-98 | the matcher sees exactly 261 bytes: the file's prefix, zero-padded |
| Files.Copied | file.go:80 | the file holds a prefix of the body, all of it when the stream does not break |
| Files.ReadHeader | file.go:93-96 | the zeroed 261-byte buffer after one read is SniffWindow of the file |
| Files.Sniff | file.go:86-111 | re-open, read, match and rename update result and files as SniffSpec says |
| Files.DownloadFileFromHTTPResp | file.go:55-112 | result triple and files afterwards are DownloadSpec of the inputs and the files before |
| Files.CopyBody | file.go:79-83 | io.Copy writes the body (or the part read before the stream broke) to the created path; a broken stream returns (false, attachment, copy error), otherwise the sniff step follows, as CopySpec says |
| Files.DownloadNilInputs | file.go:56-61 | a nil URL or response returns (false, nil, error) and touches no file |
| Files.DownloadNilCreator | file.go:63-69 | a nil creator returns false and an invalid attachment holding only URL and type |
| Files.EarlyExitsFail | file.go:56-74 | every exit before the copy returns false with an error and leaves the files as they were |
| Files.DownloadCopyFailureKeepsPartialFile | file.go:80-83 | a broken stream returns false, an invalid attachment and the copy error, and leaves the partial file |
| Files.SniffOkIffNoError | file.go:86-111 | after the copy, ok holds exactly when no error is returned, and then the attachment is valid |
| Files.DownloadOkIffNoError | file.go:55-112 | ok holds exactly when no error is returned, on every path |
| Files.DownloadRenamesToDetectedType | file.go:98-107 | a signature match sets the file type and renames the file to stem + "." + extension, keeping its bytes |
| Files.DownloadKeepsPathWithoutMatch | file.go:86-111 | without a match or with auto-extension off, path and file type are unchanged and the result is (true, valid, nil) |
| Files.DownloadPdfThenDelete | file.go:49-112 | a PDF download ends in a non-empty ".pdf" file that Delete then removes |
| Factories.BindSlot | factory.go:74-104 | one option fills exactly the fields of the interfaces it implements |
| Factories.BindAllSlots | factory.go:71-106 | after the loop each field holds the last option implementing its interface, or its previous value |
| Factories.BindAll | factory.go:71-106 | the options loop as a left fold of Bind (BindAllSlots states what each field ends up holding) |
| Factories.LastImplementerWins | factory.go:74-104 | the option at i wins when it implements the interface and no later option does |
| Factories.LastImplementerNone | factory.go:74-104 | a field stays nil iff no option implements its interface |
| Factories.FactoryBindsLastImplementers | factory.go:19-23 | NewFactory binds each field to the last implementing option; the tracker defaults to the factory |
| Factories.Factory.constructor | factory.go:19-23 | NewFactory is the zero factory with its options bound |
| Factories.Factory.InitOptions | factory.go:71-106 | the loop computes BindAll from the factory with its own tracker |
| Factories.Factory.BindOption | factory.go:75-104 | one loop pass applies Bind |
| Factories.HTTPClient | factory.go:108-120 | provider first, then function, then a default client with a 90 second timeout |
| Factories.Preparations | factory.go:122-130 | exactly one call per bound preparer: the preparer object first, then the preparing function; none when neither is bound |
| Factories.DetectRedirectsInHTMLContent | factory.go:132-137 | with a policy, the policy is asked once and its answer is the result; without one, true and nobody is asked |
| Factories.ParseMetaDataInHTMLContent | factory.go:139-144 | always true: the policy is asked but its answer is discarded |
| Factories.BlankTargetFailsFirst | factory.go:148-150 | an empty URL yields no page and the code-50 error before any client or request |
| Factories.NonOKStatus | factory.go:164-172 | a non-200 status yields no page and a status error with the actual status and code 200 |
| Factories.HtmlAlwaysParsed | factory.go:190-194 | every text/html response is walked, HTMLParsed set, no error returned, the downloader never called, and valid left false |
| Factories.HtmlPageReportsMetaTag | factory.go:190-194 | an HTML response whose head holds property P with content C resolves to a page whose MetaTag(P) is C |
| Factories.UnclassifiableStops | factory.go:183-189 | an unparsable Content-Type returns the partly built page with the issue and consults nobody |
| Factories.DownloadBranch | factory.go:197-211 | the attachment is stored iff no error, ok and non-nil; the error is returned iff a policy says stop; otherwise valid |
| Factories.DownloadStage | factory.go:197-211 | always a page; without an error the page is valid and differs from the input only in attachment and validity; an error is a download failure and the page comes back untouched |
| Factories.NoDownloaderIsValid | factory.go:197-211 | without a downloader the page is just marked valid |
| Factories.ParsedOrValid | factory.go:178-212 | a page is never both HTML-parsed and valid, a valid page has no error, and its URL is the given one |
| Factories.ResolvedPageHasFinalURL | factory.go:174-181 | a 200 response gives a page whose URL is the final response URL, after the client and request calls |
| Factories.Factory.PageFromURL | factory.go:147-175 | page, error and calls are PageFromURLSpec; the per-call options play no part |
| Factories.PageFromURLSpec | factory.go:147-175 | nil content exactly on the four early failures (blank URL, request not built, transport failure, non-200 status); a returned page has a URL |
| Factories.Factory.PageFromHTTPResponse | factory.go:178-212 | a fresh page, error and calls equal to PageFromHTTPResponseSpec |
| Factories.PageFromHTTPResponseSpec | factory.go:178-212 | always a page, carrying the final URL; the only errors are an unclassifiable Content-Type and a download failure the policy stops on |
| Factories.Factory.DownloadContent | factory.go:197-211 | the page update, error and calls are DownloadStage |

## Left out

- HTTP transport is left out: `http.NewRequest`, `client.Do`, transport redirects and timeouts (`factory.go:153-162`). One function from the client and URL text to an `Http.Exchange` stands in for them. As a result, request preparation cannot change the outcome.
- HTML tokenising and tree building (`html.Parse`, `page.go:32`) are an input: the response body carries the node tree or a parse error.
- `mime.ParseMediaType` (`type.go:19`) is an input function. Its media-type grammar is not modelled.
- The `filetype.Match` signature database (`file.go:98`) is an input function from the 261-byte header to an optional file type.
- The afero filesystem is a path-to-bytes map.
  - Closing files and the ignored errors of `Read`, `Close` and `Rename` are left out.
  - One `Read` is assumed to fill the header from the start of the file.
  - The failure to re-open the written file (`file.go:88-91`) is a parameter, since a map cannot produce it.
- Files.DownloadFileFromHTTPResp: the creator's `CreateFile` answer and its `AutoAssignExtension` answer are inputs. A creator that answers differently for the same URL is not modelled.
- Stack frames and `%w` wrapping are left out (`errors.go:21`, `errors.go:60`; `factory.go:156`, `factory.go:161`). For these, `Factories.ResolveError` keeps the wrapped cause, not the wrapping text.
- Factories.ResolveError.UnexpectedStatus carries the status-code struct itself. In Go that struct has no `Error()` method, so it is not an `error`, and the `%w` at `factory.go:171` wraps nothing. The Go error only formats the struct into its message text.
- `context.Context`, the warning tracker's no-op `OnWarning` (`factory.go:214-216`) and thread safety are left out. The tracker and the attachment creator are bound by `initOptions` but never consulted by the factory.
- Factories.HTTPClient models only which client is chosen, not the client itself.
- Files.FileAttachment.Delete requires a destination filesystem. The attachments returned on the nil-creator and CreateFile-failure paths (`file.go:63-74`) have a nil `DestFS`, and calling `Delete` on one makes the Go method call through a nil interface and panic.
- Pages.PageView.IsHTML requires a page type: on a page with a nil type the Go method dereferences a nil interface and panics.
- Go strings are byte sequences; here a string is a sequence of Unicode scalar values. Text that is not valid UTF-8 cannot be represented, so `Text.TrimSpace`, `Text.EqualFold` and `Refresh.MatchRefreshContent` are modelled only on valid text (Go decodes each invalid byte as U+FFFD).
- Nil and empty maps are not distinguished. `MetaTags` values are strings rather than `interface{}`.
- `Issue()` of issue.go is `Issues.Issue.IssueMessage`, renamed because the datatype is itself called `Issue`.
- `filetype.Match` upstream answers "unknown" with a nil error for an unrecognised header. That library is not part of this model, so its answer is whatever the input function returns.
- policy.go and content.go hold only interfaces and constants.
