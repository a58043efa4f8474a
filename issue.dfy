/**
 * Structured issues (issue.go): a context, a stable code, a message and a
 * severity bit, with the fixed set of codes the resolver uses.
 */
module Issues {
  import opened Text

  const TargetURLIsBlank: string := "RESOURCE_E-0050"
  const TargetURLIsNil: string := "RESOURCE_E-0051"
  const UnableToCreateHTTPRequest: string := "RESOURCE_E-0100"
  const UnableToExecuteHTTPGETRequest: string := "RESOURCE_E-0200"
  const InvalidHTTPRespStatusCode: string := "RESOURCE_E-0300"
  const UnableToParseHTTPBody: string := "RESOURCE_E-0400"
  const UnableToInspectMediaTypeFromContentType: string := "RESOURCE_E-0500"
  const PolicyIsNil: string := "RESOURCE_E-0600"
  const CopyErrorDuringFileDownload: string := "RESOURCE_E-0700"
  const MetaTagsNotAvailableInNonHTMLContent: string := "RESOURCE_W-0100"
  const MetaTagsNotAvailableInUnparsedHTML: string := "RESOURCE_W-0101"
  const UnableToInspectFileType: string := "RESOURCE_S-0200"

  /** Every code constant, in declaration order. */
  const AllCodes: seq<string> := [
    TargetURLIsBlank, TargetURLIsNil, UnableToCreateHTTPRequest, UnableToExecuteHTTPGETRequest,
    InvalidHTTPRespStatusCode, UnableToParseHTTPBody, UnableToInspectMediaTypeFromContentType,
    PolicyIsNil, CopyErrorDuringFileDownload, MetaTagsNotAvailableInNonHTMLContent,
    MetaTagsNotAvailableInUnparsedHTML, UnableToInspectFileType]

  /** The issue struct; its methods have value receivers and only read it. */
  datatype Issue = Issue(context: string, code: string, message: string, isError: bool) {

    function IssueContext(): string { context }

    function IssueCode(): string { code }

    /** Issue(): the message. */
    function IssueMessage(): string { message }

    function IsError(): bool { isError }

    function IsWarning(): bool { !isError }

    /** Error(): the message, unchanged. */
    function Error(): (s: string)
      ensures s == IssueMessage()
    {
      message
    }
  }

  /** NewIssue: a fresh issue holding exactly what it was given. */
  function NewIssue(context: string, code: string, message: string, isError: bool): (i: Issue)
    ensures i.IssueContext() == context && i.IssueCode() == code
    ensures i.IssueMessage() == message && i.IsError() == isError
  {
    Issue(context, code, message, isError)
  }

  /** newHTTPResponseIssue: the code is the status-code constant, "-HTTP-" and the status. */
  function NewHTTPResponseIssue(context: string, httpRespStatusCode: int, message: string, isError: bool): (i: Issue)
    ensures i.IssueContext() == context && i.IssueMessage() == message && i.IsError() == isError
    ensures HasPrefix(i.IssueCode(), InvalidHTTPRespStatusCode + "-HTTP-")
  {
    Issue(context, InvalidHTTPRespStatusCode + "-HTTP-" + Decimal(httpRespStatusCode), message, isError)
  }

  /** Every issue is exactly one of error and warning. */
  lemma WarningIsNotError(i: Issue)
    ensures i.IsWarning() == !i.IsError()
  {
  }

  /** The status is recoverable from the code of an HTTP response issue, so
      two statuses never share a code. */
  lemma HTTPResponseIssueCodeCarriesStatus(context: string, status: int, message: string, isError: bool)
    ensures var code := NewHTTPResponseIssue(context, status, message, isError).IssueCode();
            var n := |InvalidHTTPRespStatusCode + "-HTTP-"|;
            |code| > n && code[n..] == Decimal(status) && ParseDecimal(code[n..]) == status
  {
    var code := NewHTTPResponseIssue(context, status, message, isError).IssueCode();
    var p := InvalidHTTPRespStatusCode + "-HTTP-";
    assert code == p + Decimal(status);
    assert code[|p|..] == Decimal(status);
    DecimalRoundTrip(status);
  }

  lemma HTTPResponseIssueCodesDistinct(status1: int, status2: int, context: string, message: string, isError: bool)
    requires status1 != status2
    ensures NewHTTPResponseIssue(context, status1, message, isError).IssueCode()
         != NewHTTPResponseIssue(context, status2, message, isError).IssueCode()
  {
    HTTPResponseIssueCodeCarriesStatus(context, status1, message, isError);
    HTTPResponseIssueCodeCarriesStatus(context, status2, message, isError);
  }

  /** The code constants are pairwise distinct. */
  lemma CodesDistinct()
    ensures forall i, j :: 0 <= i < j < |AllCodes| ==> AllCodes[i] != AllCodes[j]
  {
  }

  /** The codes of the error class carry "RESOURCE_E-", the two meta-tag warnings "RESOURCE_W-". */
  lemma CodeClasses()
    ensures forall i :: 0 <= i < 9 ==> HasPrefix(AllCodes[i], "RESOURCE_E-")
    ensures HasPrefix(MetaTagsNotAvailableInNonHTMLContent, "RESOURCE_W-")
    ensures HasPrefix(MetaTagsNotAvailableInUnparsedHTML, "RESOURCE_W-")
    ensures !HasPrefix(UnableToInspectFileType, "RESOURCE_E-") && !HasPrefix(UnableToInspectFileType, "RESOURCE_W-")
  {
    assert UnableToInspectFileType[..11][9] == 'S';
  }
}
