/**
 * The coded errors of the resolver (errors.go): a message with an integer
 * code, rendered as "LECTIORES-<code> <message>", and the status-code error
 * that also carries the HTTP status, rendered "LECTIORES-<code>:<status> <message>".
 * The xerrors stack frame is not part of the model: it is printed only in
 * detail mode ("%+v").
 */
module Errors {
  import opened Wrappers
  import opened Text

  /** Error (errors.go:12-16) without its Frame. */
  datatype CodedError = CodedError(message: string, code: int)

  /** InvalidHTTPRespStatusCodeError (errors.go:52-55): an embedded Error plus the status. */
  datatype StatusCodeError = StatusCodeError(base: CodedError, httpStatusCode: int)

  const RenderPrefix: string := "LECTIORES-"

  /** The error returned for an empty target URL. */
  function TargetURLIsBlankError(): (e: CodedError)
    ensures e.code == 50 && e.message == "TargetURL is blank"
  {
    CodedError("TargetURL is blank", 50)
  }

  /** The error for a nil target URL. */
  function TargetURLIsNilError(): (e: CodedError)
    ensures e.code == 51 && e.message == "TargetURL is Nil"
  {
    CodedError("TargetURL is Nil", 51)
  }

  /** The status-code error that the resolver builds for a non-200 response:
      its code field is always 200 and the status sits in its own field. */
  function NewStatusCodeError(status: int): (e: StatusCodeError)
    ensures e.httpStatusCode == status && e.base.code == 200
    ensures e.base.message == "Invalid HTTP Response Status Code: " + Decimal(status)
  {
    StatusCodeError(CodedError("Invalid HTTP Response Status Code: " + Decimal(status), 200), status)
  }

  predicate IsDecimalText(s: string) {
    s != [] && (AllDigits(s) || (s[0] == '-' && AllDigits(s[1..])))
  }

  /** Error.FormatError: "LECTIORES-%d %s". */
  function FormatError(e: CodedError): (s: string)
    ensures HasPrefix(s, RenderPrefix)
    ensures |s| > |e.message| && s[|s| - |e.message|..] == e.message
  {
    var s := RenderPrefix + Decimal(e.code) + " " + e.message;
    assert s[|s| - |e.message|..] == e.message;
    s
  }

  /** Reads code and message back out of a rendered Error. */
  function ParseFormattedError(s: string): Option<CodedError> {
    if !HasPrefix(s, RenderPrefix) then None
    else
      var rest := s[|RenderPrefix|..];
      var k := IndexOf(rest, ' ');
      if k == |rest| || !IsDecimalText(rest[..k]) then None
      else Some(CodedError(rest[k + 1..], ParseDecimal(rest[..k])))
  }

  /** The rendering of an Error loses neither its code nor its message. */
  lemma FormatErrorRoundTrip(e: CodedError)
    ensures ParseFormattedError(FormatError(e)) == Some(e)
  {
    var d := Decimal(e.code);
    var s := FormatError(e);
    var rest := s[|RenderPrefix|..];
    assert rest == d + [' '] + e.message;
    IndexOfSeparator(d, ' ', e.message);
    assert rest[..|d|] == d;
    assert rest[|d| + 1..] == e.message;
    DecimalRoundTrip(e.code);
  }

  /** Error.Error(): fmt.Sprint of the value, which prints through FormatError,
      so the text is the rendering and not the bare message. */
  function ErrorText(e: CodedError): (s: string)
    ensures ParseFormattedError(s) == Some(e)
    ensures s != e.message
  {
    FormatErrorRoundTrip(e);
    FormatError(e)
  }

  /** InvalidHTTPRespStatusCodeError.FormatError: "LECTIORES-%d:%d %s". */
  function FormatStatusError(e: StatusCodeError): (s: string)
    ensures HasPrefix(s, RenderPrefix)
    ensures |s| > |e.base.message| && s[|s| - |e.base.message|..] == e.base.message
  {
    var s := RenderPrefix + Decimal(e.base.code) + ":" + Decimal(e.httpStatusCode) + " " + e.base.message;
    assert s[|s| - |e.base.message|..] == e.base.message;
    s
  }

  /** Reads code, status and message back out of a rendered status-code error. */
  function ParseFormattedStatusError(s: string): Option<StatusCodeError> {
    if !HasPrefix(s, RenderPrefix) then None
    else
      var rest := s[|RenderPrefix|..];
      var k := IndexOf(rest, ':');
      if k == |rest| || !IsDecimalText(rest[..k]) then None
      else
        var tail := rest[k + 1..];
        var j := IndexOf(tail, ' ');
        if j == |tail| || !IsDecimalText(tail[..j]) then None
        else Some(StatusCodeError(CodedError(tail[j + 1..], ParseDecimal(rest[..k])), ParseDecimal(tail[..j])))
  }

  /** The rendering of a status-code error loses none of its three parts. */
  lemma FormatStatusErrorRoundTrip(e: StatusCodeError)
    ensures ParseFormattedStatusError(FormatStatusError(e)) == Some(e)
  {
    var c := Decimal(e.base.code);
    var d := Decimal(e.httpStatusCode);
    var s := FormatStatusError(e);
    var rest := s[|RenderPrefix|..];
    var tail := d + " " + e.base.message;
    assert rest == c + [':'] + tail;
    IndexOfSeparator(c, ':', tail);
    assert rest[..|c|] == c;
    assert rest[|c| + 1..] == tail;
    assert tail == d + [' '] + e.base.message;
    IndexOfSeparator(d, ' ', e.base.message);
    assert tail[..|d|] == d;
    assert tail[|d| + 1..] == e.base.message;
    DecimalRoundTrip(e.base.code);
    DecimalRoundTrip(e.httpStatusCode);
  }

  /** What fmt prints for a status-code error. The struct's embedded field is
      named Error, and that field hides the embedded type's Error() method, so
      the struct has no Error() of its own; what it does inherit is Format,
      which prints the embedded value. The text therefore shows the code field
      and the message, not the status field. */
  function StatusErrorText(e: StatusCodeError): (s: string)
    ensures ParseFormattedError(s) == Some(e.base)
  {
    ErrorText(e.base)
  }

  /** Decimal text of small constants, digit by digit. */
  lemma DecimalOfTwoDigits(n: nat)
    requires 10 <= n < 100
    ensures Decimal(n) == [DigitChar(n / 10), DigitChar(n % 10)]
  {
    assert NatDecimal(n / 10) == [DigitChar(n / 10)];
  }

  /** The blank-target error renders as its documented text. */
  lemma BlankErrorText()
    ensures ErrorText(TargetURLIsBlankError()) == "LECTIORES-50 TargetURL is blank"
  {
    assert Decimal(50) == "50" by { DecimalOfTwoDigits(50); }
    assert FormatError(TargetURLIsBlankError()) == RenderPrefix + "50" + " " + "TargetURL is blank";
    assert RenderPrefix + "50" + " " + "TargetURL is blank" == "LECTIORES-50 TargetURL is blank";
  }

  /** The nil-target error renders as its documented text. */
  lemma NilErrorText()
    ensures ErrorText(TargetURLIsNilError()) == "LECTIORES-51 TargetURL is Nil"
  {
    assert Decimal(51) == "51" by { DecimalOfTwoDigits(51); }
    assert FormatError(TargetURLIsNilError()) == RenderPrefix + "51" + " " + "TargetURL is Nil";
    assert RenderPrefix + "51" + " " + "TargetURL is Nil" == "LECTIORES-51 TargetURL is Nil";
  }
}
