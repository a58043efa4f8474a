/**
 * The matcher for the `content` attribute of a refresh meta tag: the
 * regular expression ^(\d?)\s?;\s?url=(.*)$ of page.go, written by hand
 * with Go's RE2 meaning: \d is an ASCII digit, \s is one of tab, newline,
 * form feed, carriage return and space, `.` is any character but newline,
 * and `$` is the end of the text.
 */
module Refresh {
  import opened Wrappers
  import opened Text

  /** RE2's \s class. */
  predicate IsRegexSpace(c: char) {
    c == '\t' || c == '\n' || c == '\U{C}' || c == '\r' || c == ' '
  }

  /** The pieces of a match: group 1 (the delay), the optional space on
      either side of ';', and group 2 (the URL text). */
  datatype RefreshMatch = RefreshMatch(delay: string, spaceBefore: string, spaceAfter: string, url: string)

  /** What the pattern admits for each piece. */
  predicate WellFormed(m: RefreshMatch) {
    && |m.delay| <= 1 && AllDigits(m.delay)
    && |m.spaceBefore| <= 1 && (forall i :: 0 <= i < |m.spaceBefore| ==> IsRegexSpace(m.spaceBefore[i]))
    && |m.spaceAfter| <= 1 && (forall i :: 0 <= i < |m.spaceAfter| ==> IsRegexSpace(m.spaceAfter[i]))
    && '\n' !in m.url
  }

  /** The text a match spans: the whole input, since the pattern is anchored at both ends. */
  function Compose(m: RefreshMatch): string {
    m.delay + m.spaceBefore + ";" + m.spaceAfter + "url=" + m.url
  }

  /** FindStringSubmatch for the refresh pattern; None when it does not match. */
  function MatchRefreshContent(s: string): (r: Option<RefreshMatch>)
    ensures r.Some? ==> WellFormed(r.value)
    ensures r.Some? ==> |r.value.url| + 5 <= |s| && r.value.url == s[|s| - |r.value.url|..]
  {
    var a := if 0 < |s| && IsDigit(s[0]) then 1 else 0;
    var b := if a < |s| && IsRegexSpace(s[a]) then a + 1 else a;
    if b < |s| && s[b] == ';' then
      var c := b + 1;
      var d := if c < |s| && IsRegexSpace(s[c]) then c + 1 else c;
      if d + 4 <= |s| && s[d..d + 4] == "url=" && '\n' !in s[d + 4..] then
        assert a == 1 ==> s[..a] == [s[0]];
        Some(RefreshMatch(s[..a], s[a..b], s[c..d], s[d + 4..]))
      else None
    else None
  }

  /** A text cut at a, b, b + 1, d and d + 4 is the concatenation of the pieces. */
  lemma {:induction false} SliceChain(s: string, a: nat, b: nat, d: nat)
    requires a <= b && b + 1 <= d && d + 4 <= |s|
    ensures s == s[..a] + s[a..b] + [s[b]] + s[b + 1..d] + s[d..d + 4] + s[d + 4..]
  {
    assert s[..b] == s[..a] + s[a..b];
    assert s[..b + 1] == s[..b] + [s[b]];
    assert s[..d] == s[..b + 1] + s[b + 1..d];
    assert s[..d + 4] == s[..d] + s[d..d + 4];
    assert s == s[..d + 4] + s[d + 4..];
  }

  /** The cut points the matcher chooses, and the pieces it returns there. */
  lemma MatchCuts(s: string) returns (a: nat, b: nat, d: nat)
    requires MatchRefreshContent(s).Some?
    ensures a <= b && b + 1 <= d && d + 4 <= |s| && s[b] == ';' && s[d..d + 4] == "url="
    ensures MatchRefreshContent(s).value == RefreshMatch(s[..a], s[a..b], s[b + 1..d], s[d + 4..])
    ensures WellFormed(MatchRefreshContent(s).value)
  {
    a := if 0 < |s| && IsDigit(s[0]) then 1 else 0;
    b := if a < |s| && IsRegexSpace(s[a]) then a + 1 else a;
    d := if b + 1 < |s| && IsRegexSpace(s[b + 1]) then b + 2 else b + 1;
    if a == 1 {
      assert s[..a] == [s[0]];
    }
  }

  /** A match is well formed and spans exactly the input. */
  lemma MatchSound(s: string)
    requires MatchRefreshContent(s).Some?
    ensures WellFormed(MatchRefreshContent(s).value)
    ensures Compose(MatchRefreshContent(s).value) == s
  {
    var a, b, d := MatchCuts(s);
    SliceChain(s, a, b, d);
    assert [s[b]] == ";";
  }

  /** Where each piece of a composition sits in the composed text. */
  lemma ComposePieces(m: RefreshMatch)
    ensures var s := Compose(m);
            var a := |m.delay|;
            var b := a + |m.spaceBefore|;
            var d := b + 1 + |m.spaceAfter|;
            && d + 4 <= |s| && s[..a] == m.delay && s[a..b] == m.spaceBefore && s[b] == ';'
            && s[b + 1..d] == m.spaceAfter && s[d..d + 4] == "url=" && s[d + 4..] == m.url
  {
    var s := Compose(m);
    var a := |m.delay|;
    var b := a + |m.spaceBefore|;
    var c := b + 1;
    var d := c + |m.spaceAfter|;
    var t1 := m.delay + m.spaceBefore;
    var t2 := t1 + ";";
    var t3 := t2 + m.spaceAfter;
    var t4 := t3 + "url=";
    assert s == t4 + m.url;
    assert s[..d + 4] == t4;
    assert s[..c] == t2 by { assert t4[..c] == t2; }
    assert s[..b] == t1 by { assert t2[..b] == t1; }
    assert s[..a] == m.delay by { assert t1[..a] == m.delay; }
    assert s[a..b] == m.spaceBefore by { assert t1[a..b] == m.spaceBefore; }
    assert s[b] == ';' by { assert t2[b] == ';'; }
    assert s[c..d] == m.spaceAfter by { assert t3[c..d] == m.spaceAfter; }
    assert s[d..d + 4] == "url=" by { assert t4[d..d + 4] == "url="; }
  }

  /** Every well-formed split is found by the matcher, with the same groups. */
  lemma MatchComplete(m: RefreshMatch)
    requires WellFormed(m)
    ensures MatchRefreshContent(Compose(m)) == Some(m)
  {
    var s := Compose(m);
    var a := |m.delay|;
    var b := a + |m.spaceBefore|;
    var d := b + 1 + |m.spaceAfter|;
    ComposePieces(m);
    if a == 1 {
      assert s[0] == m.delay[0];
    } else if 0 < |s| {
      assert s[0] == if b == 0 then ';' else m.spaceBefore[0];
    }
    if b == a + 1 {
      assert s[a] == m.spaceBefore[0];
    } else {
      assert s[a] == ';';
    }
    if d == b + 2 {
      assert s[b + 1] == m.spaceAfter[0];
    } else {
      assert s[b + 1] == s[d..d + 4][0];
    }
  }

  /** The pattern accepts exactly the texts that split into well-formed pieces. */
  lemma MatchIffWellFormed(s: string)
    ensures MatchRefreshContent(s).Some? <==> exists m :: WellFormed(m) && Compose(m) == s
  {
    if MatchRefreshContent(s).Some? {
      MatchSound(s);
    }
    if exists m :: WellFormed(m) && Compose(m) == s {
      var m :| WellFormed(m) && Compose(m) == s;
      MatchComplete(m);
    }
  }

  /** A one-digit delay is accepted and group 2 is the URL text verbatim,
      e.g. "2;url=https://example.com/x" yields "https://example.com/x". */
  lemma MatchOneDigitDelay(url: string)
    requires '\n' !in url
    ensures MatchRefreshContent("2;url=" + url) == Some(RefreshMatch("2", "", "", url))
  {
    var m := RefreshMatch("2", "", "", url);
    assert Compose(m) == "2;url=" + url;
    MatchComplete(m);
  }

  /** A two-digit delay is rejected, since the pattern allows a single digit. */
  lemma MatchRejectsTwoDigits()
    ensures MatchRefreshContent("10;url=x").None?
  {
  }

  /** The literal "url=" is case-sensitive. */
  lemma MatchRejectsUpperCaseUrl()
    ensures MatchRefreshContent("2;URL=x").None?
  {
    var s := "2;URL=x";
    assert s[2..6] != "url=" by { assert s[2..6][0] == 'U'; }
  }
}
