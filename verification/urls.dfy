/**
 * The URL scan of backend/extract_urls.py: `re.findall` with the pattern
 * https?://[^\s'"，,\])]+ over the text of a file, and the loop that writes
 * the matches one per line. Reading and writing the files is not modelled: the
 * text comes in as a string and the file's new contents come out as one.
 */
module UrlScan {
  import opened Common

  /** Python's `\s` on str patterns: the characters `str.isspace` accepts. */
  predicate IsPySpace(c: char)
  {
    ('\t' <= c <= '\r') || ('\U{001C}' <= c <= ' ') || c == '\U{0085}' || c == '\U{00A0}'
    || c == '\U{1680}' || ('\U{2000}' <= c <= '\U{200A}') || c == '\U{2028}' || c == '\U{2029}'
    || c == '\U{202F}' || c == '\U{205F}' || c == '\U{3000}'
  }

  /** The characters the negated class `[^\s'"，,\])]` refuses. */
  predicate Excluded(c: char)
  {
    IsPySpace(c) || c == '\'' || c == '"' || c == '，' || c == ',' || c == ']' || c == ')'
  }

  /** The end of the run of admissible characters that starts at `i`. */
  function RunEnd(text: string, i: nat): (e: nat)
    requires i <= |text|
    ensures i <= e <= |text|
    ensures forall k :: i <= k < e ==> !Excluded(text[k])
    ensures e == |text| || Excluded(text[e])
    decreases |text| - i
  {
    if i == |text| || Excluded(text[i]) then i else RunEnd(text, i + 1)
  }

  /** The scheme part of the pattern, `https?://`, matched at `i`: its length. */
  function SchemeAt(text: string, i: nat): Option<nat>
  {
    if i + 8 <= |text| && text[i..i + 8] == "https://" then Some(8)
    else if i + 7 <= |text| && text[i..i + 7] == "http://" then Some(7)
    else None
  }

  /** The end of the match that starts at `i`, if the pattern matches there:
      the scheme followed by at least one admissible character, taken greedily. */
  function MatchAt(text: string, i: nat): Option<nat>
  {
    match SchemeAt(text, i)
    case None => None
    case Some(n) =>
      if i + n < |text| && !Excluded(text[i + n]) then Some(RunEnd(text, i + n)) else None
  }

  datatype Span = Span(start: nat, end: nat)

  /** A well-formed match: inside the text, the scheme followed by at least one
      more character, made of admissible characters only, and maximal. */
  ghost predicate IsMatch(text: string, sp: Span)
  {
    && sp.start < sp.end <= |text|
    && (("http://" <= text[sp.start..sp.end] && sp.end - sp.start > 7)
        || ("https://" <= text[sp.start..sp.end] && sp.end - sp.start > 8))
    && (forall k :: sp.start <= k < sp.end ==> !Excluded(text[k]))
    && (sp.end == |text| || Excluded(text[sp.end]))
  }

  lemma MatchAtIsMatch(text: string, i: nat)
    requires MatchAt(text, i).Some?
    ensures i < MatchAt(text, i).value && IsMatch(text, Span(i, MatchAt(text, i).value))
  {
    var e := MatchAt(text, i).value;
    var n := SchemeAt(text, i).value;
    assert text[i..i + n] <= text[i..e];
  }

  /** Conversely, the scanner finds every well-formed match where it starts. */
  lemma IsMatchMatchAt(text: string, sp: Span)
    requires IsMatch(text, sp)
    ensures MatchAt(text, sp.start) == Some(sp.end)
  {
    var j := sp.start;
    var u := text[j..sp.end];
    var n := if "https://" <= u then 8 else 7;
    assert text[j..j + n] == u[..n];
    if n == 7 && j + 8 <= |text| {
      assert text[j..j + 8][4] == u[4] == ':';
    }
    assert SchemeAt(text, j) == Some(n);
    if n == 8 {
      assert u[..8][4] == 's';
      assert !("http://" <= u);
    }
    assert j + n < sp.end;
    assert !Excluded(text[j + n]);
    RunEndIs(text, j + n, sp.end);
  }

  /** A run of admissible characters from `i` that stops at a refused character
      or at the end of the text is the run `RunEnd` finds. */
  lemma {:induction false} RunEndIs(text: string, i: nat, e: nat)
    requires i <= e <= |text|
    requires forall k :: i <= k < e ==> !Excluded(text[k])
    requires e == |text| || Excluded(text[e])
    ensures RunEnd(text, i) == e
    decreases e - i
  {
    if i < e {
      RunEndIs(text, i + 1, e);
    }
  }

  /** The matches `re.findall` finds from position `i` on: try the pattern at
      each position in turn, and after a match go on from where it ended. */
  function ScanFrom(text: string, i: nat): (r: seq<Span>)
    requires i <= |text|
    ensures forall k :: 0 <= k < |r| ==> IsMatch(text, r[k]) && i <= r[k].start
    ensures forall k :: 0 <= k < |r| - 1 ==> r[k].end <= r[k + 1].start
    decreases |text| - i
  {
    if i == |text| then []
    else match MatchAt(text, i)
      case Some(e) =>
        MatchAtIsMatch(text, i);
        [Span(i, e)] + ScanFrom(text, e)
      case None => ScanFrom(text, i + 1)
  }

  function Matches(text: string): seq<Span>
  {
    ScanFrom(text, 0)
  }

  function Slices(text: string, spans: seq<Span>): (urls: seq<string>)
    requires forall k :: 0 <= k < |spans| ==> spans[k].start <= spans[k].end <= |text|
    ensures |urls| == |spans|
    ensures forall k :: 0 <= k < |spans| ==> urls[k] == text[spans[k].start..spans[k].end]
  {
    if spans == [] then [] else [text[spans[0].start..spans[0].end]] + Slices(text, spans[1..])
  }

  /** `re.findall(url_pattern, content)`. */
  function FindUrls(text: string): seq<string>
  {
    Slices(text, Matches(text))
  }

  /** Every extracted string starts with `http://` or `https://`, contains no
      white space, quote, comma (ASCII or full-width), `]` or `)`, and cannot be
      extended: in the text it is followed by the end or by a refused character. */
  lemma ExtractedUrlsAreWellFormed(text: string)
    ensures forall k :: 0 <= k < |FindUrls(text)| ==>
      var u := FindUrls(text)[k];
      ("http://" <= u || "https://" <= u)
      && (forall c :: c in u ==> !Excluded(c))
    ensures forall k :: 0 <= k < |Matches(text)| ==>
      var sp := Matches(text)[k];
      sp.end == |text| || Excluded(text[sp.end])
  {
    var spans := Matches(text);
    forall k | 0 <= k < |FindUrls(text)|
      ensures var u := FindUrls(text)[k];
        ("http://" <= u || "https://" <= u) && (forall c :: c in u ==> !Excluded(c))
    {
      var sp := spans[k];
      assert IsMatch(text, sp);
      var u := FindUrls(text)[k];
      assert u == text[sp.start..sp.end];
      forall c | c in u ensures !Excluded(c) {
        var j :| 0 <= j < |u| && u[j] == c;
        assert u[j] == text[sp.start + j];
      }
    }
  }

  /** The scan skips nothing: between two consecutive matches, and before the
      first one, no well-formed match starts. */
  lemma {:induction false} ScanSkipsNoMatch(text: string, i: nat, j: nat)
    requires i <= j <= |text|
    requires var r := ScanFrom(text, i); (r == [] && j < |text|) || (r != [] && j < r[0].start)
    ensures MatchAt(text, j).None?
    ensures forall e: nat :: !IsMatch(text, Span(j, e))
    decreases |text| - i
  {
    if i < |text| && MatchAt(text, i).None? && i < j {
      ScanSkipsNoMatch(text, i + 1, j);
    }
    forall e: nat | IsMatch(text, Span(j, e)) ensures false {
      IsMatchMatchAt(text, Span(j, e));
    }
  }

  // ---------------------------------------------------------------------------
  // Writing the matches

  /** The file's contents after the write loop: each URL followed by a newline. */
  function Lines(urls: seq<string>): string
  {
    if urls == [] then "" else urls[0] + "\n" + Lines(urls[1..])
  }

  /** Reading a file back line by line: the text up to each newline. */
  function SplitLines(s: string): seq<string>
    decreases |s|
  {
    if s == [] then []
    else match IndexOfChar(s, '\n')
      case None => [s]
      case Some(k) => [s[..k]] + SplitLines(s[k + 1..])
  }

  function IndexOfChar(s: string, c: char): (r: Option<nat>)
    ensures r.Some? ==> r.value < |s| && s[r.value] == c && c !in s[..r.value]
    ensures r.None? ==> c !in s
  {
    if s == [] then None
    else if s[0] == c then Some(0)
    else match IndexOfChar(s[1..], c)
      case None => None
      case Some(k) => assert s[..k + 1] == [s[0]] + s[1..][..k]; Some(k + 1)
  }

  /** Reading the written file back line by line gives the URLs again, in order:
      no line holds two URLs and no URL is split, because a URL never contains a
      newline. */
  lemma {:induction false} LinesRoundTrip(urls: seq<string>)
    requires forall k :: 0 <= k < |urls| ==> '\n' !in urls[k]
    ensures SplitLines(Lines(urls)) == urls
  {
    if urls != [] {
      var s := Lines(urls);
      assert s == urls[0] + "\n" + Lines(urls[1..]);
      assert s[..|urls[0]|] == urls[0];
      assert s[|urls[0]| + 1..] == Lines(urls[1..]);
      var k := IndexOfChar(s, '\n');
      assert s[|urls[0]|] == '\n';
      assert k == Some(|urls[0]|);
      LinesRoundTrip(urls[1..]);
    }
  }

  /** No extracted URL contains a newline, since `\s` takes newlines. */
  lemma NoNewlineInUrls(text: string)
    ensures forall k :: 0 <= k < |FindUrls(text)| ==> '\n' !in FindUrls(text)[k]
  {
    ExtractedUrlsAreWellFormed(text);
    assert Excluded('\n');
  }

  /** The write loop: each URL is written followed by a newline, in order. */
  method WriteLines(urls: seq<string>) returns (written: string)
    ensures written == Lines(urls)
  {
    written := "";
    var i := 0;
    while i < |urls|
      invariant 0 <= i <= |urls|
      invariant written + Lines(urls[i..]) == Lines(urls)
    {
      assert urls[i..][1..] == urls[i + 1..];
      written := written + (urls[i] + "\n");
      i := i + 1;
    }
    assert urls[i..] == [];
  }

  /** `extract_urls_from_file` without the files: the text written and the count
      printed. */
  method ExtractUrls(content: string) returns (written: string, count: nat)
    ensures count == |Matches(content)|
    ensures written == Lines(FindUrls(content))
    ensures SplitLines(written) == FindUrls(content)
  {
    var urls := FindUrls(content);
    written := WriteLines(urls);
    count := |urls|;
    NoNewlineInUrls(content);
    LinesRoundTrip(urls);
  }

}
