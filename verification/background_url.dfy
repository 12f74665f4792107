/**
 * The lightbox reads an image address out of a computed `background-image`
 * value with the regular expression /url\(["']?([^"']*)["']?\)/ (ime.js:251).
 * This module matches that one pattern by hand, in the order a backtracking
 * engine tries the alternatives: the leftmost `url(` that can complete wins;
 * at it, the opening quote is taken when present; the capture takes the longest
 * run of non-quote characters that can still be followed by an optional quote
 * and `)`; only if none can, the opening quote is given back.
 */
module BackgroundUrl {
  import opened Wrappers

  predicate IsQuote(c: char)
  {
    c == '"' || c == '\''
  }

  predicate QuoteFree(s: string)
  {
    forall i :: 0 <= i < |s| ==> !IsQuote(s[i])
  }

  /** A match: where `url(` starts, whether a quote was taken on either side, and capture group 1. */
  datatype UrlMatch = UrlMatch(start: nat, openQuote: bool, url: string, closeQuote: bool)

  /** Where the capture of m begins in the subject. */
  function CaptureStart(m: UrlMatch): nat
  {
    m.start + 4 + (if m.openQuote then 1 else 0)
  }

  /** The position of the `)` that ends m. */
  function CloseParen(m: UrlMatch): nat
  {
    CaptureStart(m) + |m.url| + (if m.closeQuote then 1 else 0)
  }

  /** m is an occurrence of the pattern in s. */
  ghost predicate Fits(s: string, m: UrlMatch)
  {
    var a := CaptureStart(m);
    var b := a + |m.url|;
    CloseParen(m) < |s| &&
    s[m.start..m.start + 4] == "url(" &&
    (m.openQuote ==> IsQuote(s[a - 1])) &&
    s[a..b] == m.url && QuoteFree(m.url) &&
    (m.closeQuote ==> IsQuote(s[b])) &&
    s[CloseParen(m)] == ')'
  }

  /** `[^"']*` taken greedily from i: the first quote at or after i, or the end. */
  function RunEnd(s: string, i: nat): (e: nat)
    requires i <= |s|
    ensures i <= e <= |s|
    ensures forall j :: i <= j < e ==> !IsQuote(s[j])
    ensures e < |s| ==> IsQuote(s[e])
    decreases |s| - i
  {
    if i == |s| || IsQuote(s[i]) then i else RunEnd(s, i + 1)
  }

  /** The tail `["']?\)` matches at k. */
  predicate ClosesAt(s: string, k: nat)
  {
    k < |s| && (s[k] == ')' || (IsQuote(s[k]) && k + 1 < |s| && s[k + 1] == ')'))
  }

  /** The capture's backtracking: the largest k in [lo, hi] at which the tail matches. */
  function LastClose(s: string, lo: nat, hi: nat): (r: Option<nat>)
    requires lo <= hi
    ensures r.Some? ==> lo <= r.value <= hi && ClosesAt(s, r.value)
    ensures r.Some? ==> forall k :: r.value < k <= hi ==> !ClosesAt(s, k)
    ensures r.None? ==> forall k :: lo <= k <= hi ==> !ClosesAt(s, k)
    decreases hi - lo
  {
    if ClosesAt(s, hi) then Some(hi)
    else if hi == lo then None
    else LastClose(s, lo, hi - 1)
  }

  /** The attempt to match at p, where `url(` begins. */
  function MatchAt(s: string, p: nat): (r: Option<UrlMatch>)
    requires p + 4 <= |s| && s[p..p + 4] == "url("
    ensures r.Some? ==> r.value.start == p && Fits(s, r.value)
  {
    var a := p + 4;
    if a < |s| && IsQuote(s[a]) then
      match LastClose(s, a + 1, RunEnd(s, a + 1))
      case Some(k) => Some(UrlMatch(p, true, s[a + 1..k], IsQuote(s[k])))
      case None => if ClosesAt(s, a) then Some(UrlMatch(p, false, "", true)) else None
    else
      match LastClose(s, a, RunEnd(s, a))
      case Some(k) => Some(UrlMatch(p, false, s[a..k], IsQuote(s[k])))
      case None => None
  }

  /** The search for the leftmost match at or after p. */
  function Search(s: string, p: nat): (r: Option<UrlMatch>)
    requires p <= |s|
    ensures r.Some? ==> p <= r.value.start && Fits(s, r.value)
    decreases |s| - p
  {
    if p + 4 > |s| then None
    else if s[p..p + 4] == "url(" then
      match MatchAt(s, p)
      case Some(m) => Some(m)
      case None => Search(s, p + 1)
    else Search(s, p + 1)
  }

  /** `bgImage.match(...)`: the first match in s, if there is one. */
  function FindUrl(s: string): (r: Option<UrlMatch>)
    ensures r.Some? ==> Fits(s, r.value) && QuoteFree(r.value.url)
  {
    Search(s, 0)
  }

  /** Whenever the pattern occurs at p, the attempt at p succeeds. */
  lemma MatchAtComplete(s: string, m: UrlMatch)
    requires Fits(s, m)
    ensures MatchAt(s, m.start).Some?
  {
    assert ClosesAt(s, CaptureStart(m) + |m.url|);
    assert forall j :: CaptureStart(m) <= j < CaptureStart(m) + |m.url| ==> s[j] == m.url[j - CaptureStart(m)];
  }

  /** The search finds a match whenever there is one at or after p, and no later than it. */
  lemma {:induction false} SearchComplete(s: string, p: nat, m: UrlMatch)
    requires p <= m.start && Fits(s, m)
    ensures Search(s, p).Some? && Search(s, p).value.start <= m.start
    decreases m.start - p
  {
    if p == m.start {
      MatchAtComplete(s, m);
    } else if s[p..p + 4] == "url(" && MatchAt(s, p).Some? {
    } else {
      SearchComplete(s, p + 1, m);
    }
  }

  /** FindUrl misses no occurrence, and what it returns is the leftmost one. */
  lemma FindUrlLeftmost(s: string, m: UrlMatch)
    requires Fits(s, m)
    ensures FindUrl(s).Some? && FindUrl(s).value.start <= m.start
  {
    SearchComplete(s, 0, m);
  }

  /** The greedy run is the first quote at or after i, or the end. */
  lemma RunEndAt(s: string, i: nat, e: nat)
    requires i <= e <= |s|
    requires forall j :: i <= j < e ==> !IsQuote(s[j])
    requires e < |s| ==> IsQuote(s[e])
    ensures RunEnd(s, i) == e
  {
  }

  /**
   * The match attempt at the start of s = `url(` q1 u q2 `)`, described by its
   * characters, captures exactly u.
   */
  lemma MatchWrapped(s: string, q1: bool, u: string, q2: bool)
    requires QuoteFree(u)
    requires |s| == 5 + (if q1 then 1 else 0) + |u| + (if q2 then 1 else 0)
    requires s[0..4] == "url("
    requires q1 ==> IsQuote(s[4])
    requires forall j :: 0 <= j < |u| ==> s[4 + (if q1 then 1 else 0) + j] == u[j]
    requires q2 ==> IsQuote(s[|s| - 2])
    requires s[|s| - 1] == ')'
    ensures MatchAt(s, 0).Some? && MatchAt(s, 0).value.url == u
  {
    var c := 4 + (if q1 then 1 else 0);
    var b := c + |u|;
    var end := if q2 then b else |s|;
    assert forall j :: c <= j < b ==> s[j] == u[j - c];
    if q1 || u != "" {
      RunEndAt(s, c, end);
      assert ClosesAt(s, b);
      assert LastClose(s, c, end) == Some(b);
    } else if q2 {
      RunEndAt(s, 5, 6);
      assert LastClose(s, 5, 6) == Some(5);
    } else {
      RunEndAt(s, 4, 5);
      assert LastClose(s, 4, 5) == Some(4);
    }
  }

  /** `url(` + an optional quote + u + an optional quote + `)`, as a style value writes an address. */
  function Wrap(q1: string, u: string, q2: string): string
  {
    "url(" + q1 + u + q2 + ")"
  }

  predicate OptionalQuote(q: string)
  {
    q == "" || q == "\"" || q == "'"
  }

  /** Any quote-free address wrapped in `url(...)`, quoted or not, is recovered exactly. */
  lemma ExtractWrapped(q1: string, u: string, q2: string)
    requires OptionalQuote(q1) && OptionalQuote(q2) && QuoteFree(u)
    ensures FindUrl(Wrap(q1, u, q2)).Some?
    ensures FindUrl(Wrap(q1, u, q2)).value.url == u
  {
    var s := Wrap(q1, u, q2);
    assert s[0..4] == "url(";
    MatchWrapped(s, q1 != "", u, q2 != "");
  }
}
