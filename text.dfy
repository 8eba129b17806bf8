/**
 * Character classes and string helpers that the clipping grammars rely on:
 * Python's whitespace test and `str.strip()`, `'\n'.join(...)`, the `\w`
 * character class and the ASCII case folding applied by `re.IGNORECASE`.
 */
module Text {
  import opened Wrappers

  /** `str.isspace()` for one character: the characters Python treats as whitespace. */
  predicate IsSpace(c: char) {
    c == ' ' || ('\t' <= c <= '\r') || ('\U{1C}' <= c <= '\U{1F}') ||
    c == '\U{85}' || c == '\U{A0}' || c == '\U{1680}' || ('\U{2000}' <= c <= '\U{200A}') ||
    c == '\U{2028}' || c == '\U{2029}' || c == '\U{202F}' || c == '\U{205F}' || c == '\U{3000}'
  }

  predicate AllSpace(s: string) {
    forall i :: 0 <= i < |s| ==> IsSpace(s[i])
  }

  /** Punctuation and symbol blocks outside ASCII that `\w` does not match. */
  predicate IsWideSymbol(c: char) {
    ('\U{80}' <= c <= '\U{BF}' && c != '\U{AA}' && c != '\U{B2}' && c != '\U{B3}' && c != '\U{B5}' &&
      c != '\U{B9}' && c != '\U{BA}' && c != '\U{BC}' && c != '\U{BD}' && c != '\U{BE}') ||
    c == '\U{D7}' || c == '\U{F7}' || ('\U{2000}' <= c <= '\U{206F}') ||
    ('\U{3000}' <= c <= '\U{3004}') || ('\U{3008}' <= c <= '\U{3020}') ||
    ('\U{FF00}' <= c <= '\U{FF0F}') || ('\U{FF1A}' <= c <= '\U{FF20}') ||
    ('\U{FF3B}' <= c <= '\U{FF40}') || ('\U{FF5B}' <= c <= '\U{FF65}')
  }

  /** The regular-expression class `\w` (an approximation outside ASCII). */
  predicate IsWordChar(c: char) {
    ('a' <= c <= 'z') || ('A' <= c <= 'Z') || ('0' <= c <= '9') || c == '_' ||
    (c >= '\U{80}' && !IsSpace(c) && !IsWideSymbol(c))
  }

  predicate AllWord(s: string) {
    forall i :: 0 <= i < |s| ==> IsWordChar(s[i])
  }

  /** Length of the longest prefix of `s` that `\w*` can match. */
  function WordRun(s: string): (n: nat)
    ensures n <= |s| && AllWord(s[..n])
    ensures n == |s| || !IsWordChar(s[n])
  {
    if s != [] && IsWordChar(s[0]) then
      var n := 1 + WordRun(s[1..]);
      assert s[..n] == [s[0]] + s[1..][..n - 1];
      n
    else 0
  }

  /** A word run is as long as every all-word prefix. */
  lemma {:induction false} WordRunIsLongest(s: string, k: nat)
    requires k <= |s| && AllWord(s[..k])
    ensures k <= WordRun(s)
  {
    if k > 0 {
      assert IsWordChar(s[..k][0]);
      assert s[1..][..k - 1] == s[..k][1..];
      WordRunIsLongest(s[1..], k - 1);
    }
  }

  /** A word run ends at the first character outside `\w`. */
  lemma {:induction false} WordRunStopsAt(s: string, k: nat)
    requires k < |s| && !IsWordChar(s[k])
    ensures WordRun(s) <= k
  {
    if k > 0 && IsWordChar(s[0]) {
      WordRunStopsAt(s[1..], k - 1);
    }
  }

  /** The case folding `re.IGNORECASE` applies, restricted to ASCII letters. */
  function Lower(c: char): char {
    if 'A' <= c <= 'Z' then (c as int + 32) as char else c
  }

  predicate SameIgnoringCase(a: string, b: string) {
    |a| == |b| && forall i :: 0 <= i < |a| ==> Lower(a[i]) == Lower(b[i])
  }

  predicate StartsIgnoringCase(s: string, lit: string) {
    |lit| <= |s| && SameIgnoringCase(s[..|lit|], lit)
  }

  /** The string an optional regular-expression group contributes to the line. */
  function OrEmpty(o: Option<string>): string {
    if o.Some? then o.value else ""
  }

  /** `s.lstrip()`: drop leading whitespace. */
  function StripStart(s: string): (r: string)
    ensures |r| <= |s| && r == s[|s| - |r|..]
    ensures AllSpace(s[..|s| - |r|])
    ensures r == [] || !IsSpace(r[0])
  {
    if s != [] && IsSpace(s[0]) then
      var r := StripStart(s[1..]);
      SpacePrefixGrows(s, r);
      r
    else s
  }

  lemma SpacePrefixGrows(s: string, r: string)
    requires s != [] && IsSpace(s[0])
    requires |r| <= |s| - 1 && r == s[1..][|s| - 1 - |r|..] && AllSpace(s[1..][..|s| - 1 - |r|])
    ensures r == s[|s| - |r|..] && AllSpace(s[..|s| - |r|])
  {
    var n := |s| - |r|;
    assert forall i :: 1 <= i < n ==> s[..n][i] == s[1..][..n - 1][i - 1];
  }

  /** `s.rstrip()`: drop trailing whitespace. */
  function StripEnd(s: string): (r: string)
    ensures |r| <= |s| && r == s[..|r|]
    ensures AllSpace(s[|r|..])
    ensures r == [] || !IsSpace(r[|r| - 1])
  {
    if s != [] && IsSpace(s[|s| - 1]) then
      var r := StripEnd(s[..|s| - 1]);
      SpaceSuffixGrows(s, r);
      r
    else s
  }

  lemma SpaceSuffixGrows(s: string, r: string)
    requires s != [] && IsSpace(s[|s| - 1])
    requires |r| <= |s| - 1 && r == s[..|s| - 1][..|r|] && AllSpace(s[..|s| - 1][|r|..])
    ensures r == s[..|r|] && AllSpace(s[|r|..])
  {
    var n := |r|;
    assert forall i :: 0 <= i < |s| - 1 - n ==> s[n..][i] == s[..|s| - 1][n..][i];
  }

  /** `s.strip()`: the infix of `s` left after removing whitespace at both ends. */
  function Strip(s: string): (r: string)
    ensures exists i :: 0 <= i <= |s| - |r| && r == s[i..i + |r|] && AllSpace(s[..i]) && AllSpace(s[i + |r|..])
    ensures r == [] || (!IsSpace(r[0]) && !IsSpace(r[|r| - 1]))
    ensures r == [] <==> AllSpace(s)
  {
    var t := StripStart(s);
    var r := StripEnd(t);
    StripParts(s, t, r);
    r
  }

  lemma StripParts(s: string, t: string, r: string)
    requires |t| <= |s| && t == s[|s| - |t|..] && AllSpace(s[..|s| - |t|]) && (t == [] || !IsSpace(t[0]))
    requires |r| <= |t| && r == t[..|r|] && AllSpace(t[|r|..]) && (r == [] || !IsSpace(r[|r| - 1]))
    ensures var i := |s| - |t|; r == s[i..i + |r|] && AllSpace(s[i + |r|..])
    ensures r == [] || !IsSpace(r[0])
    ensures r == [] <==> AllSpace(s)
  {
    var i := |s| - |t|;
    assert forall k :: 0 <= k < |r| ==> r[k] == s[i + k];
    assert forall k :: 0 <= k < |s| - i - |r| ==> s[i + |r|..][k] == t[|r|..][k];
    if t != [] {
      assert s[i] == t[0];
      assert t[0] in t[|r|..] || t[0] in r;
    }
  }

  /** `'\n'.join(ls)`. */
  function JoinLines(ls: seq<string>): (r: string)
    ensures AllSpace(r) <==> forall i :: 0 <= i < |ls| ==> AllSpace(ls[i])
  {
    if |ls| == 0 then ""
    else if |ls| == 1 then ls[0]
    else
      var rest := JoinLines(ls[1..]);
      var r := ls[0] + "\n" + rest;
      assert r[..|ls[0]|] == ls[0] && r[|ls[0]| + 1..] == rest;
      assert (forall i :: 0 <= i < |ls| ==> AllSpace(ls[i])) <==>
             AllSpace(ls[0]) && (forall i :: 0 <= i < |ls| - 1 ==> AllSpace(ls[1..][i]));
      r
  }

  // ---- Facts about slices, stated once so that the grammars can cite them ----

  lemma SplitAt(t: string, k: nat)
    requires k <= |t|
    ensures t[..k] + t[k..] == t
  {
  }

  lemma SplitFirst(t: string)
    requires t != []
    ensures [t[0]] + t[1..] == t
  {
  }

  lemma SplitConcat(x: string, y: string)
    ensures (x + y)[..|x|] == x && (x + y)[|x|..] == y
  {
  }

  lemma AppendEmpty(x: string)
    ensures x + "" == x
  {
  }

  lemma SplitAround(t: string, k: nat)
    requires k < |t|
    ensures t[..k] + ([t[k]] + t[k + 1..]) == t
  {
  }

  lemma SplitTwice(t: string, i: nat, j: nat)
    requires i <= j <= |t|
    ensures t[..i] + (t[i..j] + t[j..]) == t
  {
  }
}
