/**
 * Line 1 of a clipping: the title pattern
 *   ^(?P<book>.*?)(\ \((\[.*\])?(?P<author>[^()]*?)\ ?(\(.*\))?\))?$
 * and the intro pattern applied to the stripped book
 *   ^(.*?)(【.*】|\ \(.*\)|（.*）)*$
 * Each pattern is a chain of stage functions that try the alternatives in the
 * order a backtracking matcher does (greedy: longest first, lazy: shortest
 * first). A stage returns the pieces it matched, and its contract says that
 * the pieces spell out exactly the text it was given.
 */
module TitleGrammar {
  import opened Wrappers
  import opened Text

  /** What the optional author group matched: ` (` [marker] author [` `] [alias] `)`. */
  datatype AuthorSuffix = AuthorSuffix(marker: Option<string>, author: string, space: bool, alias: Option<string>)

  /** A match of the title pattern: the lazy book prefix and the author group, if it took part. */
  datatype TitleMatch = TitleMatch(book: string, suffix: Option<AuthorSuffix>)

  predicate IsBracketed(m: string) {
    2 <= |m| && m[0] == '[' && m[|m| - 1] == ']'
  }

  predicate IsParenthesised(a: string) {
    2 <= |a| && a[0] == '(' && a[|a| - 1] == ')'
  }

  predicate HasNoParens(s: string) {
    forall i :: 0 <= i < |s| ==> s[i] != '(' && s[i] != ')'
  }

  lemma NoParensGrow(t: string, k: nat)
    requires k < |t| && HasNoParens(t[..k]) && t[k] != '(' && t[k] != ')'
    ensures HasNoParens(t[..k + 1])
  {
    assert t[..k + 1] == t[..k] + [t[k]];
  }

  /** Text after the author name: the optional space, the optional alias and the closing parenthesis. */
  function AliasText(space: bool, alias: Option<string>): string {
    (if space then " " else "") + OrEmpty(alias) + ")"
  }

  predicate WellFormedAlias(alias: Option<string>) {
    alias.Some? ==> IsParenthesised(alias.value)
  }

  /** Text after the marker. */
  function AuthorText(a: AuthorSuffix): string {
    a.author + AliasText(a.space, a.alias)
  }

  function SuffixText(a: AuthorSuffix): string {
    " (" + OrEmpty(a.marker) + AuthorText(a)
  }

  predicate WellFormedSuffix(a: AuthorSuffix) {
    (a.marker.Some? ==> IsBracketed(a.marker.value)) && HasNoParens(a.author) && WellFormedAlias(a.alias)
  }

  function TitleText(m: TitleMatch): string {
    m.book + (if m.suffix.Some? then SuffixText(m.suffix.value) else "")
  }

  predicate WellFormedTitle(m: TitleMatch) {
    m.suffix.Some? ==> WellFormedSuffix(m.suffix.value)
  }

  /** `(\(.*\))?\)$`: an optional parenthesised alias, then the closing parenthesis at the end. */
  function MatchAlias(u: string): (r: Option<Option<string>>)
    ensures r.Some? ==> OrEmpty(r.value) + ")" == u && WellFormedAlias(r.value)
  {
    if 3 <= |u| && u[0] == '(' && u[|u| - 2] == ')' && u[|u| - 1] == ')' then Some(Some(u[..|u| - 1]))
    else if u == ")" then Some(None)
    else None
  }

  /** `\ ?` (greedy), then the alias stage. */
  function MatchSpace(u: string): (r: Option<(bool, Option<string>)>)
    ensures r.Some? ==> AliasText(r.value.0, r.value.1) == u && WellFormedAlias(r.value.1)
  {
    var spaced := if u != [] && u[0] == ' ' then MatchAlias(u[1..]) else None;
    if spaced.Some? then
      SplitFirst(u);
      Some((true, spaced.value))
    else
      var bare := MatchAlias(u);
      if bare.Some? then Some((false, bare.value)) else None
  }

  /** Whether the space stage matches what follows position `j` of `t`. */
  predicate SpaceMatchesAt(t: string, j: nat)
    requires j <= |t|
  {
    MatchSpace(t[j..]).Some?
  }

  /**
   * `(?P<author>[^()]*?)` (lazy): the author is the shortest parenthesis-free
   * prefix of `t`, no shorter than `k`, after which the space stage matches.
   */
  function MatchAuthor(marker: Option<string>, t: string, k: nat): (r: Option<AuthorSuffix>)
    requires k <= |t| && HasNoParens(t[..k])
    requires marker.Some? ==> IsBracketed(marker.value)
    decreases |t| - k
    ensures r.Some? ==> r.value.marker == marker && AuthorText(r.value) == t && WellFormedSuffix(r.value)
    ensures r.Some? ==> k <= |r.value.author| <= |t| && forall j :: k <= j < |r.value.author| ==> !SpaceMatchesAt(t, j)
  {
    var rest := MatchSpace(t[k..]);
    if rest.Some? then
      SplitAt(t, k);
      Some(AuthorSuffix(marker, t[..k], rest.value.0, rest.value.1))
    else if k < |t| && t[k] != '(' && t[k] != ')' then
      NoParensGrow(t, k);
      MatchAuthor(marker, t, k + 1)
    else None
  }

  /**
   * The lazy author of a group read from `t` (the text after ` (`) is the
   * shortest: the space stage matches after no shorter author.
   */
  predicate AuthorIsShortest(t: string, a: AuthorSuffix)
    requires |OrEmpty(a.marker)| + |a.author| <= |t|
  {
    forall j :: 0 <= j < |a.author| ==> !SpaceMatchesAt(t[|OrEmpty(a.marker)|..], j)
  }

  /** The author stage after a marker closing at `t[e]` spells out the rest of the group. */
  lemma TextAfterMarker(t: string, e: nat, a: AuthorSuffix)
    requires 1 <= e < |t| && t[0] == '[' && AuthorAfterMarker(t, e)
    requires a == MatchAuthor(Some(t[..e + 1]), t[e + 1..], 0).value
    ensures a.marker == Some(t[..e + 1]) && SuffixText(a) == " (" + t && WellFormedSuffix(a)
  {
    SplitAt(t, e + 1);
  }

  /** The author stage's shortest-author clause, read from the start of the group. */
  lemma ShortestAfterMarker(t: string, e: nat, a: AuthorSuffix)
    requires 1 <= e < |t| && t[0] == '[' && AuthorAfterMarker(t, e)
    requires a == MatchAuthor(Some(t[..e + 1]), t[e + 1..], 0).value
    ensures |OrEmpty(a.marker)| == e + 1 && e + 1 + |a.author| <= |t| && AuthorIsShortest(t, a)
  {
    assert t[|OrEmpty(a.marker)|..] == t[e + 1..];
  }

  /** The author stage after a marker closing at `t[e]`, when it matches. */
  function MarkedAuthor(t: string, e: nat): (a: AuthorSuffix)
    requires 1 <= e < |t| && t[0] == '[' && AuthorAfterMarker(t, e)
    ensures a.marker == Some(t[..e + 1]) && SuffixText(a) == " (" + t && WellFormedSuffix(a)
    ensures |a.marker.value| == e + 1 && e + 1 + |a.author| <= |t| && AuthorIsShortest(t, a)
  {
    var a := MatchAuthor(Some(t[..e + 1]), t[e + 1..], 0).value;
    TextAfterMarker(t, e, a);
    ShortestAfterMarker(t, e, a);
    a
  }

  /** No marker closing at `t[lo]` through `t[hi]` is followed by an author. */
  predicate NoMarkerReading(t: string, lo: nat, hi: nat)
    requires 1 <= lo && hi < |t| && t[0] == '['
    decreases hi
  {
    hi < lo || (!AuthorAfterMarker(t, hi) && NoMarkerReading(t, lo, hi - 1))
  }

  /** The range with no marker reading, position by position. */
  lemma {:induction false} NoMarkerReadingAt(t: string, lo: nat, hi: nat)
    requires 1 <= lo && hi < |t| && t[0] == '[' && NoMarkerReading(t, lo, hi)
    ensures forall j :: lo <= j <= hi ==> !AuthorAfterMarker(t, j)
    decreases hi
  {
    if lo <= hi {
      NoMarkerReadingAt(t, lo, hi - 1);
    }
  }

  /** `(\[.*\])?` (greedy) with the bracket closing at `t[e]` or earlier. */
  function MatchMarker(t: string, e: nat): (r: Option<AuthorSuffix>)
    requires e < |t| && t[0] == '['
    decreases e
    ensures r.Some? ==> r.value.marker.Some? && SuffixText(r.value) == " (" + t && WellFormedSuffix(r.value)
    ensures r.Some? ==> 1 <= |r.value.marker.value| && NoMarkerReading(t, |r.value.marker.value|, e)
    ensures r.None? ==> NoMarkerReading(t, 1, e)
    ensures r.Some? ==> |r.value.marker.value| + |r.value.author| <= |t| && AuthorIsShortest(t, r.value)
  {
    if e == 0 then None
    else if AuthorAfterMarker(t, e) then Some(MarkedAuthor(t, e))
    else MatchMarker(t, e - 1)
  }

  /**
   * The inside of the author group: the marker is tried first, then its
   * absence. The marker is left out only when no marker reading exists, and
   * the author after the marker, if any, is the shortest one.
   */
  function MatchInner(t: string): (r: Option<AuthorSuffix>)
    ensures r.Some? ==> SuffixText(r.value) == " (" + t && WellFormedSuffix(r.value)
    ensures r.None? || r.value.marker.None? ==> forall e :: 1 <= e < |t| && t[0] == '[' ==> !AuthorAfterMarker(t, e)
    ensures r.Some? ==> |OrEmpty(r.value.marker)| + |r.value.author| <= |t| && AuthorIsShortest(t, r.value)
    ensures r.Some? && r.value.marker.Some? ==>
      2 <= |t| && t[0] == '[' && 1 <= |r.value.marker.value| && NoMarkerReading(t, |r.value.marker.value|, |t| - 1)
  {
    var marked := if 2 <= |t| && t[0] == '[' then MatchMarker(t, |t| - 1) else None;
    if marked.Some? then marked
    else if 2 <= |t| && t[0] == '[' then
      NoMarkerReadingAt(t, 1, |t| - 1);
      MatchAuthor(None, t, 0)
    else
      AppendEmpty(" (");
      assert t[0..] == t;
      MatchAuthor(None, t, 0)
  }

  /** The author group `\ \(` ... `\)`, anchored at the end of the line. */
  function MatchSuffix(r: string): (s: Option<AuthorSuffix>)
    ensures s.Some? ==> SuffixText(s.value) == r && WellFormedSuffix(s.value)
  {
    if 2 <= |r| && r[..2] == " (" then
      SplitAt(r, 2);
      MatchInner(r[2..])
    else None
  }

  /** Whether an author group can be read from position `j` of the line to its end. */
  predicate SuffixMatchesAt(line: string, j: nat)
    requires j <= |line|
  {
    MatchSuffix(line[j..]).Some?
  }

  /** `^(?P<book>.*?)` (lazy): the shortest book, no shorter than `n`, after which the author group or the end matches. */
  function MatchTitleFrom(line: string, n: nat): (m: TitleMatch)
    requires n <= |line|
    decreases |line| - n
    ensures TitleText(m) == line && WellFormedTitle(m)
    ensures n <= |m.book| && forall j :: n <= j < |m.book| ==> !SuffixMatchesAt(line, j)
    ensures |m.book| <= |line| && (m.suffix.Some? ==> m.suffix == MatchSuffix(line[|m.book|..]))
  {
    var suffix := MatchSuffix(line[n..]);
    if suffix.Some? then
      SplitAt(line, n);
      TitleMatch(line[..n], suffix)
    else if n == |line| then
      AppendEmpty(line);
      TitleMatch(line, None)
    else MatchTitleFrom(line, n + 1)
  }

  /**
   * The title pattern, searched in line 1. It always matches: the result
   * spells out the line, the book is the shortest prefix after which an
   * author group can be read (the whole line when there is none), and the
   * group is the one the author-group stages read from the rest.
   */
  function MatchTitle(line: string): (m: TitleMatch)
    ensures TitleText(m) == line && WellFormedTitle(m)
    ensures forall j :: 0 <= j < |m.book| ==> !SuffixMatchesAt(line, j)
    ensures m.suffix.None? ==> m.book == line
    ensures |m.book| <= |line| && (m.suffix.Some? ==> m.suffix == MatchSuffix(line[|m.book|..]))
  {
    MatchTitleFrom(line, 0)
  }

  // ---- Completeness: every well-formed reading of the line is found ----

  lemma AliasFound(alias: Option<string>)
    requires WellFormedAlias(alias)
    ensures MatchAlias(OrEmpty(alias) + ")") == Some(alias)
  {
  }

  lemma SpaceFound(space: bool, alias: Option<string>)
    requires WellFormedAlias(alias)
    ensures MatchSpace(AliasText(space, alias)).Some?
  {
    AliasFound(alias);
    if space {
      assert AliasText(space, alias)[1..] == OrEmpty(alias) + ")";
    }
  }

  lemma {:induction false} AuthorFound(marker: Option<string>, a: AuthorSuffix, k: nat)
    requires WellFormedSuffix(a) && k <= |a.author|
    requires marker.Some? ==> IsBracketed(marker.value)
    ensures HasNoParens(AuthorText(a)[..k])
    ensures MatchAuthor(marker, AuthorText(a), k).Some?
    decreases |a.author| - k
  {
    var t := AuthorText(a);
    assert t[..k] == a.author[..k];
    if MatchSpace(t[k..]).None? {
      if k == |a.author| {
        assert t[k..] == AliasText(a.space, a.alias);
        SpaceFound(a.space, a.alias);
      } else {
        assert t[k] == a.author[k];
        AuthorFound(marker, a, k + 1);
      }
    }
  }

  /** Whether the author stage matches after a marker closing at `t[e]`. */
  predicate AuthorAfterMarker(t: string, e: nat)
    requires 1 <= e < |t| && t[0] == '['
  {
    t[e] == ']' && MatchAuthor(Some(t[..e + 1]), t[e + 1..], 0).Some?
  }

  /** A group written with a marker is recognised, and read with a marker. */
  lemma MarkedInnerFound(a: AuthorSuffix)
    requires WellFormedSuffix(a) && a.marker.Some?
    ensures MatchInner(a.marker.value + AuthorText(a)).Some?
    ensures MatchInner(a.marker.value + AuthorText(a)).value.marker.Some?
  {
    var m := a.marker.value;
    var t := m + AuthorText(a);
    SplitConcat(m, AuthorText(a));
    AuthorFound(Some(m), a, 0);
    assert t[0] == m[0] && t[|m| - 1] == m[|m| - 1];
    assert AuthorAfterMarker(t, |m| - 1);
  }

  /**
   * The documented example ` ([日]村上春树 (Haruki Murakami))`: reading the
   * space into the author is not the shortest reading, so `MatchInner` never
   * returns it.
   */
  lemma SpaceNotInMarkedAuthor()
    ensures var t := "[日]村上春树 (Haruki Murakami))";
      var a := AuthorSuffix(Some("[日]"), "村上春树 ", false, Some("(Haruki Murakami)"));
      !AuthorIsShortest(t, a)
  {
    var t := "[日]村上春树 (Haruki Murakami))";
    var a := AuthorSuffix(Some("[日]"), "村上春树 ", false, Some("(Haruki Murakami)"));
    assert |OrEmpty(a.marker)| == 3 && |a.author| == 5;
    assert t[3..][4..] == " (Haruki Murakami))";
    assert MatchAlias("(Haruki Murakami))").Some?;
    assert SpaceMatchesAt(t[|OrEmpty(a.marker)|..], 4);
  }

  lemma InnerFound(a: AuthorSuffix)
    requires WellFormedSuffix(a)
    ensures MatchInner(OrEmpty(a.marker) + AuthorText(a)).Some?
  {
    if a.marker.Some? {
      MarkedInnerFound(a);
    } else {
      AuthorFound(None, a, 0);
      assert OrEmpty(a.marker) + AuthorText(a) == AuthorText(a);
    }
  }

  /** After ` (`, the author group is read by the inside stage alone. */
  lemma SuffixOfInner(t: string)
    ensures MatchSuffix(" (" + t) == MatchInner(t)
  {
    SplitConcat(" (", t);
  }

  /** Every well-formed author group is recognised as one. */
  lemma SuffixFound(a: AuthorSuffix)
    requires WellFormedSuffix(a)
    ensures MatchSuffix(SuffixText(a)).Some?
  {
    var t := OrEmpty(a.marker) + AuthorText(a);
    InnerFound(a);
    assert SuffixText(a) == " (" + t;
    SuffixOfInner(t);
  }

  /**
   * The author is absent exactly when no suffix of the line reads as an
   * author group; when present it holds no parenthesis, and the marker and
   * alias around it are separate pieces of the match.
   */
  lemma AuthorAbsentIff(line: string)
    ensures MatchTitle(line).suffix.None? <==>
      forall j, a :: 0 <= j <= |line| && WellFormedSuffix(a) ==> SuffixText(a) != line[j..]
  {
    var m := MatchTitle(line);
    if m.suffix.None? {
      forall j, a | 0 <= j <= |line| && WellFormedSuffix(a) ensures SuffixText(a) != line[j..] {
        if SuffixText(a) == line[j..] {
          SuffixFound(a);
          assert SuffixMatchesAt(line, j);
        }
      }
    } else {
      var j := |m.book|;
      assert line[j..] == SuffixText(m.suffix.value);
    }
  }

  /** The book is the shortest prefix of the line followed by an author group (or the whole line). */
  lemma BookIsShortest(line: string, j: nat, a: AuthorSuffix)
    requires j < |MatchTitle(line).book| && WellFormedSuffix(a)
    ensures SuffixText(a) != line[j..]
  {
    if SuffixText(a) == line[j..] {
      SuffixFound(a);
      assert SuffixMatchesAt(line, j);
    }
  }

  // ---- The intro pattern applied to the stripped book ----

  /** One repetition of `(【.*】|\ \(.*\)|（.*）)`. */
  predicate IsIntro(t: string) {
    2 <= |t| &&
    ((t[0] == '【' && t[|t| - 1] == '】') ||
     (3 <= |t| && t[..2] == " (" && t[|t| - 1] == ')') ||
     (t[0] == '（' && t[|t| - 1] == '）'))
  }

  predicate AllIntros(ts: seq<string>) {
    forall i :: 0 <= i < |ts| ==> IsIntro(ts[i])
  }

  function Concat(ts: seq<string>): string {
    if ts == [] then "" else ts[0] + Concat(ts[1..])
  }

  lemma ConsIntro(h: string, ts: seq<string>)
    requires IsIntro(h) && AllIntros(ts)
    ensures Concat([h] + ts) == h + Concat(ts) && AllIntros([h] + ts)
  {
    assert ([h] + ts)[1..] == ts;
  }

  /** `(...)*$`: a division of `u` into intro tokens, if there is one. */
  function SplitIntros(u: string): (r: Option<seq<string>>)
    decreases |u|, 1, 0
    ensures r.Some? ==> Concat(r.value) == u && AllIntros(r.value)
  {
    if u == [] then Some([]) else SplitIntrosAt(u, |u|)
  }

  /** A first token of length at most `k` (longest first) followed by more tokens. */
  function SplitIntrosAt(u: string, k: nat): (r: Option<seq<string>>)
    requires k <= |u|
    decreases |u|, 0, k
    ensures r.Some? ==> Concat(r.value) == u && AllIntros(r.value)
  {
    if k < 2 then None
    else
      var rest := if IsIntro(u[..k]) then SplitIntros(u[k..]) else None;
      if rest.Some? then
        ConsIntro(u[..k], rest.value);
        SplitAt(u, k);
        Some([u[..k]] + rest.value)
      else SplitIntrosAt(u, k - 1)
  }

  /** Whether the part of `s` after position `j` is a run of intro tokens. */
  predicate IntrosFollow(s: string, j: nat)
    requires j <= |s|
  {
    SplitIntros(s[j..]).Some?
  }

  /** A match of the intro pattern: the lazy book prefix and the intro tokens after it. */
  datatype BookMatch = BookMatch(book: string, intros: seq<string>)

  function MatchBookFrom(s: string, n: nat): (m: BookMatch)
    requires n <= |s|
    decreases |s| - n
    ensures m.book + Concat(m.intros) == s && AllIntros(m.intros)
    ensures n <= |m.book| && forall j :: n <= j < |m.book| ==> !IntrosFollow(s, j)
  {
    var intros := SplitIntros(s[n..]);
    if intros.Some? then
      SplitAt(s, n);
      BookMatch(s[..n], intros.value)
    else MatchBookFrom(s, n + 1)
  }

  /**
   * The intro pattern always matches: the book is the shortest prefix of `s`
   * whose remainder is a run of intro tokens; it is not trimmed again.
   */
  function MatchBook(s: string): (m: BookMatch)
    ensures m.book + Concat(m.intros) == s && AllIntros(m.intros)
    ensures forall j :: 0 <= j < |m.book| ==> !IntrosFollow(s, j)
  {
    MatchBookFrom(s, 0)
  }

  lemma {:induction false} SplitIntrosAtFound(u: string, k: nat, k0: nat)
    requires 2 <= k0 <= k <= |u| && IsIntro(u[..k0]) && SplitIntros(u[k0..]).Some?
    ensures SplitIntrosAt(u, k).Some?
    decreases k
  {
    if k > k0 {
      var rest := if IsIntro(u[..k]) then SplitIntros(u[k..]) else None;
      if rest.None? {
        SplitIntrosAtFound(u, k - 1, k0);
      }
    }
  }

  /** Every concatenation of intro tokens is recognised as a run of intros. */
  lemma {:induction false} IntrosFound(ts: seq<string>)
    requires AllIntros(ts)
    ensures SplitIntros(Concat(ts)).Some?
  {
    if ts != [] {
      var u := Concat(ts);
      IntrosFound(ts[1..]);
      assert u[..|ts[0]|] == ts[0] && u[|ts[0]|..] == Concat(ts[1..]);
      SplitIntrosAtFound(u, |u|, |ts[0]|);
    }
  }

  /** No shorter prefix of `s` is followed by a run of intro tokens. */
  lemma BookHasNoShorterPrefix(s: string, j: nat, ts: seq<string>)
    requires j < |MatchBook(s).book| && AllIntros(ts)
    ensures Concat(ts) != s[j..]
  {
    if Concat(ts) == s[j..] {
      IntrosFound(ts);
      assert IntrosFollow(s, j);
    }
  }

  /**
   * Line 1 as `__parse` reads it: the author group's name, and the book
   * stripped and cut down to the shortest prefix that only intro tokens follow.
   */
  function ParseTitle(line: string): (r: (string, Option<string>))
    ensures r.1.Some? <==> MatchTitle(line).suffix.Some?
    ensures r.1.Some? ==> r.1.value == MatchTitle(line).suffix.value.author && HasNoParens(r.1.value)
    ensures r.1.Some? ==> r.1 == Some(MatchSuffix(line[|MatchTitle(line).book|..]).value.author)
    ensures exists ts :: AllIntros(ts) && r.0 + Concat(ts) == Strip(MatchTitle(line).book)
    ensures forall j :: 0 <= j < |r.0| ==> j <= |Strip(MatchTitle(line).book)| && !IntrosFollow(Strip(MatchTitle(line).book), j)
    ensures r.0 == [] || !IsSpace(r.0[0])
  {
    var m := MatchTitle(line);
    var author := if m.suffix.Some? then Some(m.suffix.value.author) else None;
    if m.book == "" then
      assert AllSpace("") && "" + Concat([]) == Strip("") && AllIntros([]);
      ("", author)
    else
      var b := MatchBook(Strip(m.book));
      assert b.book + Concat(b.intros) == Strip(m.book);
      (b.book, author)
  }
}
