/**
 * The English metadata pattern for line 2 (matched ignoring case):
 *   ^-\ (?:Your\ )?(?P<type>\w*)
 *   (\ (?:on\ )?(?P<page>Unnumbered\ Page|Page\ .*)\ \|)?
 *   (?:\ This\ Article)?
 *   \ (?:on\ |at\ )?(Location|Loc\.)\ (?P<location>.*)
 *   \ \|\ Added\ on\ (?P<date>.*)$
 * written as stages tried in the order of a backtracking matcher. A keyword
 * matched ignoring case is kept as it appears in the line, so that the
 * pieces of a match spell out the line.
 */
module EnglishGrammar {
  import opened Wrappers
  import opened Text
  import opened Records

  const Your := "Your "
  const UnnumberedPage := "Unnumbered Page"
  const PagePrefix := "Page "
  const ThisArticle := " This Article"
  const On := "on "
  const At := "at "
  const LocationWord := "Location"
  const LocWord := "Loc."
  const AddedOn := " | Added on "

  // ---- ` | Added on ` and the date ----

  datatype AddedTail = AddedTail(added: string, date: string)

  function AddedText(t: AddedTail): string {
    t.added + t.date
  }

  predicate WellFormedAdded(t: AddedTail) {
    SameIgnoringCase(t.added, AddedOn)
  }

  /** `\ \|\ Added\ on\ (?P<date>.*)$`: the date is the rest of the line. */
  function MatchAdded(w: string): (r: Option<AddedTail>)
    ensures r.Some? ==> AddedText(r.value) == w && WellFormedAdded(r.value)
  {
    if StartsIgnoringCase(w, AddedOn) then
      SplitAt(w, |AddedOn|);
      Some(AddedTail(w[..|AddedOn|], w[|AddedOn|..]))
    else None
  }

  /** Whether ` | Added on ` (ignoring case) starts at position `j` of `v`. */
  predicate AddedAt(v: string, j: nat)
    requires j <= |v|
  {
    MatchAdded(v[j..]).Some?
  }

  // ---- `(?P<location>.*)` ----

  datatype LocationTail = LocationTail(location: string, rest: AddedTail)

  function LocationText(t: LocationTail): string {
    t.location + AddedText(t.rest)
  }

  /** `(?P<location>.*)` (greedy): the longest location of at most `k` characters after which the date stage matches. */
  function MatchLocationValue(v: string, k: nat): (r: Option<LocationTail>)
    requires k <= |v|
    decreases k
    ensures r.Some? ==> |r.value.location| <= k
    ensures r.Some? ==> LocationText(r.value) == v && WellFormedAdded(r.value.rest)
  {
    var rest := MatchAdded(v[k..]);
    if rest.Some? then
      SplitAt(v, k);
      Some(LocationTail(v[..k], rest.value))
    else if k == 0 then None
    else MatchLocationValue(v, k - 1)
  }

  // ---- `(Location|Loc\.)\ ` ----

  datatype WordTail = WordTail(word: string, rest: LocationTail)

  function WordText(t: WordTail): string {
    t.word + (" " + LocationText(t.rest))
  }

  predicate WellFormedWord(t: WordTail) {
    (SameIgnoringCase(t.word, LocationWord) || SameIgnoringCase(t.word, LocWord)) && WellFormedAdded(t.rest.rest)
  }

  /** One keyword alternative `lit`, the space after it and the location stage. */
  function MatchWordAs(u: string, lit: string): (r: Option<WordTail>)
    ensures r.Some? ==> WordText(r.value) == u && SameIgnoringCase(r.value.word, lit) && WellFormedAdded(r.value.rest.rest)
  {
    if StartsIgnoringCase(u, lit) && |lit| < |u| && u[|lit|] == ' ' then
      var v := u[|lit| + 1..];
      var rest := MatchLocationValue(v, |v|);
      if rest.Some? then
        SplitAround(u, |lit|);
        Some(WordTail(u[..|lit|], rest.value))
      else None
    else None
  }

  /** `(Location|Loc\.)`: the alternatives in source order. */
  function MatchWord(u: string): (r: Option<WordTail>)
    ensures r.Some? ==> WordText(r.value) == u && WellFormedWord(r.value)
  {
    var long := MatchWordAs(u, LocationWord);
    if long.Some? then long else MatchWordAs(u, LocWord)
  }

  // ---- `(?:on\ |at\ )?` ----

  datatype KeywordTail = KeywordTail(at: Option<string>, rest: WordTail)

  function KeywordText(t: KeywordTail): string {
    if t.at.Some? then t.at.value + WordText(t.rest) else WordText(t.rest)
  }

  predicate WellFormedKeyword(t: KeywordTail) {
    (t.at.Some? ==> SameIgnoringCase(t.at.value, On) || SameIgnoringCase(t.at.value, At)) && WellFormedWord(t.rest)
  }

  /** A preposition `lit` (ignoring case) before the keyword stage. */
  function MatchKeywordAfter(u: string, lit: string): (r: Option<KeywordTail>)
    ensures r.Some? ==> r.value.at.Some? && SameIgnoringCase(r.value.at.value, lit)
    ensures r.Some? ==> KeywordText(r.value) == u && WellFormedWord(r.value.rest)
  {
    var rest := if StartsIgnoringCase(u, lit) then MatchWord(u[|lit|..]) else None;
    if rest.Some? then
      SplitAt(u, |lit|);
      Some(KeywordTail(Some(u[..|lit|]), rest.value))
    else None
  }

  /** `(?:on\ |at\ )?`: `on `, then `at `, then neither. */
  function MatchKeyword(u: string): (r: Option<KeywordTail>)
    ensures r.Some? ==> KeywordText(r.value) == u && WellFormedKeyword(r.value)
  {
    var on := MatchKeywordAfter(u, On);
    if on.Some? then on
    else
      var at := MatchKeywordAfter(u, At);
      if at.Some? then at
      else
        var bare := MatchWord(u);
        if bare.Some? then Some(KeywordTail(None, bare.value)) else None
  }

  // ---- `(?:\ This\ Article)?\ ` ----

  datatype ArticleTail = ArticleTail(article: Option<string>, rest: KeywordTail)

  function ArticleText(t: ArticleTail): string {
    if t.article.Some? then t.article.value + (" " + KeywordText(t.rest)) else " " + KeywordText(t.rest)
  }

  predicate WellFormedArticle(t: ArticleTail) {
    (t.article.Some? ==> SameIgnoringCase(t.article.value, ThisArticle)) && WellFormedKeyword(t.rest)
  }

  /** The space before the keyword stage. */
  function MatchSpaced(u: string): (r: Option<KeywordTail>)
    ensures r.Some? ==> " " + KeywordText(r.value) == u && WellFormedKeyword(r.value)
  {
    if u != [] && u[0] == ' ' then
      SplitFirst(u);
      MatchKeyword(u[1..])
    else None
  }

  /** `(?:\ This\ Article)?` (tried first), then the space and the keyword stage. */
  function MatchArticle(u: string): (r: Option<ArticleTail>)
    ensures r.Some? ==> ArticleText(r.value) == u && WellFormedArticle(r.value)
  {
    var article := if StartsIgnoringCase(u, ThisArticle) then MatchSpaced(u[|ThisArticle|..]) else None;
    if article.Some? then
      SplitAt(u, |ThisArticle|);
      Some(ArticleTail(Some(u[..|ThisArticle|]), article.value))
    else
      var bare := MatchSpaced(u);
      if bare.Some? then Some(ArticleTail(None, bare.value)) else None
  }

  // ---- `(\ (?:on\ )?(?P<page>Unnumbered\ Page|Page\ .*)\ \|)?` ----

  /** A page value, the ` |` after it and the article stage. */
  datatype PageValueTail = PageValueTail(page: string, rest: ArticleTail)

  function PageValueText(t: PageValueTail): string {
    t.page + (" |" + ArticleText(t.rest))
  }

  predicate IsPageValue(page: string) {
    SameIgnoringCase(page, UnnumberedPage) || StartsIgnoringCase(page, PagePrefix)
  }

  /** The page `p[..k]` followed by ` |` and the article stage. */
  function MatchPageEnd(p: string, k: nat): (r: Option<PageValueTail>)
    requires k <= |p|
    ensures r.Some? ==> r.value.page == p[..k]
    ensures r.Some? ==> PageValueText(r.value) == p && WellFormedArticle(r.value.rest)
  {
    var rest := if k + 2 <= |p| && p[k..k + 2] == " |" then MatchArticle(p[k + 2..]) else None;
    if rest.Some? then
      SplitTwice(p, k, k + 2);
      Some(PageValueTail(p[..k], rest.value))
    else None
  }

  /** The greedy search: the largest position from `k` down to `lo` at which `f` succeeds. */
  function Longest<T>(f: nat -> Option<T>, lo: nat, k: nat): (r: Option<(nat, T)>)
    decreases k
    ensures r.Some? ==> lo <= r.value.0 <= k && f(r.value.0) == Some(r.value.1)
  {
    if k < lo then None
    else if f(k).Some? then Some((k, f(k).value))
    else if k == 0 then None
    else Longest(f, lo, k - 1)
  }

  lemma {:induction false} LongestFound<T>(f: nat -> Option<T>, lo: nat, k: nat, k0: nat)
    requires lo <= k0 <= k && f(k0).Some?
    ensures Longest(f, lo, k).Some?
    decreases k
  {
    if k > k0 && f(k).None? {
      LongestFound(f, lo, k - 1, k0);
    }
  }

  lemma {:induction false} LongestIsLongest<T>(f: nat -> Option<T>, lo: nat, k: nat, j: nat)
    requires Longest(f, lo, k).Some? && Longest(f, lo, k).value.0 < j <= k
    ensures f(j).None?
    decreases k
  {
    if j < k {
      LongestIsLongest(f, lo, k - 1, j);
    }
  }

  function PageEnds(p: string): nat -> Option<PageValueTail> {
    (k: nat) => if k <= |p| then MatchPageEnd(p, k) else None
  }

  /** `Page\ .*` (greedy): the longest page of at most `k` characters that starts with `Page `. */
  function MatchPageRun(p: string, k: nat): (r: Option<PageValueTail>)
    requires |PagePrefix| <= k <= |p|
    ensures r.Some? ==> |PagePrefix| <= |r.value.page| <= k && r.value.page == p[..|r.value.page|]
    ensures r.Some? ==> PageValueText(r.value) == p && WellFormedArticle(r.value.rest)
  {
    var found := Longest(PageEnds(p), |PagePrefix|, k);
    if found.Some? then Some(found.value.1) else None
  }

  /** `Unnumbered\ Page|Page\ .*`: the alternatives in source order. */
  function MatchPageValue(p: string): (r: Option<PageValueTail>)
    ensures r.Some? ==> PageValueText(r.value) == p && IsPageValue(r.value.page) && WellFormedArticle(r.value.rest)
  {
    var unnumbered := if StartsIgnoringCase(p, UnnumberedPage) then MatchPageEnd(p, |UnnumberedPage|) else None;
    if unnumbered.Some? then unnumbered
    else if StartsIgnoringCase(p, PagePrefix) then
      var run := MatchPageRun(p, |p|);
      if run.Some? then
        assert run.value.page[..|PagePrefix|] == p[..|PagePrefix|];
        run
      else None
    else None
  }

  /** The page group, if it took part, and the article stage after it. */
  datatype PageTail = PageTail(on: Option<string>, group: Option<PageValueTail>, rest: ArticleTail)

  function PageGroupText(on: Option<string>, v: PageValueTail): string {
    " " + (if on.Some? then on.value + PageValueText(v) else PageValueText(v))
  }

  function PageTailText(t: PageTail): string {
    if t.group.Some? then PageGroupText(t.on, t.group.value) else ArticleText(t.rest)
  }

  predicate WellFormedPageTail(t: PageTail) {
    (t.on.Some? ==> t.group.Some? && SameIgnoringCase(t.on.value, On)) &&
    (t.group.Some? ==> IsPageValue(t.group.value.page) && t.rest == t.group.value.rest) &&
    WellFormedArticle(t.rest)
  }

  /** `(?:on\ )?` (tried first), then the page value. */
  function MatchPageOn(u: string): (r: Option<PageTail>)
    ensures r.Some? ==> r.value.group.Some? && WellFormedPageTail(r.value)
    ensures r.Some? ==> PageGroupText(r.value.on, r.value.group.value) == " " + u
  {
    var on := if StartsIgnoringCase(u, On) then MatchPageValue(u[|On|..]) else None;
    if on.Some? then
      SplitAt(u, |On|);
      Some(PageTail(Some(u[..|On|]), on, on.value.rest))
    else
      var bare := MatchPageValue(u);
      if bare.Some? then Some(PageTail(None, bare, bare.value.rest)) else None
  }

  /** The optional page group (tried first), then the article stage. */
  function MatchPage(u: string): (r: Option<PageTail>)
    ensures r.Some? ==> PageTailText(r.value) == u && WellFormedPageTail(r.value)
  {
    var group := if u != [] && u[0] == ' ' then MatchPageOn(u[1..]) else None;
    if group.Some? then
      SplitFirst(u);
      group
    else
      var bare := MatchArticle(u);
      if bare.Some? then Some(PageTail(None, None, bare.value)) else None
  }

  // ---- `(?P<type>\w*)` and the line ----

  datatype TypeTail = TypeTail(kind: string, rest: PageTail)

  function TypeText(t: TypeTail): string {
    t.kind + PageTailText(t.rest)
  }

  predicate WellFormedType(t: TypeTail) {
    AllWord(t.kind) && WellFormedPageTail(t.rest)
  }

  /** `(?P<type>\w*)` (greedy): a type of at most `k` word characters, longest first. */
  function MatchType(x: string, k: nat): (r: Option<TypeTail>)
    requires k <= |x| && AllWord(x[..k])
    decreases k
    ensures r.Some? ==> |r.value.kind| <= k
    ensures r.Some? ==> TypeText(r.value) == x && WellFormedType(r.value)
  {
    var rest := MatchPage(x[k..]);
    if rest.Some? then
      SplitAt(x, k);
      Some(TypeTail(x[..k], rest.value))
    else if k == 0 then None
    else
      assert x[..k - 1] == x[..k][..k - 1];
      MatchType(x, k - 1)
  }

  /** The type stage started at the longest run of word characters. */
  function MatchTypeRun(x: string): (r: Option<TypeTail>)
    ensures r.Some? ==> TypeText(r.value) == x && WellFormedType(r.value)
  {
    MatchType(x, WordRun(x))
  }

  /** A whole English metadata line. */
  datatype EnglishMatch = EnglishMatch(your: Option<string>, rest: TypeTail)

  function EnglishText(m: EnglishMatch): string {
    "- " + (if m.your.Some? then m.your.value + TypeText(m.rest) else TypeText(m.rest))
  }

  predicate WellFormedEnglish(m: EnglishMatch) {
    (m.your.Some? ==> SameIgnoringCase(m.your.value, Your)) && WellFormedType(m.rest)
  }

  /**
   * `(?:Your\ )?` (greedy), then the type stage: `Your ` is left out only
   * when the rest of the line cannot be read after it.
   */
  function MatchYour(y: string): (r: Option<EnglishMatch>)
    ensures r.Some? ==> EnglishText(r.value) == "- " + y && WellFormedEnglish(r.value)
    ensures StartsIgnoringCase(y, Your) && MatchTypeRun(y[|Your|..]).Some? ==> r.Some? && r.value.your.Some?
  {
    var your := if StartsIgnoringCase(y, Your) then MatchTypeRun(y[|Your|..]) else None;
    if your.Some? then
      SplitAt(y, |Your|);
      Some(EnglishMatch(Some(y[..|Your|]), your.value))
    else
      var bare := MatchTypeRun(y);
      if bare.Some? then Some(EnglishMatch(None, bare.value)) else None
  }

  /**
   * The English pattern searched in line 2: when it matches, the pieces it
   * returns spell out the line and every keyword agrees with the pattern
   * ignoring case.
   */
  function MatchEnglish(line: string): (r: Option<EnglishMatch>)
    ensures r.Some? ==> EnglishText(r.value) == line && WellFormedEnglish(r.value)
  {
    if 2 <= |line| && line[..2] == "- " then
      SplitAt(line, 2);
      MatchYour(line[2..])
    else None
  }

  /**
   * The fields the record parser keeps, verbatim: the type, the page when the
   * page group took part, the location (always present) and the date.
   */
  function EnglishFields(m: EnglishMatch): (f: Metadata)
    requires WellFormedEnglish(m)
    ensures f.kind == m.rest.kind && AllWord(f.kind)
    ensures f.page.Some? <==> m.rest.rest.group.Some?
    ensures f.page.Some? ==> f.page.value == m.rest.rest.group.value.page && IsPageValue(f.page.value)
    ensures f.location == Some(m.rest.rest.rest.rest.rest.rest.location)
    ensures f.date == m.rest.rest.rest.rest.rest.rest.rest.date
  {
    var t := m.rest.rest;
    Metadata(
      m.rest.kind,
      if t.group.Some? then Some(t.group.value.page) else None,
      Some(t.rest.rest.rest.rest.location),
      t.rest.rest.rest.rest.rest.date)
  }

  // ---- Completeness: every well-formed line is recognised ----

  lemma AddedFound(t: AddedTail)
    requires WellFormedAdded(t)
    ensures MatchAdded(AddedText(t)) == Some(t)
  {
    SplitConcat(t.added, t.date);
  }

  lemma {:induction false} LocationValueFound(t: LocationTail, k: nat)
    requires WellFormedAdded(t.rest) && |t.location| <= k <= |LocationText(t)|
    ensures MatchLocationValue(LocationText(t), k).Some?
    decreases k
  {
    var v := LocationText(t);
    if k == |t.location| {
      SplitConcat(t.location, AddedText(t.rest));
      AddedFound(t.rest);
      return;
    }
    if MatchAdded(v[k..]).None? {
      LocationValueFound(t, k - 1);
    }
  }

  lemma WordAsFound(t: WordTail, lit: string)
    requires SameIgnoringCase(t.word, lit) && WellFormedAdded(t.rest.rest)
    ensures MatchWordAs(WordText(t), lit).Some?
  {
    var u := WordText(t);
    var v := LocationText(t.rest);
    SplitConcat(t.word, " " + v);
    SplitConcat(" ", v);
    assert u[|lit| + 1..] == u[|lit|..][1..];
    LocationValueFound(t.rest, |v|);
  }

  lemma WordFound(t: WordTail)
    requires WellFormedWord(t)
    ensures MatchWord(WordText(t)).Some?
  {
    if SameIgnoringCase(t.word, LocationWord) {
      WordAsFound(t, LocationWord);
    } else {
      WordAsFound(t, LocWord);
    }
  }

  lemma KeywordAfterFound(t: KeywordTail, lit: string)
    requires t.at.Some? && SameIgnoringCase(t.at.value, lit) && WellFormedWord(t.rest)
    ensures MatchKeywordAfter(KeywordText(t), lit).Some?
  {
    SplitConcat(t.at.value, WordText(t.rest));
    WordFound(t.rest);
  }

  lemma KeywordFound(t: KeywordTail)
    requires WellFormedKeyword(t)
    ensures MatchKeyword(KeywordText(t)).Some?
  {
    if t.at.None? {
      WordFound(t.rest);
    } else if SameIgnoringCase(t.at.value, On) {
      KeywordAfterFound(t, On);
    } else {
      KeywordAfterFound(t, At);
    }
  }

  lemma SpacedFound(t: KeywordTail)
    requires WellFormedKeyword(t)
    ensures MatchSpaced(" " + KeywordText(t)).Some?
  {
    SplitConcat(" ", KeywordText(t));
    KeywordFound(t);
  }

  lemma ArticleFound(t: ArticleTail)
    requires WellFormedArticle(t)
    ensures MatchArticle(ArticleText(t)).Some?
  {
    SpacedFound(t.rest);
    if t.article.Some? {
      SplitConcat(t.article.value, " " + KeywordText(t.rest));
    }
  }

  lemma PageEndFound(v: PageValueTail)
    requires WellFormedArticle(v.rest)
    ensures MatchPageEnd(PageValueText(v), |v.page|).Some?
  {
    var p := PageValueText(v);
    var k := |v.page|;
    SplitConcat(v.page, " |" + ArticleText(v.rest));
    SplitConcat(" |", ArticleText(v.rest));
    assert p[k..k + 2] == p[k..][..2];
    assert p[k + 2..] == p[k..][2..];
    ArticleFound(v.rest);
  }

  lemma PageRunFound(p: string, k: nat, k0: nat)
    requires |PagePrefix| <= k0 <= k <= |p| && MatchPageEnd(p, k0).Some?
    ensures MatchPageRun(p, k).Some?
  {
    LongestFound(PageEnds(p), |PagePrefix|, k, k0);
  }

  lemma PageValueFound(v: PageValueTail)
    requires IsPageValue(v.page) && WellFormedArticle(v.rest)
    ensures MatchPageValue(PageValueText(v)).Some?
  {
    var p := PageValueText(v);
    SplitConcat(v.page, " |" + ArticleText(v.rest));
    PageEndFound(v);
    if !SameIgnoringCase(v.page, UnnumberedPage) {
      assert p[..|PagePrefix|] == v.page[..|PagePrefix|];
      PageRunFound(p, |p|, |v.page|);
    }
  }

  lemma PageFound(t: PageTail)
    requires WellFormedPageTail(t)
    ensures MatchPage(PageTailText(t)).Some?
  {
    if t.group.None? {
      ArticleFound(t.rest);
      return;
    }
    var v := t.group.value;
    var u := if t.on.Some? then t.on.value + PageValueText(v) else PageValueText(v);
    PageValueFound(v);
    SplitConcat(" ", u);
    if t.on.Some? {
      SplitConcat(t.on.value, PageValueText(v));
    }
  }

  /** Whatever follows the type starts with a space, which `\w` does not match. */
  lemma PageTailStartsWithSpace(t: PageTail)
    requires WellFormedPageTail(t)
    ensures PageTailText(t) != [] && PageTailText(t)[0] == ' '
  {
    if t.group.None? && t.rest.article.Some? {
      assert |t.rest.article.value| == |ThisArticle|;
      assert Lower(t.rest.article.value[0]) == Lower(ThisArticle[0]);
    }
  }

  lemma WordRunOfType(t: TypeTail)
    requires WellFormedType(t)
    ensures WordRun(TypeText(t)) == |t.kind|
  {
    var x := TypeText(t);
    SplitConcat(t.kind, PageTailText(t.rest));
    PageTailStartsWithSpace(t.rest);
    WordRunIsLongest(x, |t.kind|);
    WordRunStopsAt(x, |t.kind|);
  }

  lemma TypeFound(t: TypeTail)
    requires WellFormedType(t)
    ensures MatchTypeRun(TypeText(t)).Some?
  {
    WordRunOfType(t);
    SplitConcat(t.kind, PageTailText(t.rest));
    PageFound(t.rest);
  }

  /** Every well-formed English metadata line is matched by the pattern. */
  lemma EnglishFound(m: EnglishMatch)
    requires WellFormedEnglish(m)
    ensures MatchEnglish(EnglishText(m)).Some?
  {
    var y := if m.your.Some? then m.your.value + TypeText(m.rest) else TypeText(m.rest);
    SplitConcat("- ", y);
    TypeFound(m.rest);
    if m.your.Some? {
      SplitConcat(m.your.value, TypeText(m.rest));
    }
  }

  // ---- Priorities: the greedy type, page and location ----

  /** The type is the whole run of word characters after `- ` or `- Your `. */
  lemma TypeIsWordRun(x: string)
    requires MatchTypeRun(x).Some?
    ensures MatchTypeRun(x).value.kind == x[..WordRun(x)]
  {
    var t := MatchTypeRun(x).value;
    WordRunOfType(t);
    SplitConcat(t.kind, PageTailText(t.rest));
  }

  /** The location is the longest: ` | Added on ` occurs at no later position. */
  lemma {:induction false} LocationIsLongest(v: string, k: nat, j: nat)
    requires k <= |v| && MatchLocationValue(v, k).Some?
    requires |MatchLocationValue(v, k).value.location| < j <= k
    ensures !AddedAt(v, j)
    decreases k
  {
    if j < k {
      LocationIsLongest(v, k - 1, j);
    }
  }

  /** The `Page …` value is the longest one followed by ` |` and the rest of the line. */
  lemma PageIsLongest(p: string, k: nat, j: nat)
    requires |PagePrefix| <= k <= |p| && MatchPageRun(p, k).Some?
    requires |MatchPageRun(p, k).value.page| < j <= k
    ensures MatchPageEnd(p, j).None?
  {
    LongestIsLongest(PageEnds(p), |PagePrefix|, k, j);
  }
}
