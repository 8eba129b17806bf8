/**
 * The Chinese metadata pattern for line 2:
 *   ^-\ (您在)(第\ (?P<page>\w*)\ 页)?(（?位置\ \#(?P<location>.*?)）?)?
 *   的(?P<type>(标注|笔记))\ \|\ 添加于\ (?P<date>.*)$
 * written as stages tried in the order of a backtracking matcher; each stage
 * returns the pieces it matched, which spell out the text it was given.
 */
module ChineseGrammar {
  import opened Wrappers
  import opened Text
  import opened Records

  const Highlighted := "标注"
  const Noted := "笔记"

  /** `的(标注|笔记)\ \|\ 添加于\ (?P<date>.*)$` */
  datatype KindTail = KindTail(kind: string, date: string)

  /** The ten characters before the date. */
  function KindLead(kind: string): string {
    "的" + kind + " | 添加于 "
  }

  function KindText(t: KindTail): string {
    KindLead(t.kind) + t.date
  }

  predicate WellFormedKind(t: KindTail) {
    t.kind == Highlighted || t.kind == Noted
  }

  /** The kind alternatives in source order, then the date up to the end of the line. */
  function MatchKind(w: string): (r: Option<KindTail>)
    ensures r.Some? ==> KindText(r.value) == w && WellFormedKind(r.value)
  {
    if 10 <= |w| && w[..10] == KindLead(Highlighted) then
      SplitAt(w, 10);
      Some(KindTail(Highlighted, w[10..]))
    else if 10 <= |w| && w[..10] == KindLead(Noted) then
      SplitAt(w, 10);
      Some(KindTail(Noted, w[10..]))
    else None
  }

  /** What the location group matched: `（?位置\ \#(?P<location>.*?)）?`. */
  datatype Location = Location(open: bool, location: string, close: bool)

  /** The location group, if it took part, and the kind stage after it. */
  datatype LocationTail = LocationTail(location: Option<Location>, rest: KindTail)

  /** Text after `位置 #`: the location, the optional `）` and the kind stage. */
  function LocationBodyText(l: Location, rest: KindTail): string {
    l.location + (if l.close then "）" + KindText(rest) else KindText(rest))
  }

  /** Text after the optional `（`. */
  function LocationGroupText(l: Location, rest: KindTail): string {
    "位置 #" + LocationBodyText(l, rest)
  }

  function LocationTailText(t: LocationTail): string {
    if t.location.None? then KindText(t.rest)
    else if t.location.value.open then "（" + LocationGroupText(t.location.value, t.rest)
    else LocationGroupText(t.location.value, t.rest)
  }

  predicate WellFormedLocationTail(t: LocationTail) {
    WellFormedKind(t.rest)
  }

  /** Whether the kind stage matches after position `k` of `z`, with or without a closing `）`. */
  predicate KindFollows(z: string, k: nat)
    requires k <= |z|
  {
    (k < |z| && z[k] == '）' && MatchKind(z[k + 1..]).Some?) || MatchKind(z[k..]).Some?
  }

  /**
   * `(?P<location>.*?)）?` (lazy): the shortest location, no shorter than `k`,
   * after which the kind stage matches; the optional `）` is tried first.
   */
  function MatchLocationFrom(open: bool, z: string, k: nat): (r: Option<LocationTail>)
    requires k <= |z|
    decreases |z| - k
    ensures r.Some? ==> r.value.location.Some? && r.value.location.value.open == open
    ensures r.Some? ==> k <= |r.value.location.value.location|
    ensures r.Some? ==> LocationBodyText(r.value.location.value, r.value.rest) == z && WellFormedKind(r.value.rest)
  {
    var closed := if k < |z| && z[k] == '）' then MatchKind(z[k + 1..]) else None;
    if closed.Some? then
      SplitAround(z, k);
      Some(LocationTail(Some(Location(open, z[..k], true)), closed.value))
    else
      var bare := MatchKind(z[k..]);
      if bare.Some? then
        SplitAt(z, k);
        Some(LocationTail(Some(Location(open, z[..k], false)), bare.value))
      else if k < |z| then MatchLocationFrom(open, z, k + 1)
      else None
  }

  /** `位置\ \#` and the rest of the location group. */
  function MatchLocationBody(open: bool, y: string): (r: Option<LocationTail>)
    ensures r.Some? ==> r.value.location.Some? && r.value.location.value.open == open
    ensures r.Some? ==> LocationGroupText(r.value.location.value, r.value.rest) == y && WellFormedKind(r.value.rest)
  {
    if 4 <= |y| && y[..4] == "位置 #" then
      SplitAt(y, 4);
      MatchLocationFrom(open, y[4..], 0)
    else None
  }

  /** The optional location group (with the opening `（` tried first), then the kind stage. */
  function MatchLocation(x: string): (r: Option<LocationTail>)
    ensures r.Some? ==> LocationTailText(r.value) == x && WellFormedLocationTail(r.value)
  {
    var withOpen := if x != [] && x[0] == '（' then MatchLocationBody(true, x[1..]) else None;
    if withOpen.Some? then
      SplitFirst(x);
      withOpen
    else
      var group := MatchLocationBody(false, x);
      if group.Some? then group
      else
        var kind := MatchKind(x);
        if kind.Some? then Some(LocationTail(None, kind.value)) else None
  }

  /** What follows `- 您在`: the optional page group `第\ (?P<page>\w*)\ 页`, then the location stage. */
  datatype PageTail = PageTail(page: Option<string>, rest: LocationTail)

  /** Text after `第 `: the page, ` 页` and the location stage. */
  function PageRunText(page: string, rest: LocationTail): string {
    page + (" 页" + LocationTailText(rest))
  }

  function PageTailText(t: PageTail): string {
    if t.page.Some? then "第 " + PageRunText(t.page.value, t.rest) else LocationTailText(t.rest)
  }

  predicate WellFormedPageTail(t: PageTail) {
    (t.page.Some? ==> AllWord(t.page.value)) && WellFormedLocationTail(t.rest)
  }

  /** `(?P<page>\w*)\ 页` (greedy): a page of at most `k` word characters, longest first. */
  function MatchPageRun(x: string, k: nat): (r: Option<PageTail>)
    requires k <= |x| && AllWord(x[..k])
    decreases k
    ensures r.Some? ==> r.value.page.Some? && |r.value.page.value| <= k
    ensures r.Some? ==> PageRunText(r.value.page.value, r.value.rest) == x && WellFormedPageTail(r.value)
  {
    var rest := if k + 2 <= |x| && x[k..k + 2] == " 页" then MatchLocation(x[k + 2..]) else None;
    if rest.Some? then
      SplitTwice(x, k, k + 2);
      Some(PageTail(Some(x[..k]), rest.value))
    else if k == 0 then None
    else
      assert x[..k - 1] == x[..k][..k - 1];
      MatchPageRun(x, k - 1)
  }

  /** The optional page group (tried first), then the location stage. */
  function MatchPage(x: string): (r: Option<PageTail>)
    ensures r.Some? ==> PageTailText(r.value) == x && WellFormedPageTail(r.value)
  {
    var paged := if 2 <= |x| && x[..2] == "第 " then MatchPageRun(x[2..], WordRun(x[2..])) else None;
    if paged.Some? then
      SplitAt(x, 2);
      paged
    else
      var rest := MatchLocation(x);
      if rest.Some? then Some(PageTail(None, rest.value)) else None
  }

  /** The whole line: `- 您在` and the page stage. */
  function ChineseText(m: PageTail): string {
    "- 您在" + PageTailText(m)
  }

  /**
   * The Chinese pattern searched in line 2: when it matches, the pieces it
   * returns spell out the line.
   */
  function MatchChinese(line: string): (r: Option<PageTail>)
    ensures r.Some? ==> ChineseText(r.value) == line && WellFormedPageTail(r.value)
  {
    if 4 <= |line| && line[..4] == "- 您在" then
      SplitAt(line, 4);
      MatchPage(line[4..])
    else None
  }

  /**
   * The fields the record parser keeps: `标注` becomes `Highlight` and the
   * other kind `Note`; a non-empty page is prefixed with `page `; the location
   * is absent when the location group did not take part.
   */
  function ChineseFields(m: PageTail): (f: Metadata)
    requires WellFormedPageTail(m)
    ensures f.kind == "Highlight" || f.kind == "Note"
    ensures f.kind == "Highlight" <==> m.rest.rest.kind == Highlighted
    ensures f.page.Some? <==> m.page.Some? && m.page.value != ""
    ensures f.page.Some? ==> f.page.value == "page " + m.page.value
    ensures f.location.None? <==> m.rest.location.None?
    ensures f.location.Some? ==> f.location.value == m.rest.location.value.location
    ensures f.date == m.rest.rest.date
  {
    Metadata(
      if m.rest.rest.kind == Highlighted then "Highlight" else "Note",
      if m.page.Some? && m.page.value != "" then Some("page " + m.page.value) else None,
      if m.rest.location.Some? then Some(m.rest.location.value.location) else None,
      m.rest.rest.date)
  }

  // ---- Completeness: every well-formed line is recognised ----

  lemma KindFound(t: KindTail)
    requires WellFormedKind(t)
    ensures MatchKind(KindText(t)) == Some(t)
  {
    SplitConcat(KindLead(t.kind), t.date);
    assert KindLead(Highlighted)[1] != KindLead(Noted)[1];
  }

  /** At the end of the location value, the kind stage reads the rest. */
  lemma LocationFromEnds(l: Location, rest: KindTail)
    requires WellFormedKind(rest)
    ensures MatchLocationFrom(l.open, LocationBodyText(l, rest), |l.location|).Some?
  {
    var k := |l.location|;
    KindFound(rest);
    if l.close {
      var z := l.location + ("）" + KindText(rest));
      SplitConcat(l.location, "）" + KindText(rest));
      SplitConcat("）", KindText(rest));
      assert z[k + 1..] == z[k..][1..];
      return;
    }
    SplitConcat(l.location, KindText(rest));
  }

  lemma {:induction false} LocationFromFound(l: Location, rest: KindTail, k: nat)
    requires WellFormedKind(rest) && k <= |l.location|
    ensures MatchLocationFrom(l.open, LocationBodyText(l, rest), k).Some?
    decreases |l.location| - k
  {
    if k == |l.location| {
      LocationFromEnds(l, rest);
      return;
    }
    var z := LocationBodyText(l, rest);
    var closed := if z[k] == '）' then MatchKind(z[k + 1..]) else None;
    if closed.None? && MatchKind(z[k..]).None? {
      LocationFromFound(l, rest, k + 1);
    }
  }

  lemma LocationFound(t: LocationTail)
    requires WellFormedLocationTail(t)
    ensures MatchLocation(LocationTailText(t)).Some?
  {
    if t.location.None? {
      KindFound(t.rest);
      return;
    }
    var l := t.location.value;
    var y := LocationGroupText(l, t.rest);
    LocationFromFound(l, t.rest, 0);
    SplitConcat("位置 #", LocationBodyText(l, t.rest));
    if l.open {
      SplitConcat("（", y);
    }
  }

  lemma {:induction false} PageRunFound(p: string, rest: LocationTail)
    requires AllWord(p) && WellFormedLocationTail(rest)
    ensures MatchPageRun(PageRunText(p, rest), |p|).Some?
  {
    var x := PageRunText(p, rest);
    LocationFound(rest);
    SplitConcat(p, " 页" + LocationTailText(rest));
    SplitConcat(" 页", LocationTailText(rest));
    assert x[|p|..|p| + 2] == x[|p|..][..2];
    assert x[|p| + 2..] == x[|p|..][2..];
  }

  /** The page is exactly the run of word characters before ` 页`. */
  lemma WordRunOfPage(p: string, rest: LocationTail)
    requires AllWord(p)
    ensures WordRun(PageRunText(p, rest)) == |p|
  {
    var y := PageRunText(p, rest);
    SplitConcat(p, " 页" + LocationTailText(rest));
    WordRunIsLongest(y, |p|);
    WordRunStopsAt(y, |p|);
  }

  lemma PageFound(t: PageTail)
    requires WellFormedPageTail(t)
    ensures MatchPage(PageTailText(t)).Some?
  {
    if t.page.None? {
      LocationFound(t.rest);
      return;
    }
    var p := t.page.value;
    var y := PageRunText(p, t.rest);
    SplitConcat("第 ", y);
    WordRunOfPage(p, t.rest);
    PageRunFound(p, t.rest);
  }

  /** Every well-formed Chinese metadata line is matched by the pattern. */
  lemma ChineseFound(m: PageTail)
    requires WellFormedPageTail(m)
    ensures MatchChinese(ChineseText(m)).Some?
  {
    PageFound(m);
    SplitConcat("- 您在", PageTailText(m));
  }

  // ---- Priorities: the lazy location and the greedy page ----

  /** The location is the shortest one after which the kind stage matches. */
  lemma {:induction false} LocationIsShortest(open: bool, z: string, k: nat, j: nat)
    requires k <= j <= |z| && MatchLocationFrom(open, z, k).Some?
    requires j < |MatchLocationFrom(open, z, k).value.location.value.location|
    ensures !KindFollows(z, j)
    decreases j - k
  {
    if j > k {
      LocationIsShortest(open, z, k + 1, j);
    }
  }

  /** A page run shorter than the whole word run never matches: ` 页` cannot follow a word character. */
  lemma {:induction false} ShortPageRunFails(x: string, k: nat)
    requires k < WordRun(x)
    ensures MatchPageRun(x, k) == None
  {
    assert x[..k] == x[..WordRun(x)][..k];
    assert IsWordChar(x[..WordRun(x)][k]);
    if k > 0 {
      ShortPageRunFails(x, k - 1);
    }
  }

  /** The page, when the page group takes part, is the whole run of word characters after `第 `. */
  lemma PageIsWordRun(x: string)
    requires MatchPageRun(x, WordRun(x)).Some?
    ensures MatchPageRun(x, WordRun(x)).value.page.value == x[..WordRun(x)]
  {
    if WordRun(x) > 0 {
      ShortPageRunFails(x, WordRun(x) - 1);
    }
  }
}
