/**
 * `Clippings`: drains the iterator into a list of clippings, in file order,
 * and derives the set of (book, author) pairs from that list.
 */
module Collection {
  import opened Wrappers
  import opened Records
  import opened RecordParser
  import opened Splitter

  /**
   * What iterating from `cursor` yields: the clippings returned before the
   * iterator stops or raises, and the error it raises, if any.
   */
  function Drain(lines: seq<string>, cursor: nat, parse: Parser): (r: (seq<Clipping>, Option<IterError>))
    decreases |lines| - cursor
  {
    var (o, next) := Step(lines, cursor, parse);
    match o
    case Record(c) =>
      var rest := Drain(lines, next, parse);
      ([c] + rest.0, rest.1)
    case Stop => ([], None)
    case Error(e) => ([], Some(e))
  }

  /** Where the iterator's cursor rests once it has stopped or raised, having started at `cursor`. */
  function DrainCursor(lines: seq<string>, cursor: nat, parse: Parser): (r: nat)
    decreases |lines| - cursor
    ensures cursor <= r && (cursor <= |lines| ==> r <= |lines|)
  {
    var (o, next) := Step(lines, cursor, parse);
    if o.Record? then DrainCursor(lines, next, parse) else next
  }

  /**
   * The set comprehension over `(clipping['book'], clipping['author'])`: a
   * pair is collected exactly when some clipping has that book and author.
   */
  function Couples(cs: seq<Clipping>): (r: set<BookAuthor>)
    ensures forall k :: k in r <==> exists i :: 0 <= i < |cs| && KeyOf(cs[i]) == k
  {
    set c | c in cs :: KeyOf(c)
  }

  class Clippings {
    var clippings: seq<Clipping>
    var bookAuthorCouples: set<BookAuthor>

    /** `__init__` before `_fetch`: no clippings and no pairs yet. */
    constructor()
      ensures clippings == [] && bookAuthorCouples == {}
    {
      clippings := [];
      bookAuthorCouples := {};
    }

    /** The `for` loop of `_fetch`: append each clipping the iterator returns, until it stops or raises. */
    method Collect(it: ClippingsIterator) returns (err: Option<IterError>)
      requires it.cursor <= |it.lines|
      modifies this, it
      ensures clippings == old(clippings) + Drain(it.lines, old(it.cursor), it.parse).0
      ensures err == Drain(it.lines, old(it.cursor), it.parse).1
      ensures bookAuthorCouples == old(bookAuthorCouples)
      ensures it.cursor == DrainCursor(it.lines, old(it.cursor), it.parse)
    {
      while true
        invariant it.cursor <= |it.lines|
        invariant DrainCursor(it.lines, it.cursor, it.parse) == DrainCursor(it.lines, old(it.cursor), it.parse)
        invariant clippings + Drain(it.lines, it.cursor, it.parse).0 == old(clippings) + Drain(it.lines, old(it.cursor), it.parse).0
        invariant Drain(it.lines, it.cursor, it.parse).1 == Drain(it.lines, old(it.cursor), it.parse).1
        invariant bookAuthorCouples == old(bookAuthorCouples)
        decreases |it.lines| - it.cursor
      {
        var o := it.Next();
        match o
        case Record(c) =>
          clippings := clippings + [c];
        case Stop =>
          return None;
        case Error(e) =>
          return Some(e);
      }
    }

    /** `_fetch`: read every clipping, then, if nothing was raised, the set of (book, author) pairs. */
    method Fetch(lines: seq<string>) returns (err: Option<IterError>)
      modifies this
      ensures clippings == old(clippings) + Drain(lines, 0, Parse).0
      ensures err == Drain(lines, 0, Parse).1
      ensures err.None? ==> bookAuthorCouples == Couples(clippings)
      ensures err.Some? ==> bookAuthorCouples == old(bookAuthorCouples)
    {
      var it := new ClippingsIterator(lines);
      err := Collect(it);
      if err.None? {
        bookAuthorCouples := Couples(clippings);
      }
    }
  }

  /** `Clippings(source)`: the loaded collection, or the error that aborted its construction. */
  method Load(lines: seq<string>) returns (r: Result<Clippings, IterError>)
    ensures r.Success? <==> Drain(lines, 0, Parse).1.None?
    ensures r.Success? ==> fresh(r.value) && r.value.clippings == Drain(lines, 0, Parse).0
    ensures r.Success? ==> r.value.bookAuthorCouples == Couples(r.value.clippings)
    ensures r.Failure? ==> Drain(lines, 0, Parse).1 == Some(r.error)
  {
    var c := new Clippings();
    var err := c.Fetch(lines);
    if err.Some? {
      return Failure(err.value);
    }
    return Success(c);
  }

  // ---- The pairs ----

  lemma CouplesAppend(cs: seq<Clipping>, c: Clipping)
    ensures Couples(cs + [c]) == Couples(cs) + {KeyOf(c)}
  {
  }

  /** There are never more pairs than clippings. */
  lemma {:induction false} CouplesCard(cs: seq<Clipping>)
    ensures |Couples(cs)| <= |cs|
  {
    if cs != [] {
      var init := cs[..|cs| - 1];
      assert cs == init + [cs[|cs| - 1]];
      CouplesAppend(init, cs[|cs| - 1]);
      CouplesCard(init);
    }
  }

  // ---- Iterating to the end ----

  /** Every block a parser accepts has at least four lines. */
  ghost predicate NeedsFourLines(parse: Parser) {
    forall b :: parse(b).Success? ==> 4 <= |b|
  }

  lemma ParseNeedsFourLines()
    ensures NeedsFourLines(Parse)
  {
  }

  /** Each clipping takes at least five lines: four of its own and a delimiter. */
  lemma {:induction false} DrainBound(lines: seq<string>, cursor: nat, parse: Parser)
    requires NeedsFourLines(parse) && cursor <= |lines|
    ensures 5 * |Drain(lines, cursor, parse).0| <= |lines| - cursor
    decreases |lines| - cursor
  {
    var (o, next) := Step(lines, cursor, parse);
    if o.Record? {
      BlockBoundaries(lines, cursor, parse);
      DrainBound(lines, next, parse);
    }
  }

  /** An empty block (the cursor on a delimiter) ends the iteration without an error. */
  lemma StopsAtEmptyBlock(lines: seq<string>, cursor: nat, parse: Parser)
    requires cursor < |lines| && lines[cursor] == Delimiter
    ensures Drain(lines, cursor, parse) == ([], None)
  {
    StopsOrFails(lines, cursor, parse);
  }

  lemma FindInPrefix(a: seq<string>, b: seq<string>, cursor: nat)
    requires cursor < |a| && a[|a| - 1] == Delimiter
    ensures FindDelimiter(a + b, cursor) == FindDelimiter(a, cursor)
    decreases |a| - cursor
  {
    if a[cursor] != Delimiter {
      FindInPrefix(a, b, cursor + 1);
    }
  }

  /**
   * Two delimiters in a row end the iteration: whatever follows the second
   * one is never read, and the result is that of the lines up to the first.
   */
  lemma {:induction false} IgnoresAfterDoubleDelimiter(a: seq<string>, b: seq<string>, cursor: nat, parse: Parser)
    requires a != [] && a[|a| - 1] == Delimiter && b != [] && b[0] == Delimiter && cursor <= |a|
    ensures Drain(a + b, cursor, parse) == Drain(a, cursor, parse)
    decreases |a| - cursor
  {
    if cursor == |a| {
      StopsAtEmptyBlock(a + b, cursor, parse);
      return;
    }
    FindInPrefix(a, b, cursor);
    var d := FindDelimiter(a, cursor).value;
    assert (a + b)[cursor..d] == a[cursor..d];
    if Step(a, cursor, parse).0.Record? {
      IgnoresAfterDoubleDelimiter(a, b, d + 1, parse);
    }
  }

  /**
   * Each collected clipping is what the parser made of one block: the lines
   * after an earlier position up to the next delimiter, with no delimiter inside.
   */
  lemma {:induction false} DrainRecords(lines: seq<string>, cursor: nat, parse: Parser, i: nat)
    requires i < |Drain(lines, cursor, parse).0|
    ensures exists s, d ::
      (cursor <= s < d < |lines| && lines[d] == Delimiter &&
       Delimiter !in lines[s..d] && parse(lines[s..d]) == Success(Drain(lines, cursor, parse).0[i]))
    decreases |lines| - cursor
  {
    var (o, next) := Step(lines, cursor, parse);
    BlockBoundaries(lines, cursor, parse);
    if i > 0 {
      DrainRecords(lines, next, parse, i - 1);
      var s, d :| next <= s < d < |lines| && lines[d] == Delimiter &&
        Delimiter !in lines[s..d] && parse(lines[s..d]) == Success(Drain(lines, next, parse).0[i - 1]);
    }
  }
}
