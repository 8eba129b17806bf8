/**
 * `ClippingsIterator`: a cursor over the lines of the clippings file that
 * hands out one parsed clipping per block of lines ended by the delimiter.
 */
module Splitter {
  import opened Wrappers
  import opened Records
  import opened RecordParser

  /** The line that ends every clipping. */
  const Delimiter := "=========="

  /** Why `__next__` failed instead of producing a clipping or stopping. */
  datatype IterError =
    | DelimiterMissing                                    // the `ValueError` of `list.index`, not wrapped
    | InvalidFormat(cause: ParseError, block: seq<string>) // `InvalidFormatException` with the offending block

  /** What one call of `__next__` does: return a clipping, stop, or raise. */
  datatype Outcome = Record(clipping: Clipping) | Stop | Error(error: IterError)

  /**
   * The block parser the iterator applies (`__parse`). The iterator's
   * contracts hold for any parser; the iterator is built with `Parse`.
   */
  type Parser = seq<string> -> Result<Clipping, ParseError>

  /** `lines.index(delimiter, start)`: the first delimiter at or after `start`, if any. */
  function FindDelimiter(lines: seq<string>, start: nat): (r: Option<nat>)
    decreases |lines| - start
    ensures r.Some? ==> start <= r.value < |lines| && lines[r.value] == Delimiter
    ensures r.Some? ==> forall i :: start <= i < r.value ==> lines[i] != Delimiter
    ensures r.None? ==> forall i :: start <= i < |lines| ==> lines[i] != Delimiter
  {
    if start >= |lines| then None
    else if lines[start] == Delimiter then Some(start)
    else FindDelimiter(lines, start + 1)
  }

  /** `list.index` as the loop that searches the lines one by one. */
  method IndexOf(lines: seq<string>, start: nat) returns (r: Option<nat>)
    ensures r == FindDelimiter(lines, start)
  {
    var i := start;
    while i < |lines|
      invariant start <= i
      invariant FindDelimiter(lines, i) == FindDelimiter(lines, start)
      decreases |lines| - i
    {
      if lines[i] == Delimiter {
        return Some(i);
      }
      i := i + 1;
    }
    return None;
  }

  /**
   * One call of `__next__` from cursor `cursor`: the outcome and the cursor
   * afterwards. A missing delimiter raises before the cursor is assigned;
   * an empty block stops with the cursor left on the delimiter; the test
   * against the number of lines can never succeed, as the delimiter is a line.
   */
  function Step(lines: seq<string>, cursor: nat, parse: Parser): (r: (Outcome, nat))
    ensures r.0.Record? || (r.0.Error? && r.0.error.InvalidFormat?) ==> cursor < r.1 <= |lines|
    ensures !(r.0.Record? || (r.0.Error? && r.0.error.InvalidFormat?)) ==> r.1 == cursor
  {
    if cursor >= |lines| then (Stop, cursor)
    else
      match FindDelimiter(lines, cursor)
      case None => (Error(DelimiterMissing), cursor)
      case Some(d) =>
        if cursor == d || d == |lines| then (Stop, d)
        else
          var block := lines[cursor..d];
          match parse(block)
          case Success(c) => (Record(c), d + 1)
          case Failure(e) => (Error(InvalidFormat(e, block)), d + 1)
  }

  class ClippingsIterator {
    const lines: seq<string>
    const parse: Parser
    var cursor: nat

    /** `__init__`, with the file already read into lines. */
    constructor(lines: seq<string>)
      ensures this.lines == lines && parse == Parse && cursor == 0
    {
      this.lines := lines;
      parse := Parse;
      cursor := 0;
    }

    /** `__next__`. */
    method Next() returns (o: Outcome)
      modifies this
      ensures (o, cursor) == Step(lines, old(cursor), parse)
    {
      if cursor >= |lines| {
        return Stop;
      }
      var start := cursor;
      var found := IndexOf(lines, start);
      if found.None? {
        return Error(DelimiterMissing);
      }
      cursor := found.value;
      if start == cursor || cursor == |lines| {
        return Stop;
      }
      var cur := lines[start..cursor];
      cursor := cursor + 1;
      var parsed := parse(cur);
      if parsed.Success? {
        o := Record(parsed.value);
      } else {
        o := Error(InvalidFormat(parsed.error, cur));
      }
    }
  }

  // ---- Properties of one step ----

  /**
   * A block handed to the parser is exactly the lines from the cursor up to
   * the first delimiter after it; it holds no delimiter, and the cursor moves
   * just past that delimiter.
   */
  lemma BlockBoundaries(lines: seq<string>, cursor: nat, parse: Parser)
    requires Step(lines, cursor, parse).0.Record? || (Step(lines, cursor, parse).0.Error? && Step(lines, cursor, parse).0.error.InvalidFormat?)
    ensures var next := Step(lines, cursor, parse).1;
      cursor < next - 1 < |lines| && lines[next - 1] == Delimiter && FindDelimiter(lines, cursor) == Some(next - 1)
    ensures Delimiter !in lines[cursor..Step(lines, cursor, parse).1 - 1]
    ensures Step(lines, cursor, parse).0.Error? ==> Step(lines, cursor, parse).0.error.block == lines[cursor..Step(lines, cursor, parse).1 - 1]
    ensures Step(lines, cursor, parse).0.Error? ==> parse(lines[cursor..Step(lines, cursor, parse).1 - 1]) == Failure(Step(lines, cursor, parse).0.error.cause)
    ensures Step(lines, cursor, parse).0.Record? ==> parse(lines[cursor..Step(lines, cursor, parse).1 - 1]) == Success(Step(lines, cursor, parse).0.clipping)
  {
    var d := FindDelimiter(lines, cursor).value;
    assert forall i :: 0 <= i < d - cursor ==> lines[cursor..d][i] == lines[cursor + i];
  }

  /**
   * Iteration stops exactly when the cursor is past the last line or sits on
   * a delimiter (an empty block); it fails exactly when no delimiter follows.
   * In both cases the cursor stays where it was.
   */
  lemma StopsOrFails(lines: seq<string>, cursor: nat, parse: Parser)
    ensures Step(lines, cursor, parse).0 == Stop <==> cursor >= |lines| || lines[cursor] == Delimiter
    ensures Step(lines, cursor, parse).0 == Error(DelimiterMissing) <==>
      cursor < |lines| && Delimiter !in lines[cursor..]
  {
    if cursor < |lines| {
      match FindDelimiter(lines, cursor)
      case None =>
        assert forall i :: 0 <= i < |lines| - cursor ==> lines[cursor..][i] == lines[cursor + i];
      case Some(d) =>
        assert lines[cursor..][d - cursor] == Delimiter;
    }
  }

  /** After a stop, `__next__` stops again at the same cursor. */
  lemma StopIsFinal(lines: seq<string>, cursor: nat, parse: Parser)
    requires Step(lines, cursor, parse).0 == Stop
    ensures Step(lines, Step(lines, cursor, parse).1, parse) == Step(lines, cursor, parse)
  {
    StopsOrFails(lines, cursor, parse);
  }
}
