/**
 * `ClippingsIterator.__parse` and `unwrap`: one block of lines (the lines
 * between two delimiters) becomes a clipping, or the reason it could not.
 */
module RecordParser {
  import opened Wrappers
  import opened Text
  import opened Records
  import opened TitleGrammar
  import ChineseGrammar
  import EnglishGrammar

  /** The exception `__parse` raises, by kind. */
  datatype ParseError =
    | TooFewLines        // the `ValueError` for a block of fewer than four lines
    | NoResult           // the exception `unwrap` raises when a pattern does not match
    | LineThreeNotEmpty  // the failed assertion on the third line

  /** `unwrap`: a match that is absent becomes the `NoResult` error. */
  function Unwrap<T>(o: Option<T>): (r: Result<T, ParseError>)
    ensures r.Success? <==> o.Some?
    ensures r.Success? ==> r.value == o.value
    ensures r.Failure? ==> r.error == NoResult
  {
    if o.Some? then Success(o.value) else Failure(NoResult)
  }

  /** Line 2: the Chinese pattern first, the English one (unwrapped) only when it fails. */
  function ParseMetadata(line: string): (r: Result<Metadata, ParseError>)
    ensures r.Failure? ==> r.error == NoResult
    ensures r.Success? && ChineseGrammar.MatchChinese(line).None? ==> r.value.location.Some?
  {
    var zh := ChineseGrammar.MatchChinese(line);
    if zh.Some? then Success(ChineseGrammar.ChineseFields(zh.value))
    else
      var en := Unwrap(EnglishGrammar.MatchEnglish(line));
      if en.Success? then Success(EnglishGrammar.EnglishFields(en.value)) else Failure(en.error)
  }

  /** `'\n'.join(content[3:]).strip()`. */
  function Contents(block: seq<string>): (c: string)
    requires 3 <= |block|
    ensures c == [] || (!IsSpace(c[0]) && !IsSpace(c[|c| - 1]))
    ensures c == [] <==> forall i :: 3 <= i < |block| ==> AllSpace(block[i])
  {
    var body := block[3..];
    assert forall i :: 3 <= i < |block| ==> block[i] == body[i - 3];
    Strip(JoinLines(body))
  }

  /**
   * `__parse`: the length check, then line 1 (which always matches), then
   * line 2, then the check that line 3 is empty, then the contents.
   */
  function Parse(block: seq<string>): (r: Result<Clipping, ParseError>)
    ensures r.Success? ==> 4 <= |block| && block[2] == ""
    ensures r.Success? ==> (r.value.book, r.value.author) == ParseTitle(block[0])
    ensures r.Success? ==> ParseMetadata(block[1]) == Success(Metadata(r.value.kind, r.value.page, r.value.location, r.value.date))
    ensures r.Success? ==> r.value.contents == Contents(block)
  {
    if |block| < 4 then Failure(TooFewLines)
    else
      var title := ParseTitle(block[0]);
      var meta := ParseMetadata(block[1]);
      if meta.Failure? then Failure(meta.error)
      else if block[2] != "" then Failure(LineThreeNotEmpty)
      else
        var m := meta.value;
        Success(Clipping(title.0, title.1, m.kind, m.page, m.location, m.date, Contents(block)))
  }

  /** Step 1 of `__parse`: the groups of line 1, then the book cut down to its title. */
  method ReadTitle(line: string) returns (book: string, author: Option<string>)
    ensures (book, author) == ParseTitle(line)
  {
    var line1 := MatchTitle(line);
    book := line1.book;
    author := if line1.suffix.Some? then Some(line1.suffix.value.author) else None;
    if book != "" {
      book := MatchBook(Strip(book)).book;
    }
  }

  /** Step 2 of `__parse`: the Chinese groups, or else the unwrapped English ones. */
  method ReadMetadata(line: string) returns (r: Result<Metadata, ParseError>)
    ensures r == ParseMetadata(line)
  {
    var zh := ChineseGrammar.MatchChinese(line);
    if zh.Some? {
      return Success(ChineseGrammar.ChineseFields(zh.value));
    }
    var en := Unwrap(EnglishGrammar.MatchEnglish(line));
    if en.Failure? {
      return Failure(en.error);
    }
    return Success(EnglishGrammar.EnglishFields(en.value));
  }

  /**
   * `__parse` step by step: the record is filled field group by field group,
   * as the source fills and updates its result dictionary.
   */
  method ParseRecord(block: seq<string>) returns (r: Result<Clipping, ParseError>)
    ensures r == Parse(block)
  {
    if |block| < 4 {
      return Failure(TooFewLines);
    }
    var result := Clipping("", None, "", None, None, "", "");
    var book, author := ReadTitle(block[0]);
    result := result.(book := book, author := author);
    var meta := ReadMetadata(block[1]);
    if meta.Failure? {
      return Failure(meta.error);
    }
    var m := meta.value;
    result := result.(kind := m.kind, page := m.page, location := m.location, date := m.date);
    if block[2] != "" {
      return Failure(LineThreeNotEmpty);
    }
    result := result.(contents := Contents(block));
    return Success(result);
  }

  // ---- Which lines are accepted ----

  /** A line that reads as a well-formed Chinese metadata line. */
  ghost predicate IsChineseLine(line: string) {
    exists m :: ChineseGrammar.WellFormedPageTail(m) && ChineseGrammar.ChineseText(m) == line
  }

  /** A line that reads as a well-formed English metadata line. */
  ghost predicate IsEnglishLine(line: string) {
    exists m :: EnglishGrammar.WellFormedEnglish(m) && EnglishGrammar.EnglishText(m) == line
  }

  lemma ChineseMatchesIff(line: string)
    ensures ChineseGrammar.MatchChinese(line).Some? <==> IsChineseLine(line)
  {
    if IsChineseLine(line) {
      var m :| ChineseGrammar.WellFormedPageTail(m) && ChineseGrammar.ChineseText(m) == line;
      ChineseGrammar.ChineseFound(m);
    }
  }

  lemma EnglishMatchesIff(line: string)
    ensures EnglishGrammar.MatchEnglish(line).Some? <==> IsEnglishLine(line)
  {
    if IsEnglishLine(line) {
      var m :| EnglishGrammar.WellFormedEnglish(m) && EnglishGrammar.EnglishText(m) == line;
      EnglishGrammar.EnglishFound(m);
    }
  }

  /** Line 2 is accepted exactly when it reads as a Chinese or an English metadata line. */
  lemma MetadataAcceptedIff(line: string)
    ensures ParseMetadata(line).Success? <==> IsChineseLine(line) || IsEnglishLine(line)
  {
    ChineseMatchesIff(line);
    EnglishMatchesIff(line);
  }

  /** The Chinese reading wins whenever there is one, and its kind is `Highlight` or `Note`. */
  lemma ChineseFirst(line: string)
    requires IsChineseLine(line)
    ensures ChineseGrammar.MatchChinese(line).Some?
    ensures ParseMetadata(line) == Success(ChineseGrammar.ChineseFields(ChineseGrammar.MatchChinese(line).value))
    ensures ParseMetadata(line).value.kind in {"Highlight", "Note"}
  {
    ChineseMatchesIff(line);
  }

  /** The English reading is used only when there is no Chinese one. */
  lemma EnglishOtherwise(line: string)
    requires !IsChineseLine(line) && IsEnglishLine(line)
    ensures ChineseGrammar.MatchChinese(line).None? && EnglishGrammar.MatchEnglish(line).Some?
    ensures ParseMetadata(line) == Success(EnglishGrammar.EnglishFields(EnglishGrammar.MatchEnglish(line).value))
  {
    ChineseMatchesIff(line);
    EnglishMatchesIff(line);
  }

  /**
   * The error a block is rejected with: a short block before anything else
   * is looked at, then an unreadable line 2, and only then a non-empty line 3.
   * Line 1 never causes a rejection.
   */
  lemma ParseErrors(block: seq<string>)
    ensures Parse(block) == Failure(TooFewLines) <==> |block| < 4
    ensures Parse(block) == Failure(NoResult) <==>
      4 <= |block| && !IsChineseLine(block[1]) && !IsEnglishLine(block[1])
    ensures Parse(block) == Failure(LineThreeNotEmpty) <==>
      4 <= |block| && (IsChineseLine(block[1]) || IsEnglishLine(block[1])) && block[2] != ""
    ensures Parse(block).Success? <==>
      4 <= |block| && (IsChineseLine(block[1]) || IsEnglishLine(block[1])) && block[2] == ""
  {
    if 4 <= |block| {
      MetadataAcceptedIff(block[1]);
    }
  }

  /** The contents depend on lines 4 onwards only, whatever the first three lines hold. */
  lemma ContentsOfBody(b1: seq<string>, b2: seq<string>)
    requires 3 <= |b1| && 3 <= |b2| && b1[3..] == b2[3..]
    ensures Contents(b1) == Contents(b2)
    ensures Parse(b1).Success? && Parse(b2).Success? ==> Parse(b1).value.contents == Parse(b2).value.contents
  {
  }
}
