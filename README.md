# whoarder: the "My Clippings.txt" reader, modelled in Dafny

whoarder turns the `My Clippings.txt` file that a Kindle keeps into an HTML
page. This project models the part that reads the file, which lives in
`whoarder/clippings.py`:

- `ClippingsIterator` walks the lines of the file. Each call of `__next__`
  takes the lines up to the next `==========` delimiter, parses them into a
  clipping, and moves its cursor just past the delimiter.
- `__parse` reads one such block, in four steps:
  - **Line 1** is matched by the title pattern. The book is then cleaned by
    the intro pattern, which removes trailing `【…】`, ` (…)` and `（…）` tokens.
  - **Line 2** is matched by the Chinese metadata pattern first. The English
    one is tried only when the Chinese one fails.
  - **Line 3** must be empty.
  - **The remaining lines** are joined and stripped to give the contents.
- `Clippings` drains the iterator into a list, in file order. It then builds
  the set of (book, author) pairs from that list.

## Modules

| file | module | models |
|---|---|---|
| `wrappers.dfy` | `Wrappers` | `Option` and `Result` |
| `text.dfy` | `Text` | `str.isspace`, `str.strip`, `'\n'.join`, the `\w` class, ASCII case folding |
| `records.dfy` | `Records` | the parsed clipping (the merged result dictionary) and its (book, author) key |
| `title_grammar.dfy` | `TitleGrammar` | `_clipping_line1` and `_clipping_book` |
| `chinese_grammar.dfy` | `ChineseGrammar` | `_clipping_line2_chinese` and the `type`/`page` rewriting of `__parse` |
| `english_grammar.dfy` | `EnglishGrammar` | `_clipping_line2_english` |
| `record_parser.dfy` | `RecordParser` | `__parse` and `unwrap` |
| `splitter.dfy` | `Splitter` | `ClippingsIterator` (`__init__`, `__next__`, `list.index`) |
| `collection.dfy` | `Collection` | `Clippings.__init__` and `_fetch` |

### How the regular expressions are modelled

Each regular expression is written out as a chain of stage functions. A
stage tries the alternatives in the order that Python's backtracking matcher
does: a greedy part tries the longest candidate first, and a lazy part tries
the shortest first. A stage that succeeds returns a match record, which holds
the pieces the pattern matched. Three kinds of property are proved:

- **Soundness.** This is in each matcher's `ensures`: the pieces spell out
  exactly the text that was matched, and they are well-formed (a `\w*` group
  holds only word characters, a keyword equals its literal up to case, and so
  on).
- **Completeness.** This is in the `…Found` lemmas: every well-formed
  arrangement of pieces is recognised when its text is matched.
- **Priority.** Where two readings of the same text are possible, the one
  Python picks is stated. This is in the contracts of the searching matchers
  (`MatchAuthor`, `MatchMarker`, `MatchInner`, `MatchTitleFrom`,
  `MatchBookFrom`, `MatchYour`) and in the `…IsShortest`, `…IsLongest` and
  `…IsWordRun` lemmas:
  - a lazy group takes the shortest possible text;
  - a greedy group takes the longest possible text;
  - an optional group is left out only when the rest cannot be read after it;
  - a `\w*` group takes the whole run of word characters.

Together, soundness and completeness make "line 2 is accepted" the same as
"line 2 can be read as a well-formed Chinese or English metadata line".

## Model

| member | source | states |
|---|---|---|
| `Text.WordRun` | whoarder/clippings.py:94 | the length of the run of `\w` characters at the start of a string: every character in it is a word character, and the character after it is not |
| `Text.WordRunIsLongest` | whoarder/clippings.py:94 | no all-word prefix is longer than the word run, so a greedy `\w*` takes exactly the run |
| `Text.WordRunStopsAt` | whoarder/clippings.py:104 | the word run stops at or before the first non-word character |
| `Text.StripStart` | whoarder/clippings.py:150 | the left half of `strip`: the result is a suffix of the input, what was dropped is all whitespace, and the result does not start with whitespace |
| `Text.StripEnd` | whoarder/clippings.py:165 | the right half of `strip`: the result is a prefix of the input, what was dropped is all whitespace, and the result does not end with whitespace |
| `Text.Strip` | whoarder/clippings.py:165 | `strip`: the result is an infix with only whitespace around it, it neither starts nor ends with whitespace, and it is empty exactly when the input is all whitespace |
| `Text.JoinLines` | whoarder/clippings.py:165 | `'\n'.join`: the join is all whitespace exactly when every line is |
| `TitleGrammar.MatchAlias` | whoarder/clippings.py:85 | `(\(.*\))?\)$`: the optional parenthesised alias and the closing parenthesis spell out the text |
| `TitleGrammar.MatchSpace` | whoarder/clippings.py:85 | the optional space ` ?` tried first, then the alias stage; the pieces spell out the text |
| `TitleGrammar.MatchAuthor` | whoarder/clippings.py:85 | the lazy `[^()]*?` author: the marker is kept, the pieces spell out the text, the author holds no parenthesis, and it is the shortest one from position `k` on (the space stage does not match after any shorter author) |
| `TitleGrammar.MatchMarker` | whoarder/clippings.py:85 | the greedy `(\[.*\])?` marker: a marker is present and the pieces spell out the group after ` (`; the marker is the longest one closing at `e` or earlier after which the author stage matches; when there is none, no marker closing at `e` or earlier is followed by an author; the author after the marker is the shortest one (the space stage matches after no shorter author) |
| `TitleGrammar.MatchInner` | whoarder/clippings.py:85 | the pieces spell out the group after ` (`; the marker is left out only when no marker reading of the text exists; a marker that is present is the longest one after which an author can be read; and the author, after the marker or without one, is the shortest one |
| `TitleGrammar.SpaceNotInMarkedAuthor` | whoarder/clippings.py:85 | an illustration of the shortest-author clause: in the documented example ` ([日]村上春树 (Haruki Murakami))`, reading the space into the author is not the shortest reading, so the author is `村上春树` without it |
| `TitleGrammar.MatchSuffix` | whoarder/clippings.py:85 | the author group ` (`…`)` anchored at the end of the line; the pieces spell out the text and are well-formed |
| `TitleGrammar.MatchTitleFrom` | whoarder/clippings.py:84-85 | the lazy book search: the book is the first prefix, from position `n` on, after which the author group matches, and the group returned is the author-group stages' reading of the rest of the line |
| `TitleGrammar.MatchTitle` | whoarder/clippings.py:83-86 | the title pattern always matches: book and group spell out the line, the book is the shortest prefix followed by an author group, and it is the whole line when there is no group; the group returned is the author-group stages' reading of the rest of the line, so its marker and author are those `MatchInner` picks |
| `TitleGrammar.AliasFound` | whoarder/clippings.py:85 | completeness: every well-formed alias text is read back as that alias |
| `TitleGrammar.SpaceFound` | whoarder/clippings.py:85 | completeness of the space-and-alias stage |
| `TitleGrammar.AuthorFound` | whoarder/clippings.py:85 | completeness of the author stage from any position inside a parenthesis-free author |
| `TitleGrammar.MarkedInnerFound` | whoarder/clippings.py:85 | every well-formed group with a marker is recognised after ` (`, and is read with a marker |
| `TitleGrammar.InnerFound` | whoarder/clippings.py:85 | every well-formed group, with or without a marker, is recognised after ` (` |
| `TitleGrammar.SuffixFound` | whoarder/clippings.py:85 | every well-formed author group is recognised |
| `TitleGrammar.AuthorAbsentIff` | whoarder/clippings.py:84-85 | the author is absent exactly when no suffix of the line is a well-formed author group |
| `TitleGrammar.BookIsShortest` | whoarder/clippings.py:84 | no shorter book is followed by a well-formed author group |
| `TitleGrammar.SplitIntros` | whoarder/clippings.py:90 | the repeated intro group at the end of the book: a division of the text into intro tokens (`【…】`, ` (…)` or `（…）`) that concatenate back to it |
| `TitleGrammar.SplitIntrosAt` | whoarder/clippings.py:90 | a first token of at most `k` characters (longest first) followed by more tokens |
| `TitleGrammar.MatchBookFrom` | whoarder/clippings.py:89-90 | the lazy book search of the intro pattern, from position `n` on |
| `TitleGrammar.MatchBook` | whoarder/clippings.py:88-91 | the intro pattern always matches: book and intros spell out the text, and the book is the shortest prefix followed by a run of intros |
| `TitleGrammar.SplitIntrosAtFound` | whoarder/clippings.py:90 | a first token found at length `k0` is found by the longest-first search from any `k >= k0` |
| `TitleGrammar.IntrosFound` | whoarder/clippings.py:90 | completeness: every concatenation of intro tokens is recognised as a run of intros |
| `TitleGrammar.BookHasNoShorterPrefix` | whoarder/clippings.py:89-90 | no prefix shorter than the book is followed by a concatenation of intros |
| `TitleGrammar.ParseTitle` | whoarder/clippings.py:146-150 | line 1 as the record parser reads it: the author is present exactly when the group matched, is the author that the author-group stages read from the text after the book (so a leading `[…]` marker is not part of it), and has no parentheses; the book does not start with whitespace; it is a prefix of the stripped raw book that only intro tokens follow, and no shorter prefix is followed only by intro tokens |
| `ChineseGrammar.MatchKind` | whoarder/clippings.py:105-106 | the kind group and the date: the kind is `标注` or `笔记`, and the date is the rest of the line |
| `ChineseGrammar.MatchLocationFrom` | whoarder/clippings.py:104-106 | the lazy `.*?` location from position `k` on, with the optional `）` tried first |
| `ChineseGrammar.MatchLocationBody` | whoarder/clippings.py:104 | `位置\ \#` followed by the location value and the kind stage |
| `ChineseGrammar.MatchLocation` | whoarder/clippings.py:104-106 | the optional location group (with an optional `（`) tried before its absence |
| `ChineseGrammar.MatchPageRun` | whoarder/clippings.py:104 | the greedy `\w*` page: at most `k` word characters, longest first, then ` 页` |
| `ChineseGrammar.MatchPage` | whoarder/clippings.py:104 | the optional page group `第\ …\ 页` tried before its absence |
| `ChineseGrammar.MatchChinese` | whoarder/clippings.py:103-107 | when the Chinese pattern matches, its pieces spell out line 2 and are well-formed |
| `ChineseGrammar.ChineseFields` | whoarder/clippings.py:155-157 | the kind is `Highlight` for `标注` and `Note` otherwise; the page is `page ` plus the page exactly when the page is non-empty; the location is the group's value or absent; the date is the rest of the line |
| `ChineseGrammar.KindFound` | whoarder/clippings.py:105-106 | the kind stage reads back exactly the kind and date it was given |
| `ChineseGrammar.LocationFromEnds` | whoarder/clippings.py:104-106 | the location search succeeds at the end of a well-formed location value |
| `ChineseGrammar.LocationFromFound` | whoarder/clippings.py:104-106 | the location search succeeds from any position inside a well-formed location value |
| `ChineseGrammar.LocationFound` | whoarder/clippings.py:104-106 | completeness of the location stage |
| `ChineseGrammar.PageRunFound` | whoarder/clippings.py:104 | a word-character page followed by ` 页` and a well-formed rest is found |
| `ChineseGrammar.WordRunOfPage` | whoarder/clippings.py:104 | the word run of a page text ends exactly at the page, since the space before `页` is not a word character |
| `ChineseGrammar.PageFound` | whoarder/clippings.py:104 | completeness of the page stage |
| `ChineseGrammar.ChineseFound` | whoarder/clippings.py:103-107 | completeness: every well-formed Chinese metadata line is matched |
| `ChineseGrammar.LocationIsShortest` | whoarder/clippings.py:104 | the lazy location is the shortest: the kind stage does not follow at any earlier position |
| `ChineseGrammar.ShortPageRunFails` | whoarder/clippings.py:104 | a page shorter than the word run cannot be followed by ` 页` |
| `ChineseGrammar.PageIsWordRun` | whoarder/clippings.py:104 | the greedy page is exactly the run of word characters after `第 ` |
| `EnglishGrammar.MatchAdded` | whoarder/clippings.py:99 | the ` Added on ` separator (ignoring case), then the date up to the end of the line |
| `EnglishGrammar.MatchLocationValue` | whoarder/clippings.py:98-99 | the greedy `.*` location: at most `k` characters, longest first, then the date stage |
| `EnglishGrammar.MatchWordAs` | whoarder/clippings.py:98 | one keyword alternative (ignoring case), a space, then the location stage |
| `EnglishGrammar.MatchWord` | whoarder/clippings.py:98 | the keyword alternatives, `Location` tried before `Loc.`; the keyword is one of them up to case |
| `EnglishGrammar.MatchKeywordAfter` | whoarder/clippings.py:98 | a preposition (ignoring case) before the keyword stage |
| `EnglishGrammar.MatchKeyword` | whoarder/clippings.py:98 | the optional preposition, `on ` tried before `at ` and both before neither; the pieces are well-formed |
| `EnglishGrammar.MatchSpaced` | whoarder/clippings.py:98 | the space before the keyword stage |
| `EnglishGrammar.MatchArticle` | whoarder/clippings.py:97-98 | the optional ` This Article` tried before its absence |
| `EnglishGrammar.MatchPageEnd` | whoarder/clippings.py:95-96 | a page of exactly `k` characters followed by the closing bar and the article stage |
| `EnglishGrammar.Longest` | whoarder/clippings.py:95 | the longest-first search behind a greedy `.*`: the first success from `k` downwards, never below `lo` |
| `EnglishGrammar.LongestFound` | whoarder/clippings.py:95 | the longest-first search succeeds whenever some length in range succeeds |
| `EnglishGrammar.LongestIsLongest` | whoarder/clippings.py:95 | no length above the one the search returns succeeds |
| `EnglishGrammar.MatchPageRun` | whoarder/clippings.py:95-96 | `Page\ .*` (greedy): the longest page starting with `Page ` after which the rest matches |
| `EnglishGrammar.MatchPageValue` | whoarder/clippings.py:95 | `Unnumbered\ Page` tried before `Page\ .*` |
| `EnglishGrammar.MatchPageOn` | whoarder/clippings.py:95-96 | `(?:on\ )?` tried first, then the page value |
| `EnglishGrammar.MatchPage` | whoarder/clippings.py:95-98 | the optional page group tried before its absence |
| `EnglishGrammar.MatchType` | whoarder/clippings.py:94 | the greedy `\w*` type: at most `k` word characters, longest first |
| `EnglishGrammar.MatchTypeRun` | whoarder/clippings.py:94 | the type search starts from the whole word run |
| `EnglishGrammar.MatchYour` | whoarder/clippings.py:94 | `(?:Your\ )?` (greedy): the pieces spell out the text, and `Your ` is left out only when the type stage cannot read the rest after it |
| `EnglishGrammar.MatchEnglish` | whoarder/clippings.py:93-100 | when the English pattern matches, its pieces spell out line 2 and are well-formed |
| `EnglishGrammar.EnglishFields` | whoarder/clippings.py:159-160 | the named groups: the type as written (word characters only), the page exactly when its group took part (`Unnumbered Page` or starting with `Page `), the location always present, and the date |
| `EnglishGrammar.AddedFound` | whoarder/clippings.py:99 | the date stage reads back exactly what it was given |
| `EnglishGrammar.LocationValueFound` | whoarder/clippings.py:98-99 | the location search succeeds from any bound at or above the location's length |
| `EnglishGrammar.WordAsFound` | whoarder/clippings.py:98 | completeness of one keyword alternative |
| `EnglishGrammar.WordFound` | whoarder/clippings.py:98 | completeness of the keyword stage |
| `EnglishGrammar.KeywordAfterFound` | whoarder/clippings.py:98 | completeness of one preposition |
| `EnglishGrammar.KeywordFound` | whoarder/clippings.py:98 | completeness of the optional preposition |
| `EnglishGrammar.SpacedFound` | whoarder/clippings.py:98 | completeness of the spaced keyword stage |
| `EnglishGrammar.ArticleFound` | whoarder/clippings.py:97-98 | completeness of the article stage |
| `EnglishGrammar.PageEndFound` | whoarder/clippings.py:95-96 | a page followed by the closing bar and a well-formed rest is found at its own length |
| `EnglishGrammar.PageRunFound` | whoarder/clippings.py:95-96 | the greedy page search succeeds whenever some page length succeeds |
| `EnglishGrammar.PageValueFound` | whoarder/clippings.py:95-96 | completeness of the page value stage |
| `EnglishGrammar.PageFound` | whoarder/clippings.py:95-98 | completeness of the optional page group |
| `EnglishGrammar.PageTailStartsWithSpace` | whoarder/clippings.py:95-98 | what follows the type always starts with a space, so the type ends at the word run |
| `EnglishGrammar.WordRunOfType` | whoarder/clippings.py:94 | the word run of a type text ends exactly at the type |
| `EnglishGrammar.TypeFound` | whoarder/clippings.py:94 | completeness of the type stage |
| `EnglishGrammar.EnglishFound` | whoarder/clippings.py:93-100 | completeness: every well-formed English metadata line is matched |
| `EnglishGrammar.TypeIsWordRun` | whoarder/clippings.py:94 | the type is exactly the run of word characters at its position |
| `EnglishGrammar.LocationIsLongest` | whoarder/clippings.py:98-99 | the greedy location is the longest: the date stage does not follow at any later position |
| `EnglishGrammar.PageIsLongest` | whoarder/clippings.py:95-96 | the greedy page is the longest: no longer page is followed by the rest |
| `RecordParser.Unwrap` | whoarder/clippings.py:173-178 | a present match is passed through, and an absent one becomes the `No result` error |
| `RecordParser.ParseMetadata` | whoarder/clippings.py:153-161 | line 2: it fails only with `No result`, and a result without a Chinese match always has a location |
| `RecordParser.Contents` | whoarder/clippings.py:165 | the contents neither start nor end with whitespace, and are empty exactly when every line from the fourth on is blank |
| `RecordParser.Parse` | whoarder/clippings.py:137-170 | a parsed block has at least four lines and an empty third line; its book and author are line 1's reading, its type, page, location and date are line 2's metadata, and its contents are the lines from the fourth on, joined and stripped |
| `RecordParser.ParseRecord` | whoarder/clippings.py:137-170 | the field-by-field update of the result record yields the parse result |
| `RecordParser.ChineseMatchesIff` | whoarder/clippings.py:103-107 | the Chinese pattern matches exactly the lines that are well-formed Chinese metadata lines |
| `RecordParser.EnglishMatchesIff` | whoarder/clippings.py:93-100 | the English pattern matches exactly the lines that are well-formed English metadata lines |
| `RecordParser.MetadataAcceptedIff` | whoarder/clippings.py:153-160 | line 2 is accepted exactly when it is a Chinese or an English metadata line |
| `RecordParser.ChineseFirst` | whoarder/clippings.py:153-157 | a Chinese reading always wins, and its kind is `Highlight` or `Note` |
| `RecordParser.EnglishOtherwise` | whoarder/clippings.py:158-160 | the English reading is used exactly when there is no Chinese one |
| `RecordParser.ParseErrors` | whoarder/clippings.py:141-165 | the error order: too few lines first, then an unreadable line 2, then a non-empty line 3; line 1 never causes an error; the parse succeeds exactly in the remaining case |
| `RecordParser.ContentsOfBody` | whoarder/clippings.py:165 | the contents depend only on the lines from the fourth on, for any block of at least three lines, and so do the contents of two blocks that both parse |
| `Splitter.FindDelimiter` | whoarder/clippings.py:125 | `list.index`: the first delimiter at or after `start`, or none |
| `Splitter.IndexOf` | whoarder/clippings.py:125 | the search loop returns the first delimiter at or after `start` |
| `Splitter.Step` | whoarder/clippings.py:120-135 | one `__next__`: the cursor moves forward and stays within the lines when a block was handed to the parser, and is otherwise unchanged |
| `Splitter.ClippingsIterator.constructor` | whoarder/clippings.py:113-115 | the iterator holds the lines, uses the record parser, and starts at cursor 0 |
| `Splitter.ClippingsIterator.Next` | whoarder/clippings.py:120-135 | the outcome and the new cursor are those of one step from the old cursor |
| `Splitter.BlockBoundaries` | whoarder/clippings.py:124-135 | a parsed block is exactly the lines from the cursor to the first delimiter after it, with no delimiter inside; the cursor moves just past that delimiter; a record is the parser's result for the block, and a format error happens only when the parser fails, carrying the parser's error and the block |
| `Splitter.StopsOrFails` | whoarder/clippings.py:121-127 | iteration stops exactly when the cursor is past the end or on a delimiter, and fails exactly when no delimiter follows |
| `Splitter.StopIsFinal` | whoarder/clippings.py:121-127 | after a stop, the next call stops again in the same state |
| `Collection.Clippings.constructor` | whoarder/clippings.py:20-21 | before fetching, there are no clippings and no pairs |
| `Collection.Clippings.Collect` | whoarder/clippings.py:39-40 | the loop appends, in order, every clipping the iterator returns until it stops or raises, reports what it raised, and leaves the iterator's cursor where iterating to the end leaves it |
| `Collection.Clippings.Fetch` | whoarder/clippings.py:34-44 | the clippings are those the iterator yields; the pairs are derived from them only when nothing was raised |
| `Collection.Load` | whoarder/clippings.py:14-22 | constructing the collection succeeds exactly when iteration ends without an error, and then holds the clippings and their pairs |
| `Collection.Couples` | whoarder/clippings.py:43-44 | a pair is collected exactly when some clipping has that book and author |
| `Collection.CouplesAppend` | whoarder/clippings.py:40-44 | appending a clipping adds exactly its pair |
| `Collection.CouplesCard` | whoarder/clippings.py:43-44 | there are never more pairs than clippings |
| `Collection.ParseNeedsFourLines` | whoarder/clippings.py:141-143 | the record parser accepts no block shorter than four lines |
| `Collection.DrainBound` | whoarder/clippings.py:124-143 | each clipping consumes at least five lines: four of its own and a delimiter |
| `Collection.StopsAtEmptyBlock` | whoarder/clippings.py:126-127 | a delimiter at the cursor ends the iteration with no clippings and no error |
| `Collection.FindInPrefix` | whoarder/clippings.py:125 | a delimiter search that succeeds inside a prefix ignores what follows it |
| `Collection.IgnoresAfterDoubleDelimiter` | whoarder/clippings.py:124-127 | two delimiters in a row end the iteration: the lines after the second are never read |
| `Collection.DrainRecords` | whoarder/clippings.py:39-40 | every collected clipping is the parser's result for one delimiter-free block of lines that ends at a delimiter |

## Left out

- Reading the file is not modelled. This covers `readlines`, chardet encoding detection, the UTF-8 byte-order mark and `splitlines`. The model starts from the list of lines.
- Lines are taken to contain no line-break characters, since `splitlines` removes them. As a result, `.` matches any character and `$` matches only at the end of the line.
- `export_to_html`, `_get_default_dest`, the destination path, the command-line entry point and the `DEBUG` printing are not modelled. They are I/O or rendering.
- `\w` is approximated as follows:
  - ASCII letters, digits and `_`;
  - any non-ASCII character that is not whitespace and not in a common punctuation or symbol block.
  - The full Unicode tables are not modelled.
- `re.IGNORECASE` is modelled as ASCII case folding only.
- The exception classes are reduced to what each error is:
  - `ParseError` records why a block was rejected;
  - `IterError` records what escapes the iterator;
  - the message strings are not modelled.
- The record's `type` and `date` may be empty, because the patterns `\w*` and `.*` allow it, and so may its `book`: a line 1 such as ` (Author)` gives the book `""`. The model follows the code here. Descriptions of the clipping format that treat the book, type and date as always present are not followed.
- `RecordParser.ReadTitle` and `RecordParser.ReadMetadata` are the first two steps of `ParseRecord`, split out so that each step is proved on its own. They have no rows of their own, because each only computes `ParseTitle` or `ParseMetadata` as statements.
- `unwrap` on line 1 and on the book is not modelled as an error path. Both patterns end in optional parts with `$` and begin with a lazy `.*?`, so they always match. `MatchTitle` and `MatchBook` are total, and their contracts show this.
- The `assert` on line 3 is modelled as always checked. Python drops it under `-O`, and that case is not modelled.
- `ClippingsIterator` takes its block parser as a field, and `parse == Parse` holds after construction. The step and collection lemmas are proved for any parser. Where they need a fact about `Parse`, it is given as a separate lemma (`ParseNeedsFourLines`).
- `Splitter.Step`: the test `self.cursor == len(self.lines)` in `__next__` can never succeed, because `list.index` returns the position of an element. The test is kept in the model, and the contract does not mention it.
- `Collection.Drain` is the specification function for iterating to the end. It has no row of its own, because its properties are stated by `DrainBound`, `StopsAtEmptyBlock`, `IgnoresAfterDoubleDelimiter` and `DrainRecords`.
