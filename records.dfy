/** The values the clipping parser produces. */
module Records {
  import opened Wrappers

  /** The fields a line-2 grammar contributes to a clipping (`type`, `page`, `location`, `date`). */
  datatype Metadata = Metadata(kind: string, page: Option<string>, location: Option<string>, date: string)

  /** One parsed clipping: the merged dictionary built by the record parser. */
  datatype Clipping = Clipping(
    book: string,
    author: Option<string>,
    kind: string,
    page: Option<string>,
    location: Option<string>,
    date: string,
    contents: string)

  /** The grouping key handed to the renderer. */
  type BookAuthor = (string, Option<string>)

  function KeyOf(c: Clipping): BookAuthor {
    (c.book, c.author)
  }
}
