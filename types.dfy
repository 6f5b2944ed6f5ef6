/** The record shapes of src/utils/types.ts. Identifiers, e-mail addresses, dates and
    free text are all strings. */
module Types {
  import opened Wrappers

  /** A signed-in user: `id` and `email` always, `name` optional. */
  datatype User = User(id: string, email: string, name: Option<string>)

  /** A catalogue entry: `id`, `title` and `author` always, the rest optional. */
  datatype Book = Book(
    id: string,
    title: string,
    author: string,
    genre: Option<string>,
    coverImageUrl: Option<string>,
    publicationYear: Option<int>)

  /** The three reading states, and no others. */
  datatype ReadingStatus = WantToRead | Reading | Read

  /** The string each status is stored and displayed as. */
  function StatusLabel(s: ReadingStatus): string {
    match s
    case WantToRead => "Want to Read"
    case Reading => "Reading"
    case Read => "Read"
  }

  /** Reads a status back from its label; fails on every other string. */
  function ParseStatus(text: string): (r: Option<ReadingStatus>)
    ensures forall s: ReadingStatus :: r == Some(s) <==> StatusLabel(s) == text
  {
    if text == "Want to Read" then Some(WantToRead)
    else if text == "Reading" then Some(Reading)
    else if text == "Read" then Some(Read)
    else None
  }

  /** One user's progress record for one book; `book` is filled in only by the
      dashboard join. */
  datatype ReadingLog = ReadingLog(
    id: string,
    userId: string,
    bookId: string,
    status: ReadingStatus,
    rating: Option<int>,
    startDate: Option<string>,
    finishDate: Option<string>,
    notes: Option<string>,
    book: Option<Book>)

  /** A book together with the current user's log for it, if any. */
  datatype BookWithReadingStatus = BookWithReadingStatus(book: Book, readingLog: Option<ReadingLog>)

  /** The JavaScript idiom `s || undefined` on an optional string: the empty string
      becomes absent, everything else is kept. */
  function OrAbsent(s: Option<string>): (r: Option<string>)
    ensures r.None? <==> (s.None? || s == Some(""))
    ensures r.Some? ==> r == s
  {
    if s == Some("") then None else s
  }
}
