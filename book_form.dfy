/** The add-book form of src/components/books/BookForm.tsx: its validation schema and
    the clean-up of optional fields before the book is stored. */
module BookForm {
  import opened Wrappers
  import opened Types
  import opened Api

  /** The inputs of the form. */
  datatype FormValues = FormValues(
    title: string,
    author: string,
    genre: Option<string>,
    coverImageUrl: Option<string>,
    publicationYear: Option<int>)

  /** The schema's complaints, one per field ('Title is required', 'Author is required',
      'Must be a valid URL', and the schema library's own range message for the year). */
  datatype FieldError = TitleRequired | AuthorRequired | InvalidUrl | YearOutOfRange

  /** The schema. `isUrl` stands for the schema library's URL check and `currentYear`
      for the year of the clock. The form is accepted when the result is empty. */
  function Validate(v: FormValues, currentYear: int, isUrl: string -> bool): (errs: set<FieldError>)
    ensures TitleRequired in errs <==> |v.title| < 1
    ensures AuthorRequired in errs <==> |v.author| < 1
    ensures InvalidUrl in errs <==> v.coverImageUrl.Some? && v.coverImageUrl.value != "" && !isUrl(v.coverImageUrl.value)
    ensures YearOutOfRange in errs <==> v.publicationYear.Some? && !(1000 <= v.publicationYear.value <= currentYear)
  {
    (if |v.title| < 1 then {TitleRequired} else {})
    + (if |v.author| < 1 then {AuthorRequired} else {})
    + (match v.coverImageUrl
       case Some(url) => if url == "" || isUrl(url) then {} else {InvalidUrl}
       case None => {})
    + (match v.publicationYear
       case Some(y) => if 1000 <= y <= currentYear then {} else {YearOutOfRange}
       case None => {})
  }

  /** The `bookData` object built on submit: title and author as entered, empty genre
      and cover URL made absent, and a zero year made absent. */
  function Normalize(v: FormValues): (d: BookData)
    ensures d.title == v.title && d.author == v.author
    ensures d.genre == OrAbsent(v.genre) && d.coverImageUrl == OrAbsent(v.coverImageUrl)
    ensures d.publicationYear.Some? <==> v.publicationYear.Some? && v.publicationYear.value != 0
    ensures d.publicationYear.Some? ==> d.publicationYear == v.publicationYear
  {
    BookData(v.title, v.author, OrAbsent(v.genre), OrAbsent(v.coverImageUrl),
             if v.publicationYear == Some(0) then None else v.publicationYear)
  }

  /** What an accepted form stores: a non-empty title and author, no empty optional
      strings, a cover URL that passed the URL check, and the year as entered, in range. */
  lemma AcceptedFormGivesWellFormedBook(v: FormValues, currentYear: int, isUrl: string -> bool)
    requires Validate(v, currentYear, isUrl) == {}
    ensures var d := Normalize(v);
            && d.title != "" && d.author != ""
            && d.genre != Some("") && d.coverImageUrl != Some("")
            && (d.coverImageUrl.Some? ==> isUrl(d.coverImageUrl.value))
            && d.publicationYear == v.publicationYear
            && (d.publicationYear.Some? ==> 1000 <= d.publicationYear.value <= currentYear)
  {
    assert TitleRequired !in Validate(v, currentYear, isUrl);
    assert AuthorRequired !in Validate(v, currentYear, isUrl);
    assert InvalidUrl !in Validate(v, currentYear, isUrl);
    assert YearOutOfRange !in Validate(v, currentYear, isUrl);
  }

  /** Submitting the form: a rejected form stores nothing; an accepted one is cleaned
      up and added to the catalogue under the fresh id `newId`. */
  method Submit(store: Store, v: FormValues, currentYear: int, isUrl: string -> bool, newId: string)
    returns (r: Result<Book, set<FieldError>>)
    requires forall i :: 0 <= i < |store.books| ==> store.books[i].id != newId
    modifies store`books
    ensures Validate(v, currentYear, isUrl) != {} ==>
              r == Failure(Validate(v, currentYear, isUrl)) && store.books == old(store.books)
    ensures Validate(v, currentYear, isUrl) == {} ==>
              r == Success(BookWithId(Normalize(v), newId)) && store.books == old(store.books) + [r.value]
  {
    var errs := Validate(v, currentYear, isUrl);
    if errs != {} {
      return Failure(errs);
    }
    var newBook := store.AddBook(Normalize(v), newId);
    r := Success(newBook);
  }
}
