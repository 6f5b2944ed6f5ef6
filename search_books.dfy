/** The search page of src/pages/SearchBooks.tsx: after a search it looks up the
    signed-in user's log for every result and shows each result with its log. */
module SearchBooks {
  import opened Wrappers
  import opened Types
  import opened Api

  /** One log lookup for (user id, book id): it may fail, find nothing, or find a log. */
  type Fetch = (string, string) -> Result<Option<ReadingLog>, ApiError>

  /** The lookup the page uses: `getReadingLogForBook` over the stored logs, which
      never fails here. */
  function StoreFetch(logs: seq<ReadingLog>): Fetch {
    (userId: string, bookId: string) => Success(GetReadingLogForBook(logs, userId, bookId))
  }

  /** A lookup that succeeded and found a log. */
  predicate Found(r: Result<Option<ReadingLog>, ApiError>) {
    r.Success? && r.value.Some?
  }

  /** The status map holds an entry exactly for the result ids whose lookup found a
      log, and that entry is the log found. */
  ghost predicate StatusMapFor(m: map<string, ReadingLog>, userId: string, results: seq<Book>, fetch: Fetch) {
    && (forall id :: id in m <==> (exists i :: 0 <= i < |results| && results[i].id == id) && Found(fetch(userId, id)))
    && (forall id :: id in m ==> fetch(userId, id) == Success(Some(m[id])))
  }

  /** The loop of `handleSearchResults`: one lookup per result, a found log stored under
      the book's id, a failed lookup skipping that book only. */
  method BuildStatusMap(userId: string, results: seq<Book>, fetch: Fetch) returns (statusMap: map<string, ReadingLog>)
    ensures StatusMapFor(statusMap, userId, results, fetch)
  {
    statusMap := map[];
    var i := 0;
    while i < |results|
      invariant 0 <= i <= |results|
      invariant forall id :: id in statusMap <==> (exists j :: 0 <= j < i && results[j].id == id) && Found(fetch(userId, id))
      invariant forall id :: id in statusMap ==> fetch(userId, id) == Success(Some(statusMap[id]))
    {
      var book := results[i];
      var log := fetch(userId, book.id);
      if log.Success? && log.value.Some? {
        statusMap := statusMap[book.id := log.value.value];
      }
      i := i + 1;
    }
  }

  /** With the store's own lookup, each result's entry is the user's first stored log
      for that book, and there is no entry when the user has none. */
  lemma StatusMapAgreesWithStore(m: map<string, ReadingLog>, userId: string, results: seq<Book>, logs: seq<ReadingLog>, i: int)
    requires StatusMapFor(m, userId, results, StoreFetch(logs))
    requires 0 <= i < |results|
    ensures results[i].id in m <==> GetReadingLogForBook(logs, userId, results[i].id).Some?
    ensures results[i].id in m ==> Some(m[results[i].id]) == GetReadingLogForBook(logs, userId, results[i].id)
  {
    var id := results[i].id;
    assert StoreFetch(logs)(userId, id) == Success(GetReadingLogForBook(logs, userId, id));
  }

  /** The page's state. */
  class SearchPage {
    var searchResults: seq<Book>
    var booksWithStatus: map<string, ReadingLog>
    var hasSearched: bool

    /** Before any search: no results, no statuses. */
    constructor ()
      ensures searchResults == [] && booksWithStatus == map[] && !hasSearched
    {
      searchResults, booksWithStatus, hasSearched := [], map[], false;
    }

    /** `handleSearchResults`: keeps the results and records that a search happened;
        with a signed-in user it rebuilds the status map, without one it leaves the map
        as it was. */
    method HandleSearchResults(user: Option<User>, results: seq<Book>, fetch: Fetch)
      modifies this
      ensures searchResults == results && hasSearched
      ensures user.None? ==> booksWithStatus == old(booksWithStatus)
      ensures user.Some? ==> StatusMapFor(booksWithStatus, user.value.id, results, fetch)
    {
      searchResults := results;
      hasSearched := true;
      if user.Some? {
        var statusMap := BuildStatusMap(user.value.id, results, fetch);
        booksWithStatus := statusMap;
      }
    }

    /** `getBookWithReadingStatus`: the book with every field kept and its entry of the
        status map attached, or none. */
    function GetBookWithReadingStatus(book: Book): (r: BookWithReadingStatus)
      reads this
      ensures r.book == book
      ensures r.readingLog.Some? <==> book.id in booksWithStatus
      ensures r.readingLog.Some? ==> r.readingLog.value == booksWithStatus[book.id]
    {
      BookWithReadingStatus(book, if book.id in booksWithStatus then Some(booksWithStatus[book.id]) else None)
    }
  }
}
