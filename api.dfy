/** The in-memory record store of src/utils/api.ts: user accounts, the book catalogue,
    reading logs and the session slot, with the queries over them. */
module Api {
  import opened Wrappers
  import opened Types
  import Seqs
  import Text

  /** The ways an operation of the store is rejected. A storage read that throws is
      passed on with the thrown error's message. */
  datatype ApiError = UserAlreadyExists | InvalidCredentials | ReadingLogNotFound | StorageFailure(message: string)

  /** The message each rejection carries. */
  function ErrorMessage(e: ApiError): string {
    match e
    case UserAlreadyExists => "User already exists"
    case InvalidCredentials => "Invalid credentials"
    case ReadingLogNotFound => "Reading log not found"
    case StorageFailure(message) => message
  }

  /** A stored account: the user record plus its password, kept as given. */
  datatype Account = Account(id: string, email: string, name: Option<string>, password: string)

  /** The user record of an account, without the password. */
  function UserOf(a: Account): User {
    User(a.id, a.email, a.name)
  }

  /** The fields of a book that is about to be added (a Book without its `id`). */
  datatype BookData = BookData(
    title: string,
    author: string,
    genre: Option<string>,
    coverImageUrl: Option<string>,
    publicationYear: Option<int>)

  /** `{ ...bookData, id }`. */
  function BookWithId(d: BookData, id: string): Book {
    Book(id, d.title, d.author, d.genre, d.coverImageUrl, d.publicationYear)
  }

  /** The fields of a reading log that is about to be stored (a ReadingLog without its `id`). */
  datatype LogData = LogData(
    userId: string,
    bookId: string,
    status: ReadingStatus,
    rating: Option<int>,
    startDate: Option<string>,
    finishDate: Option<string>,
    notes: Option<string>,
    book: Option<Book>)

  /** `{ ...logData, id }`. */
  function LogWithId(d: LogData, id: string): ReadingLog {
    ReadingLog(id, d.userId, d.bookId, d.status, d.rating, d.startDate, d.finishDate, d.notes, d.book)
  }

  /** A partial reading log. For each key, `None` means the key is not in the patch.
      For an optional field, `Some(None)` means the key is present with the value
      `undefined`, which still overwrites. */
  datatype LogPatch = LogPatch(
    id: Option<string>,
    userId: Option<string>,
    bookId: Option<string>,
    status: Option<ReadingStatus>,
    rating: Option<Option<int>>,
    startDate: Option<Option<string>>,
    finishDate: Option<Option<string>>,
    notes: Option<Option<string>>,
    book: Option<Option<Book>>)

  /** The patch with no keys at all. */
  const EmptyPatch: LogPatch := LogPatch(None, None, None, None, None, None, None, None, None)

  /** Two logs are for the same user and the same book. */
  predicate SamePair(a: ReadingLog, b: ReadingLog) {
    a.userId == b.userId && a.bookId == b.bookId
  }

  /** At most one log per (user, book) pair. */
  ghost predicate UniquePairs(logs: seq<ReadingLog>) {
    forall i, j :: 0 <= i < j < |logs| ==> !SamePair(logs[i], logs[j])
  }

  ghost predicate DistinctEmails(users: seq<Account>) {
    forall i, j :: 0 <= i < j < |users| ==> users[i].email != users[j].email
  }

  ghost predicate DistinctUserIds(users: seq<Account>) {
    forall i, j :: 0 <= i < j < |users| ==> users[i].id != users[j].id
  }

  ghost predicate DistinctBookIds(books: seq<Book>) {
    forall i, j :: 0 <= i < j < |books| ==> books[i].id != books[j].id
  }

  ghost predicate DistinctLogIds(logs: seq<ReadingLog>) {
    forall i, j :: 0 <= i < j < |logs| ==> logs[i].id != logs[j].id
  }

  // ---------------------------------------------------------------- accounts

  /** The first account registered under `email`. */
  function FindAccountByEmail(users: seq<Account>, email: string): (r: Option<Account>)
    ensures r.None? <==> forall i :: 0 <= i < |users| ==> users[i].email != email
    ensures r.Some? ==> exists i :: 0 <= i < |users| && users[i] == r.value && r.value.email == email
                                    && forall j :: 0 <= j < i ==> users[j].email != email
  {
    Seqs.Find(users, (a: Account) => a.email == email)
  }

  /** The first account whose e-mail and password both match exactly. */
  function FindAccount(users: seq<Account>, email: string, password: string): (r: Option<Account>)
    ensures r.None? <==> forall i :: 0 <= i < |users| ==> !(users[i].email == email && users[i].password == password)
    ensures r.Some? ==> exists i :: 0 <= i < |users| && users[i] == r.value
                                    && r.value.email == email && r.value.password == password
                                    && forall j :: 0 <= j < i ==> !(users[j].email == email && users[j].password == password)
  {
    Seqs.Find(users, (a: Account) => a.email == email && a.password == password)
  }

  // ------------------------------------------------------------------- books

  /** `getBookById`: the first book with this id, or nothing (not an error). */
  function GetBookById(books: seq<Book>, id: string): (r: Option<Book>)
    ensures r.None? <==> forall i :: 0 <= i < |books| ==> books[i].id != id
    ensures r.Some? ==> exists i :: 0 <= i < |books| && books[i] == r.value && r.value.id == id
                                    && forall j :: 0 <= j < i ==> books[j].id != id
  {
    Seqs.Find(books, (b: Book) => b.id == id)
  }

  /** The search condition: the lowered query occurs in the lowered title or the
      lowered author. `toLower` stands for `String.prototype.toLowerCase`. */
  predicate Matches(b: Book, query: string, toLower: string -> string) {
    Text.Includes(toLower(b.title), toLower(query)) || Text.Includes(toLower(b.author), toLower(query))
  }

  /** `searchBooks`: the stored books that match, in store order. */
  function SearchBooks(books: seq<Book>, query: string, toLower: string -> string): (r: seq<Book>)
    ensures |r| <= |books|
    ensures forall i :: 0 <= i < |r| ==> r[i] in books && Matches(r[i], query, toLower)
    ensures forall i :: 0 <= i < |books| && Matches(books[i], query, toLower) ==> books[i] in r
  {
    Seqs.Filter(books, (b: Book) => Matches(b, query, toLower))
  }

  /** Searching a catalogue made of two parts gives the results of the first part
      followed by those of the second: results keep the store order. */
  lemma SearchKeepsOrder(a: seq<Book>, b: seq<Book>, query: string, toLower: string -> string)
    ensures SearchBooks(a + b, query, toLower) == SearchBooks(a, query, toLower) + SearchBooks(b, query, toLower)
  {
    Seqs.FilterConcat(a, b, (x: Book) => Matches(x, query, toLower));
  }

  /** Each matching book appears as often as it is stored, and no other book appears. */
  lemma SearchCount(books: seq<Book>, query: string, toLower: string -> string, x: Book)
    ensures multiset(SearchBooks(books, query, toLower))[x] == if Matches(x, query, toLower) then multiset(books)[x] else 0
  {
    Seqs.FilterCount(books, (b: Book) => Matches(b, query, toLower), x);
  }

  /** An empty query matches every book, since the empty string occurs in every string. */
  lemma EmptyQueryMatchesAll(books: seq<Book>, toLower: string -> string)
    requires toLower("") == ""
    ensures SearchBooks(books, "", toLower) == books
  {
    Seqs.FilterKeepsAll(books, (x: Book) => Matches(x, "", toLower));
  }

  /** The search ignores case: two queries that lower to the same string find the
      same books. */
  lemma SearchIgnoresQueryCase(books: seq<Book>, q1: string, q2: string, toLower: string -> string)
    requires toLower(q1) == toLower(q2)
    ensures SearchBooks(books, q1, toLower) == SearchBooks(books, q2, toLower)
  {
    Seqs.FilterSameCondition(books, (x: Book) => Matches(x, q1, toLower), (x: Book) => Matches(x, q2, toLower));
  }

  // ------------------------------------------------------------ reading logs

  /** `getUserReadingLogs`: the logs of one user, in store order. */
  function GetUserReadingLogs(logs: seq<ReadingLog>, userId: string): (r: seq<ReadingLog>)
    ensures |r| <= |logs|
    ensures forall i :: 0 <= i < |r| ==> r[i] in logs && r[i].userId == userId
    ensures forall i :: 0 <= i < |logs| && logs[i].userId == userId ==> logs[i] in r
  {
    Seqs.Filter(logs, (l: ReadingLog) => l.userId == userId)
  }

  /** A user's logs come in store order: the logs of a + b are those of a followed
      by those of b. */
  lemma UserLogsKeepOrder(a: seq<ReadingLog>, b: seq<ReadingLog>, userId: string)
    ensures GetUserReadingLogs(a + b, userId) == GetUserReadingLogs(a, userId) + GetUserReadingLogs(b, userId)
  {
    Seqs.FilterConcat(a, b, (l: ReadingLog) => l.userId == userId);
  }

  /** Each log of the user appears as often as it is stored, and no other log appears. */
  lemma UserLogsCount(logs: seq<ReadingLog>, userId: string, x: ReadingLog)
    ensures multiset(GetUserReadingLogs(logs, userId))[x] == if x.userId == userId then multiset(logs)[x] else 0
  {
    Seqs.FilterCount(logs, (l: ReadingLog) => l.userId == userId, x);
  }

  /** The index of the first log for (userId, bookId), or -1. */
  function PairIndex(logs: seq<ReadingLog>, userId: string, bookId: string): (r: int)
    ensures -1 <= r < |logs|
    ensures r == -1 <==> forall i :: 0 <= i < |logs| ==> !(logs[i].userId == userId && logs[i].bookId == bookId)
    ensures 0 <= r ==> logs[r].userId == userId && logs[r].bookId == bookId
    ensures 0 <= r ==> forall i :: 0 <= i < r ==> !(logs[i].userId == userId && logs[i].bookId == bookId)
  {
    Seqs.FindIndex(logs, (l: ReadingLog) => l.userId == userId && l.bookId == bookId)
  }

  /** `getReadingLogForBook`: the first log for (userId, bookId), or nothing. */
  function GetReadingLogForBook(logs: seq<ReadingLog>, userId: string, bookId: string): (r: Option<ReadingLog>)
    ensures r.None? <==> PairIndex(logs, userId, bookId) == -1
    ensures r.Some? ==> r.value == logs[PairIndex(logs, userId, bookId)]
  {
    Seqs.Find(logs, (l: ReadingLog) => l.userId == userId && l.bookId == bookId)
  }

  /** The index of the first log with this id, or -1. */
  function LogIdIndex(logs: seq<ReadingLog>, id: string): (r: int)
    ensures -1 <= r < |logs|
    ensures r == -1 <==> forall i :: 0 <= i < |logs| ==> logs[i].id != id
    ensures 0 <= r ==> logs[r].id == id && forall i :: 0 <= i < r ==> logs[i].id != id
  {
    Seqs.FindIndex(logs, (l: ReadingLog) => l.id == id)
  }

  /** `new Map(books.map(b => [b.id, b]))`: later entries overwrite earlier ones, so
      each id maps to the LAST book carrying it. */
  function BooksMap(books: seq<Book>): (m: map<string, Book>)
    ensures forall id :: id in m <==> exists i :: 0 <= i < |books| && books[i].id == id
    ensures forall id :: id in m ==> exists i :: 0 <= i < |books| && books[i] == m[id] && m[id].id == id
                                                  && forall j :: i < j < |books| ==> books[j].id != id
    decreases |books|
  {
    if |books| == 0 then map[]
    else
      var last := books[|books| - 1];
      var m := BooksMap(books[..|books| - 1]);
      m[last.id := last]
  }

  /** The book attached to a log by the join, looked up in the id map. */
  function AttachBook(log: ReadingLog, m: map<string, Book>): ReadingLog {
    log.(book := if log.bookId in m then Some(m[log.bookId]) else None)
  }

  /** `getUserBooksWithStatus`: each log of the user, in store order, with the book
      whose id is the log's book id attached, or no book when none has it. */
  function GetUserBooksWithStatus(logs: seq<ReadingLog>, books: seq<Book>, userId: string): (r: seq<ReadingLog>)
    ensures |r| == |GetUserReadingLogs(logs, userId)|
    ensures forall i :: 0 <= i < |r| ==> r[i].(book := None) == GetUserReadingLogs(logs, userId)[i].(book := None)
    ensures forall i :: 0 <= i < |r| ==> (r[i].book.Some? <==> exists j :: 0 <= j < |books| && books[j].id == r[i].bookId)
    ensures forall i :: 0 <= i < |r| && r[i].book.Some? ==> r[i].book.value in books && r[i].book.value.id == r[i].bookId
  {
    var userLogs := GetUserReadingLogs(logs, userId);
    var m := BooksMap(books);
    seq(|userLogs|, i requires 0 <= i < |userLogs| => AttachBook(userLogs[i], m))
  }

  /** When book ids are distinct, the join attaches exactly the book `getBookById`
      returns for the log's book id. */
  lemma JoinAgreesWithGetBookById(logs: seq<ReadingLog>, books: seq<Book>, userId: string, i: int)
    requires DistinctBookIds(books)
    requires 0 <= i < |GetUserBooksWithStatus(logs, books, userId)|
    ensures var r := GetUserBooksWithStatus(logs, books, userId);
            r[i].book == GetBookById(books, r[i].bookId)
  {
    var r := GetUserBooksWithStatus(logs, books, userId);
    var id := r[i].bookId;
    var found := GetBookById(books, id);
    if r[i].book.Some? {
      var k :| 0 <= k < |books| && books[k] == r[i].book.value;
      var j :| 0 <= j < |books| && books[j] == found.value
               && forall j' :: 0 <= j' < j ==> books[j'].id != id;
      assert j == k;
    }
  }

  // ---------------------------------------------------------------- upsert

  /** The catalogue of logs after `addToReadingLog` stored `log`: the first log for the
      same (user, book) is replaced at its index, or `log` is appended. */
  function Upserted(logs: seq<ReadingLog>, log: ReadingLog): (r: seq<ReadingLog>)
    ensures log in r
    ensures |r| == if PairIndex(logs, log.userId, log.bookId) < 0 then |logs| + 1 else |logs|
    ensures forall j :: 0 <= j < |logs| && j != PairIndex(logs, log.userId, log.bookId) ==> r[j] == logs[j]
    ensures var k := PairIndex(logs, log.userId, log.bookId);
            if k >= 0 then r[k] == log else r[|logs|] == log
  {
    var k := PairIndex(logs, log.userId, log.bookId);
    if k >= 0 then
      assert logs[k := log][k] == log;
      logs[k := log]
    else
      assert (logs + [log])[|logs|] == log;
      logs + [log]
  }

  /** The upsert keeps "at most one log per (user, book)". */
  lemma UpsertKeepsUniquePairs(logs: seq<ReadingLog>, log: ReadingLog)
    requires UniquePairs(logs)
    ensures UniquePairs(Upserted(logs, log))
  {
    var k := PairIndex(logs, log.userId, log.bookId);
    var r := Upserted(logs, log);
    forall i, j | 0 <= i < j < |r| ensures !SamePair(r[i], r[j]) {
      if k < 0 && j == |logs| {
        assert r[j] == log && r[i] == logs[i];
      } else if k >= 0 && (i == k || j == k) {
        assert SamePair(logs[k], log);
      }
    }
  }

  /** Right after the upsert, looking the pair up finds the stored record. */
  lemma UpsertThenLookup(logs: seq<ReadingLog>, log: ReadingLog)
    ensures GetReadingLogForBook(Upserted(logs, log), log.userId, log.bookId) == Some(log)
  {
    var k := PairIndex(logs, log.userId, log.bookId);
    var r := Upserted(logs, log);
    var at := if k >= 0 then k else |logs|;
    assert r[at] == log;
    assert forall i :: 0 <= i < at ==> r[i] == logs[i];
    assert PairIndex(r, log.userId, log.bookId) == at;
  }

  /** The upsert does not change what any other (user, book) pair looks up. */
  lemma UpsertLeavesOtherPairs(logs: seq<ReadingLog>, log: ReadingLog, userId: string, bookId: string)
    requires !(userId == log.userId && bookId == log.bookId)
    ensures GetReadingLogForBook(Upserted(logs, log), userId, bookId) == GetReadingLogForBook(logs, userId, bookId)
  {
    var r := Upserted(logs, log);
    var k := PairIndex(logs, userId, bookId);
    var k' := PairIndex(r, userId, bookId);
    var m := PairIndex(logs, log.userId, log.bookId);
    forall i | 0 <= i < |r| && i != m && i < |logs| ensures r[i] == logs[i] { }
    if k >= 0 {
      assert k' == k;
    } else {
      assert k' == -1;
    }
  }

  /** A replaced record does not keep its id: the new record carries its own, fresh id,
      and the old id is no longer in the store. */
  lemma UpsertDropsReplacedId(logs: seq<ReadingLog>, log: ReadingLog)
    requires DistinctLogIds(logs)
    requires forall i :: 0 <= i < |logs| ==> logs[i].id != log.id
    requires 0 <= PairIndex(logs, log.userId, log.bookId)
    ensures var old_ := logs[PairIndex(logs, log.userId, log.bookId)];
            var r := Upserted(logs, log);
            |r| == |logs| && forall i :: 0 <= i < |r| ==> r[i].id != old_.id
  {
    var k := PairIndex(logs, log.userId, log.bookId);
    var r := Upserted(logs, log);
    forall i | 0 <= i < |r| ensures r[i].id != logs[k].id {
      if i != k {
        assert r[i] == logs[i];
        if i < k { assert logs[i].id != logs[k].id; } else { assert logs[k].id != logs[i].id; }
      }
    }
  }

  /** Setting a status twice for the same (user, book) leaves one record for that
      pair, the second one, in the same number of records as after the first. */
  lemma UpsertTwice(logs: seq<ReadingLog>, first: ReadingLog, second: ReadingLog)
    requires UniquePairs(logs)
    requires SamePair(first, second)
    ensures var mid := Upserted(logs, first);
            var r := Upserted(mid, second);
            |r| == |mid| && second in r && (forall i :: 0 <= i < |r| && SamePair(r[i], second) ==> r[i] == second)
  {
    var mid := Upserted(logs, first);
    UpsertKeepsUniquePairs(logs, first);
    UpsertKeepsUniquePairs(mid, second);
    UpsertThenLookup(logs, first);
    var r := Upserted(mid, second);
    UpsertThenLookup(mid, second);
    var k := PairIndex(r, second.userId, second.bookId);
    assert r[k] == second;
    forall i | 0 <= i < |r| && SamePair(r[i], second) ensures r[i] == second {
      assert SamePair(r[i], r[k]);
    }
  }

  // ----------------------------------------------------------------- patch

  /** `{ ...log, ...patch }`: every key present in the patch overwrites, even with
      `undefined`; every absent key keeps the old value. */
  function Merge(log: ReadingLog, patch: LogPatch): (r: ReadingLog)
    ensures patch == EmptyPatch ==> r == log
    ensures patch.userId.None? && patch.bookId.None? ==> SamePair(r, log)
    ensures r.id == if patch.id.Some? then patch.id.value else log.id
    ensures r.userId == if patch.userId.Some? then patch.userId.value else log.userId
    ensures r.bookId == if patch.bookId.Some? then patch.bookId.value else log.bookId
    ensures r.status == if patch.status.Some? then patch.status.value else log.status
    ensures r.rating == if patch.rating.Some? then patch.rating.value else log.rating
    ensures r.startDate == if patch.startDate.Some? then patch.startDate.value else log.startDate
    ensures r.finishDate == if patch.finishDate.Some? then patch.finishDate.value else log.finishDate
    ensures r.notes == if patch.notes.Some? then patch.notes.value else log.notes
    ensures r.book == if patch.book.Some? then patch.book.value else log.book
  {
    ReadingLog(
      patch.id.GetOr(log.id),
      patch.userId.GetOr(log.userId),
      patch.bookId.GetOr(log.bookId),
      patch.status.GetOr(log.status),
      patch.rating.GetOr(log.rating),
      patch.startDate.GetOr(log.startDate),
      patch.finishDate.GetOr(log.finishDate),
      patch.notes.GetOr(log.notes),
      patch.book.GetOr(log.book))
  }

  /** Applying the same patch twice is applying it once. */
  lemma MergeIdempotent(log: ReadingLog, patch: LogPatch)
    ensures Merge(Merge(log, patch), patch) == Merge(log, patch)
  {
  }

  /** A patch that leaves the record's user and book as they were keeps
      "at most one log per (user, book)". */
  lemma PatchKeepsUniquePairs(logs: seq<ReadingLog>, k: int, patch: LogPatch)
    requires UniquePairs(logs)
    requires 0 <= k < |logs|
    requires SamePair(Merge(logs[k], patch), logs[k])
    ensures UniquePairs(logs[k := Merge(logs[k], patch)])
  {
    var r := logs[k := Merge(logs[k], patch)];
    forall i, j | 0 <= i < j < |r| ensures !SamePair(r[i], r[j]) {
      assert !SamePair(logs[i], logs[j]);
    }
  }

  /** A patch that moves a record onto another record's book breaks the uniqueness:
      the patch does not re-check it. */
  lemma PatchCanBreakUniquePairs()
    ensures var a := ReadingLog("a", "u", "b1", WantToRead, None, None, None, None, None);
            var b := ReadingLog("b", "u", "b2", Read, None, None, None, None, None);
            var patch := EmptyPatch.(bookId := Some("b1"));
            UniquePairs([a, b]) && !UniquePairs([a, b][1 := Merge(b, patch)])
  {
    var a := ReadingLog("a", "u", "b1", WantToRead, None, None, None, None, None);
    var b := ReadingLog("b", "u", "b2", Read, None, None, None, None, None);
    var r := [a, b][1 := Merge(b, EmptyPatch.(bookId := Some("b1")))];
    assert SamePair(r[0], r[1]);
  }

  // ------------------------------------------------------------------ store

  /** The four stored values: accounts, books, reading logs and the session. */
  class Store {
    var users: seq<Account>
    var books: seq<Book>
    var readingLogs: seq<ReadingLog>
    var currentUser: Option<User>

    /** An empty store: every list empty and nobody signed in. */
    constructor ()
      ensures users == [] && books == [] && readingLogs == [] && currentUser == None
    {
      users, books, readingLogs, currentUser := [], [], [], None;
    }

    /** `signUp`: rejects an e-mail that is already registered; otherwise registers a
        new account with the fresh id `newId` and signs it in. */
    method SignUp(email: string, password: string, newId: string) returns (r: Result<User, ApiError>)
      requires forall i :: 0 <= i < |users| ==> users[i].id != newId
      modifies this`users, this`currentUser
      ensures FindAccountByEmail(old(users), email).Some? ==>
                r == Failure(UserAlreadyExists) && users == old(users) && currentUser == old(currentUser)
      ensures r.Failure? ==> ErrorMessage(r.error) == "User already exists"
      ensures FindAccountByEmail(old(users), email).None? ==>
                && r == Success(User(newId, email, None))
                && users == old(users) + [Account(newId, email, None, password)]
                && currentUser == Some(r.value)
      ensures DistinctEmails(old(users)) ==> DistinctEmails(users)
      ensures DistinctUserIds(old(users)) ==> DistinctUserIds(users)
    {
      var existing := FindAccountByEmail(users, email);
      if existing.Some? {
        return Failure(UserAlreadyExists);
      }
      var newUser := User(newId, email, None);
      users := users + [Account(newId, email, None, password)];
      currentUser := Some(newUser);
      r := Success(newUser);
    }

    /** `login`: signs in the first account whose e-mail and password both match; the
        accounts are never changed. */
    method Login(email: string, password: string) returns (r: Result<User, ApiError>)
      modifies this`currentUser
      ensures users == old(users)
      ensures FindAccount(users, email, password).None? ==>
                r == Failure(InvalidCredentials) && currentUser == old(currentUser)
      ensures r.Failure? ==> ErrorMessage(r.error) == "Invalid credentials"
      ensures FindAccount(users, email, password).Some? ==>
                r == Success(UserOf(FindAccount(users, email, password).value)) && currentUser == Some(r.value)
    {
      var account := FindAccount(users, email, password);
      if account.None? {
        return Failure(InvalidCredentials);
      }
      var userData := UserOf(account.value);
      currentUser := Some(userData);
      r := Success(userData);
    }

    /** `logout`: clears the session slot, whatever was in it. */
    method Logout()
      modifies this`currentUser
      ensures GetCurrentUser() == None
    {
      currentUser := None;
    }

    /** `getCurrentUser`: the signed-in user, or nothing. */
    function GetCurrentUser(): (r: Option<User>)
      reads this
      ensures r == currentUser
    {
      currentUser
    }

    /** `addBook`: appends the given fields under the fresh id `newId`; no validation. */
    method AddBook(data: BookData, newId: string) returns (b: Book)
      requires forall i :: 0 <= i < |books| ==> books[i].id != newId
      modifies this`books
      ensures b == BookWithId(data, newId)
      ensures books == old(books) + [b]
      ensures DistinctBookIds(old(books)) ==> DistinctBookIds(books)
    {
      b := BookWithId(data, newId);
      books := books + [b];
    }

    /** `addToReadingLog`: stores a brand-new record with the fresh id `newId`, in place
        of the first record for the same (user, book), or at the end. */
    method AddToReadingLog(data: LogData, newId: string) returns (log: ReadingLog)
      requires forall i :: 0 <= i < |readingLogs| ==> readingLogs[i].id != newId
      modifies this`readingLogs
      ensures log == LogWithId(data, newId)
      ensures readingLogs == Upserted(old(readingLogs), log)
      ensures UniquePairs(old(readingLogs)) ==> UniquePairs(readingLogs)
      ensures DistinctLogIds(old(readingLogs)) ==> DistinctLogIds(readingLogs)
    {
      var existingLogIndex := PairIndex(readingLogs, data.userId, data.bookId);
      log := LogWithId(data, newId);
      ghost var before := readingLogs;
      if existingLogIndex >= 0 {
        readingLogs := readingLogs[existingLogIndex := log];
      } else {
        readingLogs := readingLogs + [log];
      }
      if UniquePairs(before) {
        UpsertKeepsUniquePairs(before, log);
      }
    }

    /** `updateReadingLog`: rejects an id no record has, writing nothing; otherwise
        replaces that record by the record merged with the patch. */
    method UpdateReadingLog(id: string, patch: LogPatch) returns (r: Result<ReadingLog, ApiError>)
      modifies this`readingLogs
      ensures LogIdIndex(old(readingLogs), id) == -1 ==>
                r == Failure(ReadingLogNotFound) && readingLogs == old(readingLogs)
      ensures r.Failure? ==> ErrorMessage(r.error) == "Reading log not found"
      ensures var k := LogIdIndex(old(readingLogs), id);
              k >= 0 ==> r == Success(Merge(old(readingLogs)[k], patch)) && readingLogs == old(readingLogs)[k := r.value]
      ensures var k := LogIdIndex(old(readingLogs), id);
              k >= 0 && UniquePairs(old(readingLogs)) && SamePair(r.value, old(readingLogs)[k]) ==> UniquePairs(readingLogs)
    {
      var logIndex := LogIdIndex(readingLogs, id);
      if logIndex == -1 {
        return Failure(ReadingLogNotFound);
      }
      var updatedLog := Merge(readingLogs[logIndex], patch);
      if UniquePairs(readingLogs) && SamePair(updatedLog, readingLogs[logIndex]) {
        PatchKeepsUniquePairs(readingLogs, logIndex, patch);
      }
      readingLogs := readingLogs[logIndex := updatedLog];
      r := Success(updatedLog);
    }
  }
}
