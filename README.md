# Bookish log space: a verified model of the reading-log store

This project models the core logic of a personal book-tracking web application in
Dafny: the small in-memory record store behind it (user accounts, a book catalogue,
per-user reading logs and a session slot) and the pure rules around it in the forms
and pages. The store is meant to keep at most one reading log per (user, book) pair:
the model proves that adding a status preserves this, and that a patch by id does not
re-check it. It states exactly which records every operation changes, and connects
the pages' joins and filters to the store's queries.

Files, one module each:

- `wrappers.dfy` (`Wrappers`): `Option` and `Result`. `None` stands for `undefined`/`null`
  and `Failure` for a rejected promise.
- `types.dfy` (`Types`): the records `User`, `Book`, `ReadingStatus`, `ReadingLog` and
  `BookWithReadingStatus`, plus the `x || undefined` clean-up of optional strings.
- `seqs.dfy` (`Seqs`): the array operations `findIndex`, `find` and `filter`, with their
  meaning proved.
- `text.dfy` (`Text`): `String.prototype.includes`, proved equal to "occurs at some position".
- `api.dfy` (`Api`): the store as a class `Store` with four sequence/option fields, its
  queries as functions over sequences, and the specification functions `Upserted` and
  `Merge`, with lemmas about them.
- `reading_log_form.dfy` (`ReadingLogForm`): schema, default values, field visibility,
  the `logData` object, the update-or-add choice and the submit step.
- `book_form.dfy` (`BookForm`): schema, optional-field clean-up and the submit step.
- `search_books.dfy` (`SearchBooks`): the status-map loop and the page state.
- `dashboard.dfy` (`Dashboard`): the status tabs and their filter.

Points of the source's behaviour worth knowing:

- `addToReadingLog` replaces an existing (user, book) record with a brand-new record
  carrying a new id, so the replaced id disappears and no old field is kept
  (`UpsertDropsReplacedId`).
- `addBook` validates nothing. Validation lives in the book form (`BookForm.Validate`).
- `searchBooks` returns matches in store order (`SearchKeepsOrder`).
- The join in `getUserBooksWithStatus` builds a `Map` from the book list. When two books
  share an id, the last one wins, while `getBookById` returns the first. The two agree
  whenever book ids are distinct (`JoinAgreesWithGetBookById`).

Fresh ids come in as a parameter `newId`. Each such method requires that no stored
record of that kind already has `newId`, which is what a random UUID is taken to
guarantee. Lower-casing, the URL check and the current year come in as parameters
`toLower`, `isUrl` and `currentYear`.

## Model

| member | source | states |
|---|---|---|
| `Types.ParseStatus` | src/utils/types.ts:17 | a string is a status exactly when it is one of the labels 'Want to Read', 'Reading', 'Read', and it then names that status |
| `Types.OrAbsent` | src/components/books/BookForm.tsx:47-49 | the clean-up of an optional string: the empty string (and only it) becomes absent, every other value is kept |
| `Seqs.FindIndex` | src/utils/api.ts:132-134 | the first index whose element satisfies the condition, or -1 exactly when none does |
| `Seqs.Find` | src/utils/api.ts:177-179 | the first element satisfying the condition, or nothing exactly when none does |
| `Seqs.Filter` | src/utils/api.ts:122 | the result holds only elements of the input that satisfy the condition, and every element that does |
| `Seqs.FilterConcat` | src/utils/api.ts:109-112 | filtering distributes over concatenation, so kept elements stay in their original order |
| `Seqs.FilterCount` | src/pages/Dashboard.tsx:37 | each value satisfying the condition is kept as many times as it occurs; any other value does not occur |
| `Seqs.FilterKeepsAll` | src/utils/api.ts:109-112 | a filter whose condition every element meets returns its input unchanged |
| `Text.IncludesIff` | src/utils/api.ts:110-111 | `includes` holds exactly when some position of the string starts a copy of the query (so the empty query occurs everywhere) |
| `Api.FindAccountByEmail` | src/utils/api.ts:12-13 | returns nothing exactly when no stored account has the e-mail; otherwise the first stored account with that e-mail |
| `Api.FindAccount` | src/utils/api.ts:44-45 | returns nothing exactly when no stored account matches both e-mail and password; otherwise the first stored account that matches both |
| `Api.GetBookById` | src/utils/api.ts:83-89 | null exactly when no book has the id; otherwise the first book with that id |
| `Api.SearchBooks` | src/utils/api.ts:104-116 | returns exactly the stored books whose lowered title or author contains the lowered query, and never more books than are stored |
| `Api.SearchCount` | src/utils/api.ts:109-112 | each matching book appears as often as it is stored, and no other book appears |
| `Api.SearchKeepsOrder` | src/utils/api.ts:109-112 | results come in store order: searching a + b gives the results from a followed by those from b |
| `Api.EmptyQueryMatchesAll` | src/utils/api.ts:107-112 | an empty query returns every stored book, in order |
| `Api.SearchIgnoresQueryCase` | src/utils/api.ts:107 | two queries that lower to the same string return the same books |
| `Api.GetUserReadingLogs` | src/utils/api.ts:119-125 | returns exactly the stored logs whose user id is the given one, never more logs than are stored |
| `Api.UserLogsKeepOrder` | src/utils/api.ts:122 | the user's logs come in store order: the logs of a + b are those of a followed by those of b |
| `Api.UserLogsCount` | src/utils/api.ts:122 | each log of the user appears as often as it is stored, and no other log appears |
| `Api.PairIndex` | src/utils/api.ts:132-134 | the index of the first log for (user, book), or -1 exactly when there is none |
| `Api.GetReadingLogForBook` | src/utils/api.ts:174-183 | null exactly when the user has no log for the book; otherwise the first such log |
| `Api.LogIdIndex` | src/utils/api.ts:159 | the index of the first log with the id, or -1 exactly when no log has it |
| `Api.BooksMap` | src/utils/api.ts:190 | the map has a key exactly for each book id, and maps it to the last book with that id |
| `Api.GetUserBooksWithStatus` | src/utils/api.ts:185-197 | one entry per log of the user, in order, equal to the log apart from the attached book; the book is present exactly when some book has the log's book id, and is then a stored book with that id |
| `Api.JoinAgreesWithGetBookById` | src/utils/api.ts:189-195 | with distinct book ids, the attached book is what `getBookById` returns for the log's book id |
| `Api.Upserted` | src/utils/api.ts:141-149 | the new record is stored at the first index holding the pair, or at the end when none does; the length grows by one only in the latter case; every other index keeps its log |
| `Api.UpsertKeepsUniquePairs` | src/utils/api.ts:131-149 | the upsert preserves "at most one log per (user_id, book_id)" |
| `Api.UpsertThenLookup` | src/utils/api.ts:143-149 | after the upsert, the lookup for the pair returns the new record |
| `Api.UpsertLeavesOtherPairs` | src/utils/api.ts:143-149 | the upsert does not change the lookup of any other (user, book) pair |
| `Api.UpsertDropsReplacedId` | src/utils/api.ts:136-145 | a replaced record's id disappears from the store: the replacement carries the new id, and the number of logs stays the same |
| `Api.UpsertTwice` | src/utils/api.ts:127-154 | two upserts for one pair leave exactly one record for it, the second, and no more records than after the first |
| `Api.Merge` | src/utils/api.ts:166 | the shallow merge, key by key for all nine keys: a present key, even `undefined`, overwrites; an absent key keeps the old value |
| `Api.MergeIdempotent` | src/utils/api.ts:166 | applying the same patch twice equals applying it once |
| `Api.PatchKeepsUniquePairs` | src/utils/api.ts:166-167 | replacing one record by its merge keeps pair uniqueness when the merge keeps that record's user and book |
| `Api.PatchCanBreakUniquePairs` | src/utils/api.ts:156-172 | a patch that moves a log onto another log's book yields two logs for one pair: the update does not re-check uniqueness |
| `Api.Store.constructor` | src/utils/api.ts:12 | the store starts with no accounts, books or logs and no session |
| `Api.Store.SignUp` | src/utils/api.ts:8-38 | a registered e-mail is rejected with the message "User already exists" and nothing changes; otherwise exactly one account with the fresh id is appended, earlier accounts untouched, and the new user is signed in; distinct e-mails and ids are preserved |
| `Api.Store.Login` | src/utils/api.ts:40-61 | the first account matching e-mail and password is signed in; without one, "Invalid credentials" and the session is unchanged; accounts are never changed |
| `Api.Store.GetCurrentUser` | src/utils/api.ts:70-73 | returns the session slot: the signed-in user, or null when nobody is signed in |
| `Api.Store.Logout` | src/utils/api.ts:63-73 | afterwards the current user is null, whatever it was (so a second logout changes nothing) |
| `Api.Store.AddBook` | src/utils/api.ts:91-102 | appends exactly one book made of the given fields and the fresh id, earlier books untouched, no validation; distinct book ids are preserved |
| `Api.Store.AddToReadingLog` | src/utils/api.ts:127-154 | the log list becomes `Upserted` of the old list and the new record with the fresh id; pair uniqueness and distinct log ids are preserved |
| `Api.Store.UpdateReadingLog` | src/utils/api.ts:156-172 | an unknown id is rejected with "Reading log not found" and nothing is written; otherwise only that index changes, to the old record merged with the patch; uniqueness is kept when the merge keeps the pair |
| `ReadingLogForm.ParseForm` | src/components/books/ReadingLogForm.tsx:16-22 | accepted exactly when the status is one of the three labels and a rating, if present, lies in [1, 5]; accepted values are kept as entered |
| `ReadingLogForm.DefaultValues` | src/components/books/ReadingLogForm.tsx:38-50 | with no log: 'Want to Read', no rating, empty dates and notes; with a log: its status, rating and dates, and its notes, or the empty string when it has none |
| `ReadingLogForm.ShowsStartDate` | src/components/books/ReadingLogForm.tsx:142 | the start date is asked for exactly when the status label is 'Reading' or 'Read' |
| `ReadingLogForm.ShowsFinishDateAndRating` | src/components/books/ReadingLogForm.tsx:158 | finish date and rating are asked for exactly when the status label is 'Read', and only when the start date is |
| `ReadingLogForm.LogDataOf` | src/components/books/ReadingLogForm.tsx:61-69 | user id from the session, book id from the prop, status and rating passed through unchanged whatever the status, no empty date or notes, non-empty ones kept |
| `ReadingLogForm.PatchOf` | src/components/books/ReadingLogForm.tsx:74 | the object used as a patch has no id or book key and has every optional key, so absent values overwrite |
| `ReadingLogForm.PatchReplacesAllButIdAndBook` | src/components/books/ReadingLogForm.tsx:61-74 | updating with the form's patch keeps the record's id and attached book and takes every other field from the submission |
| `ReadingLogForm.SubmitUnchangedIsNoOp` | src/components/books/ReadingLogForm.tsx:38-74 | submitting the form unchanged on the user's own log leaves that log as it was, when none of its strings is empty |
| `ReadingLogForm.ChooseSave` | src/components/books/ReadingLogForm.tsx:56-85 | no call without a signed-in user; an update by the existing log's id when there is one; otherwise an add |
| `ReadingLogForm.OnSubmit` | src/components/books/ReadingLogForm.tsx:55-100 | without a user nothing is stored; with no existing log the store's logs become the upsert of the new record; with one, the update's result or its not-found error, which stores nothing |
| `BookForm.Validate` | src/components/books/BookForm.tsx:14-20 | one error per rule: empty title, empty author, a non-empty cover URL failing the URL check, a year outside [1000, current year] |
| `BookForm.Normalize` | src/components/books/BookForm.tsx:46-51 | title and author unchanged; empty genre and cover URL become absent; a zero year becomes absent and any other year is kept |
| `BookForm.AcceptedFormGivesWellFormedBook` | src/components/books/BookForm.tsx:14-51 | an accepted form yields a book with non-empty title and author, no empty optional strings, a checked cover URL, and the entered year within range |
| `BookForm.Submit` | src/components/books/BookForm.tsx:43-53 | a rejected form stores nothing and returns its errors; an accepted one appends exactly the cleaned-up book with the fresh id |
| `SearchBooks.BuildStatusMap` | src/pages/SearchBooks.tsx:27-36 | the map has an entry for a result's id exactly when its lookup found a log, and that entry is the found log; a failed lookup skips only that book |
| `SearchBooks.StatusMapAgreesWithStore` | src/pages/SearchBooks.tsx:29-31 | with the store's own lookup, each result's entry is the user's first stored log for the book, and is absent when there is none |
| `SearchBooks.SearchPage.constructor` | src/pages/SearchBooks.tsx:15-17 | the page starts with no results, an empty status map and no search done |
| `SearchBooks.SearchPage.HandleSearchResults` | src/pages/SearchBooks.tsx:19-40 | results are stored and the page is marked searched; without a user the status map is untouched; with one it is rebuilt as `BuildStatusMap` states |
| `SearchBooks.SearchPage.GetBookWithReadingStatus` | src/pages/SearchBooks.tsx:42-48 | the book is kept whole, and its reading log is the map entry for its id, or absent |
| `Dashboard.TabsAreExhaustive` | src/pages/Dashboard.tsx:60 | every tab value is 'All' or one of the three statuses and is among the tabs; the page starts on 'All'; the tab labels are distinct |
| `Dashboard.FilteredLogs` | src/pages/Dashboard.tsx:35-37 | 'All' returns the logs unchanged; a status tab returns only logs with that status, and every such log |
| `Dashboard.FilteredLogsKeepOrder` | src/pages/Dashboard.tsx:37 | a status tab keeps the original order: filtering a + b gives the logs kept from a followed by those kept from b |
| `Dashboard.FilteredLogsCount` | src/pages/Dashboard.tsx:37 | a status tab shows each log with that status as often as it occurs, and no other log |
| `Dashboard.DashboardShowsOwnLogs` | src/pages/Dashboard.tsx:23-37 | whatever the tab, every log shown belongs to the given user |

## Left out

- Browser storage: the `localStorage`/`sessionStorage` reads and writes and the JSON
  (de)serialisation are replaced by the fields of `Store`. A storage read that throws
  (the `catch`/`reject(error)` paths of `signUp` and `login`) is not modelled.
  The search page's lookup may still fail (`Fetch`), so skipping a failed lookup is covered.
- Promises and `async`/`await`: every operation is a synchronous method or function
  whose rejection is a `Failure` value. Concurrent callers are not modelled, and neither
  are interleaved awaits or completions after a view is gone. This covers the
  check-then-act race between two upserts.
- `crypto.randomUUID`: replaced by the `newId` parameter and a freshness requirement.
- `toLowerCase`, the URL check of the schema library, number coercion and
  `new Date().getFullYear()`: replaced by the parameters `toLower`, `isUrl` and `currentYear`.
  Only integer ratings and years are modelled, so a fractional rating or year is not.
- `Api.LogPatch`: a patch key for a required field (`id`, `user_id`, `book_id`, `status`)
  present with the value `undefined` cannot be expressed.
- `getBooks` is the `Store.books` field itself.
- The blank-query guard of src/components/books/BookSearch.tsx:20 is not a precondition of
  `Api.SearchBooks`. `Api.EmptyQueryMatchesAll` states what an unguarded empty query returns.
- The dashboard's `activeTab` and `readingLogs` state and its fetching effect: the tab
  values are the `Dashboard.Tab` type and the list is `Api.GetUserBooksWithStatus`.
- Toasts, the loading flags, navigation and the `onSuccess` callbacks. `ReadingLogForm.OnSubmit`
  returns the saved log instead of passing it to a callback.
- The form-library plumbing (`watch`, `handleSubmit`): `BookForm.Submit` runs validation
  before the submit step, and `ReadingLogForm.ParseForm` gives the reading-log form's
  schema on its own.
- The book form's initial values (`initialData`).
- Password security: passwords are stored and compared as plain strings.
- The rendering-only pages and components, the authentication context that mirrors the
  session into UI state, and the e-mail/password form schema.
