/** The library page of src/pages/Dashboard.tsx: the user's joined logs, filtered by
    the selected status tab. */
module Dashboard {
  import opened Types
  import opened Api
  import Seqs

  /** A tab: all logs, or the logs with one status. */
  datatype Tab = All | Only(status: ReadingStatus)

  /** The tabs in display order. */
  const Tabs: seq<Tab> := [All, Only(WantToRead), Only(Reading), Only(Read)]

  /** The tab selected when the page opens. */
  const InitialTab: Tab := All

  /** The text of a tab, which is also its value in the source. */
  function TabLabel(t: Tab): string {
    match t
    case All => "All"
    case Only(s) => StatusLabel(s)
  }

  /** Every tab value appears once among the tabs, the page starts on the first, and
      the tab labels are pairwise distinct. */
  lemma TabsAreExhaustive(t: Tab)
    ensures t in Tabs && InitialTab == Tabs[0]
    ensures forall i, j :: 0 <= i < j < |Tabs| ==> TabLabel(Tabs[i]) != TabLabel(Tabs[j])
  {
    match t
    case All =>
    case Only(s) => assert Only(s) == Tabs[if s == WantToRead then 1 else if s == Reading then 2 else 3];
  }

  /** `filteredLogs`: everything on 'All', otherwise the logs with the tab's status. */
  function FilteredLogs(logs: seq<ReadingLog>, tab: Tab): (r: seq<ReadingLog>)
    ensures tab == All ==> r == logs
    ensures tab.Only? ==> forall i :: 0 <= i < |r| ==> r[i] in logs && r[i].status == tab.status
    ensures tab.Only? ==> forall i :: 0 <= i < |logs| && logs[i].status == tab.status ==> logs[i] in r
  {
    match tab
    case All => logs
    case Only(s) => Seqs.Filter(logs, (l: ReadingLog) => l.status == s)
  }

  /** A status tab keeps the original order: filtering a + b shows the logs kept from
      a followed by those kept from b. */
  lemma FilteredLogsKeepOrder(a: seq<ReadingLog>, b: seq<ReadingLog>, s: ReadingStatus)
    ensures FilteredLogs(a + b, Only(s)) == FilteredLogs(a, Only(s)) + FilteredLogs(b, Only(s))
  {
    Seqs.FilterConcat(a, b, (l: ReadingLog) => l.status == s);
  }

  /** A status tab shows each log with that status as many times as it occurs, and
      no other log. */
  lemma FilteredLogsCount(logs: seq<ReadingLog>, s: ReadingStatus, x: ReadingLog)
    ensures multiset(FilteredLogs(logs, Only(s)))[x] == if x.status == s then multiset(logs)[x] else 0
  {
    Seqs.FilterCount(logs, (l: ReadingLog) => l.status == s, x);
  }

  /** Whatever the tab, the page shows only the signed-in user's own logs. */
  lemma DashboardShowsOwnLogs(logs: seq<ReadingLog>, books: seq<Book>, userId: string, tab: Tab)
    ensures var r := FilteredLogs(GetUserBooksWithStatus(logs, books, userId), tab);
            forall i :: 0 <= i < |r| ==> r[i].userId == userId
  {
    var joined := GetUserBooksWithStatus(logs, books, userId);
    var userLogs := GetUserReadingLogs(logs, userId);
    assert forall i :: 0 <= i < |joined| ==> joined[i].userId == userLogs[i].userId;
  }
}
