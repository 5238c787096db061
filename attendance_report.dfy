/**
 * The admin "Attendance Report" view: the rows fetched from the server, the
 * client-side date-range filter and text search over them, and the guarded
 * page change.  Instants are milliseconds since the epoch.
 */
module AttendanceReport {
  import opened Common
  import Strings

  /** One report row, with its check-in and check-out instants. */
  datatype Record = Record(teacher: string, level: string, section: string, checkIn: int, checkOut: int)

  /** The range chosen in the date picker; both bounds are instants. */
  datatype DateRange = DateRange(startDate: int, endDate: int)

  const DayMs: int := 86_400_000

  /** The view asks for, and pages over, five rows at a time. */
  const ItemsPerPage: nat := 5

  /** The start of the calendar day that contains instant `t`. */
  function Midnight(t: int): (m: int)
    ensures m <= t < m + DayMs
    ensures m % DayMs == 0
  {
    t - t % DayMs
  }

  /** The row's check-in day, with the time of day cut away, lies within the range, both ends included. */
  predicate InDateRange(x: Record, range: DateRange) {
    range.startDate <= Midnight(x.checkIn) && Midnight(x.checkIn) <= range.endDate
  }

  /** `filterDataByDateRange`: keeps exactly the rows whose check-in day lies in the range, in order. */
  function FilterByDateRange(data: seq<Record>, range: DateRange): (r: seq<Record>)
    ensures IsSubsequence(r, data)
    ensures forall x :: x in r <==> x in data && range.startDate <= Midnight(x.checkIn) <= range.endDate
    ensures forall x :: (multiset(r)[x] ==
      if range.startDate <= Midnight(x.checkIn) <= range.endDate then multiset(data)[x] else 0)
  {
    Filter(data, x => InDateRange(x, range))
  }

  /**
   * With bounds at midnight, as the picker produces them, the filter is an
   * inclusive range of whole days: a row matches iff it was checked in at or
   * after the start day began and before the end day was over.
   */
  lemma MidnightBoundsAreWholeDays(x: Record, range: DateRange)
    requires range.startDate % DayMs == 0 && range.endDate % DayMs == 0
    ensures InDateRange(x, range) <==> range.startDate <= x.checkIn < range.endDate + DayMs
  {
    var m := Midnight(x.checkIn);
    if range.startDate <= x.checkIn && m < range.startDate {
      MultiplesApart(range.startDate, m);
    }
    if x.checkIn < range.endDate + DayMs && range.endDate < m {
      MultiplesApart(m, range.endDate);
    }
  }

  /** Two different multiples of a day are at least a day apart. */
  lemma MultiplesApart(a: int, b: int)
    requires a % DayMs == 0 && b % DayMs == 0 && b < a
    ensures b + DayMs <= a
  {
    assert a == (a / DayMs) * DayMs && b == (b / DayMs) * DayMs;
    assert a / DayMs > b / DayMs;
  }

  /** A single-day range `[d, d]` keeps a row of day `d` and drops rows of the days before and after. */
  lemma SingleDayRange(d: int, x: Record)
    requires d % DayMs == 0
    ensures d <= x.checkIn < d + DayMs ==> InDateRange(x, DateRange(d, d))
    ensures d - DayMs <= x.checkIn < d ==> !InDateRange(x, DateRange(d, d))
    ensures d + DayMs <= x.checkIn < d + 2 * DayMs ==> !InDateRange(x, DateRange(d, d))
  {
    MidnightBoundsAreWholeDays(x, DateRange(d, d));
  }

  /**
   * The initial range is `[now, now]` with the time of day included; unless
   * `now` is exactly a midnight, no check-in day can equal it, so that range
   * keeps no row at all.
   */
  lemma InstantRangeKeepsNothing(data: seq<Record>, now: int)
    requires now % DayMs != 0
    ensures FilterByDateRange(data, DateRange(now, now)) == []
  {
    forall x | x in data ensures !InDateRange(x, DateRange(now, now)) {
      var m := Midnight(x.checkIn);
      assert m % DayMs == 0;
      assert m != now;
    }
    FilterKeepsNone(data, x => InDateRange(x, DateRange(now, now)));
  }

  /** The text search of one row: both lower-cased fields contain the lower-cased search text. */
  predicate MatchesSearch(x: Record, searchTeacher: string, searchLevel: string) {
    Strings.Contains(Strings.ToLower(x.teacher), Strings.ToLower(searchTeacher)) &&
    Strings.Contains(Strings.ToLower(x.level), Strings.ToLower(searchLevel))
  }

  /** `handleSearch`: keeps exactly the rows matching both search texts, case-insensitively, in order. */
  function Search(data: seq<Record>, searchTeacher: string, searchLevel: string): (r: seq<Record>)
    ensures IsSubsequence(r, data)
    ensures forall x :: x in r <==> (x in data &&
      Strings.Contains(Strings.ToLower(x.teacher), Strings.ToLower(searchTeacher)) &&
      Strings.Contains(Strings.ToLower(x.level), Strings.ToLower(searchLevel)))
    ensures forall x :: (multiset(r)[x] ==
      if Strings.Contains(Strings.ToLower(x.teacher), Strings.ToLower(searchTeacher)) &&
         Strings.Contains(Strings.ToLower(x.level), Strings.ToLower(searchLevel))
      then multiset(data)[x] else 0)
  {
    Filter(data, x => MatchesSearch(x, searchTeacher, searchLevel))
  }

  /** A row matches the search iff the lower-cased search texts occur at some position of its lower-cased fields. */
  lemma MatchesSearchIffOccurs(x: Record, searchTeacher: string, searchLevel: string)
    ensures MatchesSearch(x, searchTeacher, searchLevel) <==>
      (exists k :: Strings.OccursAt(Strings.ToLower(x.teacher), Strings.ToLower(searchTeacher), k)) &&
      (exists k :: Strings.OccursAt(Strings.ToLower(x.level), Strings.ToLower(searchLevel), k))
  {
    Strings.ContainsIffWindow(Strings.ToLower(x.teacher), Strings.ToLower(searchTeacher));
    Strings.ContainsIffWindow(Strings.ToLower(x.level), Strings.ToLower(searchLevel));
  }

  /** With both search boxes empty the search keeps every row. */
  lemma EmptySearchKeepsAll(data: seq<Record>)
    ensures Search(data, "", "") == data
  {
    forall x | x in data ensures MatchesSearch(x, "", "") {
      Strings.ContainsEmpty(Strings.ToLower(x.teacher));
      Strings.ContainsEmpty(Strings.ToLower(x.level));
    }
    FilterKeepsAll(data, x => MatchesSearch(x, "", ""));
  }

  /** The search ignores letter case in the search texts. */
  lemma SearchIgnoresCase(data: seq<Record>, t1: string, t2: string, l1: string, l2: string)
    requires Strings.ToLower(t1) == Strings.ToLower(t2) && Strings.ToLower(l1) == Strings.ToLower(l2)
    ensures Search(data, t1, l1) == Search(data, t2, l2)
  {
    FilterAgrees(data, x => MatchesSearch(x, t1, l1), x => MatchesSearch(x, t2, l2));
  }

  /** `Math.ceil(n / itemsPerPage)`: the number of pages that `n` rows fill. */
  function PageCount(n: nat): (k: nat)
    ensures k * ItemsPerPage >= n
    ensures k == 0 || (k - 1) * ItemsPerPage < n
  {
    (n + ItemsPerPage - 1) / ItemsPerPage
  }

  /** The guard of `paginate`: the page number lies between 1 and the page count. */
  predicate PageAccepted(pageNumber: int, count: nat) {
    pageNumber > 0 && pageNumber <= PageCount(count)
  }

  /** A page number is accepted iff that page of the list holds at least one row. */
  lemma PageAcceptedIffPageHasRows(pageNumber: int, count: nat)
    ensures PageAccepted(pageNumber, count) <==> 1 <= pageNumber && (pageNumber - 1) * ItemsPerPage < count
  {
    var k := PageCount(count);
    if 1 <= pageNumber && (pageNumber - 1) * ItemsPerPage < count {
      assert (pageNumber - 1) * ItemsPerPage < k * ItemsPerPage;
    }
    if PageAccepted(pageNumber, count) {
      assert (pageNumber - 1) * ItemsPerPage <= (k - 1) * ItemsPerPage;
    }
  }

  /**
   * The view holds the rows of one server page (the request carries
   * `limit: 5`); with at most five rows no page beyond the first is accepted,
   * so "Next" never moves the view.
   */
  lemma NoPageBeyondFirstWithinOnePage(pageNumber: int, count: nat)
    requires count <= ItemsPerPage && pageNumber >= 2
    ensures !PageAccepted(pageNumber, count)
  {
    PageAcceptedIffPageHasRows(pageNumber, count);
  }

  /** The server's reply to the attendance query; `data` is None when it is not an array. */
  datatype FetchResponse = Response(status: int, data: Option<seq<Record>>) | RequestFailed

  /** The query parameters sent with the fetch. */
  datatype Query = Query(page: int, limit: nat, range: DateRange)

  /** A good reply has status 200 and an array of rows. */
  predicate GoodResponse(response: FetchResponse) {
    response.Response? && response.status == 200 && response.data.Some?
  }

  /** The state of the report view. */
  class ReportView {
    var reportData: seq<Record>
    var filteredData: seq<Record>
    var searchTeacher: string
    var searchLevel: string
    var dateRange: DateRange
    var currentPage: int

    /** The initial state: no rows, empty search texts, page 1, the range `[now, now]`. */
    constructor (now: int)
      ensures reportData == [] && filteredData == []
      ensures searchTeacher == "" && searchLevel == ""
      ensures dateRange == DateRange(now, now) && currentPage == 1
    {
      reportData, filteredData := [], [];
      searchTeacher, searchLevel := "", "";
      dateRange := DateRange(now, now);
      currentPage := 1;
    }

    /** `fetchData`: a good reply becomes both lists; any failure or malformed reply empties both. */
    method FetchData(response: FetchResponse) returns (query: Query)
      modifies this`reportData, this`filteredData
      ensures query == Query(currentPage, ItemsPerPage, dateRange)
      ensures reportData == (if GoodResponse(response) then response.data.value else [])
      ensures filteredData == reportData
    {
      query := Query(currentPage, ItemsPerPage, dateRange);
      if GoodResponse(response) {
        reportData := response.data.value;
        filteredData := response.data.value;
      } else {
        reportData := [];
        filteredData := [];
      }
    }

    /** `filterDataByDateRange`: the shown list becomes the rows of `reportData` in the range. */
    method FilterDataByDateRange(range: DateRange)
      modifies this`filteredData
      ensures filteredData == FilterByDateRange(reportData, range)
    {
      filteredData := FilterByDateRange(reportData, range);
    }

    /** `handleDateChange`: records the picked range and filters `reportData` by it. */
    method HandleDateChange(range: DateRange)
      modifies this`dateRange, this`filteredData
      ensures dateRange == range
      ensures filteredData == FilterByDateRange(reportData, range)
    {
      dateRange := range;
      FilterDataByDateRange(range);
    }

    /** The two search boxes' change handlers. */
    method SetSearchTeacher(value: string)
      modifies this`searchTeacher
      ensures searchTeacher == value
    {
      searchTeacher := value;
    }

    method SetSearchLevel(value: string)
      modifies this`searchLevel
      ensures searchLevel == value
    {
      searchLevel := value;
    }

    /**
     * `handleSearch`: the shown list is recomputed from `reportData`, so any
     * earlier date filtering of `filteredData` plays no part.
     */
    method HandleSearch()
      modifies this`filteredData
      ensures filteredData == Search(reportData, searchTeacher, searchLevel)
    {
      filteredData := Search(reportData, searchTeacher, searchLevel);
    }

    /** `paginate`: moves to `pageNumber` only when it is a page of the shown list. */
    method Paginate(pageNumber: int)
      modifies this`currentPage
      ensures currentPage == (if PageAccepted(pageNumber, |filteredData|) then pageNumber else old(currentPage))
      ensures filteredData == [] ==> currentPage == old(currentPage)
    {
      if pageNumber > 0 && pageNumber <= PageCount(|filteredData|) {
        currentPage := pageNumber;
      }
    }
  }
}
