/**
 * The report routes: the daily, monthly, annual and weekly summaries of one user's
 * transactions. Each route selects the user's rows of a period with one query, sorts them
 * by descending key, and answers the debit and credit totals and the balance of those rows;
 * the annual report also breaks the year down by month.
 */
module ReportRoutes {
  import opened Wrappers
  import opened Seqs
  import opened Text
  import opened Calendar
  import opened Ledger
  import opened JsObjects

  /** The answer of the daily, monthly and weekly routes: the period, its totals and its rows. */
  datatype Report = Report(period: string, summary: Summary, transactions: seq<Transaction>)

  /** `(param as string) || fallback`: a missing or empty query parameter takes the default. */
  function ParamOr(param: Option<string>, fallback: string): string
  {
    if param.Some? && param.value != "" then param.value else fallback
  }

  /** The rows a query selected, in the order its `ORDER BY key DESC` gives, with their totals. */
  function MakeReport(period: string, selected: seq<Transaction>, key: Transaction -> string): (r: Report)
    ensures r.period == period
    ensures multiset(r.transactions) == multiset(selected)
    ensures SortedDesc(r.transactions, key)
    ensures r.summary == Totals(selected)
  {
    var transactions := OrderByDesc(selected, key);
    OrderByDescSorted(selected, key);
    TotalsPermutation(transactions, selected);
    Report(period, Totals(transactions), transactions)
  }

  /** A record is reported exactly when the query selected it. */
  lemma ReportMembers(r: Report, selected: seq<Transaction>, t: Transaction)
    requires multiset(r.transactions) == multiset(selected)
    ensures t in r.transactions <==> t in selected
  {
    assert t in r.transactions <==> t in multiset(r.transactions);
    assert t in selected <==> t in multiset(selected);
  }

  // ---------------------------------------------------------------------------
  // Daily report
  // ---------------------------------------------------------------------------

  /** `WHERE user_id = ? AND date = ?` */
  function OnDate(userId: string, date: string): Transaction -> bool
  {
    (t: Transaction) => t.userId == Some(userId) && t.date == date
  }

  /** `GET /daily?date=`: the user's rows of one date, latest created first; today by default. */
  function DailyReport(rows: seq<Transaction>, userId: string, date: Option<string>, today: Date): Report
    requires ValidDate(today)
  {
    var reportDate := ParamOr(date, IsoDate(today));
    MakeReport(reportDate, Filter(rows, OnDate(userId, reportDate)), CreatedAtKey)
  }

  /**
   * The daily report holds exactly the user's rows of the reported date, newest first, and
   * its totals are theirs; the date is the one asked for, or today's when none was given.
   */
  lemma DailySelection(rows: seq<Transaction>, userId: string, date: Option<string>, today: Date, t: Transaction)
    requires ValidDate(today)
    ensures DailyReport(rows, userId, date, today).period ==
      if date.Some? && date.value != "" then date.value else IsoDate(today)
    ensures t in DailyReport(rows, userId, date, today).transactions <==>
      t in rows && t.userId == Some(userId) && t.date == DailyReport(rows, userId, date, today).period
    ensures SortedDesc(DailyReport(rows, userId, date, today).transactions, CreatedAtKey)
    ensures DailyReport(rows, userId, date, today).summary.balance ==
      DailyReport(rows, userId, date, today).summary.totalCredits - DailyReport(rows, userId, date, today).summary.totalDebits
  {
    var r := DailyReport(rows, userId, date, today);
    var selected := Filter(rows, OnDate(userId, r.period));
    ReportMembers(r, selected, t);
    FilterMembers(rows, OnDate(userId, r.period), t);
  }

  // ---------------------------------------------------------------------------
  // Monthly report
  // ---------------------------------------------------------------------------

  /** `WHERE user_id = ? AND date LIKE 'prefix%'` */
  function DateLike(userId: string, prefix: string): Transaction -> bool
  {
    (t: Transaction) => t.userId == Some(userId) && StartsWith(t.date, prefix)
  }

  /** `GET /monthly?month=`: the user's rows whose date starts with the month, latest first. */
  function MonthlyReport(rows: seq<Transaction>, userId: string, month: Option<string>, today: Date): Report
    requires ValidDate(today)
  {
    var reportMonth := ParamOr(month, Slice(IsoDate(today), 7));
    MakeReport(reportMonth, Filter(rows, DateLike(userId, reportMonth)), DateKey)
  }

  /** The monthly report holds exactly the user's rows whose date text starts with the month text. */
  lemma MonthlySelection(rows: seq<Transaction>, userId: string, month: Option<string>, today: Date, t: Transaction)
    requires ValidDate(today)
    ensures t in MonthlyReport(rows, userId, month, today).transactions <==>
      t in rows && t.userId == Some(userId) && StartsWith(t.date, MonthlyReport(rows, userId, month, today).period)
    ensures SortedDesc(MonthlyReport(rows, userId, month, today).transactions, DateKey)
    ensures MonthlyReport(rows, userId, month, today).summary ==
      Totals(Filter(rows, DateLike(userId, MonthlyReport(rows, userId, month, today).period)))
  {
    var r := MonthlyReport(rows, userId, month, today);
    ReportMembers(r, Filter(rows, DateLike(userId, r.period)), t);
    FilterMembers(rows, DateLike(userId, r.period), t);
  }

  /** For rows dated `YYYY-MM-DD`, the report of a month holds exactly the user's rows of that calendar month. */
  lemma MonthlyCalendarMonth(rows: seq<Transaction>, userId: string, today: Date, y: int, m: int, t: Transaction, d: Date)
    requires ValidDate(today)
    requires 0 <= y <= 9999 && 1 <= m <= 12
    requires ValidDate(d) && 0 <= d.year <= 9999 && t.date == IsoDate(d)
    ensures t in MonthlyReport(rows, userId, Some(MonthLabel(y, m)), today).transactions <==>
      t in rows && t.userId == Some(userId) && d.year == y && d.month == m
  {
    var monthLabel := MonthLabel(y, m);
    assert monthLabel[4] == '-';
    MonthlySelection(rows, userId, Some(monthLabel), today, t);
    IsoDateInMonth(d, y, m);
  }

  /** Without a month, the report is for the current month, `YYYY-MM`. */
  lemma MonthlyDefault(rows: seq<Transaction>, userId: string, today: Date)
    requires ValidDate(today) && 0 <= today.year <= 9999
    ensures MonthlyReport(rows, userId, None, today).period == MonthLabel(today.year, today.month)
  {
    assert Slice(IsoDate(today), 7) == MonthLabel(today.year, today.month);
  }

  /** A record of 2024-03-15 is in the report of 2024-03 and not in that of 2024-04. */
  lemma MonthlyExample(rows: seq<Transaction>, userId: string, today: Date, t: Transaction)
    requires ValidDate(today)
    requires t in rows && t.userId == Some(userId) && t.date == "2024-03-15"
    ensures t in MonthlyReport(rows, userId, Some("2024-03"), today).transactions
    ensures t !in MonthlyReport(rows, userId, Some("2024-04"), today).transactions
  {
    InMarch(rows, userId, today, t);
    NotInApril(rows, userId, today, t);
  }

  lemma InMarch(rows: seq<Transaction>, userId: string, today: Date, t: Transaction)
    requires ValidDate(today)
    requires t in rows && t.userId == Some(userId) && t.date == "2024-03-15"
    ensures t in MonthlyReport(rows, userId, Some("2024-03"), today).transactions
  {
    MonthlySelection(rows, userId, Some("2024-03"), today, t);
    assert t.date[..7] == "2024-03";
  }

  lemma NotInApril(rows: seq<Transaction>, userId: string, today: Date, t: Transaction)
    requires ValidDate(today)
    requires t.date == "2024-03-15"
    ensures t !in MonthlyReport(rows, userId, Some("2024-04"), today).transactions
  {
    MonthlySelection(rows, userId, Some("2024-04"), today, t);
    assert t.date[..7][6] != "2024-04"[6];
  }

  // ---------------------------------------------------------------------------
  // Annual report
  // ---------------------------------------------------------------------------

  /** One entry of `monthlyData`. */
  datatype MonthSummary = MonthSummary(month: string, summary: Summary, transactions: seq<Transaction>)

  /** The answer of the annual route. */
  datatype AnnualSummary = AnnualSummary(year: int, summary: Summary, monthlyData: seq<MonthSummary>)

  /**
   * `parseInt(year) || new Date().getFullYear()`: a year that is missing, does not start
   * with a number (NaN) or reads as 0 gives way to the current year.
   */
  function ReportYear(year: Option<string>, currentYear: int): int
  {
    var parsed := if year.Some? then ParseInt(year.value) else None;
    if parsed.Some? && parsed.value != 0 then parsed.value else currentYear
  }

  /** The year read from the parameter is the year its numeral names, whatever text follows it. */
  lemma ReportYearOfNumeral(y: int, rest: string, currentYear: int)
    requires y != 0 && EndsNumeral(rest)
    ensures ReportYear(Some(IntToString(y) + rest), currentYear) == y
  {
    ParseIntOfIntToString(y, rest);
  }

  /** Any year other than the current one was read from the parameter, and is never 0. */
  lemma ReportYearSource(year: Option<string>, currentYear: int)
    ensures ReportYear(year, currentYear) != currentYear ==>
      year.Some? && ParseInt(year.value) == Some(ReportYear(year, currentYear)) && ReportYear(year, currentYear) != 0
    ensures currentYear != 0 ==> ReportYear(year, currentYear) != 0
  {
  }

  /** The fallbacks: no parameter, a parameter that is not a number, and the year 0. */
  lemma ReportYearFallback(currentYear: int)
    ensures ReportYear(None, currentYear) == currentYear
    ensures ReportYear(Some(""), currentYear) == currentYear
    ensures ReportYear(Some("abc"), currentYear) == currentYear
    ensures ReportYear(Some("0"), currentYear) == currentYear
  {
    ParseIntZero();
    ParseIntLetters();
    ParseIntEmpty();
  }

  lemma ParseIntZero()
    ensures ParseInt("0") == Some(0)
  {
    ParseIntOfIntToString(0, "");
    assert IntToString(0) + "" == "0";
  }

  lemma ParseIntLetters()
    ensures ParseInt("abc") == None
  {
    assert TrimStart("abc") == "abc";
    assert DigitPrefix("abc", 10) == [];
  }

  lemma ParseIntEmpty()
    ensures ParseInt("") == None
  {
    assert TrimStart("") == "";
  }

  /** `t.date.slice(0, 7)`, the key of a row's month. */
  function MonthKey(t: Transaction): string
  {
    Slice(t.date, 7)
  }

  function MonthIs(month: string): Transaction -> bool
  {
    (t: Transaction) => MonthKey(t) == month
  }

  /** The rows of `s` in one month, in their order in `s`. */
  function InMonth(s: seq<Transaction>, month: string): seq<Transaction>
  {
    Filter(s, MonthIs(month))
  }

  /** The month key of every row, in row order. */
  function MonthKeys(s: seq<Transaction>): (keys: seq<string>)
    ensures |keys| == |s|
  {
    seq(|s|, i requires 0 <= i < |s| => MonthKey(s[i]))
  }

  /** The callback of `Object.entries(monthlyMap).map(...)`: a month with its totals and rows. */
  function MonthEntry(month: string, transactions: seq<Transaction>): MonthSummary
  {
    MonthSummary(month, Totals(transactions), transactions)
  }

  /** The entry of each month in `months`, over the rows of `s`. */
  function Buckets(s: seq<Transaction>, months: seq<string>): (d: seq<MonthSummary>)
    ensures |d| == |months|
  {
    seq(|months|, i requires 0 <= i < |months| => MonthEntry(months[i], InMonth(s, months[i])))
  }

  /** `monthlyData` for the rows `s`: one entry per month key, listed in `Object.entries` order. */
  function MonthlyData(s: seq<Transaction>): seq<MonthSummary>
  {
    Buckets(s, EntriesOrder(FirstOccurrences(MonthKeys(s))))
  }

  function Months(d: seq<MonthSummary>): (months: seq<string>)
    ensures |months| == |d|
  {
    seq(|d|, i requires 0 <= i < |d| => d[i].month)
  }

  /** The rows of all entries, one entry after the other. */
  function Flatten(d: seq<MonthSummary>): seq<Transaction>
  {
    if d == [] then [] else Flatten(d[..|d| - 1]) + d[|d| - 1].transactions
  }

  /** The summaries of all entries added up. */
  function SumSummaries(d: seq<MonthSummary>): Summary
  {
    if d == [] then Summary(0, 0, 0) else AddSummaries(SumSummaries(d[..|d| - 1]), d[|d| - 1].summary)
  }

  /** `WHERE user_id = ? AND date LIKE '${year}%'` */
  function YearSelection(rows: seq<Transaction>, userId: string, year: int): seq<Transaction>
  {
    Filter(rows, DateLike(userId, IntToString(year)))
  }

  /** The annual report of a year: the year's rows, latest first, their totals and their months. */
  function YearReport(rows: seq<Transaction>, userId: string, year: int): AnnualSummary
  {
    var transactions := OrderByDesc(YearSelection(rows, userId, year), DateKey);
    AnnualSummary(year, Totals(transactions), MonthlyData(transactions))
  }

  /**
   * The `forEach` of the annual route: each row is appended to the list of its month, and a
   * month's list is created the first time the month is met. `order` is the order in which
   * the object's keys were created.
   */
  method GroupByMonth(s: seq<Transaction>) returns (order: seq<string>, monthlyMap: map<string, seq<Transaction>>)
    ensures order == FirstOccurrences(MonthKeys(s))
    ensures forall k :: k in monthlyMap <==> k in order
    ensures forall k :: k in monthlyMap ==> monthlyMap[k] == InMonth(s, k)
  {
    order := [];
    monthlyMap := map[];
    var i := 0;
    while i < |s|
      invariant 0 <= i <= |s|
      invariant order == FirstOccurrences(MonthKeys(s[..i]))
      invariant forall k :: k in monthlyMap <==> k in order
      invariant forall k :: k in monthlyMap ==> monthlyMap[k] == InMonth(s[..i], k)
    {
      ghost var order0, monthlyMap0 := order, monthlyMap;
      var t := s[i];
      var monthKey := MonthKey(t);
      if monthKey !in monthlyMap {
        order := order + [monthKey];
        monthlyMap := monthlyMap[monthKey := []];
      }
      monthlyMap := monthlyMap[monthKey := monthlyMap[monthKey] + [t]];
      GroupInvariant(s, i, order0, monthlyMap0, order, monthlyMap);
      i := i + 1;
    }
    assert s[..i] == s;
  }

  /** One step of the `forEach` keeps the key order and the lists of the rows seen so far. */
  lemma GroupInvariant(s: seq<Transaction>, i: nat, order: seq<string>, monthlyMap: map<string, seq<Transaction>>,
                       order': seq<string>, monthlyMap': map<string, seq<Transaction>>)
    requires i < |s|
    requires order == FirstOccurrences(MonthKeys(s[..i]))
    requires forall k :: k in monthlyMap <==> k in order
    requires forall k :: k in monthlyMap ==> monthlyMap[k] == InMonth(s[..i], k)
    requires order' == if MonthKey(s[i]) in monthlyMap then order else order + [MonthKey(s[i])]
    requires monthlyMap' == monthlyMap[MonthKey(s[i]) :=
      (if MonthKey(s[i]) in monthlyMap then monthlyMap[MonthKey(s[i])] else []) + [s[i]]]
    ensures order' == FirstOccurrences(MonthKeys(s[..i + 1]))
    ensures forall k :: k in monthlyMap' <==> k in order'
    ensures forall k :: k in monthlyMap' ==> monthlyMap'[k] == InMonth(s[..i + 1], k)
  {
    OrderStep(s, i);
    ListsStep(s, i, monthlyMap, monthlyMap');
  }

  /** A month key not met before is appended to the key order. */
  lemma OrderStep(s: seq<Transaction>, i: nat)
    requires i < |s|
    ensures FirstOccurrences(MonthKeys(s[..i + 1])) ==
      var order := FirstOccurrences(MonthKeys(s[..i]));
      if MonthKey(s[i]) in order then order else order + [MonthKey(s[i])]
  {
    GroupStep(s, i);
    assert MonthKeys(s[..i + 1])[..i] == MonthKeys(s[..i]);
  }

  /** The row is appended to the list of its month, created empty when the month is new. */
  lemma ListsStep(s: seq<Transaction>, i: nat, monthlyMap: map<string, seq<Transaction>>, monthlyMap': map<string, seq<Transaction>>)
    requires i < |s|
    requires forall k :: k in monthlyMap <==> k in FirstOccurrences(MonthKeys(s[..i]))
    requires forall k :: k in monthlyMap ==> monthlyMap[k] == InMonth(s[..i], k)
    requires monthlyMap' == monthlyMap[MonthKey(s[i]) :=
      (if MonthKey(s[i]) in monthlyMap then monthlyMap[MonthKey(s[i])] else []) + [s[i]]]
    ensures forall k :: k in monthlyMap' ==> monthlyMap'[k] == InMonth(s[..i + 1], k)
  {
    var monthKey := MonthKey(s[i]);
    GroupStep(s, i);
    if monthKey !in monthlyMap {
      EmptyMonth(s[..i], monthKey);
    }
  }

  /** One more row adds its month key at the end, and itself at the end of its month. */
  lemma GroupStep(s: seq<Transaction>, i: nat)
    requires i < |s|
    ensures MonthKeys(s[..i + 1]) == MonthKeys(s[..i]) + [MonthKey(s[i])]
    ensures forall k :: InMonth(s[..i + 1], k) == InMonth(s[..i], k) + (if MonthKey(s[i]) == k then [s[i]] else [])
  {
    assert s[..i + 1] == s[..i] + [s[i]];
    forall k
      ensures InMonth(s[..i + 1], k) == InMonth(s[..i], k) + (if MonthKey(s[i]) == k then [s[i]] else [])
    {
      FilterConcat(s[..i], [s[i]], MonthIs(k));
      assert [s[i]][1..] == [];
    }
  }

  /** A month that no row has is an empty list. */
  lemma EmptyMonth(s: seq<Transaction>, month: string)
    requires month !in FirstOccurrences(MonthKeys(s))
    ensures InMonth(s, month) == []
  {
    forall t | t in s
      ensures !MonthIs(month)(t)
    {
      var i :| 0 <= i < |s| && s[i] == t;
      assert MonthKeys(s)[i] == MonthKey(t);
    }
    FilterDropsAll(s, MonthIs(month));
  }

  /**
   * `GET /annual?year=`: the year's rows, their totals and the monthly breakdown, computed
   * as the route does it, by grouping into an object and listing its entries.
   */
  method Annual(rows: seq<Transaction>, userId: string, year: Option<string>, currentYear: int) returns (r: AnnualSummary)
    ensures r == YearReport(rows, userId, ReportYear(year, currentYear))
  {
    var reportYear := ReportYear(year, currentYear);
    var transactions := OrderByDesc(YearSelection(rows, userId, reportYear), DateKey);
    var summary := Totals(transactions);
    var order, monthlyMap := GroupByMonth(transactions);
    var months := EntriesOrder(order);
    assert forall k :: k in months ==> k in monthlyMap by {
      forall k | k in months
        ensures k in monthlyMap
      {
        assert k in multiset(months);
      }
    }
    var monthlyData := MapEntries(monthlyMap, months);
    MapEntriesOfGroups(transactions, monthlyMap, months);
    r := AnnualSummary(reportYear, summary, monthlyData);
  }

  /** `Object.entries(monthlyMap).map(...)`, for the keys listed in `months`. */
  function MapEntries(monthlyMap: map<string, seq<Transaction>>, months: seq<string>): (d: seq<MonthSummary>)
    requires forall k :: k in months ==> k in monthlyMap
    ensures |d| == |months|
  {
    seq(|months|, i requires 0 <= i < |months| => MonthEntry(months[i], monthlyMap[months[i]]))
  }

  /** Listing the groups of `GroupByMonth` gives the buckets of the rows. */
  lemma MapEntriesOfGroups(s: seq<Transaction>, monthlyMap: map<string, seq<Transaction>>, months: seq<string>)
    requires forall k :: k in months ==> k in monthlyMap
    requires forall k :: k in monthlyMap ==> monthlyMap[k] == InMonth(s, k)
    ensures MapEntries(monthlyMap, months) == Buckets(s, months)
  {
  }

  /** The months of `monthlyData` are those of `EntriesOrder`, each once. */
  lemma MonthlyDataMonths(s: seq<Transaction>)
    ensures Months(MonthlyData(s)) == EntriesOrder(FirstOccurrences(MonthKeys(s)))
    ensures forall k :: multiset(Months(MonthlyData(s)))[k] <= 1
  {
    var first := FirstOccurrences(MonthKeys(s));
    MonthsOfBuckets(s, EntriesOrder(first));
    DistinctCounts(first);
  }

  /** The entries built for a list of months carry those months, in that order. */
  lemma MonthsOfBuckets(s: seq<Transaction>, months: seq<string>)
    ensures Months(Buckets(s, months)) == months
  {
  }

  /**
   * Every row falls in exactly one entry of `monthlyData`, the one of its month key: the
   * months are distinct (here), each row's month is among them (`MonthlyDataHasMonth`), and
   * each entry holds exactly the rows of its month (`MonthlyDataEntry`).
   */
  lemma MonthlyDataDistinct(s: seq<Transaction>)
    ensures Distinct(Months(MonthlyData(s)))
  {
    MonthlyDataMonths(s);
    CountsDistinct(Months(MonthlyData(s)));
  }

  lemma MonthlyDataHasMonth(s: seq<Transaction>, t: Transaction)
    requires t in s
    ensures MonthKey(t) in Months(MonthlyData(s))
  {
    var months := Months(MonthlyData(s));
    MonthlyDataMonths(s);
    var i :| 0 <= i < |s| && s[i] == t;
    assert MonthKeys(s)[i] == MonthKey(t);
    assert MonthKey(t) in multiset(months);
  }

  /**
   * An entry holds exactly the rows of its month, as a subsequence of the rows (so in their
   * order), and its summary is their totals.
   */
  lemma MonthlyDataEntry(s: seq<Transaction>, i: nat, t: Transaction)
    requires i < |MonthlyData(s)|
    ensures t in MonthlyData(s)[i].transactions <==> t in s && MonthKey(t) == MonthlyData(s)[i].month
    ensures MonthlyData(s)[i].transactions == Filter(s, MonthIs(MonthlyData(s)[i].month))
    ensures MonthlyData(s)[i].summary == Totals(MonthlyData(s)[i].transactions)
  {
    FilterMembers(s, MonthIs(MonthlyData(s)[i].month), t);
  }

  /** Each row of `s` appears in `Flatten(Buckets(s, months))` as often as in `s` if its month is listed, else never. */
  lemma {:induction false} BucketsCount(s: seq<Transaction>, months: seq<string>, x: Transaction)
    requires forall k :: multiset(months)[k] <= 1
    ensures multiset(Flatten(Buckets(s, months)))[x] == if MonthKey(x) in months then multiset(s)[x] else 0
  {
    if months != [] {
      var init := months[..|months| - 1];
      var last := months[|months| - 1];
      assert months == init + [last];
      BucketsLast(s, months);
      LastOnce(init, last);
      assert MonthKey(x) in months <==> MonthKey(x) in init || MonthKey(x) == last;
      BucketsCount(s, init, x);
      FilterCount(s, MonthIs(last), x);
    }
  }

  /** The rows of the entries of `months` are those of all months but the last, then the last month's. */
  lemma BucketsLast(s: seq<Transaction>, months: seq<string>)
    requires months != []
    ensures Flatten(Buckets(s, months)) ==
      Flatten(Buckets(s, months[..|months| - 1])) + InMonth(s, months[|months| - 1])
  {
    assert Buckets(s, months)[..|months| - 1] == Buckets(s, months[..|months| - 1]);
  }

  /** In a list where no month repeats, the last month is not among the others, which do not repeat either. */
  lemma LastOnce(init: seq<string>, last: string)
    requires forall k :: multiset(init + [last])[k] <= 1
    ensures forall k :: multiset(init)[k] <= 1
    ensures last !in init
  {
    assert multiset(init + [last]) == multiset(init) + multiset{last};
    forall k
      ensures multiset(init)[k] <= 1
    {
      assert multiset(init + [last])[k] >= multiset(init)[k];
    }
    assert multiset(init + [last])[last] == multiset(init)[last] + 1;
  }

  /** The entries of `monthlyData` together hold every row exactly once. */
  lemma MonthlyDataCover(s: seq<Transaction>)
    ensures multiset(Flatten(MonthlyData(s))) == multiset(s)
  {
    var d := MonthlyData(s);
    var months := Months(d);
    assert Buckets(s, months) == d && forall k :: multiset(months)[k] <= 1 by {
      MonthlyDataMonths(s);
    }
    forall x
      ensures multiset(Flatten(d))[x] == multiset(s)[x]
    {
      BucketsCount(s, months, x);
      if x in s {
        MonthlyDataHasMonth(s, x);
      }
    }
    assert multiset(Flatten(d)) == multiset(s);
  }

  /** Entries whose summaries are their rows' totals add up to the totals of all their rows. */
  lemma {:induction false} SumOfEntries(d: seq<MonthSummary>)
    requires forall i :: 0 <= i < |d| ==> d[i].summary == Totals(d[i].transactions)
    ensures SumSummaries(d) == Totals(Flatten(d))
  {
    if d != [] {
      var init := d[..|d| - 1];
      SumOfEntries(init);
      TotalsConcat(Flatten(init), d[|d| - 1].transactions);
    }
  }

  /** The monthly totals add up to the totals of all the rows. */
  lemma MonthlyDataSums(s: seq<Transaction>)
    ensures SumSummaries(MonthlyData(s)) == Totals(s)
  {
    var d := MonthlyData(s);
    forall i | 0 <= i < |d|
      ensures d[i].summary == Totals(d[i].transactions)
    {
    }
    SumOfEntries(d);
    MonthlyDataCover(s);
    TotalsPermutation(Flatten(d), s);
  }

  /**
   * When no month key is an array index (as with dates written `YYYY-MM-DD`), the months are
   * listed in the order in which they first occur among the rows.
   */
  lemma MonthlyDataInsertionOrder(s: seq<Transaction>)
    requires forall i :: 0 <= i < |s| ==> !IsArrayIndex(MonthKey(s[i]))
    ensures Months(MonthlyData(s)) == FirstOccurrences(MonthKeys(s))
  {
    var keys := MonthKeys(s);
    var first := FirstOccurrences(keys);
    forall i | 0 <= i < |first|
      ensures !IsArrayIndex(first[i])
    {
      var j := IndexOf(keys, first[i]);
      assert keys[j] == MonthKey(s[j]);
    }
    EntriesInInsertionOrder(first);
    MonthlyDataMonths(s);
  }

  /** So a month listed before another first occurs before it among the rows. */
  lemma MonthlyDataOrder(s: seq<Transaction>, i: nat, j: nat)
    requires forall k :: 0 <= k < |s| ==> !IsArrayIndex(MonthKey(s[k]))
    requires i < j < |MonthlyData(s)|
    ensures MonthlyData(s)[i].month in MonthKeys(s) && MonthlyData(s)[j].month in MonthKeys(s)
    ensures IndexOf(MonthKeys(s), MonthlyData(s)[i].month) < IndexOf(MonthKeys(s), MonthlyData(s)[j].month)
  {
    var months := Months(MonthlyData(s));
    MonthlyDataInsertionOrder(s);
    assert MonthlyData(s)[i].month == months[i] && MonthlyData(s)[j].month == months[j];
    FirstOccurrencesOrder(MonthKeys(s), i, j);
  }

  /** A row dated `YYYY-MM-DD` has the month label `YYYY-MM` as key, which is no array index. */
  lemma IsoMonthKey(t: Transaction, d: Date)
    requires ValidDate(d) && 0 <= d.year <= 9999 && t.date == IsoDate(d)
    ensures MonthKey(t) == MonthLabel(d.year, d.month)
    ensures !IsArrayIndex(MonthKey(t))
  {
    assert MonthKey(t)[4] == '-';
    NonDigitKey(MonthKey(t), 4);
  }

  /**
   * A month key written with digits only comes first in `Object.entries`, even when it was
   * added last: a row dated just `2024` is listed before the rows of 2024-03 that precede it.
   */
  lemma EntriesIndexKeyFirst()
    ensures EntriesOrder(["2024-03", "2024"]) == ["2024", "2024-03"]
  {
    var keys := ["2024-03", "2024"];
    assert !IsArrayIndex("2024-03") by {
      NonDigitKey("2024-03", 4);
    }
    YearKeyIsIndex();
    assert keys[1..] == ["2024"] && keys[1..][1..] == [];
    assert Filter(keys, IndexKeyIs(true)) == ["2024"];
    assert Filter(keys, IndexKeyIs(false)) == ["2024-03"];
  }

  /** The key `2024` is an array index. */
  lemma YearKeyIsIndex()
    ensures IsArrayIndex("2024")
  {
    assert "2024"[..3] == "202" && "202"[..2] == "20" && "20"[..1] == "2" && "2"[..0] == [];
    assert Value("2024", 10) == 2024;
  }

  /** If the rows are sorted by descending key, so is each subsequence a filter keeps. */
  lemma {:induction false} FilterSortedDesc(s: seq<Transaction>, p: Transaction -> bool, key: Transaction -> string)
    requires SortedDesc(s, key)
    ensures SortedDesc(Filter(s, p), key)
  {
    if s != [] {
      var rest := Filter(s[1..], p);
      FilterSortedDesc(s[1..], p, key);
      if p(s[0]) {
        if rest != [] {
          assert rest[0] in s[1..];
          var k :| 0 <= k < |s[1..]| && s[1..][k] == rest[0];
          assert s[k + 1] == rest[0];
        }
        PrependSorted(s[0], rest, key);
      }
    }
  }

  /**
   * The annual report's totals are those of the user's rows of the year, and so is the sum of
   * its monthly totals; every row of the year is in exactly one month's entry, whose rows are
   * listed latest first.
   */
  lemma YearReportTotals(rows: seq<Transaction>, userId: string, year: int)
    ensures YearReport(rows, userId, year).summary == Totals(YearSelection(rows, userId, year))
    ensures SumSummaries(YearReport(rows, userId, year).monthlyData) == Totals(YearSelection(rows, userId, year))
    ensures multiset(Flatten(YearReport(rows, userId, year).monthlyData)) == multiset(YearSelection(rows, userId, year))
    ensures forall i :: 0 <= i < |YearReport(rows, userId, year).monthlyData| ==>
      SortedDesc(YearReport(rows, userId, year).monthlyData[i].transactions, DateKey)
  {
    var selected := YearSelection(rows, userId, year);
    var transactions := OrderByDesc(selected, DateKey);
    var d := MonthlyData(transactions);
    TotalsPermutation(transactions, selected);
    MonthlyDataSums(transactions);
    MonthlyDataCover(transactions);
    OrderByDescSorted(selected, DateKey);
    forall i | 0 <= i < |d|
      ensures SortedDesc(d[i].transactions, DateKey)
    {
      FilterSortedDesc(transactions, MonthIs(d[i].month), DateKey);
    }
  }

  /** For rows dated `YYYY-MM-DD` and a four-digit year, the year's rows are the user's rows of that calendar year. */
  lemma YearSelectionCalendar(rows: seq<Transaction>, userId: string, year: int, t: Transaction, d: Date)
    requires 1000 <= year <= 9999
    requires ValidDate(d) && 0 <= d.year <= 9999 && t.date == IsoDate(d)
    ensures t in YearSelection(rows, userId, year) <==> t in rows && t.userId == Some(userId) && d.year == year
  {
    FilterMembers(rows, DateLike(userId, IntToString(year)), t);
    IsoDateInYear(d, year);
  }

  // ---------------------------------------------------------------------------
  // Weekly report
  // ---------------------------------------------------------------------------

  /** The parameter does not read as a date: `toISOString` throws on the Invalid Date. */
  datatype WeeklyError = InvalidDate

  /** `new Date((date as string) || new Date())`, as a calendar day. */
  function WeekAnchor(date: Option<string>, today: Date): (anchor: Option<Date>)
    requires ValidDate(today)
    ensures anchor.Some? ==> ValidDate(anchor.value)
  {
    if date.Some? && date.value != "" then ParseDate(date.value) else Some(today)
  }

  /** `WHERE user_id = ? AND date >= ? AND date <= ?`, compared as text. */
  function DateBetween(userId: string, low: string, high: string): Transaction -> bool
  {
    (t: Transaction) => t.userId == Some(userId) && LexLe(low, t.date) && LexLe(t.date, high)
  }

  /** The weekly report of the week, Monday to Sunday, that holds `anchor`. */
  function WeekReport(rows: seq<Transaction>, userId: string, anchor: Date): Report
    requires ValidDate(anchor)
  {
    var start := IsoDate(WeekStart(anchor));
    var end := IsoDate(WeekEnd(WeekStart(anchor)));
    MakeReport(start + " to " + end, Filter(rows, DateBetween(userId, start, end)), DateKey)
  }

  /**
   * The week's bounds as the route computes them: `setDate` on the anchor moves it back to
   * the Monday, and `setDate` on a copy of the Monday moves it on to the Sunday.
   */
  method WeekWindow(anchor: Date) returns (startDateStr: string, endDateStr: string)
    requires ValidDate(anchor)
    ensures startDateStr == IsoDate(WeekStart(anchor))
    ensures endDateStr == IsoDate(WeekEnd(WeekStart(anchor)))
  {
    var selectedDate := new JsDate(DayNumber(anchor));
    var dayOfWeek := selectedDate.GetDay();
    var diff := selectedDate.GetDate() - dayOfWeek + (if dayOfWeek == 0 then -6 else 1);
    var startTime := selectedDate.SetDate(diff);
    AnchorFields(anchor, diff, startTime);
    StartTime(anchor, diff, startTime);
    var startDate := new JsDate(startTime);
    startDateStr := startDate.IsoDateString();
    var copy := new JsDate(startDate.time);
    var endTime := copy.SetDate(startDate.GetDate() + 6);
    EndTime(WeekStart(anchor), startTime, endTime);
    var endDate := new JsDate(endTime);
    endDateStr := endDate.IsoDateString();
  }

  /** `setDate(diff)` on the anchor lands on the Monday of its week. */
  lemma StartTime(anchor: Date, diff: int, startTime: int)
    requires ValidDate(anchor)
    requires diff == anchor.day - Weekday(DayNumber(anchor)) + (if Weekday(DayNumber(anchor)) == 0 then -6 else 1)
    requires startTime == MakeDay(anchor.year, anchor.month, diff)
    ensures FromDayNumber(startTime) == WeekStart(anchor)
  {
  }

  /** The anchor's `getDate()`, month and year are its own day, month and year. */
  lemma AnchorFields(anchor: Date, diff: int, startTime: int)
    requires ValidDate(anchor)
    requires diff == FromDayNumber(DayNumber(anchor)).day - Weekday(DayNumber(anchor)) +
      (if Weekday(DayNumber(anchor)) == 0 then -6 else 1)
    requires startTime == MakeDay(FromDayNumber(DayNumber(anchor)).year, FromDayNumber(DayNumber(anchor)).month, diff)
    ensures diff == anchor.day - Weekday(DayNumber(anchor)) + (if Weekday(DayNumber(anchor)) == 0 then -6 else 1)
    ensures startTime == MakeDay(anchor.year, anchor.month, diff)
  {
    DayNumberRoundTrip(anchor);
  }

  /** `setDate(getDate() + 6)` on a copy of the Monday lands on the Sunday of its week. */
  lemma EndTime(start: Date, startTime: int, endTime: int)
    requires ValidDate(start) && FromDayNumber(startTime) == start
    requires endTime == MakeDay(start.year, start.month, start.day + 6)
    ensures FromDayNumber(endTime) == WeekEnd(start)
  {
  }

  /** `GET /weekly?date=`: the report of the week of the given date, or of today. */
  method Weekly(rows: seq<Transaction>, userId: string, date: Option<string>, today: Date) returns (r: Result<Report, WeeklyError>)
    requires ValidDate(today)
    ensures WeekAnchor(date, today).None? ==> r == Failure(InvalidDate)
    ensures WeekAnchor(date, today).Some? ==> r == Success(WeekReport(rows, userId, WeekAnchor(date, today).value))
  {
    var selectedDate := WeekAnchor(date, today);
    if selectedDate.None? {
      return Failure(InvalidDate);
    }
    var startDateStr, endDateStr := WeekWindow(selectedDate.value);
    var transactions := OrderByDesc(Filter(rows, DateBetween(userId, startDateStr, endDateStr)), DateKey);
    var summary := Totals(transactions);
    r := Success(Report(startDateStr + " to " + endDateStr, summary, transactions));
  }

  /**
   * The week reported runs from a Monday to the Sunday six days later and holds the anchor;
   * its label is `start to end`.
   */
  lemma WeekReportPeriod(rows: seq<Transaction>, userId: string, anchor: Date)
    requires ValidDate(anchor)
    ensures WeekReport(rows, userId, anchor).period ==
      IsoDate(WeekStart(anchor)) + " to " + IsoDate(WeekEnd(WeekStart(anchor)))
    ensures Weekday(DayNumber(WeekStart(anchor))) == 1 && Weekday(DayNumber(WeekEnd(WeekStart(anchor)))) == 0
    ensures DayNumber(WeekEnd(WeekStart(anchor))) == DayNumber(WeekStart(anchor)) + 6
    ensures DayNumber(WeekStart(anchor)) <= DayNumber(anchor) <= DayNumber(WeekEnd(WeekStart(anchor)))
  {
    WeekBounds(anchor);
  }

  /**
   * For rows dated `YYYY-MM-DD` in a week of four-digit years, the weekly report holds exactly
   * the user's rows dated from its Monday to its Sunday, latest first.
   */
  lemma WeekSelection(rows: seq<Transaction>, userId: string, anchor: Date, t: Transaction, d: Date)
    requires ValidDate(anchor)
    requires 0 <= WeekStart(anchor).year <= 9999 && 0 <= WeekEnd(WeekStart(anchor)).year <= 9999
    requires ValidDate(d) && 0 <= d.year <= 9999 && t.date == IsoDate(d)
    ensures t in WeekReport(rows, userId, anchor).transactions <==>
      t in rows && t.userId == Some(userId) &&
      DayNumber(WeekStart(anchor)) <= DayNumber(d) <= DayNumber(WeekStart(anchor)) + 6
    ensures SortedDesc(WeekReport(rows, userId, anchor).transactions, DateKey)
  {
    var start := WeekStart(anchor);
    var end := WeekEnd(start);
    var r := WeekReport(rows, userId, anchor);
    var selected := Filter(rows, DateBetween(userId, IsoDate(start), IsoDate(end)));
    ReportMembers(r, selected, t);
    RangeSelection(rows, userId, start, end, t, d);
  }

  /**
   * For four-digit years, the rows a `date >= low AND date <= high` query selects are the
   * user's rows dated from `low` to `high`.
   */
  lemma RangeSelection(rows: seq<Transaction>, userId: string, low: Date, high: Date, t: Transaction, d: Date)
    requires ValidDate(low) && ValidDate(high) && ValidDate(d)
    requires 0 <= low.year <= 9999 && 0 <= high.year <= 9999 && 0 <= d.year <= 9999
    requires t.date == IsoDate(d)
    ensures t in Filter(rows, DateBetween(userId, IsoDate(low), IsoDate(high))) <==>
      t in rows && t.userId == Some(userId) && DayNumber(low) <= DayNumber(d) <= DayNumber(high)
  {
    FilterMembers(rows, DateBetween(userId, IsoDate(low), IsoDate(high)), t);
    IsoDateOrder(low, d);
    IsoDateOrder(d, high);
  }

  /** A Wednesday, 2024-01-03, lies in the week from Monday 2024-01-01 to Sunday 2024-01-07. */
  lemma WeekExample(anchor: Date)
    requires anchor.year == 2024 && anchor.month == 1 && anchor.day == 3
    ensures WeekStart(anchor) == Date(2024, 1, 1)
    ensures WeekEnd(WeekStart(anchor)) == Date(2024, 1, 7)
  {
    January2024(anchor);
    var n := DayNumber(anchor);
    assert Weekday(n) == 3 by {
      assert n == 739253;
    }
    var start := WeekStart(anchor);
    assert DayNumber(start) == n - 2;
    January2024(Date(2024, 1, 1));
    DayNumberInjective(start, Date(2024, 1, 1));
    FirstWeekEnd(start);
  }

  lemma FirstWeekEnd(start: Date)
    requires start == Date(2024, 1, 1)
    ensures WeekEnd(start) == Date(2024, 1, 7)
  {
    January2024(start);
    January2024(Date(2024, 1, 7));
    DayNumberInjective(WeekEnd(start), Date(2024, 1, 7));
  }

  /** Day numbers of January 2024: the first of January is day 739251. */
  lemma January2024(d: Date)
    requires d.year == 2024 && d.month == 1
    ensures DayNumber(d) == 739250 + d.day
  {
    assert DaysBeforeYear(2024) == 739251;
  }
}
