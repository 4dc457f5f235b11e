/** The past-data view of data-manager.js: records grouped by date, the
    dates newest first, a summary per day, and the export-state and
    customer-name filter over the rendered rows. The HTML itself is left
    out; what the page shows is kept as values. */
module DataView {
  import opened Common
  import opened Records

  function DateOf(r: Delivery): string { r.date }

  function IsExported(r: Delivery): bool { r.exported }

  // ---------------------------------------------------------------------
  // Grouping by date

  /** Fills `groupedByDate` in scan order; `keys` is the key order of the
      resulting object, taken to be insertion order. That holds as long as
      no date text is an array index such as "2024", which `Object.keys`
      would list first. */
  method GroupByDate(records: seq<Delivery>) returns (groups: map<string, seq<Delivery>>, keys: seq<string>)
    ensures keys == KeysInOrder(records, DateOf)
    ensures forall d :: d in groups <==> d in keys
    ensures forall d :: d in groups ==> groups[d] == WithKey(records, DateOf, d)
  {
    groups, keys := map[], [];
    var i := 0;
    while i < |records|
      invariant 0 <= i <= |records|
      invariant keys == KeysInOrder(records[..i], DateOf)
      invariant forall d :: d in groups <==> d in keys
      invariant forall d :: d in groups ==> groups[d] == WithKey(records[..i], DateOf, d)
    {
      var r := records[i];
      assert records[..i + 1] == records[..i] + [r];
      GroupStep(records[..i], r, groups, keys);
      var bucket: seq<Delivery> := [];
      if r.date in groups {
        bucket := groups[r.date];
      } else {
        keys := keys + [r.date];
      }
      groups := groups[r.date := bucket + [r]];
      i := i + 1;
    }
    assert records[..i] == records;
  }

  /** One pass of the `forEach` keeps the buckets equal to those of the
      records seen so far. */
  lemma GroupStep(prefix: seq<Delivery>, r: Delivery, groups: map<string, seq<Delivery>>, keys: seq<string>)
    requires keys == KeysInOrder(prefix, DateOf)
    requires forall d :: d in groups <==> d in keys
    requires forall d :: d in groups ==> groups[d] == WithKey(prefix, DateOf, d)
    ensures var groups' := groups[r.date := (if r.date in groups then groups[r.date] else []) + [r]];
            var keys' := if r.date in groups then keys else keys + [r.date];
            && keys' == KeysInOrder(prefix + [r], DateOf)
            && (forall d :: d in groups' <==> d in keys')
            && (forall d :: d in groups' ==> groups'[d] == WithKey(prefix + [r], DateOf, d))
  {
    KeysInOrderSnoc(prefix, r, DateOf);
    if r.date !in groups {
      KeysInOrderComplete(prefix, DateOf);
      WithKeyNonEmpty(prefix, DateOf, r.date);
    }
    forall d {
      WithKeySnoc(prefix, r, DateOf, d);
    }
  }

  /** The date buckets partition the records: each date of the records is
      listed once, every record sits in the bucket of its own date and in
      no other, and the bucket sizes add up to the number of records. */
  lemma GroupingFacts(records: seq<Delivery>)
    ensures Distinct(KeysInOrder(records, DateOf))
    ensures forall d :: d in KeysInOrder(records, DateOf) <==> exists r :: r in records && r.date == d
    ensures forall r :: r in records ==> r in WithKey(records, DateOf, r.date)
    ensures forall d, r :: r in WithKey(records, DateOf, d) ==> r.date == d
    ensures SumSizes(records, DateOf, KeysInOrder(records, DateOf)) == |records|
  {
    forall d {
      WithKeyMembers(records, DateOf, d);
    }
    KeysInOrderComplete(records, DateOf);
    GroupsCoverAll(records, DateOf);
    forall r | r in records ensures r in WithKey(records, DateOf, r.date) {
      InOwnBucket(records, DateOf, r);
    }
  }

  // ---------------------------------------------------------------------
  // Dates, newest first

  /** `dayOf` stands for `new Date(s)`: the day a date string denotes. */
  predicate NewestFirst(ds: seq<string>, dayOf: string -> int) {
    forall i, j :: 0 <= i < j < |ds| ==> dayOf(ds[i]) >= dayOf(ds[j])
  }

  /** One step of a stable sort by `dayOf(b) - dayOf(a)`: `d` goes after
      every earlier date of the same or a later day. */
  function InsertByDay(sorted: seq<string>, d: string, dayOf: string -> int): (r: seq<string>)
    requires NewestFirst(sorted, dayOf)
    ensures NewestFirst(r, dayOf)
    ensures multiset(r) == multiset(sorted) + multiset{d}
    ensures forall x :: x in r <==> x in sorted || x == d
  {
    if sorted == [] || dayOf(sorted[|sorted| - 1]) >= dayOf(d) then sorted + [d]
    else
      var front, last := sorted[..|sorted| - 1], sorted[|sorted| - 1];
      assert sorted == front + [last];
      var r' := InsertByDay(front, d, dayOf);
      LaterDaysFirst(r', front, d, last, dayOf);
      r' + [last]
  }

  /** Every date of the inserted prefix is no older than `last`. */
  lemma LaterDaysFirst(r': seq<string>, front: seq<string>, d: string, last: string, dayOf: string -> int)
    requires NewestFirst(r', dayOf) && NewestFirst(front + [last], dayOf)
    requires multiset(r') == multiset(front) + multiset{d}
    requires dayOf(d) > dayOf(last)
    ensures NewestFirst(r' + [last], dayOf)
  {
    forall x | x in r' ensures dayOf(x) >= dayOf(last) {
      assert x in multiset(r');
      if x != d {
        assert x in multiset(front);
        var i :| 0 <= i < |front| && front[i] == x;
        assert (front + [last])[i] == x && (front + [last])[|front|] == last;
      }
    }
    var s := r' + [last];
    forall i, j | 0 <= i < j < |s| ensures dayOf(s[i]) >= dayOf(s[j]) {
      if j < |r'| {
        assert s[i] == r'[i] && s[j] == r'[j];
      } else {
        assert s[i] in r';
      }
    }
  }

  /** `Object.keys(groupedByDate).sort((a, b) => new Date(b) - new Date(a))`. */
  function SortNewestFirst(ds: seq<string>, dayOf: string -> int): (r: seq<string>)
    ensures NewestFirst(r, dayOf)
    ensures multiset(r) == multiset(ds)
    ensures forall x :: x in r <==> x in ds
  {
    if ds == [] then []
    else
      assert ds == ds[..|ds| - 1] + [ds[|ds| - 1]];
      InsertByDay(SortNewestFirst(ds[..|ds| - 1], dayOf), ds[|ds| - 1], dayOf)
  }

  /** Insertion is stable: `d` comes after the dates of its own day that
      were already there, and the other days are untouched. */
  lemma {:induction false} InsertStable(sorted: seq<string>, d: string, dayOf: string -> int, k: int)
    requires NewestFirst(sorted, dayOf)
    ensures WithKey(InsertByDay(sorted, d, dayOf), dayOf, k)
            == WithKey(sorted, dayOf, k) + (if dayOf(d) == k then [d] else [])
  {
    if sorted == [] || dayOf(sorted[|sorted| - 1]) >= dayOf(d) {
      WithKeySnoc(sorted, d, dayOf, k);
    } else {
      var front, last := sorted[..|sorted| - 1], sorted[|sorted| - 1];
      assert sorted == front + [last];
      assert NewestFirst(front, dayOf) by {
        forall i, j | 0 <= i < j < |front| ensures dayOf(front[i]) >= dayOf(front[j]) {
          assert front[i] == sorted[i] && front[j] == sorted[j];
        }
      }
      var r' := InsertByDay(front, d, dayOf);
      assert InsertByDay(sorted, d, dayOf) == r' + [last];
      InsertStable(front, d, dayOf, k);
      PassOlder(r', front, d, last, dayOf, k);
    }
  }

  /** Appending `last`, older than `d`, to both sides keeps the per-day
      relation of an insertion of `d`. */
  lemma PassOlder(r': seq<string>, front: seq<string>, d: string, last: string, dayOf: string -> int, k: int)
    requires dayOf(last) < dayOf(d)
    requires WithKey(r', dayOf, k) == WithKey(front, dayOf, k) + (if dayOf(d) == k then [d] else [])
    ensures WithKey(r' + [last], dayOf, k)
            == WithKey(front + [last], dayOf, k) + (if dayOf(d) == k then [d] else [])
  {
    WithKeySnoc(r', last, dayOf, k);
    WithKeySnoc(front, last, dayOf, k);
  }

  /** The sort is stable: dates of the same day keep their order. */
  lemma {:induction false} SortStable(ds: seq<string>, dayOf: string -> int, k: int)
    ensures WithKey(SortNewestFirst(ds, dayOf), dayOf, k) == WithKey(ds, dayOf, k)
  {
    if ds != [] {
      var front, x := ds[..|ds| - 1], ds[|ds| - 1];
      assert ds == front + [x];
      SortStable(front, dayOf, k);
      InsertStable(SortNewestFirst(front, dayOf), x, dayOf, k);
      WithKeySnoc(front, x, dayOf, k);
    }
  }

  // ---------------------------------------------------------------------
  // Per-day summary

  /** `dayRecords.reduce((sum, r) => sum + r.qty, 0)`. */
  function SumQty(rs: seq<Delivery>): int {
    if rs == [] then 0 else SumQty(rs[..|rs| - 1]) + rs[|rs| - 1].qty
  }

  /** `dayRecords.reduce((sum, r) => sum + r.total, 0)`. */
  function SumTotal(rs: seq<Delivery>): int {
    if rs == [] then 0 else SumTotal(rs[..|rs| - 1]) + rs[|rs| - 1].total
  }

  datatype DaySummary = DaySummary(totalQty: int, totalAmount: int, unexportedCount: nat, exportedCount: nat)

  /** Exported and unexported records split a day between them. */
  lemma ExportStateSplit(day: seq<Delivery>)
    ensures |WithKey(day, IsExported, false)| + |WithKey(day, IsExported, true)| == |day|
  {
    assert Distinct([false, true]);
    GroupSizesSum(day, IsExported, [false, true]);
    assert [false, true][..1] == [false];
  }

  function Summarise(day: seq<Delivery>): (s: DaySummary)
    ensures s.unexportedCount == |WithKey(day, IsExported, false)|
    ensures s.exportedCount == |WithKey(day, IsExported, true)|
    ensures s.unexportedCount + s.exportedCount == |day|
    ensures s.unexportedCount > 0 <==> exists r :: r in day && !r.exported
    ensures s.exportedCount > 0 <==> exists r :: r in day && r.exported
    ensures s.totalQty == SumQty(day) && s.totalAmount == SumTotal(day)
  {
    ExportStateSplit(day);
    WithKeyNonEmpty(day, IsExported, false);
    WithKeyNonEmpty(day, IsExported, true);
    DaySummary(SumQty(day), SumTotal(day), |WithKey(day, IsExported, false)|, |WithKey(day, IsExported, true)|)
  }

  /** Left border colour of a day's block. */
  datatype Border = Danger | Accent

  /** What one day's block shows: its records in scan order, its summary,
      its border and which of the two count badges appear. */
  datatype DayPanel = DayPanel(
    date: string,
    records: seq<Delivery>,
    summary: DaySummary,
    border: Border,
    unexportedBadge: bool,
    exportedBadge: bool)

  function Panel(date: string, day: seq<Delivery>): (p: DayPanel)
    ensures p.date == date && p.records == day && p.summary == Summarise(day)
    ensures p.border == Danger <==> exists r :: r in day && !r.exported
    ensures p.unexportedBadge <==> exists r :: r in day && !r.exported
    ensures p.exportedBadge <==> exists r :: r in day && r.exported
  {
    var s := Summarise(day);
    DayPanel(date, day, s, if s.unexportedCount > 0 then Danger else Accent,
             s.unexportedCount > 0, s.exportedCount > 0)
  }

  // ---------------------------------------------------------------------
  // The whole view

  /** `recordCount` and `|days|` are the two numbers of the header line. */
  datatype View = View(recordCount: nat, days: seq<DayPanel>)

  function PanelDates(ps: seq<DayPanel>): seq<string> {
    seq(|ps|, i requires 0 <= i < |ps| => ps[i].date)
  }

  /** What `showDataViewModal(records)` puts on screen. */
  ghost predicate ViewOf(v: View, records: seq<Delivery>, dayOf: string -> int) {
    var dates := PanelDates(v.days);
    && v.recordCount == |records|
    && NewestFirst(dates, dayOf)
    && (forall k :: WithKey(dates, dayOf, k) == WithKey(KeysInOrder(records, DateOf), dayOf, k))
    && Distinct(dates)
    && (forall d :: d in dates <==> exists r :: r in records && r.date == d)
    && (forall i :: 0 <= i < |v.days| ==> v.days[i] == Panel(dates[i], WithKey(records, DateOf, dates[i])))
    && SumSizes(records, DateOf, dates) == |records|
  }

  method ShowDataViewModal(records: seq<Delivery>, dayOf: string -> int) returns (v: View)
    ensures ViewOf(v, records, dayOf)
  {
    var groups, keys := GroupByDate(records);
    var dates := SortNewestFirst(keys, dayOf);
    assert forall d :: d in dates ==> d in groups;
    var days := seq(|dates|, k requires 0 <= k < |dates| => Panel(dates[k], groups[dates[k]]));
    v := View(|records|, days);
    ViewFromSortedKeys(v, records, groups, keys, dates, dayOf);
  }

  /** Sorting the distinct dates and building one panel per date yields the
      view of the records. */
  lemma ViewFromSortedKeys(v: View, records: seq<Delivery>, groups: map<string, seq<Delivery>>,
                           keys: seq<string>, dates: seq<string>, dayOf: string -> int)
    requires keys == KeysInOrder(records, DateOf)
    requires forall d :: d in groups ==> groups[d] == WithKey(records, DateOf, d)
    requires dates == SortNewestFirst(keys, dayOf)
    requires v.recordCount == |records| && |v.days| == |dates|
    requires forall k :: 0 <= k < |dates| ==> dates[k] in groups && v.days[k] == Panel(dates[k], groups[dates[k]])
    ensures ViewOf(v, records, dayOf)
  {
    assert PanelDates(v.days) == dates;
    SortedDates(records, keys, dates, dayOf);
  }

  /** The sorted date list names each date of the records once. */
  lemma SortedDates(records: seq<Delivery>, keys: seq<string>, dates: seq<string>, dayOf: string -> int)
    requires keys == KeysInOrder(records, DateOf)
    requires dates == SortNewestFirst(keys, dayOf)
    ensures NewestFirst(dates, dayOf) && Distinct(dates)
    ensures forall k :: WithKey(dates, dayOf, k) == WithKey(keys, dayOf, k)
    ensures forall d :: d in dates <==> exists r :: r in records && r.date == d
    ensures SumSizes(records, DateOf, dates) == |records|
  {
    forall k ensures WithKey(dates, dayOf, k) == WithKey(keys, dayOf, k) {
      SortStable(keys, dayOf, k);
    }
    GroupingFacts(records);
    PermutationKeepsDistinct(keys, dates);
    assert forall r :: r in records ==> DateOf(r) in dates;
    GroupSizesSum(records, DateOf, dates);
  }

  // ---------------------------------------------------------------------
  // Filtering the rendered rows

  /** The three options of the export-state select. */
  datatype ExportFilter = All | OnlyUnexported | OnlyExported

  /** A rendered table row: its `data-exported` and `data-customer` values. */
  datatype Row = Row(exported: bool, customer: string)

  function RowOf(r: Delivery): Row { Row(r.exported, r.custName) }

  function RowsOfDay(day: seq<Delivery>): seq<Row> {
    seq(|day|, j requires 0 <= j < |day| => RowOf(day[j]))
  }

  /** The rows of every day block, in page order. */
  function RowsOf(v: View): seq<seq<Row>> {
    seq(|v.days|, i requires 0 <= i < |v.days| => RowsOfDay(v.days[i].records))
  }

  /** `toLowerCase`, on the Latin letters only: ASCII and full-width. */
  function LowerChar(c: char): char {
    if 'A' <= c <= 'Z' || 0xFF21 <= c as int <= 0xFF3A then (c as int + 32) as char else c
  }

  function Lower(s: string): string {
    seq(|s|, i requires 0 <= i < |s| => LowerChar(s[i]))
  }

  /** `needle` occurs in `hay` starting at position `i`. */
  predicate OccursAt(hay: string, needle: string, i: int) {
    0 <= i && i + |needle| <= |hay| && hay[i..i + |needle|] == needle
  }

  /** `hay.includes(needle)`, scanning left to right. */
  function Contains(hay: string, needle: string): bool
    decreases |hay|
  {
    if |needle| > |hay| then false
    else if hay[..|needle|] == needle then true
    else |hay| > 0 && Contains(hay[1..], needle)
  }

  lemma {:induction false} ContainsIff(hay: string, needle: string)
    ensures Contains(hay, needle) <==> exists i :: OccursAt(hay, needle, i)
    decreases |hay|
  {
    if |needle| > |hay| {
    } else if hay[..|needle|] == needle {
      assert OccursAt(hay, needle, 0);
    } else if |hay| > 0 {
      ContainsIff(hay[1..], needle);
      forall i ensures OccursAt(hay[1..], needle, i) <==> OccursAt(hay, needle, i + 1) {
        if 0 <= i && i + |needle| <= |hay| - 1 {
          assert hay[1..][i..i + |needle|] == hay[i + 1..i + 1 + |needle|];
        }
      }
      if exists i :: OccursAt(hay, needle, i) {
        var i :| OccursAt(hay, needle, i);
        assert i != 0;
        assert OccursAt(hay[1..], needle, i - 1);
      }
    }
  }

  /** The export-state test of a row (lines 271-272). */
  predicate StateMismatch(f: ExportFilter, exported: bool) {
    (f == OnlyUnexported && exported) || (f == OnlyExported && !exported)
  }

  /** The customer-name test of a row (line 275); `needle` is the search
      text already lower-cased. */
  predicate SearchMiss(needle: string, customer: string) {
    needle != [] && !Contains(Lower(customer), needle)
  }

  predicate RowShown(f: ExportFilter, needle: string, row: Row) {
    !StateMismatch(f, row.exported) && !SearchMiss(needle, row.customer)
  }

  /** The `customerFilter &&` guard changes nothing: a row misses the search
      exactly when the search text does not occur in its lower-cased name. */
  lemma SearchMissIff(needle: string, customer: string)
    ensures SearchMiss(needle, customer) <==> !exists i :: OccursAt(Lower(customer), needle, i)
  {
    ContainsIff(Lower(customer), needle);
    if needle == [] {
      assert OccursAt(Lower(customer), needle, 0);
    }
  }

  /** Number of shown rows of one day. */
  function ShownIn(rows: seq<Row>, f: ExportFilter, needle: string): (n: nat)
    ensures n <= |rows|
  {
    if rows == [] then 0
    else ShownIn(rows[..|rows| - 1], f, needle) + (if RowShown(f, needle, rows[|rows| - 1]) then 1 else 0)
  }

  /** Number of shown rows over all days. */
  function CountShown(days: seq<seq<Row>>, f: ExportFilter, needle: string): nat {
    if days == [] then 0
    else CountShown(days[..|days| - 1], f, needle) + ShownIn(days[|days| - 1], f, needle)
  }

  /** Number of days with at least one shown row. */
  function DaysShown(days: seq<seq<Row>>, f: ExportFilter, needle: string): nat {
    if days == [] then 0
    else DaysShown(days[..|days| - 1], f, needle) + (if ShownIn(days[|days| - 1], f, needle) > 0 then 1 else 0)
  }

  lemma {:induction false} ShownInPositive(rows: seq<Row>, f: ExportFilter, needle: string)
    ensures ShownIn(rows, f, needle) > 0 <==> exists j :: 0 <= j < |rows| && RowShown(f, needle, rows[j])
  {
    if rows != [] {
      var front := rows[..|rows| - 1];
      ShownInPositive(front, f, needle);
      assert forall j :: 0 <= j < |front| ==> front[j] == rows[j];
    }
  }

  /** The inner `rows.forEach` of `filterDataView()`: decides each row of
      one day block and counts the shown ones. */
  method FilterDay(rows: seq<Row>, f: ExportFilter, needle: string)
    returns (rowShown: seq<bool>, inDay: nat, dayHasVisible: bool)
    ensures RowsDecided(rowShown, rows, needle, f)
    ensures inDay == ShownIn(rows, f, needle)
    ensures dayHasVisible <==> inDay > 0
  {
    rowShown, inDay, dayHasVisible := [], 0, false;
    var j := 0;
    while j < |rows|
      invariant 0 <= j <= |rows|
      invariant |rowShown| == j
      invariant forall k :: 0 <= k < j ==> (rowShown[k] <==> RowShown(f, needle, rows[k]))
      invariant inDay == ShownIn(rows[..j], f, needle)
      invariant dayHasVisible <==> inDay > 0
    {
      var row := rows[j];
      var showRow := true;
      if f == OnlyUnexported && row.exported { showRow := false; }
      if f == OnlyExported && !row.exported { showRow := false; }
      if needle != [] && !Contains(Lower(row.customer), needle) { showRow := false; }
      assert rows[..j + 1][..j] == rows[..j];
      if showRow {
        inDay := inDay + 1;
        dayHasVisible := true;
      }
      rowShown := rowShown + [showRow];
      j := j + 1;
    }
    assert rows[..j] == rows;
  }

  /** `filterDataView()`: decides each row and each day block, and counts
      the visible rows and days for the result line. */
  method FilterDataView(days: seq<seq<Row>>, f: ExportFilter, search: string)
    returns (shown: seq<seq<bool>>, dayShown: seq<bool>, visibleCount: nat, visibleDays: nat)
    ensures |shown| == |days| && |dayShown| == |days|
    ensures forall i :: 0 <= i < |days| ==> RowsDecided(shown[i], days[i], Lower(search), f)
    ensures forall i :: 0 <= i < |days| ==>
              (dayShown[i] <==> exists j :: 0 <= j < |days[i]| && RowShown(f, Lower(search), days[i][j]))
    ensures visibleCount == CountShown(days, f, Lower(search))
    ensures visibleDays == DaysShown(days, f, Lower(search))
  {
    var needle := Lower(search);
    shown, dayShown := [], [];
    visibleCount, visibleDays := 0, 0;
    var i := 0;
    while i < |days|
      invariant 0 <= i <= |days|
      invariant |shown| == i && |dayShown| == i
      invariant forall k :: 0 <= k < i ==> DayDecided(shown[k], dayShown[k], days[k], needle, f)
      invariant visibleCount == CountShown(days[..i], f, needle)
      invariant visibleDays == DaysShown(days[..i], f, needle)
    {
      var rowShown, inDay, dayHasVisible := FilterDay(days[i], f, needle);
      TallyStep(days, i, f, needle);
      visibleCount := visibleCount + inDay;
      if dayHasVisible {
        visibleDays := visibleDays + 1;
      }
      shown := shown + [rowShown];
      dayShown := dayShown + [dayHasVisible];
      i := i + 1;
    }
    assert days[..i] == days;
    DaysDecided(days, shown, dayShown, f, needle);
  }

  /** Row decisions and day decision of one day block. */
  predicate DayDecided(rowShown: seq<bool>, dayShown: bool, rows: seq<Row>, needle: string, f: ExportFilter) {
    RowsDecided(rowShown, rows, needle, f) && (dayShown <==> ShownIn(rows, f, needle) > 0)
  }

  /** Counting one more day block adds its shown rows and, if it has any,
      one shown day. */
  lemma TallyStep(days: seq<seq<Row>>, i: nat, f: ExportFilter, needle: string)
    requires i < |days|
    ensures CountShown(days[..i + 1], f, needle) == CountShown(days[..i], f, needle) + ShownIn(days[i], f, needle)
    ensures DaysShown(days[..i + 1], f, needle)
            == DaysShown(days[..i], f, needle) + (if ShownIn(days[i], f, needle) > 0 then 1 else 0)
  {
    assert days[..i + 1][..i] == days[..i];
  }

  /** A day block is shown exactly when one of its rows is. */
  lemma DaysDecided(days: seq<seq<Row>>, shown: seq<seq<bool>>, dayShown: seq<bool>, f: ExportFilter, needle: string)
    requires |shown| == |days| && |dayShown| == |days|
    requires forall k :: 0 <= k < |days| ==> DayDecided(shown[k], dayShown[k], days[k], needle, f)
    ensures forall k :: 0 <= k < |days| ==> RowsDecided(shown[k], days[k], needle, f)
    ensures forall k :: 0 <= k < |days| ==>
              (dayShown[k] <==> exists j :: 0 <= j < |days[k]| && RowShown(f, needle, days[k][j]))
  {
    forall k | 0 <= k < |days| {
      ShownInPositive(days[k], f, needle);
    }
  }

  /** `bs` holds the display decision of each row of `rows`. */
  predicate RowsDecided(bs: seq<bool>, rows: seq<Row>, needle: string, f: ExportFilter) {
    |bs| == |rows| && forall j :: 0 <= j < |rows| ==> (bs[j] <==> RowShown(f, needle, rows[j]))
  }

  // ---------------------------------------------------------------------
  // What the filter shows of a view

  function TotalRows(days: seq<seq<Row>>): nat {
    if days == [] then 0 else TotalRows(days[..|days| - 1]) + |days[|days| - 1]|
  }

  function NonEmptyDays(days: seq<seq<Row>>): nat {
    if days == [] then 0 else NonEmptyDays(days[..|days| - 1]) + (if days[|days| - 1] != [] then 1 else 0)
  }

  /** With filter `all` and an empty search every row is shown. */
  lemma {:induction false} NoFilterShowsAll(days: seq<seq<Row>>)
    ensures CountShown(days, All, []) == TotalRows(days)
    ensures DaysShown(days, All, []) == NonEmptyDays(days)
  {
    if days != [] {
      NoFilterShowsAll(days[..|days| - 1]);
      AllRowsShown(days[|days| - 1]);
    }
  }

  lemma {:induction false} AllRowsShown(rows: seq<Row>)
    ensures ShownIn(rows, All, []) == |rows|
  {
    if rows != [] {
      AllRowsShown(rows[..|rows| - 1]);
    }
  }

  /** The rows of the view add up to the records, and no day is empty. */
  lemma ViewRowsCount(v: View, records: seq<Delivery>, dayOf: string -> int)
    requires ViewOf(v, records, dayOf)
    ensures TotalRows(RowsOf(v)) == |records|
    ensures NonEmptyDays(RowsOf(v)) == |v.days|
  {
    var dates := PanelDates(v.days);
    forall i | 0 <= i < |v.days| ensures v.days[i].records != [] {
      assert dates[i] in dates;
      WithKeyNonEmpty(records, DateOf, dates[i]);
    }
    RowsMatchGroups(v.days, records, dates);
  }

  lemma {:induction false} RowsMatchGroups(ps: seq<DayPanel>, records: seq<Delivery>, dates: seq<string>)
    requires |ps| == |dates|
    requires forall i :: 0 <= i < |ps| ==> ps[i].records == WithKey(records, DateOf, dates[i])
    requires forall i :: 0 <= i < |ps| ==> ps[i].records != []
    ensures TotalRows(RowsOf(View(0, ps))) == SumSizes(records, DateOf, dates)
    ensures NonEmptyDays(RowsOf(View(0, ps))) == |ps|
  {
    if ps != [] {
      var n := |ps| - 1;
      RowsMatchGroups(ps[..n], records, dates[..n]);
      assert RowsOf(View(0, ps))[..n] == RowsOf(View(0, ps[..n]));
    }
  }

  /** Opening the view, or choosing `all` with an empty search, shows
      every record and every day: the result line then agrees with the
      header line. */
  lemma ViewInitiallyShowsAll(v: View, records: seq<Delivery>, dayOf: string -> int)
    requires ViewOf(v, records, dayOf)
    ensures CountShown(RowsOf(v), All, []) == v.recordCount
    ensures DaysShown(RowsOf(v), All, []) == |v.days|
  {
    NoFilterShowsAll(RowsOf(v));
    ViewRowsCount(v, records, dayOf);
  }

  /** With filter `unexported` and no search, a day block stays visible
      exactly when its border is the danger colour, and it shows as many
      rows as its unexported badge counts. */
  lemma UnexportedFilterMatchesBorder(p: DayPanel)
    requires p == Panel(p.date, p.records)
    ensures ShownIn(RowsOfDay(p.records), OnlyUnexported, []) == p.summary.unexportedCount
    ensures ShownIn(RowsOfDay(p.records), OnlyUnexported, []) > 0 <==> p.border == Danger
  {
    UnexportedRows(p.records);
  }

  lemma {:induction false} UnexportedRows(day: seq<Delivery>)
    ensures ShownIn(RowsOfDay(day), OnlyUnexported, []) == |WithKey(day, IsExported, false)|
  {
    if day != [] {
      var n := |day| - 1;
      UnexportedRows(day[..n]);
      assert RowsOfDay(day)[..n] == RowsOfDay(day[..n]);
    }
  }
}
