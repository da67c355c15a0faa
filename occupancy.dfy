/** Monthly occupancy per cell for a (month, category, weekend-only)
    selection: available site-nights of live facilities against used
    site-nights of non-cancelled bookings, both in month `month` of 2028. */
module Occupancy {
  import opened Options
  import opened Dates
  import opened Records
  import opened Aggregate

  /** Site count a facility offers for a category selector; an unknown
      selector falls back to the facility's total. */
  function SitesForCategory(f: Facility, category: string): (n: int)
    ensures category == "tent-or-rv" ==> n == f.tentSites + f.rvSites
    ensures category == "rv-only" ==> n == f.rvSites
    ensures category == "structure" ==> n == f.structureSites
    ensures category !in {"tent-or-rv", "rv-only", "structure"} ==> n == f.sites
  {
    if category == "All" then f.sites
    else if category == "tent-or-rv" then f.tentSites + f.rvSites
    else if category == "rv-only" then f.rvSites
    else if category == "structure" then f.structureSites
    else f.sites
  }

  /** First day a facility can supply nights inside the month. */
  function CapacityStart(f: Facility, monthStart: Day): (s: Day)
    ensures s >= monthStart && (f.wentLive.Some? ==> s >= f.wentLive.value)
    ensures s == monthStart || f.wentLive == Some(s)
  {
    if f.wentLive.Some? then Max(f.wentLive.value, monthStart) else monthStart
  }

  /** Site-nights a facility offers from its capacity start to the month's
      last day, counting every day or only Fridays, Saturdays and Sundays. */
  function MonthCapacity(f: Facility, monthStart: Day, monthEnd: Day, category: string, weekendOnly: bool): (c: int)
    ensures c >= 0
    ensures SitesForCategory(f, category) <= 0 ==> c == 0
    ensures c > 0 ==> CapacityStart(f, monthStart) <= monthEnd
    ensures c <= Max(monthEnd - monthStart + 1, 0) * Max(SitesForCategory(f, category), 0)
  {
    var start := CapacityStart(f, monthStart);
    var sites := SitesForCategory(f, category);
    if monthEnd < start || sites <= 0 then 0
    else if !weekendOnly then (monthEnd - start + 1) * sites
    else WeekendDaysBetween(start, monthEnd + 1) * sites
  }

  /** Capacity is never negative, is 0 for a facility that goes live after
      the month or offers no site of the category, is otherwise the
      inclusive day count times the sites (the Friday, Saturday and Sunday
      count times the sites for the weekend-only figure), and never exceeds
      a full month of every site. The weekend-only figure is never larger. */
  lemma MonthCapacityProperties(f: Facility, monthStart: Day, monthEnd: Day, category: string)
    requires f.wentLive.Some? && monthStart <= monthEnd
    ensures var all := MonthCapacity(f, monthStart, monthEnd, category, false);
            var weekend := MonthCapacity(f, monthStart, monthEnd, category, true);
            var sites := SitesForCategory(f, category);
            && 0 <= weekend <= all
            && (f.wentLive.value > monthEnd || sites <= 0 ==> all == 0)
            && (f.wentLive.value <= monthEnd && sites > 0 ==>
                  && all == (monthEnd - Max(f.wentLive.value, monthStart) + 1) * sites
                  && weekend == WeekendDaysBetween(Max(f.wentLive.value, monthStart), monthEnd + 1) * sites)
            && all <= Max(monthEnd - monthStart + 1, 0) * Max(sites, 0)
  {
    var start := CapacityStart(f, monthStart);
    var sites := SitesForCategory(f, category);
    if start <= monthEnd && sites > 0 {
      var days := monthEnd - start + 1;
      var weekendDays := WeekendDaysBetween(start, monthEnd + 1);
      assert weekendDays <= days;
      assert weekendDays * sites <= days * sites;
      assert days <= monthEnd - monthStart + 1;
      assert days * sites <= (monthEnd - monthStart + 1) * sites;
    }
  }

  /** A live facility with 10 sites from 2028-05-01 offers 300 site-nights
      in June under "All", and 130 on June's 13 weekend days. */
  lemma JuneCapacityExample()
    ensures MonthCapacity(Facility("f", "c", Some(121), "Southeast", 10, 0, 0, 0),
                          MonthStart(6), MonthEnd(6), "All", false) == 300
    ensures MonthCapacity(Facility("f", "c", Some(121), "Southeast", 10, 0, 0, 0),
                          MonthStart(6), MonthEnd(6), "All", true) == 130
  {
    JuneWindow();
    JuneWeekendDays();
  }

  /** June 2028 (days 152 to 181) has 13 Fridays, Saturdays and Sundays. */
  lemma JuneWeekendDays()
    ensures WeekendDaysBetween(152, 182) == 13
  {
    WeekendDaysPerWeek(152);
    WeekendDaysPerWeek(159);
    WeekendDaysPerWeek(166);
    WeekendDaysPerWeek(173);
    WeekendDaysSplit(152, 180, 182);
    WeekendDaysSplit(152, 159, 180);
    WeekendDaysSplit(159, 166, 180);
    WeekendDaysSplit(166, 173, 180);
    assert WeekendDaysBetween(180, 182) == 1;
  }

  /** Counting over [lo, hi) splits at any mid point. */
  lemma {:induction false} WeekendDaysSplit(lo: Day, mid: Day, hi: Day)
    requires lo <= mid <= hi
    ensures WeekendDaysBetween(lo, hi) == WeekendDaysBetween(lo, mid) + WeekendDaysBetween(mid, hi)
    decreases hi - mid
  {
    if hi > mid {
      WeekendDaysSplit(lo, mid, hi - 1);
    }
  }

  /** Bookings counted for a month: the checkout is on or before the month's
      last day, and the category matches exactly unless it is "All". */
  predicate KeptForMonth(t: Transaction, monthEnd: Day, category: string) {
    t.checkout.Some? && t.checkout.value <= monthEnd
    && (category == "All" || t.category == Some(category))
  }

  function KeptTransactions(ts: seq<Transaction>, monthEnd: Day, category: string): (r: seq<Transaction>)
    ensures forall t :: t in r <==> t in ts && KeptForMonth(t, monthEnd, category)
    ensures forall t {:trigger Occurrences(r, t)} :: Occurrences(r, t) == if KeptForMonth(t, monthEnd, category) then Occurrences(ts, t) else 0
  {
    if |ts| == 0 then []
    else
      var rest := KeptTransactions(ts[1..], monthEnd, category);
      assert ts == [ts[0]] + ts[1..];
      assert forall t :: t in ts <==> t == ts[0] || t in ts[1..];
      if KeptForMonth(ts[0], monthEnd, category) then [ts[0]] + rest else rest
  }

  /** Used site-nights of a booking in the month: nights of
      [max(checkin, month start), min(checkout, month end)), exclusive at the
      end, optionally counting only weekend days. A missing check-in date
      yields no number in the source, which the group sum skips; it is 0 here. */
  function MonthUsage(t: Transaction, monthStart: Day, monthEnd: Day, weekendOnly: bool): (u: int)
    ensures u >= 0
  {
    if t.checkin.None? || t.checkout.None? then 0
    else
      var overlapStart := Max(t.checkin.value, monthStart);
      var overlapEnd := Min(t.checkout.value, monthEnd);
      if overlapEnd <= overlapStart then 0
      else if !weekendOnly then overlapEnd - overlapStart
      else WeekendDaysBetween(overlapStart, overlapEnd)
  }

  /** Weekend-only usage never exceeds plain usage; with both dates known,
      plain usage is the length of [max(checkin, month start),
      min(checkout, month end)) and weekend usage its Friday, Saturday and
      Sunday count; for every booking the
      month keeps, plain usage is exactly its nights inside the month under
      the checkout-exclusive convention: the checkout filter makes the
      exclusive month end lose no night. */
  lemma MonthUsageProperties(t: Transaction, monthStart: Day, monthEnd: Day, category: string)
    ensures 0 <= MonthUsage(t, monthStart, monthEnd, true) <= MonthUsage(t, monthStart, monthEnd, false)
    ensures t.checkin.Some? && t.checkout.Some? ==>
              var lo := Max(t.checkin.value, monthStart);
              var hi := Min(t.checkout.value, monthEnd);
              && MonthUsage(t, monthStart, monthEnd, false) == Max(hi - lo, 0)
              && MonthUsage(t, monthStart, monthEnd, true) == WeekendDaysBetween(lo, hi)
    ensures t.checkin.None? || t.checkout.None? ==>
              MonthUsage(t, monthStart, monthEnd, false) == 0 && MonthUsage(t, monthStart, monthEnd, true) == 0
    ensures KeptForMonth(t, monthEnd, category) ==>
              MonthUsage(t, monthStart, monthEnd, false)
              == NightsInOverlap(t.checkin, t.checkout, monthStart, monthEnd)
  {
  }

  // ---------------------------------------------------------------------
  // Columns and the joined table

  function LiveFacilities(fs: seq<Facility>): (r: seq<Facility>)
    ensures forall f :: f in r <==> f in fs && f.wentLive.Some?
    ensures forall f {:trigger Occurrences(r, f)} :: Occurrences(r, f) == if f.wentLive.Some? then Occurrences(fs, f) else 0
  {
    if |fs| == 0 then []
    else
      var rest := LiveFacilities(fs[1..]);
      assert fs == [fs[0]] + fs[1..];
      assert forall f :: f in fs <==> f == fs[0] || f in fs[1..];
      if fs[0].wentLive.Some? then [fs[0]] + rest else rest
  }

  function BookingCells(ts: seq<Transaction>): (r: seq<Cell>)
    ensures |r| == |ts| && forall i :: 0 <= i < |ts| ==> r[i] == ts[i].cell
  {
    seq(|ts|, i requires 0 <= i < |ts| => ts[i].cell)
  }

  function CapacityColumn(fs: seq<Facility>, monthStart: Day, monthEnd: Day, category: string, weekendOnly: bool): (r: seq<real>)
    ensures |r| == |fs|
    ensures forall i :: 0 <= i < |fs| ==> r[i] == MonthCapacity(fs[i], monthStart, monthEnd, category, weekendOnly) as real
  {
    seq(|fs|, i requires 0 <= i < |fs| => MonthCapacity(fs[i], monthStart, monthEnd, category, weekendOnly) as real)
  }

  function UsageColumn(ts: seq<Transaction>, monthStart: Day, monthEnd: Day, weekendOnly: bool): (r: seq<real>)
    ensures |r| == |ts|
    ensures forall i :: 0 <= i < |ts| ==> r[i] == MonthUsage(ts[i], monthStart, monthEnd, weekendOnly) as real
  {
    seq(|ts|, i requires 0 <= i < |ts| => MonthUsage(ts[i], monthStart, monthEnd, weekendOnly) as real)
  }

  datatype OccupancyRow = OccupancyRow(cell: Cell, capacity: real, used: real, rate: real)

  /** One row per cell, each side filled with 0 where the cell is absent. */
  function OccupancyRows(cells: seq<Cell>, capacity: map<Cell, real>, usage: map<Cell, real>): (rows: seq<OccupancyRow>)
    ensures |rows| == |cells|
    ensures forall i :: 0 <= i < |cells| ==>
              rows[i] == OccupancyRow(cells[i], Get(capacity, cells[i]), Get(usage, cells[i]),
                                      OccupancyRate(Get(capacity, cells[i]), Get(usage, cells[i])))
  {
    if |cells| == 0 then []
    else
      var c := cells[0];
      [OccupancyRow(c, Get(capacity, c), Get(usage, c), OccupancyRate(Get(capacity, c), Get(usage, c)))]
        + OccupancyRows(cells[1..], capacity, usage)
  }

  /** Outer join of the grouped capacity and usage columns. */
  function JoinOccupancy(capKeys: seq<Cell>, capVals: seq<real>, useKeys: seq<Cell>, useVals: seq<real>): seq<OccupancyRow>
    requires |capKeys| == |capVals| && |useKeys| == |useVals|
  {
    OccupancyRows(Distinct(capKeys + useKeys), GroupSum(capKeys, capVals), GroupSum(useKeys, useVals))
  }

  /** The occupancy table for month `month` of 2028. */
  function OccupancyTable(facilities: seq<Facility>, transactions: seq<Transaction>,
                          month: int, category: string, weekendOnly: bool): seq<OccupancyRow>
    requires 1 <= month <= 12
  {
    var ms, me := MonthStart(month), MonthEnd(month);
    var live := LiveFacilities(facilities);
    var kept := KeptTransactions(ValidTransactions(transactions), me, category);
    JoinOccupancy(FacilityCells(live), CapacityColumn(live, ms, me, category, weekendOnly),
                  BookingCells(kept), UsageColumn(kept, ms, me, weekendOnly))
  }

  // ---------------------------------------------------------------------
  // Properties of the table

  predicate HasCell(rows: seq<OccupancyRow>, c: Cell) {
    exists i :: 0 <= i < |rows| && rows[i].cell == c
  }

  predicate CellsDistinct(rows: seq<OccupancyRow>) {
    forall i, j :: 0 <= i < j < |rows| ==> rows[i].cell != rows[j].cell
  }

  /** The outer join has exactly one row per key of either side. */
  lemma JoinOccupancyCells(capKeys: seq<Cell>, capVals: seq<real>, useKeys: seq<Cell>, useVals: seq<real>)
    requires |capKeys| == |capVals| && |useKeys| == |useVals|
    ensures CellsDistinct(JoinOccupancy(capKeys, capVals, useKeys, useVals))
    ensures forall c :: HasCell(JoinOccupancy(capKeys, capVals, useKeys, useVals), c) <==> c in capKeys || c in useKeys
  {
    var cells := Distinct(capKeys + useKeys);
    var table := JoinOccupancy(capKeys, capVals, useKeys, useVals);
    assert forall i :: 0 <= i < |table| ==> table[i].cell == cells[i];
    forall c ensures HasCell(table, c) <==> c in capKeys || c in useKeys {
      assert c in capKeys + useKeys <==> c in capKeys || c in useKeys;
      if c in cells {
        var i :| 0 <= i < |cells| && cells[i] == c;
        assert table[i].cell == c;
      }
    }
  }

  /** Each side's figure in a joined row is that side's group total for the
      row's cell (0 if the cell is missing from that side), and the rate is
      the guarded quotient. */
  lemma JoinOccupancyValues(capKeys: seq<Cell>, capVals: seq<real>, useKeys: seq<Cell>, useVals: seq<real>)
    requires |capKeys| == |capVals| && |useKeys| == |useVals|
    ensures var table := JoinOccupancy(capKeys, capVals, useKeys, useVals);
            forall i :: 0 <= i < |table| ==>
              && table[i].capacity == SumWhere(capKeys, capVals, table[i].cell)
              && table[i].used == SumWhere(useKeys, useVals, table[i].cell)
              && table[i].rate == OccupancyRate(table[i].capacity, table[i].used)
  {
  }

  lemma LiveFacilityCells(facilities: seq<Facility>, c: Cell)
    ensures c in FacilityCells(LiveFacilities(facilities)) <==>
              exists f :: f in facilities && f.wentLive.Some? && f.cell == c
  {
    var live := LiveFacilities(facilities);
    if c in FacilityCells(live) {
      var k :| 0 <= k < |live| && FacilityCells(live)[k] == c;
      assert live[k] in live;
    }
    if exists f :: f in facilities && f.wentLive.Some? && f.cell == c {
      var f :| f in facilities && f.wentLive.Some? && f.cell == c;
      var k :| 0 <= k < |live| && live[k] == f;
      assert FacilityCells(live)[k] == c;
    }
  }

  lemma KeptBookingCells(transactions: seq<Transaction>, monthEnd: Day, category: string, c: Cell)
    ensures c in BookingCells(KeptTransactions(ValidTransactions(transactions), monthEnd, category)) <==>
              exists t :: t in transactions && !t.cancelled && KeptForMonth(t, monthEnd, category) && t.cell == c
  {
    var valid := ValidTransactions(transactions);
    var kept := KeptTransactions(valid, monthEnd, category);
    if c in BookingCells(kept) {
      var k :| 0 <= k < |kept| && BookingCells(kept)[k] == c;
      assert kept[k] in kept;
      assert kept[k] in valid;
    }
    if exists t :: t in transactions && !t.cancelled && KeptForMonth(t, monthEnd, category) && t.cell == c {
      var t :| t in transactions && !t.cancelled && KeptForMonth(t, monthEnd, category) && t.cell == c;
      assert t in valid;
      assert t in kept;
      var k :| 0 <= k < |kept| && kept[k] == t;
      assert BookingCells(kept)[k] == c;
    }
  }

  /** Every cell of a live facility or of a counted non-cancelled booking has
      exactly one row, and no other cell has one. */
  lemma OccupancyCells(facilities: seq<Facility>, transactions: seq<Transaction>,
                       month: int, category: string, weekendOnly: bool, c: Cell)
    requires 1 <= month <= 12
    ensures CellsDistinct(OccupancyTable(facilities, transactions, month, category, weekendOnly))
    ensures HasCell(OccupancyTable(facilities, transactions, month, category, weekendOnly), c) <==>
              (exists f :: f in facilities && f.wentLive.Some? && f.cell == c)
              || (exists t :: t in transactions && !t.cancelled
                              && KeptForMonth(t, MonthEnd(month), category) && t.cell == c)
  {
    var ms, me := MonthStart(month), MonthEnd(month);
    var live := LiveFacilities(facilities);
    var kept := KeptTransactions(ValidTransactions(transactions), me, category);
    JoinOccupancyCells(FacilityCells(live), CapacityColumn(live, ms, me, category, weekendOnly),
                       BookingCells(kept), UsageColumn(kept, ms, me, weekendOnly));
    LiveFacilityCells(facilities, c);
    KeptBookingCells(transactions, me, category, c);
  }

  /** What one joined row states about its cell. */
  predicate RowMeaning(row: OccupancyRow, capKeys: seq<Cell>, capVals: seq<real>, useKeys: seq<Cell>, useVals: seq<real>)
    requires |capKeys| == |capVals| && |useKeys| == |useVals|
  {
    && row.capacity == SumWhere(capKeys, capVals, row.cell)
    && row.used == SumWhere(useKeys, useVals, row.cell)
    && row.capacity >= 0.0 && row.used >= 0.0
    && row.rate == OccupancyRate(row.capacity, row.used)
  }

  /** With non-negative columns, every joined row satisfies RowMeaning. */
  lemma {:induction false} JoinRowsMeaning(capKeys: seq<Cell>, capVals: seq<real>, useKeys: seq<Cell>, useVals: seq<real>)
    requires |capKeys| == |capVals| && |useKeys| == |useVals|
    requires forall j :: 0 <= j < |capVals| ==> capVals[j] >= 0.0
    requires forall j :: 0 <= j < |useVals| ==> useVals[j] >= 0.0
    ensures var table := JoinOccupancy(capKeys, capVals, useKeys, useVals);
            forall i :: 0 <= i < |table| ==> RowMeaning(table[i], capKeys, capVals, useKeys, useVals)
  {
    var table := JoinOccupancy(capKeys, capVals, useKeys, useVals);
    JoinOccupancyValues(capKeys, capVals, useKeys, useVals);
    forall i | 0 <= i < |table| ensures RowMeaning(table[i], capKeys, capVals, useKeys, useVals) {
      SumWhereNonNegative(capKeys, capVals, table[i].cell);
      SumWhereNonNegative(useKeys, useVals, table[i].cell);
    }
  }

  lemma CapacityColumnNonNegative(live: seq<Facility>, monthStart: Day, monthEnd: Day, category: string, weekendOnly: bool)
    requires monthStart <= monthEnd
    requires forall f :: f in live ==> f.wentLive.Some?
    ensures var col := CapacityColumn(live, monthStart, monthEnd, category, weekendOnly);
            forall j :: 0 <= j < |col| ==> col[j] >= 0.0
  {
    var col := CapacityColumn(live, monthStart, monthEnd, category, weekendOnly);
    forall j | 0 <= j < |col| ensures col[j] >= 0.0 {
      assert live[j] in live;
      MonthCapacityProperties(live[j], monthStart, monthEnd, category);
    }
  }

  /** Every row holds non-negative totals: its capacity is the total over the
      live facilities in its cell and its usage that over the counted
      bookings in its cell (0 for a side the cell is missing from); its rate
      is exactly 0 where capacity is 0 and used/capacity elsewhere. */
  lemma {:induction false} OccupancyRowsMeaning(facilities: seq<Facility>, transactions: seq<Transaction>,
                             month: int, category: string, weekendOnly: bool)
    requires 1 <= month <= 12
    ensures var ms, me := MonthStart(month), MonthEnd(month);
            var live := LiveFacilities(facilities);
            var kept := KeptTransactions(ValidTransactions(transactions), me, category);
            var table := OccupancyTable(facilities, transactions, month, category, weekendOnly);
            forall i :: 0 <= i < |table| ==>
              RowMeaning(table[i], FacilityCells(live), CapacityColumn(live, ms, me, category, weekendOnly),
                         BookingCells(kept), UsageColumn(kept, ms, me, weekendOnly))
  {
    var ms, me := MonthStart(month), MonthEnd(month);
    MonthsTileYear(month);
    var live := LiveFacilities(facilities);
    var kept := KeptTransactions(ValidTransactions(transactions), me, category);
    var capKeys, capVals := FacilityCells(live), CapacityColumn(live, ms, me, category, weekendOnly);
    var useKeys, useVals := BookingCells(kept), UsageColumn(kept, ms, me, weekendOnly);
    var table := JoinOccupancy(capKeys, capVals, useKeys, useVals);
    assert OccupancyTable(facilities, transactions, month, category, weekendOnly) == table;
    CapacityColumnNonNegative(live, ms, me, category, weekendOnly);
    JoinRowsMeaning(capKeys, capVals, useKeys, useVals);
  }

  function TotalCapacity(rows: seq<OccupancyRow>): real {
    if |rows| == 0 then 0.0 else rows[0].capacity + TotalCapacity(rows[1..])
  }

  function TotalUsed(rows: seq<OccupancyRow>): real {
    if |rows| == 0 then 0.0 else rows[0].used + TotalUsed(rows[1..])
  }

  lemma {:induction false} RowTotals(cells: seq<Cell>, capKeys: seq<Cell>, capVals: seq<real>, useKeys: seq<Cell>, useVals: seq<real>)
    requires |capKeys| == |capVals| && |useKeys| == |useVals|
    ensures TotalCapacity(OccupancyRows(cells, GroupSum(capKeys, capVals), GroupSum(useKeys, useVals)))
         == SumOverCells(cells, capKeys, capVals)
    ensures TotalUsed(OccupancyRows(cells, GroupSum(capKeys, capVals), GroupSum(useKeys, useVals)))
         == SumOverCells(cells, useKeys, useVals)
  {
    if |cells| > 0 {
      var rows := OccupancyRows(cells, GroupSum(capKeys, capVals), GroupSum(useKeys, useVals));
      assert rows[1..] == OccupancyRows(cells[1..], GroupSum(capKeys, capVals), GroupSum(useKeys, useVals));
      RowTotals(cells[1..], capKeys, capVals, useKeys, useVals);
    }
  }

  /** No site-night is lost or counted twice: the table's capacity and usage
      totals equal the totals over all live facilities and counted bookings. */
  lemma OccupancyConserves(facilities: seq<Facility>, transactions: seq<Transaction>,
                           month: int, category: string, weekendOnly: bool)
    requires 1 <= month <= 12
    ensures var ms, me := MonthStart(month), MonthEnd(month);
            var live := LiveFacilities(facilities);
            var kept := KeptTransactions(ValidTransactions(transactions), me, category);
            var table := OccupancyTable(facilities, transactions, month, category, weekendOnly);
            && TotalCapacity(table) == Sum(CapacityColumn(live, ms, me, category, weekendOnly))
            && TotalUsed(table) == Sum(UsageColumn(kept, ms, me, weekendOnly))
  {
    var ms, me := MonthStart(month), MonthEnd(month);
    var live := LiveFacilities(facilities);
    var kept := KeptTransactions(ValidTransactions(transactions), me, category);
    var capKeys, capVals := FacilityCells(live), CapacityColumn(live, ms, me, category, weekendOnly);
    var useKeys, useVals := BookingCells(kept), UsageColumn(kept, ms, me, weekendOnly);
    var cells := Distinct(capKeys + useKeys);
    RowTotals(cells, capKeys, capVals, useKeys, useVals);
    GroupingConserves(cells, capKeys, capVals);
    GroupingConserves(cells, useKeys, useVals);
  }

  /** The weekend-only table has the same cells as the plain one, and in every
      cell neither its capacity nor its usage is larger. */
  lemma WeekendNeverExceedsAllDays(facilities: seq<Facility>, transactions: seq<Transaction>,
                                   month: int, category: string)
    requires 1 <= month <= 12
    ensures var weekend := OccupancyTable(facilities, transactions, month, category, true);
            var all := OccupancyTable(facilities, transactions, month, category, false);
            && |weekend| == |all|
            && forall i :: 0 <= i < |all| ==>
                 weekend[i].cell == all[i].cell
                 && weekend[i].capacity <= all[i].capacity
                 && weekend[i].used <= all[i].used
  {
    var ms, me := MonthStart(month), MonthEnd(month);
    var live := LiveFacilities(facilities);
    var kept := KeptTransactions(ValidTransactions(transactions), me, category);
    var capKeys, useKeys := FacilityCells(live), BookingCells(kept);
    var capW, capA := CapacityColumn(live, ms, me, category, true), CapacityColumn(live, ms, me, category, false);
    var useW, useA := UsageColumn(kept, ms, me, true), UsageColumn(kept, ms, me, false);
    MonthsTileYear(month);
    forall j | 0 <= j < |live| ensures capW[j] <= capA[j] {
      MonthCapacityProperties(live[j], ms, me, category);
    }
    forall j | 0 <= j < |kept| ensures useW[j] <= useA[j] {
      MonthUsageProperties(kept[j], ms, me, category);
    }
    var cells := Distinct(capKeys + useKeys);
    forall c | c in cells
      ensures SumWhere(capKeys, capW, c) <= SumWhere(capKeys, capA, c)
      ensures SumWhere(useKeys, useW, c) <= SumWhere(useKeys, useA, c)
    {
      SumWhereMonotone(capKeys, capW, capA, c);
      SumWhereMonotone(useKeys, useW, useA, c);
    }
  }

  /** A cancelled booking, wherever it sits in the input, changes nothing. */
  lemma OccupancyIgnoresCancelled(facilities: seq<Facility>, a: seq<Transaction>, t: Transaction, b: seq<Transaction>,
                                  month: int, category: string, weekendOnly: bool)
    requires 1 <= month <= 12
    requires t.cancelled
    ensures OccupancyTable(facilities, a + [t] + b, month, category, weekendOnly)
         == OccupancyTable(facilities, a + b, month, category, weekendOnly)
  {
    CancelledIsDropped(a, t, b);
  }

  lemma {:induction false} KeptTransactionsAppend(a: seq<Transaction>, b: seq<Transaction>, monthEnd: Day, category: string)
    ensures KeptTransactions(a + b, monthEnd, category) == KeptTransactions(a, monthEnd, category) + KeptTransactions(b, monthEnd, category)
  {
    if |a| == 0 {
      assert a + b == b;
    } else {
      var ab := a + b;
      assert ab[0] == a[0];
      assert ab[1..] == a[1..] + b;
      KeptTransactionsAppend(a[1..], b, monthEnd, category);
      if KeptForMonth(a[0], monthEnd, category) {
        calc {
          KeptTransactions(ab, monthEnd, category);
          [a[0]] + KeptTransactions(ab[1..], monthEnd, category);
          [a[0]] + (KeptTransactions(a[1..], monthEnd, category) + KeptTransactions(b, monthEnd, category));
          ([a[0]] + KeptTransactions(a[1..], monthEnd, category)) + KeptTransactions(b, monthEnd, category);
        }
      } else {
        calc {
          KeptTransactions(ab, monthEnd, category);
          KeptTransactions(ab[1..], monthEnd, category);
          KeptTransactions(a[1..], monthEnd, category) + KeptTransactions(b, monthEnd, category);
        }
      }
    }
  }

  /** A booking that checks out after the month's last day (or has no
      checkout) changes nothing in that month's table, even when some of its
      nights fall inside the month: the checkout filter drops it entirely. */
  lemma OccupancyDropsBookingsPastMonthEnd(facilities: seq<Facility>, a: seq<Transaction>, t: Transaction, b: seq<Transaction>,
                                           month: int, category: string, weekendOnly: bool)
    requires 1 <= month <= 12
    requires t.checkout.None? || t.checkout.value > MonthEnd(month)
    ensures OccupancyTable(facilities, a + [t] + b, month, category, weekendOnly)
         == OccupancyTable(facilities, a + b, month, category, weekendOnly)
  {
    var me := MonthEnd(month);
    var va, vt, vb := ValidTransactions(a), ValidTransactions([t]), ValidTransactions(b);
    ValidTransactionsAppend(a + [t], b);
    ValidTransactionsAppend(a, [t]);
    ValidTransactionsAppend(a, b);
    assert [t][1..] == [];
    assert vt == [] || vt == [t];
    assert KeptTransactions(vt, me, category) == [] by {
      if vt == [t] {
        assert vt[1..] == [];
      }
    }
    KeptTransactionsAppend(va + vt, vb, me, category);
    KeptTransactionsAppend(va, vt, me, category);
    KeptTransactionsAppend(va, vb, me, category);
    assert KeptTransactions(va, me, category) + [] == KeptTransactions(va, me, category);
    assert KeptTransactions(ValidTransactions(a + [t] + b), me, category)
        == KeptTransactions(ValidTransactions(a + b), me, category);
  }

  // ---------------------------------------------------------------------
  // The calculator

  /** The capacity loop: one entry per live facility, 0 where the facility
      is not live by the month's end or offers no site of the category. */
  method MonthCapacities(live: seq<Facility>, monthStart: Day, monthEnd: Day, category: string, weekendOnly: bool)
    returns (capacityList: seq<real>)
    ensures capacityList == CapacityColumn(live, monthStart, monthEnd, category, weekendOnly)
  {
    capacityList := [];
    var i := 0;
    while i < |live|
      invariant 0 <= i <= |live|
      invariant |capacityList| == i
      invariant forall j :: 0 <= j < i ==>
                  capacityList[j] == MonthCapacity(live[j], monthStart, monthEnd, category, weekendOnly) as real
    {
      var f := live[i];
      var liveStart := CapacityStart(f, monthStart);
      var liveEnd := monthEnd;
      var catSites := SitesForCategory(f, category);
      var next: int;
      if liveEnd < liveStart || catSites <= 0 {
        next := 0;
      } else if !weekendOnly {
        var daysInWindow := liveEnd - liveStart + 1;
        next := daysInWindow * catSites;
      } else {
        var daysCount := CountWeekendDays(liveStart, liveEnd + 1);
        next := daysCount * catSites;
      }
      assert next == MonthCapacity(live[i], monthStart, monthEnd, category, weekendOnly);
      capacityList := capacityList + [next as real];
      i := i + 1;
    }
  }

  /** The usage loop: one entry per counted booking. */
  method MonthUsages(filtered: seq<Transaction>, monthStart: Day, monthEnd: Day, weekendOnly: bool)
    returns (usageList: seq<real>)
    ensures usageList == UsageColumn(filtered, monthStart, monthEnd, weekendOnly)
  {
    usageList := [];
    var i := 0;
    while i < |filtered|
      invariant 0 <= i <= |filtered|
      invariant |usageList| == i
      invariant forall j :: 0 <= j < i ==>
                  usageList[j] == MonthUsage(filtered[j], monthStart, monthEnd, weekendOnly) as real
    {
      var b := filtered[i];
      var next: int;
      if b.checkin.None? || b.checkout.None? {
        next := 0;
      } else {
        var overlapStart := Max(b.checkin.value, monthStart);
        var overlapEnd := Min(b.checkout.value, monthEnd);
        if overlapEnd <= overlapStart {
          next := 0;
        } else if !weekendOnly {
          next := overlapEnd - overlapStart;
        } else {
          next := CountWeekendDays(overlapStart, overlapEnd);
        }
      }
      assert next == MonthUsage(filtered[i], monthStart, monthEnd, weekendOnly);
      usageList := usageList + [next as real];
      i := i + 1;
    }
  }

  /** The calculator: builds the capacity list facility by facility and the
      usage list booking by booking, then groups and joins them; also returns
      the month's first and last day. */
  method ComputeOccupancy(facilities: seq<Facility>, transactions: seq<Transaction>,
                          month: int, category: string, weekendOnly: bool)
    returns (table: seq<OccupancyRow>, monthStart: Day, monthEnd: Day)
    requires 1 <= month <= 12
    ensures monthStart == MonthStart(month) && monthEnd == MonthEnd(month)
    ensures table == OccupancyTable(facilities, transactions, month, category, weekendOnly)
  {
    monthStart := MonthStart(month);
    monthEnd := MonthEnd(month);
    var live := LiveFacilities(facilities);
    var capacityList := MonthCapacities(live, monthStart, monthEnd, category, weekendOnly);
    var filtered := KeptTransactions(ValidTransactions(transactions), monthEnd, category);
    var usageList := MonthUsages(filtered, monthStart, monthEnd, weekendOnly);
    table := JoinOccupancy(FacilityCells(live), capacityList, BookingCells(filtered), usageList);
  }
}
