/** Expansion analysis for the Southeast region: year-2028 capacity and
    usage per cell and site type, merged with search demand, with general
    demand redistributed over the site types and a shortfall ratio per type. */
module Expansion {
  import opened Options
  import opened Dates
  import opened Records
  import opened Aggregate
  import opened Proration

  /** Four parallel figures of one row or cell: overall, RV, tent, and
      structure (called glamping on the search side). */
  datatype Columns = Columns(total: real, rv: real, tent: real, structure: real)

  const NoColumns := Columns(0.0, 0.0, 0.0, 0.0)

  /** Mismatch ratio standing for "demand but no supply". */
  const UnboundedMismatch: real := 10.0

  predicate InSoutheast(f: Facility) {
    f.region == "Southeast" && f.wentLive.Some?
  }

  function SoutheastFacilities(fs: seq<Facility>): (r: seq<Facility>)
    ensures forall f :: f in r <==> f in fs && InSoutheast(f)
    ensures forall f {:trigger Occurrences(r, f)} :: Occurrences(r, f) == if InSoutheast(f) then Occurrences(fs, f) else 0
  {
    if |fs| == 0 then []
    else
      var rest := SoutheastFacilities(fs[1..]);
      assert fs == [fs[0]] + fs[1..];
      assert forall f :: f in fs <==> f == fs[0] || f in fs[1..];
      if InSoutheast(fs[0]) then [fs[0]] + rest else rest
  }

  // ---------------------------------------------------------------------
  // Capacity

  /** Days of 2028 on which the facility is listed: its lifetime
      [went live, 2099-12-31] against the year, both inclusive. */
  function DaysLive(f: Facility): (n: int)
    ensures 0 <= n <= 366
    ensures f.wentLive.None? ==> n == 0
    ensures f.wentLive.Some? && f.wentLive.value <= AnalysisStart ==> n == 366
    ensures f.wentLive.Some? && AnalysisStart <= f.wentLive.value <= AnalysisEnd ==> n == AnalysisEnd - f.wentLive.value + 1
    ensures f.wentLive.Some? && f.wentLive.value > AnalysisEnd ==> n == 0
  {
    if f.wentLive.None? then 0
    else
      DaysLiveBound(f.wentLive.value);
      DaysInOverlap(f.wentLive.value, FarFuture, AnalysisStart, AnalysisEnd)
  }

  /** A facility's 2028 capacity in site-nights, overall and per type: the
      days it is live in 2028 (all 366, from its go-live date to year end,
      or none) times each site count. */
  function YearCapacity(f: Facility): (c: Columns)
    ensures f.wentLive.None? ==> c == NoColumns
    ensures f.wentLive.Some? && f.wentLive.value <= AnalysisStart ==>
              c == Columns((366 * f.sites) as real, (366 * f.rvSites) as real,
                           (366 * f.tentSites) as real, (366 * f.structureSites) as real)
    ensures f.wentLive.Some? && AnalysisStart <= f.wentLive.value <= AnalysisEnd ==>
              var days := AnalysisEnd - f.wentLive.value + 1;
              c == Columns((days * f.sites) as real, (days * f.rvSites) as real,
                           (days * f.tentSites) as real, (days * f.structureSites) as real)
    ensures f.wentLive.Some? && f.wentLive.value > AnalysisEnd ==> c == NoColumns
  {
    var days := DaysLive(f);
    Columns((days * f.sites) as real, (days * f.rvSites) as real,
            (days * f.tentSites) as real, (days * f.structureSites) as real)
  }

  /** With non-negative site counts every capacity figure lies between 0 and
      366 nights of that many sites. */
  lemma YearCapacityBounds(f: Facility)
    requires f.sites >= 0 && f.rvSites >= 0 && f.tentSites >= 0 && f.structureSites >= 0
    ensures var c := YearCapacity(f);
            && 0.0 <= c.total <= (366 * f.sites) as real
            && 0.0 <= c.rv <= (366 * f.rvSites) as real
            && 0.0 <= c.tent <= (366 * f.tentSites) as real
            && 0.0 <= c.structure <= (366 * f.structureSites) as real
  {
    var d := DaysLive(f);
    SiteNightsBounds(d, f.sites);
    SiteNightsBounds(d, f.rvSites);
    SiteNightsBounds(d, f.tentSites);
    SiteNightsBounds(d, f.structureSites);
  }

  lemma SiteNightsBounds(days: int, sites: int)
    requires 0 <= days <= 366 && sites >= 0
    ensures 0 <= days * sites <= 366 * sites
  {
  }

  // ---------------------------------------------------------------------
  // Usage

  /** A booking together with the cell of the facility it was made at. */
  datatype JoinedBooking = JoinedBooking(booking: Transaction, cell: Cell)

  /** Number of facilities in `fs` with the given uuid that lie in cell `c`. */
  function FacilitiesAt(uuid: string, c: Cell, fs: seq<Facility>): (n: nat)
    ensures n <= |fs|
    ensures n > 0 <==> exists f :: f in fs && f.uuid == uuid && f.cell == c
  {
    if |fs| == 0 then 0
    else
      assert forall f :: f in fs <==> f == fs[0] || f in fs[1..];
      (if fs[0].uuid == uuid && fs[0].cell == c then 1 else 0) + FacilitiesAt(uuid, c, fs[1..])
  }

  /** One joined row per facility whose uuid is the booking's. */
  function MatchesOf(t: Transaction, fs: seq<Facility>): (r: seq<JoinedBooking>)
    ensures forall b :: b in r ==> b.booking == t && exists f :: f in fs && f.uuid == t.facility && f.cell == b.cell
    ensures forall f :: f in fs && f.uuid == t.facility ==> JoinedBooking(t, f.cell) in r
    ensures forall b {:trigger Occurrences(r, b)} :: Occurrences(r, b) == if b.booking == t then FacilitiesAt(t.facility, b.cell, fs) else 0
  {
    if |fs| == 0 then []
    else
      var head := if fs[0].uuid == t.facility then [JoinedBooking(t, fs[0].cell)] else [];
      var rest := MatchesOf(t, fs[1..]);
      assert fs == [fs[0]] + fs[1..];
      assert forall f :: f in fs <==> f == fs[0] || f in fs[1..];
      MatchCountStep(t, fs[0], fs[1..], head, rest);
      head + rest
  }

  /** One step of a booking's matches: the first facility's row, if any,
      followed by the matches among the others. */
  lemma MatchCountStep(t: Transaction, f: Facility, tail: seq<Facility>, head: seq<JoinedBooking>, rest: seq<JoinedBooking>)
    requires head == if f.uuid == t.facility then [JoinedBooking(t, f.cell)] else []
    requires forall b {:trigger Occurrences(rest, b)} :: Occurrences(rest, b) == if b.booking == t then FacilitiesAt(t.facility, b.cell, tail) else 0
    ensures forall b {:trigger Occurrences(head + rest, b)} ::
              Occurrences(head + rest, b) == if b.booking == t then FacilitiesAt(t.facility, b.cell, [f] + tail) else 0
  {
    forall b ensures Occurrences(head + rest, b) == if b.booking == t then FacilitiesAt(t.facility, b.cell, [f] + tail) else 0 {
      assert Occurrences(head + rest, b) == Occurrences(head, b) + Occurrences(rest, b);
      assert ([f] + tail)[0] == f && ([f] + tail)[1..] == tail;
    }
  }

  /** Inner join of bookings with facilities on the facility uuid: every
      pair of a booking and a facility it names gives a row, as often as
      the booking occurs times the number of such facilities in that cell,
      and no other row is produced. */
  function JoinBookings(ts: seq<Transaction>, fs: seq<Facility>): (r: seq<JoinedBooking>)
    ensures forall b :: b in r ==> b.booking in ts && exists f :: f in fs && f.uuid == b.booking.facility && f.cell == b.cell
    ensures forall t, f :: t in ts && f in fs && f.uuid == t.facility ==> JoinedBooking(t, f.cell) in r
    ensures forall b {:trigger Occurrences(r, b)} :: Occurrences(r, b) == Occurrences(ts, b.booking) * FacilitiesAt(b.booking.facility, b.cell, fs)
  {
    if |ts| == 0 then []
    else
      var head, rest := MatchesOf(ts[0], fs), JoinBookings(ts[1..], fs);
      assert ts == [ts[0]] + ts[1..];
      assert forall t :: t in ts <==> t == ts[0] || t in ts[1..];
      JoinMultiplicityStep(ts[0], ts[1..], fs, head, rest);
      head + rest
  }

  /** One step of the join's multiplicity: the first booking's matches
      followed by the join of the others. */
  lemma JoinMultiplicityStep(t: Transaction, tail: seq<Transaction>, fs: seq<Facility>,
                             head: seq<JoinedBooking>, rest: seq<JoinedBooking>)
    requires forall b {:trigger Occurrences(head, b)} :: Occurrences(head, b) == if b.booking == t then FacilitiesAt(t.facility, b.cell, fs) else 0
    requires forall b {:trigger Occurrences(rest, b)} :: Occurrences(rest, b) == Occurrences(tail, b.booking) * FacilitiesAt(b.booking.facility, b.cell, fs)
    ensures forall b {:trigger Occurrences(head + rest, b)} ::
              Occurrences(head + rest, b) == Occurrences([t] + tail, b.booking) * FacilitiesAt(b.booking.facility, b.cell, fs)
  {
    forall b ensures Occurrences(head + rest, b) == Occurrences([t] + tail, b.booking) * FacilitiesAt(b.booking.facility, b.cell, fs) {
      var n := FacilitiesAt(b.booking.facility, b.cell, fs);
      var m := Occurrences(tail, b.booking);
      assert Occurrences(rest, b) == m * n;
      assert Occurrences(head + rest, b) == Occurrences(head, b) + Occurrences(rest, b);
      assert Occurrences([t] + tail, b.booking) == (if b.booking == t then 1 else 0) + m;
      if b.booking == t {
        OneMoreOccurrence(m, n);
      }
    }
  }

  lemma OneMoreOccurrence(m: int, n: int)
    ensures (1 + m) * n == n + m * n
  {
  }

  /** Days of 2028 a booking occupies: the inclusive overlap of
      [checkin, checkout - 1] with the year. A missing date yields no number
      in the source, which every group sum skips; it is 0 here. */
  function DaysBooked(t: Transaction): (n: int)
    ensures n >= 0
  {
    if t.checkin.None? || t.checkout.None? then 0
    else DaysInOverlap(t.checkin.value, t.checkout.value - 1, AnalysisStart, AnalysisEnd)
  }

  /** The inclusive days booked equal the 2028 nights of the proration, so
      both analyses agree on every booking. */
  lemma DaysBookedAreProratedNights(t: Transaction)
    ensures DaysBooked(t) == PartialOf(t, AnalysisStart, AnalysisEnd).nights
  {
    if t.checkin.Some? && t.checkout.Some? {
      ConventionsAgree(t.checkin.value, t.checkout.value, AnalysisStart, AnalysisEnd);
    }
  }

  /** Attribution of booked days to site types: RV-only to RV, tent-or-RV
      half to each, structure to structure, anything else to tent. */
  function UsageSplit(days: int, category: Option<string>): (u: Columns)
    ensures u.total == days as real
    ensures u.rv + u.tent + u.structure == u.total
    ensures category == Some("rv-only") ==> u.rv == u.total
    ensures category == Some("tent-or-rv") ==> u.rv == u.tent && u.structure == 0.0
    ensures category == Some("structure") ==> u.structure == u.total
    ensures category != Some("rv-only") && category != Some("tent-or-rv") ==> u.rv == 0.0
    ensures category != Some("structure") ==> u.structure == 0.0
  {
    var d := days as real;
    if category == Some("rv-only") then Columns(d, d, 0.0, 0.0)
    else if category == Some("tent-or-rv") then Columns(d, d / 2.0, d / 2.0, 0.0)
    else if category == Some("structure") then Columns(d, 0.0, 0.0, d)
    else Columns(d, 0.0, d, 0.0)
  }

  function BookingUsage(b: JoinedBooking): Columns {
    UsageSplit(DaysBooked(b.booking), b.booking.category)
  }

  // ---------------------------------------------------------------------
  // Demand, redistribution and mismatch

  function SearchDemand(s: SearchRecord): Columns {
    Columns(s.searchers as real, s.rvSearchers as real, s.tentSearchers as real, s.glampingSearchers as real)
  }

  /** Searchers who named no site type; negative when the typed counts
      exceed the total, and used as it is. */
  function GeneralSearchers(d: Columns): real {
    d.total - d.rv - d.tent - d.structure
  }

  function SumOfSpecified(d: Columns): real {
    d.rv + d.tent + d.structure
  }

  /** Adjusted demand: where some searchers named a type, the general
      searchers are shared out in proportion to the typed counts; elsewhere
      the raw counts stand. The total is kept. */
  function Redistribute(d: Columns): Columns {
    var general := GeneralSearchers(d);
    var specified := SumOfSpecified(d);
    if specified > 0.0 then
      Columns(d.total,
              d.rv + general * (d.rv / specified),
              d.tent + general * (d.tent / specified),
              d.structure + general * (d.structure / specified))
    else d
  }

  /** Redistribution conserves demand: with some typed searchers the adjusted
      type figures add up to all searchers exactly (general searchers may be
      negative), each being the raw count scaled by total/specified;
      without typed searchers nothing moves. */
  lemma RedistributionConserves(d: Columns)
    ensures Redistribute(d).total == d.total
    ensures SumOfSpecified(d) > 0.0 ==>
              var a := Redistribute(d);
              && a.rv + a.tent + a.structure == d.total
              && a.rv * SumOfSpecified(d) == d.rv * d.total
              && a.tent * SumOfSpecified(d) == d.tent * d.total
              && a.structure * SumOfSpecified(d) == d.structure * d.total
    ensures SumOfSpecified(d) <= 0.0 ==> Redistribute(d) == d
  {
    var s := SumOfSpecified(d);
    if s > 0.0 {
      var g := GeneralSearchers(d);
      assert g + s == d.total;
      ScaledShare(d.rv, g, s);
      ScaledShare(d.tent, g, s);
      ScaledShare(d.structure, g, s);
      var a := Redistribute(d);
      assert a.rv + a.tent + a.structure == (d.rv + d.tent + d.structure) * (1.0 + g / s);
      assert (d.rv + d.tent + d.structure) * (1.0 + g / s) == s + s * (g / s);
      assert s * (g / s) == g;
    }
  }

  lemma ScaledShare(x: real, g: real, s: real)
    requires s > 0.0
    ensures x + g * (x / s) == x * (1.0 + g / s)
    ensures (x + g * (x / s)) * s == x * (s + g)
  {
    assert g * (x / s) == x * (g / s);
    assert (g / s) * s == g;
  }

  /** Relative shortfall of supply against demand: 0 when demand does not
      exceed supply, (demand - supply) / supply otherwise, and the sentinel
      10 when there is demand but no supply. */
  function MismatchRatio(demand: real, supply: real): real {
    if supply > 0.0 && demand > supply then (demand - supply) / supply
    else if supply == 0.0 && demand > 0.0 then UnboundedMismatch
    else 0.0
  }

  /** Demand that supply cannot absorb, max(demand - supply, 0). */
  function Unfilled(demand: real, supply: real): (u: real)
    ensures u >= 0.0 && u >= demand - supply
    ensures u == 0.0 || u == demand - supply
  {
    if demand - supply > 0.0 then demand - supply else 0.0
  }

  /** The ratio measures the unfilled demand: with positive supply it is the
      unfilled demand per unit of supply; with no supply it is the sentinel
      exactly when some demand is unfilled; it is never negative for
      non-negative supply and positive exactly when demand is unfilled. */
  lemma MismatchMeasuresShortfall(demand: real, supply: real)
    ensures supply > 0.0 ==> MismatchRatio(demand, supply) * supply == Unfilled(demand, supply)
    ensures supply == 0.0 ==>
              (MismatchRatio(demand, supply) == UnboundedMismatch <==> Unfilled(demand, supply) > 0.0)
              && (MismatchRatio(demand, supply) == 0.0 <==> Unfilled(demand, supply) == 0.0)
    ensures supply >= 0.0 ==> MismatchRatio(demand, supply) >= 0.0
    ensures supply >= 0.0 ==> (MismatchRatio(demand, supply) > 0.0 <==> Unfilled(demand, supply) > 0.0)
    ensures demand <= supply ==> MismatchRatio(demand, supply) == 0.0
  {
    if supply > 0.0 && demand > supply {
      var q := (demand - supply) / supply;
      assert q * supply == demand - supply;
      assert q > 0.0;
    }
  }

  lemma SentinelExample()
    ensures MismatchRatio(50.0, 0.0) == 10.0
    ensures MismatchRatio(150.0, 100.0) == 0.5
    ensures MismatchRatio(80.0, 100.0) == 0.0
  {
  }

  function MaxOf3(a: real, b: real, c: real): (m: real)
    ensures m >= a && m >= b && m >= c
    ensures m == a || m == b || m == c
  {
    if a >= b && a >= c then a else if b >= c then b else c
  }

  // ---------------------------------------------------------------------
  // The per-cell table

  datatype ExpansionRow = ExpansionRow(
    cell: Cell,
    capacity: Columns,            // partial_capacity, rv/tent/structure_capacity
    used: Columns,                // used_site_nights and per-type used nights
    occupancyRate: real,
    searchers: Columns,           // searchers, rv/tent/glamping searchers
    priorityScore: real,
    generalSearchers: real,
    sumOfSpecified: real,
    adjusted: Columns,            // rv/tent/structure_searchers_adjusted
    rvMismatch: real,
    tentMismatch: real,
    structureMismatch: real,
    maxMismatch: real)

  /** All derived columns of one cell from its three merged groups. */
  function ExpansionRowFor(cell: Cell, capacity: Columns, used: Columns, demand: Columns): (r: ExpansionRow)
    ensures r.cell == cell && r.capacity == capacity && r.used == used && r.searchers == demand
    ensures RowInvariant(r)
  {
    var occupancy := OccupancyRate(capacity.total, used.total);
    var adjusted := Redistribute(demand);
    DemandSplitOfSearchers(demand);
    assert DemandSplit(demand, GeneralSearchers(demand), SumOfSpecified(demand), adjusted);
    var rv := MismatchRatio(adjusted.rv, capacity.rv);
    var tent := MismatchRatio(adjusted.tent, capacity.tent);
    var structure := MismatchRatio(adjusted.structure, capacity.structure);
    ExpansionRow(cell, capacity, used, occupancy, demand, occupancy * demand.total,
                 GeneralSearchers(demand), SumOfSpecified(demand), adjusted,
                 rv, tent, structure, MaxOf3(rv, tent, structure))
  }

  /** The four group sums of a list of per-row columns. */
  datatype Grouped = Grouped(total: map<Cell, real>, rv: map<Cell, real>, tent: map<Cell, real>, structure: map<Cell, real>)

  function Totals(cs: seq<Columns>): (r: seq<real>)
    ensures |r| == |cs| && forall i :: 0 <= i < |cs| ==> r[i] == cs[i].total
  {
    seq(|cs|, i requires 0 <= i < |cs| => cs[i].total)
  }

  function Rvs(cs: seq<Columns>): (r: seq<real>)
    ensures |r| == |cs| && forall i :: 0 <= i < |cs| ==> r[i] == cs[i].rv
  {
    seq(|cs|, i requires 0 <= i < |cs| => cs[i].rv)
  }

  function Tents(cs: seq<Columns>): (r: seq<real>)
    ensures |r| == |cs| && forall i :: 0 <= i < |cs| ==> r[i] == cs[i].tent
  {
    seq(|cs|, i requires 0 <= i < |cs| => cs[i].tent)
  }

  function Structures(cs: seq<Columns>): (r: seq<real>)
    ensures |r| == |cs| && forall i :: 0 <= i < |cs| ==> r[i] == cs[i].structure
  {
    seq(|cs|, i requires 0 <= i < |cs| => cs[i].structure)
  }

  function GroupColumns(keys: seq<Cell>, cs: seq<Columns>): Grouped
    requires |keys| == |cs|
  {
    Grouped(GroupSum(keys, Totals(cs)), GroupSum(keys, Rvs(cs)), GroupSum(keys, Tents(cs)), GroupSum(keys, Structures(cs)))
  }

  /** A cell's four group totals, 0 where the cell is missing. */
  function Lookup(g: Grouped, c: Cell): Columns {
    Columns(Get(g.total, c), Get(g.rv, c), Get(g.tent, c), Get(g.structure, c))
  }

  function ExpansionRows(cells: seq<Cell>, capacity: Grouped, used: Grouped, demand: Grouped): (rows: seq<ExpansionRow>)
    ensures |rows| == |cells|
    ensures forall i :: 0 <= i < |cells| ==> rows[i].cell == cells[i]
    ensures forall i :: 0 <= i < |cells| ==>
              rows[i].capacity == Lookup(capacity, cells[i]) && rows[i].used == Lookup(used, cells[i])
              && rows[i].searchers == Lookup(demand, cells[i])
    ensures forall i :: 0 <= i < |cells| ==>
              rows[i] == ExpansionRowFor(cells[i], Lookup(capacity, cells[i]), Lookup(used, cells[i]), Lookup(demand, cells[i]))
  {
    if |cells| == 0 then []
    else
      var c := cells[0];
      [ExpansionRowFor(c, Lookup(capacity, c), Lookup(used, c), Lookup(demand, c))]
        + ExpansionRows(cells[1..], capacity, used, demand)
  }

  function JoinedCells(bs: seq<JoinedBooking>): (r: seq<Cell>)
    ensures |r| == |bs| && forall i :: 0 <= i < |bs| ==> r[i] == bs[i].cell
  {
    seq(|bs|, i requires 0 <= i < |bs| => bs[i].cell)
  }

  function SearchCells(ss: seq<SearchRecord>): (r: seq<Cell>)
    ensures |r| == |ss| && forall i :: 0 <= i < |ss| ==> r[i] == ss[i].destination
  {
    seq(|ss|, i requires 0 <= i < |ss| => ss[i].destination)
  }

  function CapacityRows(fs: seq<Facility>): (r: seq<Columns>)
    ensures |r| == |fs| && forall i :: 0 <= i < |fs| ==> r[i] == YearCapacity(fs[i])
  {
    seq(|fs|, i requires 0 <= i < |fs| => YearCapacity(fs[i]))
  }

  function UsageRows(bs: seq<JoinedBooking>): (r: seq<Columns>)
    ensures |r| == |bs| && forall i :: 0 <= i < |bs| ==> r[i] == BookingUsage(bs[i])
  {
    seq(|bs|, i requires 0 <= i < |bs| => BookingUsage(bs[i]))
  }

  function DemandRows(ss: seq<SearchRecord>): (r: seq<Columns>)
    ensures |r| == |ss| && forall i :: 0 <= i < |ss| ==> r[i] == SearchDemand(ss[i])
  {
    seq(|ss|, i requires 0 <= i < |ss| => SearchDemand(ss[i]))
  }

  /** Outer merge of grouped capacity, usage and search demand, with every
      missing figure filled with 0, and the derived columns per cell. */
  function AssembleExpansion(capKeys: seq<Cell>, capRows: seq<Columns>, useKeys: seq<Cell>, useRows: seq<Columns>,
                             searchKeys: seq<Cell>, demandRows: seq<Columns>): seq<ExpansionRow>
    requires |capKeys| == |capRows| && |useKeys| == |useRows| && |searchKeys| == |demandRows|
  {
    ExpansionRows(Distinct(capKeys + useKeys + searchKeys),
                  GroupColumns(capKeys, capRows), GroupColumns(useKeys, useRows), GroupColumns(searchKeys, demandRows))
  }

  /** The expansion table of the Southeast region for 2028. */
  function ExpansionTable(facilities: seq<Facility>, transactions: seq<Transaction>, searches: seq<SearchRecord>): seq<ExpansionRow> {
    var se := SoutheastFacilities(facilities);
    var joined := JoinBookings(ValidTransactions(transactions), se);
    AssembleExpansion(FacilityCells(se), CapacityRows(se), JoinedCells(joined), UsageRows(joined),
                      SearchCells(searches), DemandRows(searches))
  }

  // ---------------------------------------------------------------------
  // Properties of the table

  /** The searcher columns of a row: the general and typed counts are those
      of the searchers, and the adjusted figures are the redistribution,
      which with typed searchers gives each type its proportional share of
      all searchers and otherwise keeps the raw counts. */
  predicate DemandSplit(searchers: Columns, general: real, specified: real, adjusted: Columns) {
    && specified == SumOfSpecified(searchers)
    && general == GeneralSearchers(searchers)
    && adjusted == Redistribute(searchers)
    && general + specified == searchers.total
    && (specified > 0.0 ==>
          && adjusted.rv * specified == searchers.rv * searchers.total
          && adjusted.tent * specified == searchers.tent * searchers.total
          && adjusted.structure * specified == searchers.structure * searchers.total
          && adjusted.rv + adjusted.tent + adjusted.structure == searchers.total)
    && (specified <= 0.0 ==> adjusted == searchers)
  }

  /** The columns ExpansionRowFor derives from a cell's searchers satisfy
      DemandSplit. */
  lemma DemandSplitOfSearchers(d: Columns)
    ensures DemandSplit(d, GeneralSearchers(d), SumOfSpecified(d), Redistribute(d))
  {
    RedistributionConserves(d);
  }

  /** What every expansion row satisfies, whatever its inputs. */
  predicate RowInvariant(r: ExpansionRow) {
    && r.occupancyRate == OccupancyRate(r.capacity.total, r.used.total)
    && (r.capacity.total <= 0.0 ==> r.occupancyRate == 0.0 && r.priorityScore == 0.0)
    && r.priorityScore == r.occupancyRate * r.searchers.total
    && DemandSplit(r.searchers, r.generalSearchers, r.sumOfSpecified, r.adjusted)
    && r.rvMismatch == MismatchRatio(r.adjusted.rv, r.capacity.rv)
    && r.tentMismatch == MismatchRatio(r.adjusted.tent, r.capacity.tent)
    && r.structureMismatch == MismatchRatio(r.adjusted.structure, r.capacity.structure)
    && r.maxMismatch >= r.rvMismatch && r.maxMismatch >= r.tentMismatch && r.maxMismatch >= r.structureMismatch
    && (r.maxMismatch == r.rvMismatch || r.maxMismatch == r.tentMismatch || r.maxMismatch == r.structureMismatch)
  }

  lemma {:induction false} AssembledRowsSatisfyInvariant(capKeys: seq<Cell>, capRows: seq<Columns>, useKeys: seq<Cell>, useRows: seq<Columns>,
                                                         searchKeys: seq<Cell>, demandRows: seq<Columns>)
    requires |capKeys| == |capRows| && |useKeys| == |useRows| && |searchKeys| == |demandRows|
    ensures var table := AssembleExpansion(capKeys, capRows, useKeys, useRows, searchKeys, demandRows);
            forall i :: 0 <= i < |table| ==> RowInvariant(table[i])
  {
    var cells := Distinct(capKeys + useKeys + searchKeys);
    var cap, use, dem := GroupColumns(capKeys, capRows), GroupColumns(useKeys, useRows), GroupColumns(searchKeys, demandRows);
    var table := ExpansionRows(cells, cap, use, dem);
    forall i | 0 <= i < |table| ensures RowInvariant(table[i]) {
      assert table[i] == ExpansionRowFor(cells[i], Lookup(cap, cells[i]), Lookup(use, cells[i]), Lookup(dem, cells[i]));
    }
  }

  /** Every cell's occupancy is guarded, its priority is occupancy times
      searchers, redistribution conserves its searchers, its three ratios are
      the shortfall ratios of adjusted demand against capacity, and its
      maximum ratio is the largest of the three. */
  lemma ExpansionRowsInvariant(facilities: seq<Facility>, transactions: seq<Transaction>, searches: seq<SearchRecord>)
    ensures var table := ExpansionTable(facilities, transactions, searches);
            forall i :: 0 <= i < |table| ==> RowInvariant(table[i])
  {
    var se := SoutheastFacilities(facilities);
    var joined := JoinBookings(ValidTransactions(transactions), se);
    AssembledRowsSatisfyInvariant(FacilityCells(se), CapacityRows(se), JoinedCells(joined), UsageRows(joined),
                                  SearchCells(searches), DemandRows(searches));
  }

  /** A cell's figures are the group totals of its rows on each side. */
  lemma {:induction false} AssembledValues(capKeys: seq<Cell>, capRows: seq<Columns>, useKeys: seq<Cell>, useRows: seq<Columns>,
                                           searchKeys: seq<Cell>, demandRows: seq<Columns>)
    requires |capKeys| == |capRows| && |useKeys| == |useRows| && |searchKeys| == |demandRows|
    ensures var table := AssembleExpansion(capKeys, capRows, useKeys, useRows, searchKeys, demandRows);
            forall i :: 0 <= i < |table| ==>
              && table[i].capacity == Columns(SumWhere(capKeys, Totals(capRows), table[i].cell), SumWhere(capKeys, Rvs(capRows), table[i].cell),
                                              SumWhere(capKeys, Tents(capRows), table[i].cell), SumWhere(capKeys, Structures(capRows), table[i].cell))
              && table[i].used == Columns(SumWhere(useKeys, Totals(useRows), table[i].cell), SumWhere(useKeys, Rvs(useRows), table[i].cell),
                                          SumWhere(useKeys, Tents(useRows), table[i].cell), SumWhere(useKeys, Structures(useRows), table[i].cell))
              && table[i].searchers == Columns(SumWhere(searchKeys, Totals(demandRows), table[i].cell), SumWhere(searchKeys, Rvs(demandRows), table[i].cell),
                                               SumWhere(searchKeys, Tents(demandRows), table[i].cell), SumWhere(searchKeys, Structures(demandRows), table[i].cell))
  {
  }

  /** Per cell, the RV, tent and structure nights add up to the nights booked. */
  lemma ExpansionUsageSplits(facilities: seq<Facility>, transactions: seq<Transaction>, searches: seq<SearchRecord>)
    ensures var table := ExpansionTable(facilities, transactions, searches);
            forall i :: 0 <= i < |table| ==>
              table[i].used.rv + table[i].used.tent + table[i].used.structure == table[i].used.total
  {
    var se := SoutheastFacilities(facilities);
    var joined := JoinBookings(ValidTransactions(transactions), se);
    AssembledUsageSplits(FacilityCells(se), CapacityRows(se), JoinedCells(joined), UsageRows(joined),
                         SearchCells(searches), DemandRows(searches));
  }

  /** Usage rows that split their total split it again once grouped per cell. */
  lemma AssembledUsageSplits(capKeys: seq<Cell>, capRows: seq<Columns>, useKeys: seq<Cell>, useRows: seq<Columns>,
                             searchKeys: seq<Cell>, demandRows: seq<Columns>)
    requires |capKeys| == |capRows| && |useKeys| == |useRows| && |searchKeys| == |demandRows|
    requires forall j :: 0 <= j < |useRows| ==> useRows[j].rv + useRows[j].tent + useRows[j].structure == useRows[j].total
    ensures var table := AssembleExpansion(capKeys, capRows, useKeys, useRows, searchKeys, demandRows);
            forall i :: 0 <= i < |table| ==>
              table[i].used.rv + table[i].used.tent + table[i].used.structure == table[i].used.total
  {
    var table := AssembleExpansion(capKeys, capRows, useKeys, useRows, searchKeys, demandRows);
    AssembledValues(capKeys, capRows, useKeys, useRows, searchKeys, demandRows);
    forall i | 0 <= i < |table|
      ensures table[i].used.rv + table[i].used.tent + table[i].used.structure == table[i].used.total
    {
      SumWhereAdditive(useKeys, Rvs(useRows), Tents(useRows), Structures(useRows), Totals(useRows), table[i].cell);
    }
  }

  lemma AssembledCapacityNonNegative(capKeys: seq<Cell>, capRows: seq<Columns>, useKeys: seq<Cell>, useRows: seq<Columns>,
                                     searchKeys: seq<Cell>, demandRows: seq<Columns>)
    requires |capKeys| == |capRows| && |useKeys| == |useRows| && |searchKeys| == |demandRows|
    requires forall j :: 0 <= j < |capRows| ==> capRows[j].rv >= 0.0 && capRows[j].tent >= 0.0 && capRows[j].structure >= 0.0
    ensures var table := AssembleExpansion(capKeys, capRows, useKeys, useRows, searchKeys, demandRows);
            forall i :: 0 <= i < |table| ==>
              table[i].capacity.rv >= 0.0 && table[i].capacity.tent >= 0.0 && table[i].capacity.structure >= 0.0
  {
    var cells := Distinct(capKeys + useKeys + searchKeys);
    var cap := GroupColumns(capKeys, capRows);
    var table := ExpansionRows(cells, cap, GroupColumns(useKeys, useRows), GroupColumns(searchKeys, demandRows));
    forall i | 0 <= i < |table|
      ensures table[i].capacity.rv >= 0.0 && table[i].capacity.tent >= 0.0 && table[i].capacity.structure >= 0.0
    {
      assert table[i].capacity == Lookup(cap, cells[i]);
      SumWhereNonNegative(capKeys, Rvs(capRows), cells[i]);
      SumWhereNonNegative(capKeys, Tents(capRows), cells[i]);
      SumWhereNonNegative(capKeys, Structures(capRows), cells[i]);
    }
  }

  lemma AssembledTotalCapacityNonNegative(capKeys: seq<Cell>, capRows: seq<Columns>, useKeys: seq<Cell>, useRows: seq<Columns>,
                                          searchKeys: seq<Cell>, demandRows: seq<Columns>)
    requires |capKeys| == |capRows| && |useKeys| == |useRows| && |searchKeys| == |demandRows|
    requires forall j :: 0 <= j < |capRows| ==> capRows[j].total >= 0.0
    ensures var table := AssembleExpansion(capKeys, capRows, useKeys, useRows, searchKeys, demandRows);
            forall i :: 0 <= i < |table| ==> table[i].capacity.total >= 0.0
  {
    var cells := Distinct(capKeys + useKeys + searchKeys);
    var cap := GroupColumns(capKeys, capRows);
    var table := ExpansionRows(cells, cap, GroupColumns(useKeys, useRows), GroupColumns(searchKeys, demandRows));
    forall i | 0 <= i < |table| ensures table[i].capacity.total >= 0.0 {
      assert table[i].capacity == Lookup(cap, cells[i]);
      SumWhereNonNegative(capKeys, Totals(capRows), cells[i]);
    }
  }

  /** Capacities are never negative when no facility has a negative site
      count of that type; the overall capacity is never negative when no
      facility has a negative total site count. */
  lemma ExpansionCapacityNonNegative(facilities: seq<Facility>, transactions: seq<Transaction>, searches: seq<SearchRecord>)
    requires forall f :: f in facilities ==> f.rvSites >= 0 && f.tentSites >= 0 && f.structureSites >= 0
    ensures var table := ExpansionTable(facilities, transactions, searches);
            forall i :: 0 <= i < |table| ==>
              table[i].capacity.rv >= 0.0 && table[i].capacity.tent >= 0.0 && table[i].capacity.structure >= 0.0
    ensures (forall f :: f in facilities ==> f.sites >= 0) ==>
              var table := ExpansionTable(facilities, transactions, searches);
              forall i :: 0 <= i < |table| ==> table[i].capacity.total >= 0.0
  {
    var se := SoutheastFacilities(facilities);
    var joined := JoinBookings(ValidTransactions(transactions), se);
    var capRows := CapacityRows(se);
    if forall f :: f in facilities ==> f.sites >= 0 {
      forall j | 0 <= j < |se| ensures capRows[j].total >= 0.0 {
        assert se[j] in facilities;
        SiteNightsBounds(DaysLive(se[j]), se[j].sites);
        assert capRows[j] == YearCapacity(se[j]);
      }
      AssembledTotalCapacityNonNegative(FacilityCells(se), capRows, JoinedCells(joined), UsageRows(joined),
                                        SearchCells(searches), DemandRows(searches));
    }
    forall j | 0 <= j < |se|
      ensures capRows[j].rv >= 0.0 && capRows[j].tent >= 0.0 && capRows[j].structure >= 0.0
    {
      assert se[j] in facilities;
      var d := DaysLive(se[j]);
      SiteNightsBounds(d, se[j].rvSites);
      SiteNightsBounds(d, se[j].tentSites);
      SiteNightsBounds(d, se[j].structureSites);
      assert capRows[j] == YearCapacity(se[j]);
    }
    AssembledCapacityNonNegative(FacilityCells(se), capRows, JoinedCells(joined), UsageRows(joined),
                                 SearchCells(searches), DemandRows(searches));
  }

  predicate HasExpansionCell(rows: seq<ExpansionRow>, c: Cell) {
    exists i :: 0 <= i < |rows| && rows[i].cell == c
  }

  lemma CellsOfRows(table: seq<ExpansionRow>, cells: seq<Cell>)
    requires |table| == |cells|
    requires forall i :: 0 <= i < |table| ==> table[i].cell == cells[i]
    ensures forall c :: HasExpansionCell(table, c) <==> c in cells
  {
    forall c ensures HasExpansionCell(table, c) <==> c in cells {
      if c in cells {
        var i :| 0 <= i < |cells| && cells[i] == c;
        assert table[i].cell == c;
      }
    }
  }

  lemma {:induction false} AssembledCells(capKeys: seq<Cell>, capRows: seq<Columns>, useKeys: seq<Cell>, useRows: seq<Columns>,
                                          searchKeys: seq<Cell>, demandRows: seq<Columns>)
    requires |capKeys| == |capRows| && |useKeys| == |useRows| && |searchKeys| == |demandRows|
    ensures var table := AssembleExpansion(capKeys, capRows, useKeys, useRows, searchKeys, demandRows);
            && (forall i, j :: 0 <= i < j < |table| ==> table[i].cell != table[j].cell)
            && forall c :: HasExpansionCell(table, c) <==> c in capKeys || c in useKeys || c in searchKeys
  {
    var keys := capKeys + useKeys + searchKeys;
    var cells := Distinct(keys);
    var table := ExpansionRows(cells, GroupColumns(capKeys, capRows), GroupColumns(useKeys, useRows), GroupColumns(searchKeys, demandRows));
    CellsOfRows(table, cells);
    assert forall c :: c in keys <==> c in capKeys || c in useKeys || c in searchKeys;
  }

  /** The table has one row per cell that holds a Southeast facility, a
      booking at one, or searches, and no other row. */
  lemma ExpansionCells(facilities: seq<Facility>, transactions: seq<Transaction>, searches: seq<SearchRecord>, c: Cell)
    ensures var table := ExpansionTable(facilities, transactions, searches);
            && (forall i, j :: 0 <= i < j < |table| ==> table[i].cell != table[j].cell)
            && (HasExpansionCell(table, c) <==>
                  c in FacilityCells(SoutheastFacilities(facilities))
                  || c in JoinedCells(JoinBookings(ValidTransactions(transactions), SoutheastFacilities(facilities)))
                  || exists s :: s in searches && s.destination == c)
  {
    var se := SoutheastFacilities(facilities);
    var joined := JoinBookings(ValidTransactions(transactions), se);
    AssembledCells(FacilityCells(se), CapacityRows(se), JoinedCells(joined), UsageRows(joined), SearchCells(searches), DemandRows(searches));
    if c in SearchCells(searches) {
      var k :| 0 <= k < |searches| && SearchCells(searches)[k] == c;
      assert searches[k] in searches;
    }
    if exists s :: s in searches && s.destination == c {
      var s :| s in searches && s.destination == c;
      var k :| 0 <= k < |searches| && searches[k] == s;
      assert SearchCells(searches)[k] == c;
    }
  }

  function TotalUsedNights(rows: seq<ExpansionRow>): real {
    if |rows| == 0 then 0.0 else rows[0].used.total + TotalUsedNights(rows[1..])
  }

  function TotalSearchers(rows: seq<ExpansionRow>): real {
    if |rows| == 0 then 0.0 else rows[0].searchers.total + TotalSearchers(rows[1..])
  }

  lemma {:induction false} UsedTotals(rows: seq<ExpansionRow>, cells: seq<Cell>, keys: seq<Cell>, vals: seq<real>)
    requires |rows| == |cells| && |keys| == |vals|
    requires forall i :: 0 <= i < |rows| ==> rows[i].used.total == SumWhere(keys, vals, cells[i])
    ensures TotalUsedNights(rows) == SumOverCells(cells, keys, vals)
  {
    if |rows| > 0 {
      UsedTotals(rows[1..], cells[1..], keys, vals);
    }
  }

  lemma {:induction false} SearcherTotals(rows: seq<ExpansionRow>, cells: seq<Cell>, keys: seq<Cell>, vals: seq<real>)
    requires |rows| == |cells| && |keys| == |vals|
    requires forall i :: 0 <= i < |rows| ==> rows[i].searchers.total == SumWhere(keys, vals, cells[i])
    ensures TotalSearchers(rows) == SumOverCells(cells, keys, vals)
  {
    if |rows| > 0 {
      SearcherTotals(rows[1..], cells[1..], keys, vals);
    }
  }

  lemma AssembledTotals(capKeys: seq<Cell>, capRows: seq<Columns>, useKeys: seq<Cell>, useRows: seq<Columns>,
                        searchKeys: seq<Cell>, demandRows: seq<Columns>)
    requires |capKeys| == |capRows| && |useKeys| == |useRows| && |searchKeys| == |demandRows|
    ensures var table := AssembleExpansion(capKeys, capRows, useKeys, useRows, searchKeys, demandRows);
            && TotalUsedNights(table) == Sum(Totals(useRows))
            && TotalSearchers(table) == Sum(Totals(demandRows))
  {
    var cells := Distinct(capKeys + useKeys + searchKeys);
    var use, dem := GroupColumns(useKeys, useRows), GroupColumns(searchKeys, demandRows);
    var table := ExpansionRows(cells, GroupColumns(capKeys, capRows), use, dem);
    forall i | 0 <= i < |table|
      ensures table[i].used.total == SumWhere(useKeys, Totals(useRows), cells[i])
      ensures table[i].searchers.total == SumWhere(searchKeys, Totals(demandRows), cells[i])
    {
      assert table[i].used == Lookup(use, cells[i]);
      assert table[i].searchers == Lookup(dem, cells[i]);
    }
    UsedTotals(table, cells, useKeys, Totals(useRows));
    SearcherTotals(table, cells, searchKeys, Totals(demandRows));
    assert forall k :: k in useKeys ==> k in capKeys + useKeys + searchKeys;
    assert forall k :: k in searchKeys ==> k in capKeys + useKeys + searchKeys;
    GroupingConserves(cells, useKeys, Totals(useRows));
    GroupingConserves(cells, searchKeys, Totals(demandRows));
  }

  /** No booked night and no searcher is lost or counted twice: the table's
      totals equal the totals over all joined bookings and all search
      records. */
  lemma ExpansionConserves(facilities: seq<Facility>, transactions: seq<Transaction>, searches: seq<SearchRecord>)
    ensures var table := ExpansionTable(facilities, transactions, searches);
            var joined := JoinBookings(ValidTransactions(transactions), SoutheastFacilities(facilities));
            && TotalUsedNights(table) == Sum(Totals(UsageRows(joined)))
            && TotalSearchers(table) == Sum(Totals(DemandRows(searches)))
  {
    var se := SoutheastFacilities(facilities);
    var joined := JoinBookings(ValidTransactions(transactions), se);
    AssembledTotals(FacilityCells(se), CapacityRows(se), JoinedCells(joined), UsageRows(joined),
                    SearchCells(searches), DemandRows(searches));
  }

  /** A cancelled booking, wherever it sits in the input, changes nothing. */
  lemma ExpansionIgnoresCancelled(facilities: seq<Facility>, a: seq<Transaction>, t: Transaction, b: seq<Transaction>,
                                  searches: seq<SearchRecord>)
    requires t.cancelled
    ensures ExpansionTable(facilities, a + [t] + b, searches) == ExpansionTable(facilities, a + b, searches)
  {
    CancelledIsDropped(a, t, b);
  }

  // ---------------------------------------------------------------------
  // The scorer

  /** The capacity loop: one row of 2028 capacities per facility. */
  method YearCapacities(se: seq<Facility>) returns (capacityRows: seq<Columns>)
    ensures capacityRows == CapacityRows(se)
  {
    capacityRows := [];
    var i := 0;
    while i < |se|
      invariant 0 <= i <= |se|
      invariant |capacityRows| == i
      invariant forall j :: 0 <= j < i ==> capacityRows[j] == YearCapacity(se[j])
    {
      var row := se[i];
      var next: Columns;
      if row.wentLive.None? {
        next := NoColumns;
      } else {
        var daysLive := DaysInOverlap(row.wentLive.value, FarFuture, AnalysisStart, AnalysisEnd);
        next := Columns((daysLive * row.sites) as real, (daysLive * row.rvSites) as real,
                        (daysLive * row.tentSites) as real, (daysLive * row.structureSites) as real);
      }
      assert next == YearCapacity(se[i]);
      capacityRows := capacityRows + [next];
      i := i + 1;
    }
  }

  /** The usage loop: one row of booked 2028 days per joined booking, split
      by its category. */
  method BookedUsage(joined: seq<JoinedBooking>) returns (usageRows: seq<Columns>)
    ensures usageRows == UsageRows(joined)
  {
    usageRows := [];
    var i := 0;
    while i < |joined|
      invariant 0 <= i <= |joined|
      invariant |usageRows| == i
      invariant forall j :: 0 <= j < i ==> usageRows[j] == BookingUsage(joined[j])
    {
      var row := joined[i].booking;
      var daysBooked := 0;
      if row.checkin.Some? && row.checkout.Some? {
        daysBooked := DaysInOverlap(row.checkin.value, row.checkout.value - 1, AnalysisStart, AnalysisEnd);
      }
      var used := daysBooked as real;
      var cat := row.category;
      var next: Columns;
      if cat == Some("rv-only") {
        next := Columns(used, used, 0.0, 0.0);
      } else if cat == Some("tent-or-rv") {
        next := Columns(used, used / 2.0, used / 2.0, 0.0);
      } else if cat == Some("structure") {
        next := Columns(used, 0.0, 0.0, used);
      } else {
        next := Columns(used, 0.0, used, 0.0);
      }
      assert next == BookingUsage(joined[i]);
      usageRows := usageRows + [next];
      i := i + 1;
    }
  }

  /** The scorer: fills the capacity columns facility by facility and the
      usage columns booking by booking, then groups, merges and derives the
      table. */
  method ComputeExpansion(facilities: seq<Facility>, transactions: seq<Transaction>, searches: seq<SearchRecord>)
    returns (table: seq<ExpansionRow>)
    ensures table == ExpansionTable(facilities, transactions, searches)
  {
    var se := SoutheastFacilities(facilities);
    var capacityRows := YearCapacities(se);
    var joined := JoinBookings(ValidTransactions(transactions), se);
    var usageRows := BookedUsage(joined);
    table := AssembleExpansion(FacilityCells(se), capacityRows, JoinedCells(joined), usageRows,
                               SearchCells(searches), DemandRows(searches));
  }
}
