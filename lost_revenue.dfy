/** Estimate of the revenue lost to unmet Southeast demand: unfilled
    site-nights per cell, priced with the region's observed conversion rate
    and average nightly rate, and doubled for the average stay length. */
module LostRevenue {
  import opened Dates
  import opened Records
  import opened Aggregate
  import opened Proration
  import opened Expansion

  /** Multiplier applied to the summed per-cell loss (average booking length). */
  const AverageStayNights: real := 2.0

  // ---------------------------------------------------------------------
  // Southeast 2028 bookings

  /** The joined Southeast bookings with at least one night in 2028. */
  function WithNights2028(bs: seq<JoinedBooking>): (r: seq<JoinedBooking>)
    ensures |r| <= |bs|
    ensures forall b :: b in r <==> b in bs && PartialOf(b.booking, AnalysisStart, AnalysisEnd).nights > 0
    ensures forall b {:trigger Occurrences(r, b)} :: Occurrences(r, b) == if PartialOf(b.booking, AnalysisStart, AnalysisEnd).nights > 0 then Occurrences(bs, b) else 0
  {
    if |bs| == 0 then []
    else
      var rest := WithNights2028(bs[1..]);
      assert bs == [bs[0]] + bs[1..];
      assert forall b :: b in bs <==> b == bs[0] || b in bs[1..];
      if PartialOf(bs[0].booking, AnalysisStart, AnalysisEnd).nights > 0 then [bs[0]] + rest else rest
  }

  function SoutheastBookings2028(facilities: seq<Facility>, transactions: seq<Transaction>): seq<JoinedBooking> {
    WithNights2028(JoinBookings(ValidTransactions(transactions), SoutheastFacilities(facilities)))
  }

  /** The distinct booking identifiers of a list of joined rows. */
  function BookingIds(bs: seq<JoinedBooking>): (ids: set<string>)
    ensures |ids| <= |bs|
    ensures forall id :: id in ids <==> exists b :: b in bs && b.booking.booking == id
  {
    if |bs| == 0 then {}
    else
      var rest := BookingIds(bs[1..]);
      assert forall b :: b in bs <==> b == bs[0] || b in bs[1..];
      {bs[0].booking.booking} + rest
  }

  function Nights2028(bs: seq<JoinedBooking>): int {
    if |bs| == 0 then 0
    else PartialOf(bs[0].booking, AnalysisStart, AnalysisEnd).nights + Nights2028(bs[1..])
  }

  function Revenue2028(bs: seq<JoinedBooking>): real {
    if |bs| == 0 then 0.0
    else PartialOf(bs[0].booking, AnalysisStart, AnalysisEnd).revenue + Revenue2028(bs[1..])
  }

  /** The region's 2028 figures: distinct bookings, nights and revenue. */
  datatype RegionTotals = RegionTotals(bookings: int, nights: int, revenue: real)

  function SoutheastTotals(facilities: seq<Facility>, transactions: seq<Transaction>): RegionTotals {
    var bs := SoutheastBookings2028(facilities, transactions);
    RegionTotals(|BookingIds(bs)|, Nights2028(bs), Revenue2028(bs))
  }

  /** Over rows that each have a 2028 night, the night total is at least the
      number of rows, and it is 0 exactly when there are no rows. */
  lemma {:induction false} NightsCountRows(bs: seq<JoinedBooking>)
    requires forall b :: b in bs ==> PartialOf(b.booking, AnalysisStart, AnalysisEnd).nights > 0
    ensures Nights2028(bs) >= |bs|
    ensures Nights2028(bs) == 0 <==> |bs| == 0
  {
    if |bs| > 0 {
      assert bs[0] in bs;
      assert forall b :: b in bs[1..] ==> b in bs;
      NightsCountRows(bs[1..]);
    }
  }

  lemma {:induction false} RevenueNonNegative(bs: seq<JoinedBooking>)
    requires forall b :: b in bs ==> b.booking.cost >= 0.0
    ensures Revenue2028(bs) >= 0.0
  {
    if |bs| > 0 {
      assert bs[0] in bs;
      assert forall b :: b in bs[1..] ==> b in bs;
      RevenueWithinCost(bs[0].booking, AnalysisStart, AnalysisEnd);
      RevenueNonNegative(bs[1..]);
    }
  }

  /** The region's totals are consistent: no more distinct bookings than
      nights, no nights exactly when no bookings, and non-negative revenue
      when no booking has a negative cost. */
  lemma SoutheastTotalsConsistent(facilities: seq<Facility>, transactions: seq<Transaction>)
    ensures var r := SoutheastTotals(facilities, transactions);
            && 0 <= r.bookings <= r.nights
            && (r.nights == 0 <==> r.bookings == 0)
    ensures (forall t :: t in transactions ==> t.cost >= 0.0) ==> SoutheastTotals(facilities, transactions).revenue >= 0.0
  {
    var bs := SoutheastBookings2028(facilities, transactions);
    NightsCountRows(bs);
    if |bs| > 0 {
      assert bs[0] in bs;
      assert bs[0].booking.booking in BookingIds(bs);
    }
    if forall t :: t in transactions ==> t.cost >= 0.0 {
      RevenueNonNegative(bs);
    }
  }

  // ---------------------------------------------------------------------
  // Rates

  /** Distinct bookings per searcher, 0 without searchers. */
  function ConversionRate(bookings: int, searchers: real): (rate: real)
    ensures searchers <= 0.0 ==> rate == 0.0
    ensures searchers > 0.0 ==> rate * searchers == bookings as real
    ensures bookings >= 0 ==> rate >= 0.0
  {
    if searchers > 0.0 then (bookings as real) / searchers else 0.0
  }

  /** Revenue per night, 0 without nights. */
  function NightlyRate(revenue: real, nights: int): (rate: real)
    ensures nights <= 0 ==> rate == 0.0
    ensures nights > 0 ==> rate * (nights as real) == revenue
    ensures revenue >= 0.0 ==> rate >= 0.0
  {
    if nights > 0 then revenue / (nights as real) else 0.0
  }

  // ---------------------------------------------------------------------
  // The loss table and the estimate

  /** The loss columns of one cell. */
  datatype LossRow = LossRow(cell: Cell, rvUnfilled: real, tentUnfilled: real, structureUnfilled: real,
                             unfilled: real, lostRevenue: real)

  /** Per type, the adjusted demand its capacity leaves unserved; their sum,
      and that sum priced at the conversion and nightly rates. */
  function LossRowFor(r: ExpansionRow, conversion: real, nightly: real): (l: LossRow)
    ensures l.cell == r.cell
    ensures && l.rvUnfilled == Unfilled(r.adjusted.rv, r.capacity.rv)
            && l.tentUnfilled == Unfilled(r.adjusted.tent, r.capacity.tent)
            && l.structureUnfilled == Unfilled(r.adjusted.structure, r.capacity.structure)
    ensures l.rvUnfilled >= 0.0 && l.tentUnfilled >= 0.0 && l.structureUnfilled >= 0.0 && l.unfilled >= 0.0
    ensures l.unfilled == l.rvUnfilled + l.tentUnfilled + l.structureUnfilled
    ensures l.lostRevenue == l.unfilled * conversion * nightly
  {
    var rv := Unfilled(r.adjusted.rv, r.capacity.rv);
    var tent := Unfilled(r.adjusted.tent, r.capacity.tent);
    var structure := Unfilled(r.adjusted.structure, r.capacity.structure);
    var unfilled := rv + tent + structure;
    LossRow(r.cell, rv, tent, structure, unfilled, unfilled * conversion * nightly)
  }

  function LossTable(table: seq<ExpansionRow>, conversion: real, nightly: real): (rows: seq<LossRow>)
    ensures |rows| == |table|
    ensures forall i :: 0 <= i < |table| ==> rows[i] == LossRowFor(table[i], conversion, nightly)
  {
    seq(|table|, i requires 0 <= i < |table| => LossRowFor(table[i], conversion, nightly))
  }

  function SumUnfilled(rows: seq<LossRow>): real {
    if |rows| == 0 then 0.0 else rows[0].unfilled + SumUnfilled(rows[1..])
  }

  function SumLost(rows: seq<LossRow>): real {
    if |rows| == 0 then 0.0 else rows[0].lostRevenue + SumLost(rows[1..])
  }

  /** The four figures the estimate reports. */
  datatype Estimate = Estimate(conversionRate: real, nightlyRate: real, totalUnfilled: real, totalLostRevenue: real)

  /** The estimate over the expansion table for given rates. */
  function PricedEstimate(table: seq<ExpansionRow>, conversion: real, nightly: real): Estimate {
    var loss := LossTable(table, conversion, nightly);
    Estimate(conversion, nightly, SumUnfilled(loss), SumLost(loss) * AverageStayNights)
  }

  /** The estimate over the expansion table and the region's totals. */
  function EstimateLostRevenue(table: seq<ExpansionRow>, totals: RegionTotals): Estimate {
    PricedEstimate(table, ConversionRate(totals.bookings, TotalSearchers(table)), NightlyRate(totals.revenue, totals.nights))
  }

  function SoutheastEstimate(facilities: seq<Facility>, transactions: seq<Transaction>, searches: seq<SearchRecord>): Estimate {
    EstimateLostRevenue(ExpansionTable(facilities, transactions, searches), SoutheastTotals(facilities, transactions))
  }

  // ---------------------------------------------------------------------
  // Properties

  /** Unfilled demand of a cell is never negative, and it is positive
      exactly when the cell has a positive mismatch ratio, provided no
      capacity is negative. */
  lemma UnfilledIffMismatch(r: ExpansionRow, conversion: real, nightly: real)
    requires RowInvariant(r)
    requires r.capacity.rv >= 0.0 && r.capacity.tent >= 0.0 && r.capacity.structure >= 0.0
    ensures LossRowFor(r, conversion, nightly).unfilled >= 0.0
    ensures LossRowFor(r, conversion, nightly).unfilled > 0.0 <==> r.maxMismatch > 0.0
  {
    MismatchMeasuresShortfall(r.adjusted.rv, r.capacity.rv);
    MismatchMeasuresShortfall(r.adjusted.tent, r.capacity.tent);
    MismatchMeasuresShortfall(r.adjusted.structure, r.capacity.structure);
  }

  lemma {:induction false} SumUnfilledNonNegative(rows: seq<LossRow>)
    requires forall i :: 0 <= i < |rows| ==> rows[i].unfilled >= 0.0
    ensures SumUnfilled(rows) >= 0.0
  {
    if |rows| > 0 {
      SumUnfilledNonNegative(rows[1..]);
    }
  }

  lemma {:induction false} SumLostOfPriced(rows: seq<LossRow>, conversion: real, nightly: real)
    requires forall i :: 0 <= i < |rows| ==> rows[i].lostRevenue == rows[i].unfilled * conversion * nightly
    ensures SumLost(rows) == SumUnfilled(rows) * conversion * nightly
  {
    if |rows| > 0 {
      SumLostOfPriced(rows[1..], conversion, nightly);
      Distribute(rows[0].unfilled, SumUnfilled(rows[1..]), conversion, nightly);
    }
  }

  lemma Distribute(u: real, t: real, c: real, n: real)
    ensures u * c * n + t * c * n == (u + t) * c * n
  {
  }

  /** Summing the per-cell losses is pricing the summed unfilled demand. */
  lemma SumLostFactors(table: seq<ExpansionRow>, conversion: real, nightly: real)
    ensures SumLost(LossTable(table, conversion, nightly)) == SumUnfilled(LossTable(table, conversion, nightly)) * conversion * nightly
  {
    SumLostOfPriced(LossTable(table, conversion, nightly), conversion, nightly);
  }

  /** The estimated loss is the total unfilled demand priced at the
      conversion rate and nightly rate, doubled; and it vanishes when there
      are no searchers or no 2028 nights. */
  lemma LostRevenueClosedForm(table: seq<ExpansionRow>, totals: RegionTotals)
    ensures var e := EstimateLostRevenue(table, totals);
            e.totalLostRevenue == e.totalUnfilled * e.conversionRate * e.nightlyRate * AverageStayNights
    ensures TotalSearchers(table) <= 0.0 || totals.nights <= 0 ==> EstimateLostRevenue(table, totals).totalLostRevenue == 0.0
  {
    PricedClosedForm(table, ConversionRate(totals.bookings, TotalSearchers(table)), NightlyRate(totals.revenue, totals.nights));
  }

  lemma PricedClosedForm(table: seq<ExpansionRow>, conversion: real, nightly: real)
    ensures PricedEstimate(table, conversion, nightly).totalLostRevenue
         == PricedEstimate(table, conversion, nightly).totalUnfilled * conversion * nightly * AverageStayNights
    ensures conversion == 0.0 || nightly == 0.0 ==> PricedEstimate(table, conversion, nightly).totalLostRevenue == 0.0
  {
    var loss := LossTable(table, conversion, nightly);
    SumLostFactors(table, conversion, nightly);
    ZeroFactor(SumUnfilled(loss), conversion, nightly);
  }

  lemma ZeroFactor(s: real, c: real, n: real)
    ensures c == 0.0 || n == 0.0 ==> s * c * n * AverageStayNights == 0.0
  {
  }

  /** With non-negative capacities and revenue every reported figure is
      non-negative. */
  lemma EstimateNonNegative(table: seq<ExpansionRow>, totals: RegionTotals)
    requires forall i :: 0 <= i < |table| ==> RowInvariant(table[i])
    requires forall i :: 0 <= i < |table| ==>
               table[i].capacity.rv >= 0.0 && table[i].capacity.tent >= 0.0 && table[i].capacity.structure >= 0.0
    requires totals.bookings >= 0 && totals.revenue >= 0.0
    ensures var e := EstimateLostRevenue(table, totals);
            e.conversionRate >= 0.0 && e.nightlyRate >= 0.0 && e.totalUnfilled >= 0.0 && e.totalLostRevenue >= 0.0
  {
    var e := EstimateLostRevenue(table, totals);
    var loss := LossTable(table, e.conversionRate, e.nightlyRate);
    forall i | 0 <= i < |loss| ensures loss[i].unfilled >= 0.0 {
      UnfilledIffMismatch(table[i], e.conversionRate, e.nightlyRate);
    }
    SumUnfilledNonNegative(loss);
    LostRevenueClosedForm(table, totals);
    ProductNonNegative(e.totalUnfilled, e.conversionRate, e.nightlyRate);
  }

  lemma ProductNonNegative(s: real, c: real, n: real)
    requires s >= 0.0 && c >= 0.0 && n >= 0.0
    ensures s * c * n * AverageStayNights >= 0.0
  {
    assert s * c >= 0.0;
    assert s * c * n >= 0.0;
  }

  /** The capacities of the Southeast table are never negative when no site
      count is; so the estimate's figures are never negative when, in
      addition, no cost is. */
  lemma SoutheastEstimateNonNegative(facilities: seq<Facility>, transactions: seq<Transaction>, searches: seq<SearchRecord>)
    requires forall f :: f in facilities ==> f.rvSites >= 0 && f.tentSites >= 0 && f.structureSites >= 0
    requires forall t :: t in transactions ==> t.cost >= 0.0
    ensures var e := SoutheastEstimate(facilities, transactions, searches);
            e.conversionRate >= 0.0 && e.nightlyRate >= 0.0 && e.totalUnfilled >= 0.0 && e.totalLostRevenue >= 0.0
  {
    var table := ExpansionTable(facilities, transactions, searches);
    ExpansionRowsInvariant(facilities, transactions, searches);
    ExpansionCapacityNonNegative(facilities, transactions, searches);
    SoutheastTotalsConsistent(facilities, transactions);
    EstimateNonNegative(table, SoutheastTotals(facilities, transactions));
  }
}
