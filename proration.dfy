/** Allocation of each booking's cost and nights to the part of the stay
    that falls inside an analysis window. */
module Proration {
  import opened Options
  import opened Dates
  import opened Records

  /** The three derived columns of a booking: prorated revenue, nights inside
      the window, and whole-stay nights. */
  datatype Partial = Partial(revenue: real, nights: int, tripNights: int)

  const NoPartial := Partial(0.0, 0, 0)

  /** The stay [checkin, checkout) is non-empty and lies wholly inside the
      inclusive window [start, end]. */
  predicate StayInside(t: Transaction, start: Day, end: Day) {
    t.checkin.Some? && t.checkout.Some? && t.checkin.value < t.checkout.value
    && start <= t.checkin.value && t.checkout.value <= end + 1
  }

  /** The booking's derived columns: both night counts and the revenue share
      are written only when the stay and its overlap are both positive;
      otherwise all three stay 0. */
  function PartialOf(t: Transaction, start: Day, end: Day): (p: Partial)
    ensures 0 <= p.nights <= p.tripNights
    ensures p.nights == 0 ==> p == NoPartial
    ensures p.nights == NightsInOverlap(t.checkin, t.checkout, start, end)
    ensures p.nights > 0 ==> p.tripNights == TotalTripNights(t.checkin, t.checkout)
    ensures p.nights > 0 ==> p.revenue * (p.tripNights as real) == (p.nights as real) * t.cost
  {
    var overlap := NightsInOverlap(t.checkin, t.checkout, start, end);
    var full := TotalTripNights(t.checkin, t.checkout);
    if full > 0 && overlap > 0 then
      var fraction := (overlap as real) / (full as real);
      Partial(fraction * t.cost, overlap, full)
    else
      NoPartial
  }

  /** For a non-negative cost the prorated revenue lies in [0, cost]. */
  lemma RevenueWithinCost(t: Transaction, start: Day, end: Day)
    requires t.cost >= 0.0
    ensures 0.0 <= PartialOf(t, start, end).revenue <= t.cost
  {
    var p := PartialOf(t, start, end);
    if p.nights > 0 {
      var o, f := p.nights as real, p.tripNights as real;
      assert 0.0 < o <= f;
      assert p.revenue == (o / f) * t.cost;
      ShareAtMostOne(o, f);
      var x := o / f;
      FractionOfCost(x, t.cost);
      assert 0.0 <= x * t.cost <= t.cost;
      assert p.revenue == x * t.cost;
    }
  }

  lemma ShareAtMostOne(o: real, f: real)
    requires 0.0 < o <= f
    ensures 0.0 < o / f <= 1.0
  {
    assert (o / f) * f == o;
  }

  lemma FractionOfCost(x: real, c: real)
    requires 0.0 <= x <= 1.0 && c >= 0.0
    ensures 0.0 <= x * c <= c
  {
    assert c - x * c == (1.0 - x) * c;
  }

  /** For a positive cost, the whole cost is attributed to the window exactly
      when the entire stay lies inside it. */
  lemma RevenueIsWholeCostIffInside(t: Transaction, start: Day, end: Day)
    requires t.cost > 0.0
    ensures PartialOf(t, start, end).revenue == t.cost <==> StayInside(t, start, end)
  {
    var p := PartialOf(t, start, end);
    if StayInside(t, start, end) {
      assert p.nights == p.tripNights == t.checkout.value - t.checkin.value;
      assert p.revenue == ((p.nights as real) / (p.tripNights as real)) * t.cost;
    }
    if p.revenue == t.cost {
      assert p.nights > 0;
      WholeCostMeansAllNights(p.revenue, p.nights, p.tripNights, t.cost);
      var ci, co := t.checkin.value, t.checkout.value;
      assert Max(ci, start) == ci && Min(co, end + 1) == co;
      assert p.tripNights == co - ci;
      assert p.nights == Min(co, end + 1) - Max(ci, start);
    }
  }

  lemma WholeCostMeansAllNights(revenue: real, nights: int, tripNights: int, cost: real)
    requires cost > 0.0 && 0 < nights <= tripNights
    requires revenue * (tripNights as real) == (nights as real) * cost
    requires revenue == cost
    ensures nights == tripNights
  {
    assert cost * (tripNights as real) == cost * (nights as real);
  }

  /** The worked example: $400 for 2027-12-30 to 2028-01-03 gives 2 of the 4
      nights, and $200, to the 2028 window. */
  lemma NewYearStayExample()
    ensures PartialOf(Transaction("b", "f", "c", Some(-2), Some(2), 400.0, None, false),
                      AnalysisStart, AnalysisEnd)
            == Partial(200.0, 2, 4)
  {
  }

  /** Computes the 2028 columns for every non-cancelled booking: all three
      columns start at 0 and a row is written only when both night counts
      are positive. */
  method PartialRevenue2028(transactions: seq<Transaction>) returns (valid: seq<Transaction>, rows: seq<Partial>)
    ensures valid == ValidTransactions(transactions)
    ensures |rows| == |valid|
    ensures forall i :: 0 <= i < |valid| ==> rows[i] == PartialOf(valid[i], AnalysisStart, AnalysisEnd)
  {
    valid := ValidTransactions(transactions);
    rows := seq(|valid|, _ => NoPartial);
    var idx := 0;
    while idx < |valid|
      invariant 0 <= idx <= |valid|
      invariant |rows| == |valid|
      invariant forall i :: 0 <= i < idx ==> rows[i] == PartialOf(valid[i], AnalysisStart, AnalysisEnd)
      invariant forall i :: idx <= i < |valid| ==> rows[i] == NoPartial
    {
      var row := valid[idx];
      var overlap := NightsInOverlap(row.checkin, row.checkout, AnalysisStart, AnalysisEnd);
      var fullNights := TotalTripNights(row.checkin, row.checkout);
      if fullNights > 0 && overlap > 0 {
        var fraction2028 := (overlap as real) / (fullNights as real);
        rows := rows[idx := Partial(fraction2028 * row.cost, overlap, fullNights)];
      } else {
        assert PartialOf(row, AnalysisStart, AnalysisEnd) == NoPartial;
      }
      assert rows[idx] == PartialOf(valid[idx], AnalysisStart, AnalysisEnd);
      idx := idx + 1;
    }
  }
}
