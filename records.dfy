/** The three already-parsed record sets the analytics engine reads. */
module Records {
  import opened Options
  import opened Dates

  /** Identifier of a geographic (hexagonal) cell. */
  type Cell = string

  /** A campground. A missing go-live date means the facility was never
      publicly listed. Site counts by category are independent. */
  datatype Facility = Facility(
    uuid: string,
    cell: Cell,
    wentLive: Option<Day>,
    region: string,
    sites: int,
    tentSites: int,
    rvSites: int,
    structureSites: int)

  /** A booking. `cell` is the cell recorded on the booking itself, which
      the monthly occupancy view groups by; the expansion analysis uses the
      booked facility's cell instead. */
  datatype Transaction = Transaction(
    booking: string,
    facility: string,
    cell: Cell,
    checkin: Option<Day>,
    checkout: Option<Day>,
    cost: real,
    category: Option<string>,
    cancelled: bool)

  /** Search demand aimed at a destination cell. A data set without a
      glamping column is represented with glamping = 0 throughout. */
  datatype SearchRecord = SearchRecord(
    destination: Cell,
    searchers: int,
    rvSearchers: int,
    tentSearchers: int,
    glampingSearchers: int)

  /** The cell column of a facility list. */
  function FacilityCells(fs: seq<Facility>): (r: seq<Cell>)
    ensures |r| == |fs| && forall i :: 0 <= i < |fs| ==> r[i] == fs[i].cell
  {
    seq(|fs|, i requires 0 <= i < |fs| => fs[i].cell)
  }

  /** How often `x` occurs in `s`: the multiplicity of `x` in `multiset(s)`.
      The filters and joins below state their row counts with it. */
  function Occurrences<T(==)>(s: seq<T>, x: T): (n: nat)
    ensures n == multiset(s)[x]
  {
    if |s| == 0 then 0
    else
      assert s == [s[0]] + s[1..];
      (if s[0] == x then 1 else 0) + Occurrences(s[1..], x)
  }

  /** The non-cancelled bookings, each as often as in the input. Every analysis
      reads only this list. */
  function ValidTransactions(ts: seq<Transaction>): (r: seq<Transaction>)
    ensures |r| <= |ts|
    ensures forall t :: t in r ==> t in ts && !t.cancelled
    ensures forall t :: t in ts && !t.cancelled ==> t in r
    ensures forall t {:trigger Occurrences(r, t)} :: Occurrences(r, t) == if t.cancelled then 0 else Occurrences(ts, t)
  {
    if |ts| == 0 then []
    else
      assert ts == [ts[0]] + ts[1..];
      if ts[0].cancelled then ValidTransactions(ts[1..])
      else [ts[0]] + ValidTransactions(ts[1..])
  }

  lemma {:induction false} ValidTransactionsAppend(a: seq<Transaction>, b: seq<Transaction>)
    ensures ValidTransactions(a + b) == ValidTransactions(a) + ValidTransactions(b)
  {
    if |a| == 0 {
      assert a + b == b;
    } else {
      var ab := a + b;
      assert ab[0] == a[0];
      assert ab[1..] == a[1..] + b;
      ValidTransactionsAppend(a[1..], b);
      if a[0].cancelled {
        calc {
          ValidTransactions(ab);
          ValidTransactions(ab[1..]);
          ValidTransactions(a[1..]) + ValidTransactions(b);
          ValidTransactions(a) + ValidTransactions(b);
        }
      } else {
        calc {
          ValidTransactions(ab);
          [a[0]] + ValidTransactions(ab[1..]);
          [a[0]] + (ValidTransactions(a[1..]) + ValidTransactions(b));
          ([a[0]] + ValidTransactions(a[1..])) + ValidTransactions(b);
          ValidTransactions(a) + ValidTransactions(b);
        }
      }
    }
  }

  /** Inserting a cancelled booking anywhere leaves the analysed list as it
      was, so cancelled bookings can influence no downstream figure. */
  lemma {:induction false} CancelledIsDropped(a: seq<Transaction>, t: Transaction, b: seq<Transaction>)
    requires t.cancelled
    ensures ValidTransactions(a + [t] + b) == ValidTransactions(a + b)
  {
    assert [t][1..] == [];
    assert ValidTransactions([t]) == ValidTransactions([]) == [];
    ValidTransactionsAppend(a + [t], b);
    ValidTransactionsAppend(a, [t]);
    ValidTransactionsAppend(a, b);
    assert ValidTransactions(a) + [] == ValidTransactions(a);
  }
}
