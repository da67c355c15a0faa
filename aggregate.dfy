/** Group-by sums and outer joins over columns keyed by cell. A column is a
    pair of parallel sequences: the group key of each row and its value. */
module Aggregate {
  import opened Records

  /** Reference meaning of a group-by sum: the total of the values of the
      rows whose key is k. */
  function SumWhere(keys: seq<Cell>, vals: seq<real>, k: Cell): real
    requires |keys| == |vals|
  {
    if |keys| == 0 then 0.0
    else (if keys[0] == k then vals[0] else 0.0) + SumWhere(keys[1..], vals[1..], k)
  }

  function Sum(vals: seq<real>): real {
    if |vals| == 0 then 0.0 else vals[0] + Sum(vals[1..])
  }

  /** Lookup with the 0 that an outer join's fill supplies for an absent key. */
  function Get(m: map<Cell, real>, k: Cell): real {
    if k in m then m[k] else 0.0
  }

  /** Used over available nights, defined as 0 where nothing is available
      (never a division by zero). */
  function OccupancyRate(capacity: real, used: real): (rate: real)
    ensures capacity <= 0.0 ==> rate == 0.0
    ensures capacity > 0.0 ==> rate * capacity == used
    ensures capacity > 0.0 && 0.0 <= used ==> 0.0 <= rate
    ensures capacity > 0.0 && 0.0 <= used <= capacity ==> rate <= 1.0
  {
    if capacity > 0.0 then used / capacity else 0.0
  }

  /** `groupby(key)[col].sum()`: one entry per key that occurs, holding the
      total of that key's rows. */
  function GroupSum(keys: seq<Cell>, vals: seq<real>): (m: map<Cell, real>)
    requires |keys| == |vals|
    ensures forall k :: k in m <==> k in keys
    ensures forall k :: Get(m, k) == SumWhere(keys, vals, k)
  {
    if |keys| == 0 then map[]
    else
      var rest := GroupSum(keys[1..], vals[1..]);
      assert forall k :: k in keys <==> k == keys[0] || k in keys[1..];
      rest[keys[0] := vals[0] + Get(rest, keys[0])]
  }

  predicate NoDuplicates(s: seq<Cell>) {
    forall i, j :: 0 <= i < j < |s| ==> s[i] != s[j]
  }

  /** The keys of s, each once, in order of first occurrence. */
  function Distinct(s: seq<Cell>): (r: seq<Cell>)
    ensures NoDuplicates(r)
    ensures forall k :: k in r <==> k in s
  {
    if |s| == 0 then []
    else
      var d := Distinct(s[..|s| - 1]);
      assert forall k :: k in s <==> k in s[..|s| - 1] || k == s[|s| - 1];
      if s[|s| - 1] in d then d else d + [s[|s| - 1]]
  }

  // ---------------------------------------------------------------------
  // Properties of the group-by sum

  lemma {:induction false} SumWhereAbsent(keys: seq<Cell>, vals: seq<real>, k: Cell)
    requires |keys| == |vals|
    requires k !in keys
    ensures SumWhere(keys, vals, k) == 0.0
  {
    if |keys| > 0 {
      assert k !in keys[1..];
      SumWhereAbsent(keys[1..], vals[1..], k);
    }
  }

  /** Grouping keeps signs: non-negative rows give non-negative totals. */
  lemma {:induction false} SumWhereNonNegative(keys: seq<Cell>, vals: seq<real>, k: Cell)
    requires |keys| == |vals|
    requires forall i :: 0 <= i < |vals| ==> vals[i] >= 0.0
    ensures SumWhere(keys, vals, k) >= 0.0
  {
    if |keys| > 0 {
      SumWhereNonNegative(keys[1..], vals[1..], k);
    }
  }

  /** Grouping is monotone: row-wise smaller values give smaller totals. */
  lemma {:induction false} SumWhereMonotone(keys: seq<Cell>, small: seq<real>, large: seq<real>, k: Cell)
    requires |keys| == |small| == |large|
    requires forall i :: 0 <= i < |keys| ==> small[i] <= large[i]
    ensures SumWhere(keys, small, k) <= SumWhere(keys, large, k)
  {
    if |keys| > 0 {
      SumWhereMonotone(keys[1..], small[1..], large[1..], k);
    }
  }

  /** Grouping is additive: if every row's a + b + c is its d, the same holds
      for every key's totals. */
  lemma {:induction false} SumWhereAdditive(keys: seq<Cell>, a: seq<real>, b: seq<real>, c: seq<real>, d: seq<real>, k: Cell)
    requires |keys| == |a| == |b| == |c| == |d|
    requires forall i :: 0 <= i < |keys| ==> a[i] + b[i] + c[i] == d[i]
    ensures SumWhere(keys, a, k) + SumWhere(keys, b, k) + SumWhere(keys, c, k) == SumWhere(keys, d, k)
  {
    if |keys| > 0 {
      SumWhereAdditive(keys[1..], a[1..], b[1..], c[1..], d[1..], k);
    }
  }

  /** Total over a list of cells of every cell's group total. */
  function SumOverCells(cells: seq<Cell>, keys: seq<Cell>, vals: seq<real>): real
    requires |keys| == |vals|
  {
    if |cells| == 0 then 0.0
    else SumWhere(keys, vals, cells[0]) + SumOverCells(cells[1..], keys, vals)
  }

  /** Summing a single row over distinct cells counts it exactly once if its
      key is among them, and not at all otherwise. */
  lemma {:induction false} SingleRowOverCells(cells: seq<Cell>, key: Cell, v: real, keys: seq<Cell>, vals: seq<real>)
    requires |keys| == |vals| && |keys| > 0 && keys[0] == key && vals[0] == v
    requires NoDuplicates(cells)
    ensures SumOverCells(cells, keys, vals)
         == (if key in cells then v else 0.0) + SumOverCells(cells, keys[1..], vals[1..])
  {
    if |cells| > 0 {
      assert NoDuplicates(cells[1..]);
      SingleRowOverCells(cells[1..], key, v, keys, vals);
      assert key in cells <==> key == cells[0] || key in cells[1..];
      assert key == cells[0] ==> key !in cells[1..];
    }
  }

  /** Conservation: summing the grouped totals over a duplicate-free list of
      cells that covers every key gives the total of all rows, so grouping
      neither loses nor double counts a row. */
  lemma {:induction false} GroupingConserves(cells: seq<Cell>, keys: seq<Cell>, vals: seq<real>)
    requires |keys| == |vals|
    requires NoDuplicates(cells)
    requires forall k :: k in keys ==> k in cells
    ensures SumOverCells(cells, keys, vals) == Sum(vals)
  {
    if |keys| == 0 {
      ZeroOverCells(cells, keys, vals);
    } else {
      SingleRowOverCells(cells, keys[0], vals[0], keys, vals);
      GroupingConserves(cells, keys[1..], vals[1..]);
    }
  }

  lemma {:induction false} ZeroOverCells(cells: seq<Cell>, keys: seq<Cell>, vals: seq<real>)
    requires |keys| == |vals| == 0
    ensures SumOverCells(cells, keys, vals) == 0.0
  {
    if |cells| > 0 {
      ZeroOverCells(cells[1..], keys, vals);
    }
  }

  lemma {:induction false} SumNonNegative(vals: seq<real>)
    requires forall i :: 0 <= i < |vals| ==> vals[i] >= 0.0
    ensures Sum(vals) >= 0.0
  {
    if |vals| > 0 {
      SumNonNegative(vals[1..]);
    }
  }
}
