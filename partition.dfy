/** How `Main` splits the pass indices `[0, iterations)` among the workers:
    worker `i` of `w` takes `[i * q, (i + 1) * q)` with `q = iterations / w`,
    and the last worker's range runs to `iterations`. */
module Partition {

  /** The half-open range of pass indices one worker runs. */
  datatype WorkUnit = WorkUnit(worker: nat, passStart: nat, passEnd: nat)

  predicate Covers(u: WorkUnit, j: int) {
    u.passStart <= j < u.passEnd
  }

  function Length(u: WorkUnit): int {
    u.passEnd - u.passStart
  }

  /** `startIndex` for worker `i`. */
  function StartIndex(i: nat, n: nat, w: nat): nat
    requires w >= 1
  {
    i * (n / w)
  }

  /** `endIndex` for worker `i`: the last worker absorbs the remainder. */
  function EndIndex(i: nat, n: nat, w: nat): nat
    requires w >= 1
  {
    if i == w - 1 then n else (i + 1) * (n / w)
  }

  function Unit(i: nat, n: nat, w: nat): WorkUnit
    requires w >= 1
  {
    WorkUnit(i, StartIndex(i, n, w), EndIndex(i, n, w))
  }

  /** The work units of all `w` workers, in worker order. */
  function Schedule(n: nat, w: nat): (units: seq<WorkUnit>)
    requires w >= 1
    ensures |units| == w
    ensures forall i :: 0 <= i < w ==> units[i].worker == i
  {
    seq(w, i requires 0 <= i < w => Unit(i, n, w))
  }

  /** The pass indices `[a, b)` in increasing order. */
  function Range(a: nat, b: nat): seq<nat>
    requires a <= b
  {
    seq(b - a, k requires 0 <= k < b - a => a + k)
  }

  /** The pass indices of the units, one unit after the other. */
  function Passes(units: seq<WorkUnit>): seq<nat> {
    if units == [] then []
    else
      var u := units[|units| - 1];
      Passes(units[..|units| - 1]) + if u.passStart <= u.passEnd then Range(u.passStart, u.passEnd) else []
  }

  function SumLengths(units: seq<WorkUnit>): int {
    if units == [] then 0 else SumLengths(units[..|units| - 1]) + Length(units[|units| - 1])
  }

  lemma MulMonotone(a: nat, b: nat, q: nat)
    requires a <= b
    ensures a * q <= b * q
  {
    assert b * q == a * q + (b - a) * q;
  }

  /** Every worker's range lies inside `[0, n)`, is not reversed, starts where
      the previous one ends, the first starts at 0 and the last ends at `n`. */
  lemma ScheduleShape(n: nat, w: nat)
    requires w >= 1
    ensures StartIndex(0, n, w) == 0 && EndIndex(w - 1, n, w) == n
    ensures forall i :: 0 <= i < w ==> StartIndex(i, n, w) <= EndIndex(i, n, w) <= n
    ensures forall i :: 0 <= i < w - 1 ==> EndIndex(i, n, w) == StartIndex(i + 1, n, w)
  {
    var q := n / w;
    assert w * q <= n;
    forall i | 0 <= i < w ensures StartIndex(i, n, w) <= EndIndex(i, n, w) <= n {
      MulMonotone(i, w - 1, q);
      if i < w - 1 {
        MulMonotone(i + 1, w, q);
        assert (i + 1) * q == i * q + q;
        assert w * q == q * w;
      } else {
        MulMonotone(w - 1, w, q);
        assert (w - 1) * q <= w * q == q * w;
      }
    }
  }

  /** Worker `i`'s range is not reversed and starts where the previous one ends. */
  lemma WorkerRange(n: nat, w: nat, i: nat)
    requires w >= 1 && i < w
    ensures StartIndex(i, n, w) <= EndIndex(i, n, w)
    ensures StartIndex(i, n, w) == if i == 0 then 0 else EndIndex(i - 1, n, w)
  {
    ScheduleShape(n, w);
  }

  /** Every pass index in `[0, n)` belongs to some worker and none outside it does. */
  lemma ScheduleCovers(n: nat, w: nat, j: int)
    requires w >= 1
    ensures (exists i :: 0 <= i < w && Covers(Schedule(n, w)[i], j)) <==> 0 <= j < n
  {
    ScheduleShape(n, w);
    if 0 <= j < n {
      var i := WorkerOf(n, w, j);
      assert Covers(Schedule(n, w)[i], j);
    }
  }

  lemma DivBounds(j: nat, q: nat)
    requires q > 0
    ensures (j / q) * q <= j < (j / q) * q + q
  {
    assert j == (j / q) * q + j % q;
  }

  /** The worker that runs pass `j`. */
  lemma WorkerOf(n: nat, w: nat, j: nat) returns (i: nat)
    requires w >= 1 && j < n
    ensures i < w && Covers(Unit(i, n, w), j)
  {
    var q := n / w;
    if q == 0 {
      i := w - 1;
      assert StartIndex(i, n, w) == i * q == 0;
    } else {
      DivBounds(j, q);
      var d := j / q;
      if d < w - 1 {
        i := d;
        assert StartIndex(i, n, w) == d * q <= j;
        assert EndIndex(i, n, w) == (d + 1) * q == d * q + q;
      } else {
        i := w - 1;
        MulMonotone(w - 1, d, q);
        assert StartIndex(i, n, w) == (w - 1) * q <= d * q <= j;
        assert EndIndex(i, n, w) == n;
      }
    }
  }

  /** No pass index belongs to two workers. */
  lemma ScheduleDisjoint(n: nat, w: nat, i: nat, k: nat, j: int)
    requires w >= 1 && i < w && k < w
    requires Covers(Schedule(n, w)[i], j) && Covers(Schedule(n, w)[k], j)
    ensures i == k
  {
    ScheduleShape(n, w);
    if i < k {
      MulMonotone(i + 1, k, n / w);
    } else if k < i {
      MulMonotone(k + 1, i, n / w);
    }
  }

  /** Running the units one after another runs the passes `0, 1, ..., n - 1`
      in order, each once. */
  lemma {:induction false} SchedulePassesInOrder(n: nat, w: nat)
    requires w >= 1
    ensures Passes(Schedule(n, w)) == Range(0, n)
  {
    PrefixPasses(n, w, w);
    assert Schedule(n, w)[..w] == Schedule(n, w);
  }

  lemma {:induction false} PrefixPasses(n: nat, w: nat, m: nat)
    requires 1 <= m <= w
    ensures Passes(Schedule(n, w)[..m]) == Range(0, EndIndex(m - 1, n, w))
  {
    WorkerRange(n, w, m - 1);
    var units := Schedule(n, w);
    var u := units[m - 1];
    assert units[..m][..m - 1] == units[..m - 1];
    if m == 1 {
      assert units[..0] == [];
    } else {
      PrefixPasses(n, w, m - 1);
      assert Range(0, EndIndex(m - 2, n, w)) + Range(u.passStart, u.passEnd) == Range(0, u.passEnd);
    }
  }

  /** The lengths of the workers' ranges add up to `n`. */
  lemma ScheduleTotal(n: nat, w: nat)
    requires w >= 1
    ensures SumLengths(Schedule(n, w)) == n
  {
    PrefixSum(n, w, w);
    assert Schedule(n, w)[..w] == Schedule(n, w);
  }

  lemma {:induction false} PrefixSum(n: nat, w: nat, m: nat)
    requires 1 <= m <= w
    ensures SumLengths(Schedule(n, w)[..m]) == EndIndex(m - 1, n, w)
  {
    WorkerRange(n, w, m - 1);
    var units := Schedule(n, w);
    assert units[..m][..m - 1] == units[..m - 1];
    if m > 1 {
      PrefixSum(n, w, m - 1);
    } else {
      assert units[..0] == [];
    }
  }

  /** With more workers than passes every worker but the last is idle and the
      last runs all the passes. */
  lemma MoreWorkersThanPasses(n: nat, w: nat)
    requires w > n
    ensures forall i :: 0 <= i < w - 1 ==> Length(Schedule(n, w)[i]) == 0
    ensures Schedule(n, w)[w - 1] == WorkUnit(w - 1, 0, n)
  {
    assert n / w == 0;
  }

  /** 25 passes over 4 workers. */
  lemma ScheduleExample()
    ensures Schedule(25, 4) ==
      [WorkUnit(0, 0, 6), WorkUnit(1, 6, 12), WorkUnit(2, 12, 18), WorkUnit(3, 18, 25)]
  {
    assert 25 / 4 == 6;
  }
}
