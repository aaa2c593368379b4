/** The spiral that lab 2 writes into a square matrix, for every size: the value of
    each cell, the cell of each value, and the four cursor loops that fill it in. */
module Spiral {

  /** Rings are counted from the outside; `n` is the side of the matrix. */
  function RingOf(n: nat, r: nat, c: nat): (k: nat)
    requires r < n && c < n
    ensures 2 * k < n && k <= r < n - k && k <= c < n - k
    ensures k == r || k == c || k == n - 1 - r || k == n - 1 - c
  {
    var a := if r < c then r else c;
    var b := if r < c then n - 1 - c else n - 1 - r;
    if a < b then a else b
  }

  /** How many cells lie outside ring k. */
  function Base(n: nat, k: nat): nat
    requires 2 * k <= n
  {
    if k == 0 then 0 else Base(n, k - 1) + 4 * (n - 2 * k + 1)
  }

  /** The cells of a square of side s, counted ring by ring. */
  function Area(s: nat): nat {
    if s == 0 then 0 else if s == 1 then 1 else Area(s - 2) + 4 * (s - 1)
  }

  lemma {:induction false} AreaIsSquare(s: nat)
    ensures Area(s) == s * s
  {
    if s > 1 {
      AreaIsSquare(s - 2);
      assert (s - 2) * (s - 2) == s * s - 4 * s + 4;
    }
  }

  /** Position along a ring of side s, clockwise from its upper left corner. */
  function Offset(s: nat, i: nat, j: nat): (o: nat)
    requires i < s && j < s
    requires i == 0 || j == s - 1 || i == s - 1 || j == 0
    ensures if s == 1 then o == 0 else o < 4 * (s - 1)
  {
    if i == 0 then j
    else if j == s - 1 then s - 1 + i
    else if i == s - 1 then 2 * (s - 1) + (s - 1 - j)
    else 3 * (s - 1) + (s - 1 - i)
  }

  function Value(n: nat, r: nat, c: nat): nat
    requires r < n && c < n
  {
    var k := RingOf(n, r, c);
    Base(n, k) + 1 + Offset(n - 2 * k, r - k, c - k)
  }

  /** Inverse of `Offset`. */
  function Corner(s: nat, o: nat): (p: (nat, nat))
    requires s > 0 && if s == 1 then o == 0 else o < 4 * (s - 1)
    ensures p.0 < s && p.1 < s && (p.0 == 0 || p.1 == s - 1 || p.0 == s - 1 || p.1 == 0)
    ensures Offset(s, p.0, p.1) == o
  {
    if o <= s - 1 then (0, o)
    else if o <= 2 * (s - 1) then (o - (s - 1), s - 1)
    else if o <= 3 * (s - 1) then (s - 1, 3 * (s - 1) - o)
    else (4 * (s - 1) - o, 0)
  }

  /** The cell of value v, searched from ring k inwards. */
  function CellFrom(n: nat, k: nat, v: nat): (p: (nat, nat))
    requires 2 * k < n && Base(n, k) < v <= Area(n)
    ensures k <= p.0 < n - k && k <= p.1 < n - k && Value(n, p.0, p.1) == v
    decreases n - 2 * k
  {
    var s := n - 2 * k;
    BaseAndArea(n, k);
    if s == 1 || v <= Base(n, k) + 4 * (s - 1) then
      RingCell(n, k, v - Base(n, k) - 1)
    else
      BaseAndArea(n, k + 1);
      CellFrom(n, k + 1, v)
  }

  /** The cell at a position along ring k. */
  function RingCell(n: nat, k: nat, o: nat): (p: (nat, nat))
    requires 2 * k < n && if n - 2 * k == 1 then o == 0 else o < 4 * (n - 2 * k - 1)
    ensures k <= p.0 < n - k && k <= p.1 < n - k
    ensures RingOf(n, p.0, p.1) == k && Value(n, p.0, p.1) == Base(n, k) + 1 + o
  {
    var p := Corner(n - 2 * k, o);
    (k + p.0, k + p.1)
  }

  function CellOf(n: nat, v: nat): (p: (nat, nat))
    requires 1 <= v <= n * n
    ensures p.0 < n && p.1 < n && Value(n, p.0, p.1) == v
  {
    AreaIsSquare(n);
    CellFrom(n, 0, v)
  }

  lemma {:induction false} BaseAndArea(n: nat, k: nat)
    requires 2 * k <= n
    ensures Base(n, k) + Area(n - 2 * k) == Area(n)
  {
    if k > 0 {
      BaseAndArea(n, k - 1);
    }
  }

  /** All of an outer ring comes before any inner ring. */
  lemma {:induction false} BaseSteps(n: nat, k: nat, m: nat)
    requires k < m && 2 * m <= n
    ensures Base(n, k) + 4 * (n - 2 * k - 1) <= Base(n, m)
    decreases m
  {
    if k + 1 < m {
      BaseSteps(n, k, m - 1);
    }
  }

  lemma OuterRingsFirst(n: nat, r: nat, c: nat, r': nat, c': nat)
    requires r < n && c < n && r' < n && c' < n
    requires RingOf(n, r, c) < RingOf(n, r', c')
    ensures Value(n, r, c) < Value(n, r', c')
  {
    BaseSteps(n, RingOf(n, r, c), RingOf(n, r', c'));
  }

  lemma ValueInRange(n: nat, r: nat, c: nat)
    requires r < n && c < n
    ensures 1 <= Value(n, r, c) <= n * n
  {
    BaseAndArea(n, RingOf(n, r, c));
    AreaIsSquare(n);
  }

  lemma OffsetInjective(s: nat, i: nat, j: nat, i': nat, j': nat)
    requires i < s && j < s && (i == 0 || j == s - 1 || i == s - 1 || j == 0)
    requires i' < s && j' < s && (i' == 0 || j' == s - 1 || i' == s - 1 || j' == 0)
    requires Offset(s, i, j) == Offset(s, i', j')
    ensures i == i' && j == j'
  {
  }

  /** No value occurs twice. */
  lemma ValueInjective(n: nat, r: nat, c: nat, r': nat, c': nat)
    requires r < n && c < n && r' < n && c' < n
    requires Value(n, r, c) == Value(n, r', c')
    ensures r == r' && c == c'
  {
    var k, k' := RingOf(n, r, c), RingOf(n, r', c');
    if k < k' {
      OuterRingsFirst(n, r, c, r', c');
    } else if k' < k {
      OuterRingsFirst(n, r', c', r, c);
    } else {
      OffsetInjective(n - 2 * k, r - k, c - k, r' - k, c' - k);
    }
  }

  /** `CellOf` and `Value` are inverse: the values are exactly 1 to n * n, once each. */
  lemma Bijection(n: nat, r: nat, c: nat)
    requires r < n && c < n
    ensures 1 <= Value(n, r, c) <= n * n && CellOf(n, Value(n, r, c)) == (r, c)
  {
    ValueInRange(n, r, c);
    var p := CellOf(n, Value(n, r, c));
    ValueInjective(n, p.0, p.1, r, c);
  }

  /** Each ring starts in its upper left corner and goes right along its upper side, the
      outermost one with 1. */
  lemma StartsRight(n: nat, k: nat, j: nat)
    requires 2 * k < n && j < n - 2 * k
    ensures Value(n, k, k + j) == Value(n, k, k) + j && (k == 0 ==> Value(n, k, k) == 1)
    ensures RingOf(n, k, k + j) == k
  {
  }

  predicate Adjacent(p: (nat, nat), q: (nat, nat)) {
    || (p.0 == q.0 && (p.1 == q.1 + 1 || q.1 == p.1 + 1))
    || (p.1 == q.1 && (p.0 == q.0 + 1 || q.0 == p.0 + 1))
  }

  lemma NextOnRing(s: nat, i: nat, j: nat, i': nat, j': nat)
    requires i < s && j < s && (i == 0 || j == s - 1 || i == s - 1 || j == 0)
    requires i' < s && j' < s && (i' == 0 || j' == s - 1 || i' == s - 1 || j' == 0)
    requires Offset(s, i', j') == Offset(s, i, j) + 1
    ensures Adjacent((i, j), (i', j'))
  {
  }

  /** The last value of a ring lies just below its corner. */
  lemma LastOnRing(s: nat, i: nat, j: nat)
    requires s > 1 && i < s && j < s && (i == 0 || j == s - 1 || i == s - 1 || j == 0)
    requires Offset(s, i, j) == 4 * (s - 1) - 1
    ensures i == 1 && j == 0
  {
  }

  lemma FirstOnRing(s: nat, i: nat, j: nat)
    requires i < s && j < s && (i == 0 || j == s - 1 || i == s - 1 || j == 0)
    requires Offset(s, i, j) == 0
    ensures i == 0 && j == 0
  {
  }

  /** A step from ring to ring goes from the last cell of one to the first of the next. */
  lemma RingToRing(n: nat, k: nat, o: nat, k': nat, o': nat)
    requires k < k' && 2 * k' < n && o < 4 * (n - 2 * k - 1)
    requires Base(n, k') + 1 + o' == Base(n, k) + 1 + o + 1
    ensures k' == k + 1 && o == 4 * (n - 2 * k - 1) - 1 && o' == 0
  {
    BaseSteps(n, k, k + 1);
    if k + 1 < k' {
      BaseSteps(n, k + 1, k');
    }
  }

  lemma InwardStep(n: nat, r: nat, c: nat, r': nat, c': nat)
    requires r < n && c < n && r' < n && c' < n
    requires Value(n, r', c') == Value(n, r, c) + 1 && RingOf(n, r, c) < RingOf(n, r', c')
    ensures Adjacent((r, c), (r', c'))
  {
    var k, k' := RingOf(n, r, c), RingOf(n, r', c');
    RingToRing(n, k, Offset(n - 2 * k, r - k, c - k), k', Offset(n - 2 * k', r' - k', c' - k'));
    LastOnRing(n - 2 * k, r - k, c - k);
    FirstOnRing(n - 2 * k', r' - k', c' - k');
  }

  lemma StepOnRing(n: nat, r: nat, c: nat, r': nat, c': nat)
    requires r < n && c < n && r' < n && c' < n
    requires Value(n, r', c') == Value(n, r, c) + 1 && RingOf(n, r, c) == RingOf(n, r', c')
    ensures Adjacent((r, c), (r', c'))
  {
    var k := RingOf(n, r, c);
    NextOnRing(n - 2 * k, r - k, c - k, r' - k, c' - k);
  }

  /** Consecutive values lie side by side, within a ring and from ring to ring. */
  lemma ConsecutiveValues(n: nat, r: nat, c: nat, r': nat, c': nat)
    requires r < n && c < n && r' < n && c' < n
    requires Value(n, r', c') == Value(n, r, c) + 1
    ensures Adjacent((r, c), (r', c'))
  {
    if RingOf(n, r, c) == RingOf(n, r', c') {
      StepOnRing(n, r, c, r', c');
    } else if RingOf(n, r, c) < RingOf(n, r', c') {
      InwardStep(n, r, c, r', c');
    } else {
      OuterRingsFirst(n, r', c', r, c);
      assert false;
    }
  }

  lemma ConsecutiveCells(n: nat, v: nat)
    requires 1 <= v && v + 1 <= n * n
    ensures Adjacent(CellOf(n, v), CellOf(n, v + 1))
  {
    var p, q := CellOf(n, v), CellOf(n, v + 1);
    ConsecutiveValues(n, p.0, p.1, q.0, q.1);
  }

  // ---- the program

  /** Every cell whose value is below the counter already holds it. */
  ghost predicate Filled(a: array2<int>, n: nat, counter: int)
    requires a.Length0 == n && a.Length1 == n
    reads a
  {
    forall r: nat, c: nat | r < n && c < n :: Value(n, r, c) < counter ==> a[r, c] == Value(n, r, c)
  }

  /** The write that stored v went to the cell of v. */
  ghost predicate InOrder(n: nat, writes: seq<(nat, nat)>, counter: int) {
    && |writes| == counter - 1
    && forall i | 0 <= i < |writes| ::
         writes[i].0 < n && writes[i].1 < n && Value(n, writes[i].0, writes[i].1) == i + 1
  }

  /** One assignment `arr[row][col] = counter`. */
  method Put(a: array2<int>, n: nat, row: int, col: int, counter: int, ghost writes: seq<(nat, nat)>)
      returns (ghost written: seq<(nat, nat)>)
    requires a.Length0 == n && a.Length1 == n
    requires 0 <= row < n && 0 <= col < n && Value(n, row, col) == counter
    requires Filled(a, n, counter) && InOrder(n, writes, counter)
    modifies a
    ensures Filled(a, n, counter + 1) && InOrder(n, written, counter + 1)
  {
    forall r: nat, c: nat | r < n && c < n && Value(n, r, c) == counter
      ensures r == row && c == col
    {
      ValueInjective(n, r, c, row, col);
    }
    a[row, col] := counter;
    written := writes + [(row, col)];
  }

  lemma OnRing(n: nat, k: nat, i: nat, j: nat)
    requires 2 * k < n && i < n - 2 * k && j < n - 2 * k
    requires i == 0 || j == n - 2 * k - 1 || i == n - 2 * k - 1 || j == 0
    ensures RingOf(n, k + i, k + j) == k
    ensures Value(n, k + i, k + j) == Base(n, k) + 1 + Offset(n - 2 * k, i, j)
  {
  }

  /** The right and down sides of a ring, with the cursor corrections after each. */
  method FillRightAndDown(a: array2<int>, n: nat, ghost k: nat, row0: int, col0: int, counter0: int,
                          steps: int, ghost writes0: seq<(nat, nat)>)
      returns (row: int, col: int, counter: int, ghost writes: seq<(nat, nat)>)
    requires a.Length0 == n && a.Length1 == n
    requires 2 * k < n && steps == n - 2 * k && row0 == k && col0 == k
    requires counter0 == Base(n, k) + 1 && Filled(a, n, counter0) && InOrder(n, writes0, counter0)
    modifies a
    ensures row == k + steps - 1 && col == k + steps - 2 && counter == counter0 + 2 * steps - 1
    ensures Filled(a, n, counter) && InOrder(n, writes, counter)
  {
    row, col, counter, writes := row0, col0, counter0, writes0;
    for j := 0 to steps  // right
      invariant row == k && col == k + j && counter == counter0 + j
      invariant Filled(a, n, counter) && InOrder(n, writes, counter)
    {
      OnRing(n, k, 0, j);
      writes := Put(a, n, row, col, counter, writes);
      col, counter := col + 1, counter + 1;
    }
    col, row := col - 1, row + 1;
    for j := 0 to steps - 1  // down
      invariant row == k + 1 + j && col == k + steps - 1 && counter == counter0 + steps + j
      invariant Filled(a, n, counter) && InOrder(n, writes, counter)
    {
      OnRing(n, k, j + 1, steps - 1);
      writes := Put(a, n, row, col, counter, writes);
      row, counter := row + 1, counter + 1;
    }
    row, col := row - 1, col - 1;
  }

  /** The left and up sides; the corrections leave the cursor at the corner of the next ring. */
  method FillLeftAndUp(a: array2<int>, n: nat, ghost k: nat, row0: int, col0: int, counter0: int,
                       steps: int, ghost writes0: seq<(nat, nat)>)
      returns (row: int, col: int, counter: int, ghost writes: seq<(nat, nat)>)
    requires a.Length0 == n && a.Length1 == n
    requires 2 * k < n && steps == n - 2 * k && row0 == k + steps - 1 && col0 == k + steps - 2
    requires counter0 == Base(n, k) + 2 * steps
    requires Filled(a, n, counter0) && InOrder(n, writes0, counter0)
    modifies a
    ensures counter == Base(n, k) + 1 + if steps == 1 then 1 else 4 * (steps - 1)
    ensures steps > 1 ==> row == k + 1 && col == k + 1
    ensures Filled(a, n, counter) && InOrder(n, writes, counter)
  {
    row, col, counter, writes := row0, col0, counter0, writes0;
    for j := 0 to steps - 1  // left
      invariant row == k + steps - 1 && col == k + steps - 2 - j && counter == counter0 + j
      invariant Filled(a, n, counter) && InOrder(n, writes, counter)
    {
      OnRing(n, k, steps - 1, steps - 2 - j);
      writes := Put(a, n, row, col, counter, writes);
      col, counter := col - 1, counter + 1;
    }
    col, row := col + 1, row - 1;
    var j := 0;
    while j < steps - 2  // up
      invariant 0 <= j && (j <= steps - 2 || j == 0)
      invariant row == k + steps - 2 - j && col == k && counter == counter0 + steps - 1 + j
      invariant Filled(a, n, counter) && InOrder(n, writes, counter)
    {
      OnRing(n, k, steps - 2 - j, 0);
      writes := Put(a, n, row, col, counter, writes);
      row, counter, j := row - 1, counter + 1, j + 1;
    }
    row, col := row + 1, col + 1;
  }

  /** The nested loops: every write is in bounds, the counter ends one past n * n, and
      each cell has received its value in one write. */
  method FillSpiral(a: array2<int>, n: nat) returns (counter: int, ghost writes: seq<(nat, nat)>)
    requires a.Length0 == n && a.Length1 == n
    modifies a
    ensures counter == n * n + 1
    ensures forall r: nat, c: nat | r < n && c < n :: a[r, c] == Value(n, r, c)
    ensures |writes| == n * n
    ensures forall r: nat, c: nat | r < n && c < n ::
              1 <= Value(n, r, c) <= n * n && writes[Value(n, r, c) - 1] == (r, c)
  {
    var row, col, steps: int := 0, 0, n;
    counter, writes := 1, [];
    ghost var k := 0;
    AreaIsSquare(n);
    while counter <= n * n
      invariant 0 <= k && steps == n - 2 * k
      invariant steps >= 0 ==> counter == Base(n, k) + 1 && counter <= n * n + 1 && row == k && col == k
      invariant steps < 0 ==> counter == n * n + 1
      invariant Filled(a, n, counter) && InOrder(n, writes, counter)
      decreases n * n - counter
    {
      BaseAndArea(n, k);
      row, col, counter, writes := FillRightAndDown(a, n, k, row, col, counter, steps, writes);
      row, col, counter, writes := FillLeftAndUp(a, n, k, row, col, counter, steps, writes);
      steps := steps - 2;
      k := k + 1;
      if steps >= 0 {
        BaseAndArea(n, k);
      }
    }
    forall r: nat, c: nat | r < n && c < n
      ensures 1 <= Value(n, r, c) <= n * n && writes[Value(n, r, c) - 1] == (r, c)
    {
      ValueInRange(n, r, c);
      var w := writes[Value(n, r, c) - 1];
      ValueInjective(n, w.0, w.1, r, c);
    }
  }
}
