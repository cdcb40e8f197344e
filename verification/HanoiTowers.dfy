/** The puzzle itself: what the solver's moves must add up to.

    Disks are numbered as the display numbers them: of N disks, disk 1 is the
    widest and disk N the narrowest, so a disk may lie only on a smaller number. */
module HanoiTowers {
  import opened Powers

  datatype Move = Move(did: int, from: int, to: int)

  /** Disks from bottom to top on towers 1, 2 and 3. */
  type Towers = ts: seq<seq<int>> | |ts| == 3 witness [[], [], []]

  /** The recursive solution: move the n narrowest of N disks. */
  function Recursive(N: int, n: int, from: int, to: int): seq<Move> {
    if n <= 0 then []
    else Recursive(N, n - 1, from, 6 - (from + to))
         + [Move(N + 1 - n, from, to)]
         + Recursive(N, n - 1, 6 - (from + to), to)
  }

  lemma {:induction false} RecursiveLength(N: int, n: nat, from: int, to: int)
    ensures |Recursive(N, n, from, to)| == Pow2(n) - 1
  {
    if n > 0 {
      RecursiveLength(N, n - 1, from, 6 - (from + to));
      RecursiveLength(N, n - 1, 6 - (from + to), to);
    }
  }

  predicate Legal(ts: Towers, m: Move) {
    && 1 <= m.from <= 3 && 1 <= m.to <= 3 && m.from != m.to
    && var source, target := ts[m.from - 1], ts[m.to - 1];
    && |source| > 0 && source[|source| - 1] == m.did
    && (|target| > 0 ==> target[|target| - 1] < m.did)
  }

  function Apply(ts: Towers, m: Move): Towers
    requires Legal(ts, m)
  {
    var source, target := ts[m.from - 1], ts[m.to - 1];
    ts[m.from - 1 := source[..|source| - 1]][m.to - 1 := target + [m.did]]
  }

  predicate AllLegal(ts: Towers, ms: seq<Move>)
    decreases |ms|
  {
    |ms| > 0 ==> Legal(ts, ms[0]) && AllLegal(Apply(ts, ms[0]), ms[1..])
  }

  function ApplyAll(ts: Towers, ms: seq<Move>): Towers
    requires AllLegal(ts, ms)
    decreases |ms|
  {
    if |ms| == 0 then ts else ApplyAll(Apply(ts, ms[0]), ms[1..])
  }

  lemma {:induction false} PlaysInTwoParts(ts: Towers, a: seq<Move>, b: seq<Move>)
    ensures AllLegal(ts, a + b) <==> AllLegal(ts, a) && AllLegal(ApplyAll(ts, a), b)
    ensures AllLegal(ts, a + b) ==> ApplyAll(ts, a + b) == ApplyAll(ApplyAll(ts, a), b)
    decreases |a|
  {
    if |a| == 0 {
      assert a + b == b;
    } else {
      assert (a + b)[1..] == a[1..] + b;
      if Legal(ts, a[0]) {
        PlaysInTwoParts(Apply(ts, a[0]), a[1..], b);
      }
    }
  }

  /** The n narrowest of N disks, stacked. */
  function Stack(N: int, n: nat): seq<int> {
    seq(n, i => N + 1 - n + i)
  }

  /** Every tower, apart from the n narrowest disks on `from`, is topped by a wider disk. */
  predicate Holds(ts: Towers, N: int, n: nat, from: int, base: seq<int>) {
    && 1 <= from <= 3 && ts[from - 1] == base + Stack(N, n)
    && (|base| > 0 ==> base[|base| - 1] < N + 1 - n)
    && forall i :: 0 <= i < 3 && i != from - 1 && |ts[i]| > 0 ==> ts[i][|ts[i]| - 1] < N + 1 - n
  }

  function Moved(ts: Towers, N: int, n: nat, from: int, to: int, base: seq<int>): Towers
    requires 1 <= from <= 3 && 1 <= to <= 3
  {
    ts[from - 1 := base][to - 1 := ts[to - 1] + Stack(N, n)]
  }

  lemma StackSplits(N: int, n: nat, base: seq<int>)
    requires n > 0
    ensures base + Stack(N, n) == (base + [N + 1 - n]) + Stack(N, n - 1)
  {
    assert Stack(N, n) == [N + 1 - n] + Stack(N, n - 1);
  }

  function Settled(ts: Towers, N: int, n: nat, from: int, to: int, base: seq<int>): Towers
    requires n > 0 && 1 <= from <= 3 && 1 <= to <= 3 && from != to && from + to < 6
    requires 1 <= 6 - (from + to) <= 3
  {
    var left := 6 - (from + to);
    ts[from - 1 := base][to - 1 := ts[to - 1] + [N + 1 - n]][left - 1 := ts[left - 1] + Stack(N, n - 1)]
  }

  lemma AgreeOnThree(a: Towers, b: Towers, i: nat, j: nat, k: nat)
    requires i < 3 && j < 3 && k < 3 && i != j && j != k && i != k
    requires a[i] == b[i] && a[j] == b[j] && a[k] == b[k]
    ensures a == b
  {
  }

  lemma NarrowerHeld(ts: Towers, N: int, n: nat, from: int, base: seq<int>)
    requires n > 0 && Holds(ts, N, n, from, base)
    ensures Holds(ts, N, n - 1, from, base + [N + 1 - n])
  {
    StackSplits(N, n, base);
  }

  /** With two towers named, which the third is. */
  lemma ThirdTower(from: int, to: int)
    requires 1 <= from <= 3 && 1 <= to <= 3 && from != to
    ensures var left := 6 - (from + to); 1 <= left <= 3 && left != from && left != to
  {
  }

  lemma MovedAt(ts: Towers, N: int, n: nat, from: int, to: int, base: seq<int>, other: int)
    requires 1 <= from <= 3 && 1 <= to <= 3 && 1 <= other <= 3 && from != to && other != from && other != to
    ensures var t := Moved(ts, N, n, from, to, base);
      t[from - 1] == base && t[to - 1] == ts[to - 1] + Stack(N, n) && t[other - 1] == ts[other - 1]
  {
    hide Stack;
  }

  lemma SettledAt(ts: Towers, N: int, n: nat, from: int, to: int, base: seq<int>)
    requires n > 0 && 1 <= from <= 3 && 1 <= to <= 3 && from != to && 1 <= 6 - (from + to) <= 3
    ensures var t, left := Settled(ts, N, n, from, to, base), 6 - (from + to);
      && t[from - 1] == base && t[to - 1] == ts[to - 1] + [N + 1 - n]
      && t[left - 1] == ts[left - 1] + Stack(N, n - 1)
  {
    hide Stack;
    ThirdTower(from, to);
  }

  lemma HoldsAt(ts: Towers, N: int, n: nat, from: int, base: seq<int>, to: int)
    requires Holds(ts, N, n, from, base) && 1 <= to <= 3 && from != to
    ensures 1 <= from <= 3 && (|ts[to - 1]| > 0 ==> ts[to - 1][|ts[to - 1]| - 1] < N + 1 - n)
  {
    hide Stack;
  }

  /** With the narrower disks out of the way, the widest of the n moves legally. */
  lemma WidestMoves(ts: Towers, N: int, n: nat, from: int, to: int, base: seq<int>)
    requires n > 0 && Holds(ts, N, n, from, base) && 1 <= to <= 3 && from != to
    ensures var left, did := 6 - (from + to), N + 1 - n;
      var ts1 := Moved(ts, N, n - 1, from, left, base + [did]);
      Legal(ts1, Move(did, from, to)) && Apply(ts1, Move(did, from, to)) == Settled(ts, N, n, from, to, base)
  {
    hide Stack, Holds, Moved, Settled, Legal, Apply;
    HoldsAt(ts, N, n, from, base, to);
    var left, did := 6 - (from + to), N + 1 - n;
    ThirdTower(from, to);
    var ts1 := Moved(ts, N, n - 1, from, left, base + [did]);
    MovedAt(ts, N, n - 1, from, left, base + [did], to);
    AppliedAt(ts1, Move(did, from, to), base);
    SettledAt(ts, N, n, from, to, base);
    var ts2, ts3 := Apply(ts1, Move(did, from, to)), Settled(ts, N, n, from, to, base);
    AgreeOnThree(ts2, ts3, from - 1, to - 1, left - 1);
  }

  lemma AppliedAt(ts: Towers, m: Move, base: seq<int>)
    requires 1 <= m.from <= 3 && 1 <= m.to <= 3 && m.from != m.to && ts[m.from - 1] == base + [m.did]
    requires |ts[m.to - 1]| > 0 ==> ts[m.to - 1][|ts[m.to - 1]| - 1] < m.did
    ensures Legal(ts, m) && Apply(ts, m)[m.from - 1] == base && Apply(ts, m)[m.to - 1] == ts[m.to - 1] + [m.did]
    ensures forall i :: 0 <= i < 3 && i != m.from - 1 && i != m.to - 1 ==> Apply(ts, m)[i] == ts[i]
  {
    assert (base + [m.did])[..|base|] == base;
  }

  lemma SettledHolds(ts: Towers, N: int, n: nat, from: int, to: int, base: seq<int>)
    requires n > 0 && Holds(ts, N, n, from, base) && 1 <= to <= 3 && from != to && 1 <= 6 - (from + to) <= 3
    ensures var left := 6 - (from + to);
      Holds(Settled(ts, N, n, from, to, base), N, n - 1, left, ts[left - 1])
  {
    var left := 6 - (from + to);
    ThirdTower(from, to);
    HoldsAt(ts, N, n, from, base, left);
    hide Stack, Settled;
    SettledAt(ts, N, n, from, to, base);
    var t, did := Settled(ts, N, n, from, to, base), N + 1 - n;
    forall i | 0 <= i < 3 && i != left - 1 && |t[i]| > 0 ensures t[i][|t[i]| - 1] < N + 1 - (n - 1) {
      assert i == from - 1 || i == to - 1;
    }
  }

  /** ... and leaves the narrower disks ready to follow it. */
  lemma NarrowerFollow(ts: Towers, N: int, n: nat, from: int, to: int, base: seq<int>)
    requires n > 0 && Holds(ts, N, n, from, base) && 1 <= to <= 3 && from != to
    ensures var left, ts2 := 6 - (from + to), Settled(ts, N, n, from, to, base);
      && Holds(ts2, N, n - 1, left, ts[left - 1])
      && Moved(ts2, N, n - 1, left, to, ts[left - 1]) == Moved(ts, N, n, from, to, base)
  {
    var left := 6 - (from + to);
    ThirdTower(from, to);
    StackSplits(N, n, ts[to - 1]);
    SettledHolds(ts, N, n, from, to, base);
    SettledAt(ts, N, n, from, to, base);
    MovedAt(ts, N, n, from, to, base, left);
    MovedAt(Settled(ts, N, n, from, to, base), N, n - 1, left, to, ts[left - 1], from);
    hide Stack, Holds, Moved, Settled;
    var ts2 := Settled(ts, N, n, from, to, base);
    AgreeOnThree(Moved(ts2, N, n - 1, left, to, ts[left - 1]), Moved(ts, N, n, from, to, base), from - 1, to - 1, left - 1);
  }

  lemma PlaysAround(ts: Towers, a: seq<Move>, m: Move, b: seq<Move>)
    requires AllLegal(ts, a) && Legal(ApplyAll(ts, a), m) && AllLegal(Apply(ApplyAll(ts, a), m), b)
    ensures AllLegal(ts, a + [m] + b)
    ensures ApplyAll(ts, a + [m] + b) == ApplyAll(Apply(ApplyAll(ts, a), m), b)
  {
    hide Legal, Apply;
    PlaysInTwoParts(ts, a, [m] + b);
    assert a + [m] + b == a + ([m] + b);
    assert ([m] + b)[1..] == b;
  }

  lemma NothingMoves(ts: Towers, N: int, from: int, to: int, base: seq<int>)
    requires Holds(ts, N, 0, from, base) && 1 <= to <= 3 && from != to
    ensures Moved(ts, N, 0, from, to, base) == ts
    ensures AllLegal(ts, Recursive(N, 0, from, to)) && ApplyAll(ts, Recursive(N, 0, from, to)) == ts
  {
    assert base + Stack(N, 0) == base;
    assert ts[to - 1] + Stack(N, 0) == ts[to - 1];
  }

  lemma RecursiveParts(N: int, n: nat, from: int, to: int)
    requires n > 0
    ensures var left := 6 - (from + to);
      Recursive(N, n, from, to) == Recursive(N, n - 1, from, left) + [Move(N + 1 - n, from, to)] + Recursive(N, n - 1, left, to)
  {
  }

  /** The three parts of the solution, put together. */
  lemma SolvesInThree(ts: Towers, N: int, n: nat, from: int, to: int, base: seq<int>)
    requires n > 0 && Holds(ts, N, n, from, base) && 1 <= to <= 3 && from != to
    requires var left, did := 6 - (from + to), N + 1 - n;
      var first, last, ts2 := Recursive(N, n - 1, from, left), Recursive(N, n - 1, left, to), Settled(ts, N, n, from, to, base);
      && AllLegal(ts, first) && ApplyAll(ts, first) == Moved(ts, N, n - 1, from, left, base + [did])
      && AllLegal(ts2, last) && ApplyAll(ts2, last) == Moved(ts2, N, n - 1, left, to, ts[left - 1])
    ensures AllLegal(ts, Recursive(N, n, from, to))
    ensures ApplyAll(ts, Recursive(N, n, from, to)) == Moved(ts, N, n, from, to, base)
  {
    var left, m := 6 - (from + to), Move(N + 1 - n, from, to);
    var first, last := Recursive(N, n - 1, from, left), Recursive(N, n - 1, left, to);
    hide Recursive, Holds, Legal, Apply, Moved, AllLegal, ApplyAll, Settled, Stack;
    RecursiveParts(N, n, from, to);
    WidestMoves(ts, N, n, from, to, base);
    NarrowerFollow(ts, N, n, from, to, base);
    PlaysAround(ts, first, m, last);
  }

  /** The recursive solution plays only legal moves and moves the whole stack. */
  lemma {:induction false} RecursiveSolves(ts: Towers, N: int, n: nat, from: int, to: int, base: seq<int>)
    requires 1 <= from <= 3 && Holds(ts, N, n, from, base) && 1 <= to <= 3 && from != to
    ensures AllLegal(ts, Recursive(N, n, from, to))
    ensures ApplyAll(ts, Recursive(N, n, from, to)) == Moved(ts, N, n, from, to, base)
    decreases n
  {
    hide Recursive, Holds, Legal, Apply, Moved, AllLegal, ApplyAll, Settled;
    if n == 0 {
      NothingMoves(ts, N, from, to, base);
    } else {
      var left := 6 - (from + to);
      NarrowerHeld(ts, N, n, from, base);
      RecursiveSolves(ts, N, n - 1, from, left, base + [N + 1 - n]);
      NarrowerFollow(ts, N, n, from, to, base);
      RecursiveSolves(Settled(ts, N, n, from, to, base), N, n - 1, left, to, ts[left - 1]);
      SolvesInThree(ts, N, n, from, to, base);
    }
  }
}
