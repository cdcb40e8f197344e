/** The non-recursive solver as Forth words over the data stack, and the byte
    counters of tower heights the moves keep. */
module HanoiForth {
  import opened HanoiTowers
  import opened Powers

  type Byte = b: int | 0 <= b < 256

  /** The data stack, top first. */
  datatype Cells = Nil | Push(top: int, rest: Cells)

  function Depth(s: Cells): nat {
    if s.Nil? then 0 else 1 + Depth(s.rest)
  }

  predicate AtLeast(s: Cells, k: nat)
    decreases k
  {
    k == 0 || (s.Push? && AtLeast(s.rest, k - 1))
  }

  function Pick(s: Cells, k: nat): Cells
    requires AtLeast(s, k + 1)
  {
    Push(Nth(s, k), s)
  }

  function Nth(s: Cells, k: nat): int
    requires AtLeast(s, k + 1)
    decreases k
  {
    if k == 0 then s.top else Nth(s.rest, k - 1)
  }

  function Drop(s: Cells): Cells
    requires s.Push?
  {
    s.rest
  }

  function Swap(s: Cells): Cells
    requires AtLeast(s, 2)
  {
    Push(s.rest.top, Push(s.top, s.rest.rest))
  }

  /** ( a b c -- b c a ) */
  function Rot(s: Cells): Cells
    requires AtLeast(s, 3)
  {
    Push(s.rest.rest.top, Push(s.top, Push(s.rest.top, s.rest.rest.rest)))
  }

  /** ( a b c -- c a b ) */
  function MinusRot(s: Cells): Cells
    requires AtLeast(s, 3)
  {
    Push(s.rest.top, Push(s.rest.rest.top, Push(s.top, s.rest.rest.rest)))
  }

  function Plus(s: Cells): Cells
    requires AtLeast(s, 2)
  {
    Push(s.rest.top + s.top, s.rest.rest)
  }

  function Minus(s: Cells): Cells
    requires AtLeast(s, 2)
  {
    Push(s.rest.top - s.top, s.rest.rest)
  }

  /** A frame of the solver: four cells, `processed` on top. */
  datatype Frames = NoFrames | Frame(n: int, from: int, to: int, processed: bool, below: Frames)

  /** The cells of the frames, on top of whatever else is on the stack. */
  function Encode(fs: Frames, rest: Cells): Cells {
    match fs
    case NoFrames => rest
    case Frame(n, from, to, processed, below) =>
      Push(if processed then 1 else 0, Push(to, Push(from, Push(n, Encode(below, rest)))))
  }

  function Live(fs: Frames): nat {
    if fs.NoFrames? then 0 else 1 + Live(fs.below)
  }

  /** Frames hold ever smaller problems towards the top, between two different
      towers; only a problem of at least two disks is ever half done. */
  predicate WellFormed(fs: Frames, N: int) {
    fs.Frame? ==>
      && 1 <= fs.n && (fs.processed ==> 2 <= fs.n) && Live(fs) + fs.n <= N + 1
      && 1 <= fs.from <= 3 && 1 <= fs.to <= 3 && fs.from != fs.to
      && WellFormed(fs.below, N)
  }

  /** The moves the frames still stand for, top frame first. */
  function Pending(N: int, fs: Frames): seq<Move> {
    match fs
    case NoFrames => []
    case Frame(n, from, to, processed, below) =>
      (if processed
       then [Move(N + 1 - n, from, to)] + Recursive(N, n - 1, 6 - (from + to), to)
       else Recursive(N, n, from, to))
      + Pending(N, below)
  }

  /** The loop iterations the frames still stand for. */
  function Weight(fs: Frames): int {
    match fs
    case NoFrames => 0
    case Frame(n, _, _, processed, below) =>
      (if n < 1 then 0
       else if !processed then 3 * Pow2(n - 1) - 2
       else if n < 2 then 0
       else 3 * Pow2(n - 2) - 1)
      + Weight(below)
  }

  /** What one iteration of the loop does to the frames, and the moves it makes. */
  function Next(fs: Frames): Frames
    requires fs.Frame?
  {
    var left := 6 - (fs.from + fs.to);
    if fs.processed then Frame(fs.n - 1, left, fs.to, false, fs.below)
    else if fs.n == 1 then fs.below
    else Frame(fs.n - 1, fs.from, left, false, fs.(processed := true))
  }

  function Emitted(N: int, fs: Frames): seq<Move>
    requires fs.Frame?
  {
    if fs.processed || fs.n == 1 then [Move(N + 1 - fs.n, fs.from, fs.to)] else []
  }

  /** One iteration keeps the frames well formed, splits its moves off the
      pending ones, and takes exactly one off the weight. */
  lemma OneRound(N: int, bound: int, fs: Frames)
    requires fs.Frame? && WellFormed(fs, bound)
    ensures WellFormed(Next(fs), bound)
    ensures Pending(N, fs) == Emitted(N, fs) + Pending(N, Next(fs))
    ensures Weight(fs) == 1 + Weight(Next(fs))
    ensures OnTowers(Emitted(N, fs))
  {
    PendingSplits(N, fs);
    WeightDrops(bound, fs);
  }

  lemma PendingSplits(N: int, fs: Frames)
    requires fs.Frame? && fs.n >= 1
    ensures Pending(N, fs) == Emitted(N, fs) + Pending(N, Next(fs))
  {
    var m := [Move(N + 1 - fs.n, fs.from, fs.to)];
    if fs.processed {
      PendingFollows(m, Recursive(N, fs.n - 1, 6 - (fs.from + fs.to), fs.to), Pending(N, fs.below));
    } else if fs.n == 1 {
      assert Recursive(N, 1, fs.from, fs.to) == m;
    } else {
      PendingSpawns(N, fs);
    }
  }

  lemma PendingFollows(a: seq<Move>, b: seq<Move>, c: seq<Move>)
    ensures (a + b) + c == a + (b + c)
  {
  }

  lemma PendingSpawns(N: int, fs: Frames)
    requires fs.Frame? && fs.n > 1 && !fs.processed
    ensures Pending(N, fs) == Pending(N, Next(fs))
  {
    var left, m := 6 - (fs.from + fs.to), [Move(N + 1 - fs.n, fs.from, fs.to)];
    var first, last, rest := Recursive(N, fs.n - 1, fs.from, left), Recursive(N, fs.n - 1, left, fs.to), Pending(N, fs.below);
    assert Recursive(N, fs.n, fs.from, fs.to) == first + m + last;
    hide Recursive;
    assert Pending(N, fs.(processed := true)) == (m + last) + rest;
    assert (first + m + last) + rest == first + ((m + last) + rest);
  }

  lemma WeightDrops(bound: int, fs: Frames)
    requires fs.Frame? && WellFormed(fs, bound)
    ensures Weight(fs) == 1 + Weight(Next(fs))
  {
    if fs.processed || fs.n > 1 {
      assert Pow2(fs.n - 1) == 2 * Pow2(fs.n - 2);
    }
  }

  lemma Initially(N: int, n: int, from: int, to: int)
    requires 1 <= n
    ensures var fs := Frame(n, from, to, false, NoFrames);
      Pending(N, fs) == Recursive(N, n, from, to) && Weight(fs) == 3 * Pow2(n - 1) - 2
  {
  }

  lemma Finally(N: int, fs: Frames, rest: Cells)
    requires Depth(Encode(fs, rest)) <= Depth(rest)
    ensures fs == NoFrames && Encode(fs, rest) == rest && Pending(N, fs) == [] && Weight(fs) == 0
  {
    EncodedDepth(fs, rest);
  }

  lemma CountsMore(c: Counters, done: seq<Move>, e: seq<Move>)
    requires |e| <= 1 && OnTowers(done) && OnTowers(e)
    ensures OnTowers(done + e)
    ensures CountAll(c, done + e) == if e == [] then CountAll(c, done) else Count(CountAll(c, done), e[0])
  {
    if e == [] {
      assert done + e == done;
    } else {
      assert (done + e)[..|done|] == done;
    }
  }

  lemma {:induction false} EncodedDepth(fs: Frames, rest: Cells)
    ensures Depth(Encode(fs, rest)) == 4 * Live(fs) + Depth(rest)
  {
    if fs.Frame? {
      EncodedDepth(fs.below, rest);
      var s := Encode(fs, rest);
      assert Depth(s) == 1 + Depth(s.rest) && Depth(s.rest) == 1 + Depth(s.rest.rest);
      assert Depth(s.rest.rest) == 1 + Depth(s.rest.rest.rest);
    }
  }

  lemma {:induction false} WeightNatural(fs: Frames)
    ensures Weight(fs) >= 0
  {
    if fs.Frame? {
      WeightNatural(fs.below);
    }
  }

  function ByteOf(x: int): Byte {
    x % 256
  }

  function Inc(b: Byte): Byte {
    ByteOf(b as int + 1)
  }

  function Dec(b: Byte): Byte {
    ByteOf(b as int - 1)
  }

  type Counters = c: seq<Byte> | |c| == 3 witness [0, 0, 0]

  /** One move's effect on the counters: one fewer here, one more there. */
  function Count(c: Counters, m: Move): Counters
    requires 1 <= m.from <= 3 && 1 <= m.to <= 3
  {
    var lifted := c[m.from - 1 := Dec(c[m.from - 1])];
    lifted[m.to - 1 := Inc(lifted[m.to - 1])]
  }

  predicate OnTowers(ms: seq<Move>) {
    forall i :: 0 <= i < |ms| ==> 1 <= ms[i].from <= 3 && 1 <= ms[i].to <= 3
  }

  function CountAll(c: Counters, ms: seq<Move>): Counters
    requires OnTowers(ms)
    decreases |ms|
  {
    if |ms| == 0 then c else Count(CountAll(c, ms[..|ms| - 1]), ms[|ms| - 1])
  }

  /** The solver's invariant: the moves made and those still pending are the
      recursive solution, and so are the iterations made and still due. */
  predicate Solving(N: int, n: int, from: int, to: int, done: seq<Move>, spent: int, fs: Frames) {
    && n >= 1 && WellFormed(fs, n) && OnTowers(done)
    && done + Pending(N, fs) == Recursive(N, n, from, to)
    && spent + Weight(fs) == 3 * Pow2(n - 1) - 2
  }

  lemma SolvingStarts(N: int, n: int, from: int, to: int)
    requires 1 <= n && 1 <= from <= 3 && 1 <= to <= 3 && from != to
    ensures Solving(N, n, from, to, [], 0, Frame(n, from, to, false, NoFrames))
  {
    Initially(N, n, from, to);
  }

  lemma SolvingContinues(N: int, n: int, from: int, to: int, done: seq<Move>, spent: int, fs: Frames, rest: Cells)
    requires Solving(N, n, from, to, done, spent, fs) && fs.Frame?
    ensures Solving(N, n, from, to, done + Emitted(N, fs), spent + 1, Next(fs))
    ensures 0 <= Weight(Next(fs)) < Weight(fs) && OnTowers(Emitted(N, fs)) && |Emitted(N, fs)| <= 1
    ensures 1 <= fs.from <= 3 && 1 <= fs.to <= 3 && Depth(Encode(fs, rest)) <= 4 * n + Depth(rest)
  {
    hide Recursive, Pow2;
    OneRound(N, n, fs);
    PendingFollows(done, Emitted(N, fs), Pending(N, Next(fs)));
    CountsMore([0, 0, 0], done, Emitted(N, fs));
    WeightNatural(Next(fs));
    EncodedDepth(fs, rest);
  }

  lemma OneFrame(n: int, from: int, to: int, rest: Cells)
    ensures Depth(Encode(Frame(n, from, to, false, NoFrames), rest)) == 4 + Depth(rest)
  {
    EncodedDepth(Frame(n, from, to, false, NoFrames), rest);
  }

  lemma FrameLeft(fs: Frames, rest: Cells)
    requires Depth(Encode(fs, rest)) > Depth(rest)
    ensures fs.Frame?
  {
  }

  lemma SolvingEnds(N: int, n: int, from: int, to: int, done: seq<Move>, spent: int, fs: Frames, rest: Cells)
    requires Solving(N, n, from, to, done, spent, fs) && Depth(Encode(fs, rest)) <= Depth(rest)
    ensures Encode(fs, rest) == rest && (Depth(rest) == 0 <==> rest == Nil)
    ensures done == Recursive(N, n, from, to) && OnTowers(done) && spent == 3 * Pow2(n - 1) - 2
  {
    Finally(N, fs, rest);
  }

  /** The counters say how high the towers are, in a byte. */
  predicate Counts(c: Counters, ts: Towers) {
    forall i :: 0 <= i < 3 ==> c[i] == ByteOf(|ts[i]|)
  }

  lemma ByteSteps(x: int)
    ensures Inc(ByteOf(x)) == ByteOf(x + 1) && Dec(ByteOf(x)) == ByteOf(x - 1)
  {
    var q, r := x / 256, x % 256;
    assert x + 1 == 256 * q + (r + 1) && x - 1 == 256 * q + (r - 1);
  }

  lemma OneMoveCounts(c: Counters, ts: Towers, m: Move)
    requires Counts(c, ts) && Legal(ts, m)
    ensures Counts(Count(c, m), Apply(ts, m))
  {
    ByteSteps(|ts[m.from - 1]|);
    ByteSteps(|ts[m.to - 1]|);
    hide ByteOf, Inc, Dec;
    var lifted := c[m.from - 1 := Dec(c[m.from - 1])];
    assert lifted[m.to - 1] == c[m.to - 1];
    forall i | 0 <= i < 3 ensures Count(c, m)[i] == ByteOf(|Apply(ts, m)[i]|) {
      if i == m.from - 1 {
      } else if i == m.to - 1 {
      } else {
        assert Count(c, m)[i] == c[i] && Apply(ts, m)[i] == ts[i];
      }
    }
  }

  /** Along any legal play the counters follow the tower heights. */
  lemma {:induction false} CountersFollow(c: Counters, ts: Towers, ms: seq<Move>)
    requires Counts(c, ts) && AllLegal(ts, ms)
    ensures OnTowers(ms) && Counts(CountAll(c, ms), ApplyAll(ts, ms))
    decreases |ms|
  {
    if |ms| > 0 {
      var front, m := ms[..|ms| - 1], ms[|ms| - 1];
      assert ms == front + [m];
      hide Legal, Apply, AllLegal, ApplyAll, Counts, Count, CountAll;
      PlaysInTwoParts(ts, front, [m]);
      CountersFollow(c, ts, front);
      LastMove(ApplyAll(ts, front), m);
      OneMoveCounts(CountAll(c, front), ApplyAll(ts, front), m);
      CountsMore(c, front, [m]);
    }
  }

  lemma LastMove(ts: Towers, m: Move)
    requires AllLegal(ts, [m])
    ensures Legal(ts, m) && ApplyAll(ts, [m]) == Apply(ts, m) && 1 <= m.from <= 3 && 1 <= m.to <= 3
  {
    assert [m][1..] == [];
  }

  /** All N disks on the first tower. */
  function AllOnFirst(N: nat): Towers {
    [Stack(N, N), [], []]
  }

  function AllOnThird(N: nat): Towers {
    [[], [], Stack(N, N)]
  }

  /** Every disk on one of the towers: no play creates or loses one. */
  function Height(ts: Towers): nat {
    |ts[0]| + |ts[1]| + |ts[2]|
  }

  lemma {:induction false} PlayKeepsDisks(ts: Towers, ms: seq<Move>)
    requires AllLegal(ts, ms)
    ensures Height(ApplyAll(ts, ms)) == Height(ts)
    decreases |ms|
  {
    if |ms| > 0 {
      assert Height(Apply(ts, ms[0])) == Height(ts);
      PlayKeepsDisks(Apply(ts, ms[0]), ms[1..]);
    }
  }

  /** The solution for N disks moves them all from the first tower to the third. */
  lemma SolutionMovesAll(N: nat)
    ensures AllLegal(AllOnFirst(N), Recursive(N, N, 1, 3))
    ensures ApplyAll(AllOnFirst(N), Recursive(N, N, 1, 3)) == AllOnThird(N)
  {
    hide Recursive, AllLegal, ApplyAll, Stack;
    assert [] + Stack(N, N) == Stack(N, N);
    RecursiveSolves(AllOnFirst(N), N, N, 1, 3, []);
  }

  lemma CountedFirst(N: nat)
    ensures Counts([ByteOf(N), 0, 0], AllOnFirst(N)) && Height(AllOnFirst(N)) == N
  {
  }

  /** At every point of the solution for N disks: the play so far is legal, and
      the counters are the tower heights modulo 256, which sum to N. */
  lemma SolutionPlays(N: nat, k: nat)
    requires k <= |Recursive(N, N, 1, 3)|
    ensures var ms := Recursive(N, N, 1, 3)[..k];
      && AllLegal(AllOnFirst(N), ms) && OnTowers(ms)
      && Counts(CountAll([ByteOf(N), 0, 0], ms), ApplyAll(AllOnFirst(N), ms))
      && Height(ApplyAll(AllOnFirst(N), ms)) == N
  {
    hide Recursive, AllLegal, ApplyAll, AllOnFirst, Counts, CountAll, Height, OnTowers, ByteOf;
    CountedFirst(N);
    SolutionMovesAll(N);
    var ts, all := AllOnFirst(N), Recursive(N, N, 1, 3);
    var ms := all[..k];
    assert all == ms + all[k..];
    PlaysInTwoParts(ts, ms, all[k..]);
    CountersFollow([ByteOf(N), 0, 0], ts, ms);
    PlayKeepsDisks(ts, ms);
  }

  /** The counters are the tower heights after k moves of the solution for N disks. */
  predicate ExactAfter(N: nat, k: nat)
    requires k <= |Recursive(N, N, 1, 3)|
    requires var ms := Recursive(N, N, 1, 3)[..k]; AllLegal(AllOnFirst(N), ms) && OnTowers(ms)
  {
    var ms := Recursive(N, N, 1, 3)[..k];
    forall i :: 0 <= i < 3 ==> CountAll([ByteOf(N), 0, 0], ms)[i] as int == |ApplyAll(AllOnFirst(N), ms)[i]|
  }

  lemma ExactFrom(N: nat)
    ensures AllLegal(AllOnFirst(N), Recursive(N, N, 1, 3)[..0]) && OnTowers(Recursive(N, N, 1, 3)[..0])
    ensures ExactAfter(N, 0) <==> N <= 255
  {
    hide Recursive;
    assert Recursive(N, N, 1, 3)[..0] == [];
    assert CountAll([ByteOf(N), 0, 0], [])[0] == ByteOf(N) && |ApplyAll(AllOnFirst(N), [])[0]| == N;
    assert forall i :: 1 <= i < 3 ==> CountAll([ByteOf(N), 0, 0], [])[i] == |ApplyAll(AllOnFirst(N), [])[i]|;
  }

  lemma ByteExact(c: Counters, ts: Towers)
    requires Counts(c, ts) && Height(ts) <= 255
    ensures forall i :: 0 <= i < 3 ==> c[i] as int == |ts[i]|
  {
    forall i | 0 <= i < 3 ensures c[i] as int == |ts[i]| {
      assert |ts[i]| <= 255 && c[i] == ByteOf(|ts[i]|);
    }
  }

  lemma StaysExact(N: nat, k: nat)
    requires k <= |Recursive(N, N, 1, 3)|
    ensures var ms := Recursive(N, N, 1, 3)[..k];
      && AllLegal(AllOnFirst(N), ms) && OnTowers(ms) && (N <= 255 ==> ExactAfter(N, k))
  {
    hide Recursive, AllLegal, ApplyAll, AllOnFirst, OnTowers, CountAll, Counts, Height;
    SolutionPlays(N, k);
    if N <= 255 {
      var ms := Recursive(N, N, 1, 3)[..k];
      ByteExact(CountAll([ByteOf(N), 0, 0], ms), ApplyAll(AllOnFirst(N), ms));
    }
  }

  /** The counters never wrap at any point of the solution exactly if the disks
      can be counted in a byte. */
  lemma CountersExact(N: nat)
    ensures forall k :: 0 <= k <= |Recursive(N, N, 1, 3)| ==>
        var ms := Recursive(N, N, 1, 3)[..k]; AllLegal(AllOnFirst(N), ms) && OnTowers(ms)
    ensures (forall k :: 0 <= k <= |Recursive(N, N, 1, 3)| ==> ExactAfter(N, k)) <==> N <= 255
  {
    ExactFrom(N);
    hide AllLegal, Recursive, ExactAfter, AllOnFirst, OnTowers;
    forall k | 0 <= k <= |Recursive(N, N, 1, 3)|
      ensures var ms := Recursive(N, N, 1, 3)[..k];
        && AllLegal(AllOnFirst(N), ms) && OnTowers(ms) && (N <= 255 ==> ExactAfter(N, k))
    {
      StaysExact(N, k);
    }
  }

  /** What a stretch of the loop has appended to the moves and done to the counters. */
  predicate Emitting(moves0: seq<Move>, moves: seq<Move>, c0: seq<Byte>, c: seq<Byte>, done: seq<Move>) {
    moves == moves0 + done && OnTowers(done) && |c0| == 3 && c == CountAll(c0, done)
  }

  lemma EmittedAll(moves0: seq<Move>, moves: seq<Move>, c0: seq<Byte>, c: seq<Byte>, done: seq<Move>)
    requires Emitting(moves0, moves, c0, c, done)
    ensures moves == moves0 + done && OnTowers(done) && |c0| == 3 && c == CountAll(c0, done)
  {
  }

  lemma EmittingMore(moves0: seq<Move>, moves: seq<Move>, c0: seq<Byte>, c: seq<Byte>, done: seq<Move>,
                     e: seq<Move>, moves': seq<Move>, c': seq<Byte>)
    requires Emitting(moves0, moves, c0, c, done) && |e| <= 1 && OnTowers(e) && |c| == 3
    requires moves' == moves + e && c' == if e == [] then c else Count(c, e[0])
    ensures Emitting(moves0, moves', c0, c', done + e)
  {
    hide OnTowers, CountAll, Count;
    CountsMore(c0, done, e);
    PendingFollows(moves0, done, e);
  }

  class HanoiDemo {
    var stack: Cells
    var hN: int
    var hMaxDisks: int
    const hTowerDisks: array<Byte>
    var liftRow: int                 // row passed to hanoi-disk-y when a disk is lifted,
    var dropRow: int                 // and when it is dropped
    ghost var moves: seq<Move>       // disks moved so far
    ghost var rounds: nat            // iterations of the solver's loop
    ghost var deepest: nat           // deepest data stack at the head of the loop

    ghost predicate Valid()
      reads this
    {
      hTowerDisks.Length == 3
    }

    constructor ()
      ensures Valid() && fresh(hTowerDisks)
      ensures stack == Nil && hMaxDisks == 8 && moves == [] && rounds == deepest == 0
    {
      stack := Nil;
      hN := 0;
      hMaxDisks := 8;
      hTowerDisks := new Byte[3](_ => 0);
      liftRow, dropRow := 0, 0;
      moves := [];
      rounds := 0;
      deepest := 0;
    }

    /** ( tid -- tn ) */
    method HanoiTowerDisksInc()
      requires Valid() && stack.Push? && 1 <= stack.top <= 3
      modifies this`stack, hTowerDisks
      ensures var tid, tn := old(stack.top), old(hTowerDisks[stack.top - 1]);
        stack == Push(tn, old(stack.rest)) && hTowerDisks[..] == old(hTowerDisks[..])[tid - 1 := Inc(tn)]
    {
      stack := Pick(stack, 0);
      stack := Push(hTowerDisks[stack.top - 1], stack.rest);
      stack := Pick(stack, 0);
      stack := Plus(Push(1, stack));
      stack := Rot(stack);
      hTowerDisks[stack.top - 1] := ByteOf(stack.rest.top);
      stack := Drop(Drop(stack));
    }

    /** ( tid -- tn ) */
    method HanoiTowerDisksDec()
      requires Valid() && stack.Push? && 1 <= stack.top <= 3
      modifies this`stack, hTowerDisks
      ensures var tid, tn := old(stack.top), old(hTowerDisks[stack.top - 1]);
        stack == Push(tn, old(stack.rest)) && hTowerDisks[..] == old(hTowerDisks[..])[tid - 1 := Dec(tn)]
    {
      stack := Pick(stack, 0);
      stack := Push(hTowerDisks[stack.top - 1], stack.rest);
      stack := Pick(stack, 0);
      stack := Minus(Push(1, stack));
      stack := Rot(stack);
      hTowerDisks[stack.top - 1] := ByteOf(stack.rest.top);
      stack := Drop(Drop(stack));
    }

    /** ( tid did -- ), without the drawing */
    method HanoiDiskMoveUp()
      requires Valid() && AtLeast(stack, 2) && 1 <= stack.rest.top <= 3
      modifies this`stack, this`liftRow, hTowerDisks
      ensures var tid := old(stack.rest.top);
        && stack == old(stack.rest.rest) && liftRow == old(hTowerDisks[tid - 1]) as int - 1
        && hTowerDisks[..] == old(hTowerDisks[..])[tid - 1 := Dec(old(hTowerDisks[tid - 1]))]
    {
      stack := Pick(stack, 1);
      HanoiTowerDisksDec();
      stack := Minus(Push(1, stack));
      liftRow := stack.top;
      stack := Drop(Drop(Drop(stack)));
    }

    /** ( tid did -- ), without the drawing */
    method HanoiDiskMoveDown()
      requires Valid() && AtLeast(stack, 2) && 1 <= stack.rest.top <= 3
      modifies this`stack, this`dropRow, hTowerDisks
      ensures var tid := old(stack.rest.top);
        && stack == old(stack.rest.rest) && dropRow == old(hTowerDisks[tid - 1])
        && hTowerDisks[..] == old(hTowerDisks[..])[tid - 1 := Inc(old(hTowerDisks[tid - 1]))]
    {
      stack := Pick(stack, 1);
      HanoiTowerDisksInc();
      dropRow := stack.top;
      stack := Drop(Drop(Drop(stack)));
    }

    /** ( totid fromtid n -- ) */
    method HanoiDiskMove()
      requires Valid() && AtLeast(stack, 3) && 1 <= stack.rest.top <= 3 && 1 <= stack.rest.rest.top <= 3
      modifies this`stack, this`liftRow, this`dropRow, this`moves, hTowerDisks
      ensures var m := Move(hN + 1 - old(stack.top), old(stack.rest.top), old(stack.rest.rest.top));
        && stack == old(stack.rest.rest.rest) && moves == old(moves) + [m]
        && hTowerDisks[..] == Count(old(hTowerDisks[..]), m)
        && liftRow == old(hTowerDisks[m.from - 1]) as int - 1
        && (m.from != m.to ==> dropRow == old(hTowerDisks[m.to - 1]))
    {
      stack := Push(hN, stack);
      stack := Plus(Push(1, stack));
      stack := Minus(Swap(stack));
      moves := moves + [Move(stack.top, stack.rest.top, stack.rest.rest.top)];
      stack := Pick(stack, 1);
      stack := Pick(stack, 1);
      HanoiDiskMoveUp();
      stack := Pick(stack, 2);
      stack := Pick(stack, 1);
      HanoiDiskMoveDown();
      stack := Drop(Drop(Drop(stack)));
    }

    /** ( tid did -- ), without the drawing */
    method HanoiTowerDiskAdd()
      requires Valid() && AtLeast(stack, 2) && 1 <= stack.rest.top <= 3
      modifies this`stack, hTowerDisks
      ensures stack == old(stack.rest.rest)
      ensures var tid := old(stack.rest.top);
        hTowerDisks[..] == old(hTowerDisks[..])[tid - 1 := Inc(old(hTowerDisks[tid - 1]))]
    {
      stack := Pick(stack, 1);
      HanoiTowerDisksInc();
      stack := Drop(Drop(Drop(stack)));
    }

    /** ( n -- ): clears the counters and adds the disks to the first tower. */
    method HanoiInit()
      requires Valid() && stack.Push? && 1 <= stack.top
      modifies this`stack, hTowerDisks
      ensures stack == old(stack.rest)
      ensures hTowerDisks[..] == [ByteOf(old(stack.top)), 0, 0]
    {
      hTowerDisks[0] := 0;
      hTowerDisks[1] := 0;
      hTowerDisks[2] := 0;
      var limit := stack.top + 1;
      stack := Drop(stack);
      var i := 1;
      while i < limit
        invariant 1 <= i <= limit && stack == old(stack.rest)
        invariant hTowerDisks[..] == [ByteOf(i - 1), 0, 0]
      {
        stack := Push(i, Push(1, stack));
        HanoiTowerDiskAdd();
        i := i + 1;
      }
    }

    /** Runs the frame on top of the stack, and those it spawns. The loop ends when
        the stack is empty; `finished` is false where it would go on to take the
        cells beneath the first frame for frames too. */
    method HanoiSolve(ghost n: int, ghost from: int, ghost to: int, ghost rest: Cells) returns (finished: bool)
      requires Valid() && 1 <= n && 1 <= from <= 3 && 1 <= to <= 3 && from != to
      requires stack == Encode(Frame(n, from, to, false, NoFrames), rest)
      modifies this`stack, this`liftRow, this`dropRow, this`moves, this`rounds, this`deepest, hTowerDisks
      ensures finished <==> rest == Nil
      ensures stack == rest
      ensures moves == old(moves) + Recursive(hN, n, from, to)
      ensures OnTowers(Recursive(hN, n, from, to))
      ensures hTowerDisks[..] == CountAll(old(hTowerDisks[..]), Recursive(hN, n, from, to))
      ensures rounds == old(rounds) + 3 * Pow2(n - 1) - 2
      ensures deepest == old(deepest) || deepest <= 4 * n + Depth(rest)
    {
      hide Recursive, Pow2, Live;
      ghost var fs := Frame(n, from, to, false, NoFrames);
      ghost var done: seq<Move> := [];
      ghost var moves0, counters0, rounds0 := moves, hTowerDisks[..], rounds;
      OneFrame(n, from, to, rest);
      var beneath := Depth(stack) - 4;
      assert beneath == Depth(rest);
      SolvingStarts(hN, n, from, to);
      assert Emitting(moves0, moves, counters0, hTowerDisks[..], []) by { assert moves + [] == moves; }
      while Depth(stack) > 0
        invariant stack == Encode(fs, rest) && rounds >= rounds0
        invariant Solving(hN, n, from, to, done, rounds - rounds0, fs)
        invariant Emitting(moves0, moves, counters0, hTowerDisks[..], done)
        invariant deepest == old(deepest) || deepest <= 4 * n + Depth(rest)
        decreases Weight(fs)
      {
        hide Solving, Emitting, Weight, Encode, Next, Emitted, Count, Depth;
        if Depth(stack) <= beneath {
          SolvingEnds(hN, n, from, to, done, rounds - rounds0, fs, rest);
          EmittedAll(moves0, moves, counters0, hTowerDisks[..], done);
          return false;
        }
        FrameLeft(fs, rest);
        SolvingContinues(hN, n, from, to, done, rounds - rounds0, fs, rest);
        ghost var before, counters := moves, hTowerDisks[..];
        rounds := rounds + 1;
        deepest := if deepest < Depth(stack) then Depth(stack) else deepest;
        HanoiRound(fs, rest);
        EmittingMore(moves0, before, counters0, counters, done, Emitted(hN, fs), moves, hTowerDisks[..]);
        fs, done := Next(fs), done + Emitted(hN, fs);
      }
      SolvingEnds(hN, n, from, to, done, rounds - rounds0, fs, rest);
      finished := true;
    }

    /** The body of the loop: the stack comments of the source are the cells of
        one frame, and what the words make of them. */
    method HanoiRound(ghost fs: Frames, ghost rest: Cells)
      requires Valid() && fs.Frame? && stack == Encode(fs, rest)
      requires 1 <= fs.from <= 3 && 1 <= fs.to <= 3
      modifies this`stack, this`liftRow, this`dropRow, this`moves, hTowerDisks
      ensures stack == Encode(Next(fs), rest) && moves == old(moves) + Emitted(hN, fs)
      ensures hTowerDisks[..] ==
        if Emitted(hN, fs) == [] then old(hTowerDisks[..]) else Count(old(hTowerDisks[..]), Emitted(hN, fs)[0])
    {
      ghost var left, below := 6 - (fs.from + fs.to), Encode(fs.below, rest);
      stack := Push(6, stack);
      stack := Pick(stack, 3);
      stack := Pick(stack, 3);
      stack := Minus(Plus(stack));              // n from to processed left
      assert stack == Push(left, Push(if fs.processed then 1 else 0, Push(fs.to, Push(fs.from, Push(fs.n, below)))));
      if Nth(stack, 1) == 0 {
        if Nth(stack, 4) == 1 {
          MoveLastDisk(fs.n, fs.from, fs.to, left, below);
        } else {
          SpawnSmaller(fs.n, fs.from, fs.to, left, below);
        }
      } else {
        MoveAndFollow(fs.n, fs.from, fs.to, left, below);
      }
    }

    method MoveLastDisk(ghost n: int, ghost from: int, ghost to: int, ghost left: int, ghost rest: Cells)
      requires Valid() && 1 <= from <= 3 && 1 <= to <= 3
      requires stack == Push(left, Push(0, Push(to, Push(from, Push(n, rest)))))
      modifies this`stack, this`liftRow, this`dropRow, this`moves, hTowerDisks
      ensures stack == rest && moves == old(moves) + [Move(hN + 1 - n, from, to)]
      ensures hTowerDisks[..] == Count(old(hTowerDisks[..]), Move(hN + 1 - n, from, to))
    {
      stack := Pick(stack, 2);
      stack := Pick(stack, 4);
      stack := Pick(stack, 6);
      HanoiDiskMove();
      stack := Drop(Drop(Drop(Drop(Drop(stack)))));
    }

    method SpawnSmaller(ghost n: int, ghost from: int, ghost to: int, ghost left: int, ghost rest: Cells)
      requires stack == Push(left, Push(0, Push(to, Push(from, Push(n, rest)))))
      modifies this`stack
      ensures stack == Push(0, Push(left, Push(from, Push(n - 1, Push(1, Push(to, Push(from, Push(n, rest))))))))
    {
      stack := MinusRot(Push(1, stack));        // n from to 1 processed left
      stack := Drop(Swap(stack));               // n from to 1 left
      stack := Minus(Push(1, Pick(stack, 4)));
      stack := Swap(stack);                     // n from to 1 n-1 left
      stack := Swap(Pick(stack, 4));
      stack := Push(0, stack);                  // n from to 1 n-1 from left 0
    }

    method MoveAndFollow(ghost n: int, ghost from: int, ghost to: int, ghost left: int, ghost rest: Cells)
      requires Valid() && 1 <= from <= 3 && 1 <= to <= 3
      requires stack == Push(left, Push(1, Push(to, Push(from, Push(n, rest)))))
      modifies this`stack, this`liftRow, this`dropRow, this`moves, hTowerDisks
      ensures stack == Push(0, Push(to, Push(left, Push(n - 1, rest))))
      ensures moves == old(moves) + [Move(hN + 1 - n, from, to)]
      ensures hTowerDisks[..] == Count(old(hTowerDisks[..]), Move(hN + 1 - n, from, to))
    {
      stack := Drop(Swap(stack));               // n from to left
      stack := Pick(stack, 1);
      stack := Pick(stack, 3);
      stack := Pick(stack, 5);
      HanoiDiskMove();
      assert stack == Push(left, Push(to, Push(from, Push(n, rest))));
      stack := Swap(stack);                     // n from left to
      stack := Drop(Rot(stack));                // n left to
      stack := Minus(Push(1, Rot(stack)));      // left to n-1
      stack := Push(0, MinusRot(stack));        // n-1 left to 0
    }

    /** ( n -- n true | false ) or, on an empty stack, ( -- false ) */
    method HanoiValidate()
      modifies this`stack
      ensures stack ==
        if old(stack).Nil? then Push(0, Nil)
        else if 1 <= old(stack.top) <= hMaxDisks then Push(-1, old(stack))
        else Push(0, old(stack.rest))
    {
      if Depth(stack) < 1 {
        stack := Push(0, stack);
      } else {
        stack := Pick(stack, 0);
        stack := Push(hMaxDisks, Push(1, stack));
        // between
        stack := Push(if stack.rest.top <= stack.rest.rest.top <= stack.top then -1 else 0, stack.rest.rest.rest);
        var valid := stack.top != 0;
        stack := Drop(stack);
        if valid {
          stack := Push(-1, stack);
        } else {
          stack := Drop(stack);
          stack := Push(0, stack);
        }
      }
    }

    /** ( n -- ): makes the moves of the recursive solution if n is between 1 and
        hMaxDisks, and none otherwise. With cells beneath n the solver would then
        not stop. */
    method Hanoi() returns (finished: bool)
      requires Valid()
      modifies this`stack, this`hN, this`liftRow, this`dropRow, this`moves, this`rounds, this`deepest, hTowerDisks
      ensures stack == if old(stack).Nil? then Nil else old(stack.rest)
      ensures (old(stack).Push? && 1 <= old(stack.top) <= hMaxDisks) ==>
        var n := old(stack.top);
        && (finished <==> old(stack.rest) == Nil)
        && moves == old(moves) + Recursive(n, n, 1, 3) && OnTowers(Recursive(n, n, 1, 3))
        && hTowerDisks[..] == CountAll([ByteOf(n), 0, 0], Recursive(n, n, 1, 3))
        && rounds == old(rounds) + 3 * Pow2(n - 1) - 2
        && (deepest == old(deepest) || deepest <= 4 * n + Depth(stack))
      ensures !(old(stack).Push? && 1 <= old(stack.top) <= hMaxDisks) ==>
        finished && moves == old(moves) && rounds == old(rounds) && hTowerDisks[..] == old(hTowerDisks[..])
    {
      finished := true;
      ghost var before := stack;
      HanoiValidate();
      var valid := stack.top != 0;
      stack := Drop(stack);
      if valid {
        ghost var n := before.top;
        stack := Pick(stack, 0);
        hN := stack.top;
        stack := Drop(stack);
        stack := Pick(stack, 0);
        HanoiInit();
        stack := Push(0, Push(3, Push(1, stack)));
        finished := HanoiSolve(n, 1, 3, before.rest);
      }
    }
  }
}
