/** Rerouting a live function: `frr_install` and `frr_remove` as methods that
    patch code memory, and what the patched code then does. */
module Reroute {
  import opened Wrappers
  import opened PowerPC
  import opened Templates

  const BRANCH_MOPCODE: Bits6 := 0x12
  const STUB_BYTES := 128

  /** The branch that both patches are: absolute, no link. */
  function BranchWord(target: Word): Word {
    PackI(IForm(BRANCH_MOPCODE, target / 4 % 0x100_0000, 1, 0))
  }

  // ----- what the patched code does -----

  function Block(base: int, size: nat): (s: set<int>)
    ensures forall a :: a in s <==> base <= a < base + size
  {
    if size == 0 then {} else Block(base, size - 1) + {base + size - 1}
  }

  /** Everything the patches write: the first word of the original and the stub. */
  function Patched(original: int, stub: int): set<int> {
    {original} + Block(stub, STUB_BYTES)
  }

  /** `p` is `u` with a rerouting of `original` to `new_` in place. */
  predicate Rerouted(u: map<Word, Word>, p: map<Word, Word>, original: Word, new_: Word, stub: Word) {
    && p.Keys == u.Keys && original in u && stub in u && stub + 4 in u
    && original % 4 == 0 && stub % 4 == 0 && stub + STUB_BYTES <= 0x1_0000_0000
    && (original < stub || stub + STUB_BYTES <= original)
    && p[original] == BranchWord(new_)
    && p[stub] == u[original] && p[stub + 4] == BranchWord(Wrap(original + 4))
    && forall a :: a in u && a !in Patched(original, stub) ==> p[a] == u[a]
  }

  lemma BranchJumps(m: Machine, target: Word)
    requires m.pc in m.mem && m.mem[m.pc] == BranchWord(target) && target % 4 == 0
    ensures Step(m).Some? && Step(m).value == m.(pc := Step(m).value.pc)
    ensures Step(m).value.pc == target <==> BranchReachable(target)
  {
    DecodesBranch(IForm(BRANCH_MOPCODE, target / 4 % 0x100_0000, 1, 0));
    AbsoluteTarget(target);
    hide Decode;
  }

  /** A call of the original arrives at the new function with nothing changed. */
  lemma CallReachesNew(u: map<Word, Word>, m: Machine, original: Word, new_: Word, stub: Word)
    requires Rerouted(u, m.mem, original, new_, stub) && m.pc == original
    requires new_ < 0x200_0000 && new_ % 4 == 0
    ensures Step(m) == Some(m.(pc := new_))
  {
    BranchJumps(m, new_);
  }

  /** A displacement to the next word. */
  predicate IsNext(displacement: int) {
    Wrap(displacement - displacement % 4) == 4
  }

  /** The instruction does not depend on where it is: it neither links nor goes to
      a place relative to its own, unless that is the next word. */
  predicate Movable(i: Instr, m: Machine) {
    match i
    case Branch(li, aa, lk) => !lk && (aa || IsNext(li))
    case BranchCond(bo, bi, bd, aa, lk) =>
      Taken(m, bo, bi).None? || (!lk && (aa || !Taken(m, bo, bi).value || IsNext(bd)))
    case BranchLr(bo, bi, lk) => Taken(m, bo, bi).None? || !lk
    case _ => true
  }

  lemma {:induction false} LoadMultipleMoves(m: Machine, r: int, ea: Word, pc: Word)
    requires 0 <= r <= 32
    ensures LoadMultiple(m.(pc := pc), r, ea) ==
      if LoadMultiple(m, r, ea).Some? then Some(LoadMultiple(m, r, ea).value.(pc := pc)) else None
    decreases 32 - r
  {
    if r < 32 && Accessible(m, ea) {
      LoadMultipleMoves(m.(gpr := m.gpr[r := m.mem[ea]]), r + 1, Wrap(ea + 4), pc);
    }
  }

  lemma {:induction false} StoreMultipleMoves(m: Machine, r: int, ea: Word, pc: Word)
    requires 0 <= r <= 32
    ensures StoreMultiple(m.(pc := pc), r, ea) ==
      if StoreMultiple(m, r, ea).Some? then Some(StoreMultiple(m, r, ea).value.(pc := pc)) else None
    decreases 32 - r
  {
    if r < 32 && Accessible(m, ea) {
      StoreMultipleMoves(m.(mem := m.mem[ea := m.gpr[r]]), r + 1, Wrap(ea + 4), pc);
    }
  }

  lemma {:induction false} LoadMultipleFallsThrough(m: Machine, r: int, ea: Word)
    requires 0 <= r <= 32 && LoadMultiple(m, r, ea).Some?
    ensures LoadMultiple(m, r, ea).value.pc == m.pc
    decreases 32 - r
  {
    if r < 32 {
      LoadMultipleFallsThrough(m.(gpr := m.gpr[r := m.mem[ea]]), r + 1, Wrap(ea + 4));
    }
  }

  lemma {:induction false} StoreMultipleFallsThrough(m: Machine, r: int, ea: Word)
    requires 0 <= r <= 32 && StoreMultiple(m, r, ea).Some?
    ensures StoreMultiple(m, r, ea).value.pc == m.pc
    decreases 32 - r
  {
    if r < 32 {
      StoreMultipleFallsThrough(m.(mem := m.mem[ea := m.gpr[r]]), r + 1, Wrap(ea + 4));
    }
  }

  /** `b` is `a` executed at another place: the same, except that where `a` goes
      on to the next word, `b` goes on to its own next word. */
  predicate SameElsewhere(a: Option<Machine>, b: Option<Machine>, next: Word, next': Word) {
    match (a, b)
    case (None, None) => true
    case (Some(s), Some(t)) => t == s.(pc := t.pc) && (t.pc == s.pc || (s.pc == next && t.pc == next'))
    case _ => false
  }

  lemma WrapsApart(a: Word, b: Word, d: int)
    ensures Wrap(a + d) == Wrap(b + d) <==> a == b
  {
    var x, y := a as int + d, b as int + d;
    var p, q := x / 0x1_0000_0000, y / 0x1_0000_0000;
    assert x == 0x1_0000_0000 * p + Wrap(x) && y == 0x1_0000_0000 * q + Wrap(y);
  }

  /** From aligned places, a relative target keeps its distance. */
  lemma TargetIs(pc: Word, d: int)
    requires pc % 4 == 0
    ensures (pc + d) - (pc + d) % 4 == pc + (d - d % 4)
  {
  }

  /** Of two places only one goes to a relative target by falling through. */
  lemma RelativeTargets(pc: Word, pc': Word, d: int)
    requires pc % 4 == 0 && pc' % 4 == 0 && pc != pc'
    ensures var t, t' := Wrap(pc + d - (pc + d) % 4), Wrap(pc' + d - (pc' + d) % 4);
      && t != t' && Wrap(pc + 4) != Wrap(pc' + 4)
      && (t == Wrap(pc + 4) && t' == Wrap(pc' + 4) <==> IsNext(d))
      && (t == Wrap(pc + 4) <==> IsNext(d))
  {
    TargetIs(pc, d);
    TargetIs(pc', d);
    WrapsApart(pc, pc', d - d % 4);
    WrapsApart(pc, pc', 4);
    SameDistance(pc, d - d % 4);
    SameDistance(pc', d - d % 4);
  }

  lemma SameDistance(pc: Word, d: int)
    ensures Wrap(pc + d) == Wrap(pc + 4) <==> Wrap(d) == 4
  {
    var p, q := (pc as int + d) / 0x1_0000_0000, (pc as int + 4) / 0x1_0000_0000;
    assert pc as int + d == 0x1_0000_0000 * p + Wrap(pc + d) && pc as int + 4 == 0x1_0000_0000 * q + Wrap(pc + 4);
    assert d == 0x1_0000_0000 * (d / 0x1_0000_0000) + Wrap(d);
  }

  lemma JumpMoves(m: Machine, pc: Word, taken: bool, d: int, aa: bool, lk: bool)
    requires m.pc % 4 == 0 && pc % 4 == 0 && pc != m.pc
    ensures SameElsewhere(Some(Jump(m, taken, if aa then d else m.pc + d, lk)),
                          Some(Jump(m.(pc := pc), taken, if aa then d else pc + d, lk)),
                          Wrap(m.pc + 4), Wrap(pc + 4)) <==>
              !lk && (aa || !taken || IsNext(d))
  {
    RelativeTargets(m.pc, pc, d);
    hide Wrap, IsNext;
  }

  lemma ExecutesJump(i: Instr, m: Machine)
    requires i.Branch? || i.BranchCond? || i.BranchLr?
    ensures i.Branch? ==> Execute(i, m) == Some(Jump(m, true, if i.aa then i.li else m.pc + i.li, i.lk))
    ensures !i.Branch? && Taken(m, i.bo, i.bi).None? ==> Execute(i, m) == None
    ensures i.BranchCond? && Taken(m, i.bo, i.bi).Some? ==>
      Execute(i, m) == Some(Jump(m, Taken(m, i.bo, i.bi).value, if i.aa then i.bd else m.pc + i.bd, i.lk))
    ensures i.BranchLr? && Taken(m, i.bo, i.bi).Some? ==>
      Execute(i, m) == Some(Jump(m, Taken(m, i.bo, i.bi).value, m.lr, i.lk))
  {
    hide Jump, Taken;
  }

  lemma SameTaken(m: Machine, pc: Word, bo: Reg, bi: Reg)
    ensures Taken(m.(pc := pc), bo, bi) == Taken(m, bo, bi)
  {
  }

  lemma BranchMoves(i: Instr, m: Machine, pc: Word)
    requires i.Branch? || i.BranchCond? || i.BranchLr?
    requires m.pc % 4 == 0 && pc % 4 == 0 && pc != m.pc
    ensures SameElsewhere(Execute(i, m), Execute(i, m.(pc := pc)), Wrap(m.pc + 4), Wrap(pc + 4)) <==> Movable(i, m)
  {
    hide Execute, Jump, Taken, Wrap, IsNext;
    ExecutesJump(i, m);
    ExecutesJump(i, m.(pc := pc));
    if i.Branch? {
      JumpMoves(m, pc, true, i.li, i.aa, i.lk);
    } else {
      SameTaken(m, pc, i.bo, i.bi);
      if Taken(m, i.bo, i.bi).Some? {
        var taken := Taken(m, i.bo, i.bi).value;
        if i.BranchCond? {
          JumpMoves(m, pc, taken, i.bd, i.aa, i.lk);
        } else {
          JumpMoves(m, pc, taken, m.lr, true, i.lk);
        }
      }
    }
  }

  lemma PlainMoves(i: Instr, m: Machine, pc: Word)
    requires !i.Branch? && !i.BranchCond? && !i.BranchLr? && !i.Lmw? && !i.Stmw?
    ensures SameElsewhere(Execute(i, m), Execute(i, m.(pc := pc)), Wrap(m.pc + 4), Wrap(pc + 4))
  {
    if i.Lwz? || i.Stw? || i.Stwu? {
      SameAddress(m, m.(pc := pc), i.ra, i.d);
      hide EffectiveAddress;
    }
  }

  lemma MultipleMoves(i: Instr, m: Machine, pc: Word)
    requires i.Lmw? || i.Stmw?
    ensures SameElsewhere(Execute(i, m), Execute(i, m.(pc := pc)), Wrap(m.pc + 4), Wrap(pc + 4))
  {
    hide LoadMultiple, StoreMultiple, EffectiveAddress, Wrap;
    SameAddress(m, m.(pc := pc), i.ra, i.d);
    var next, next', ea := Wrap(m.pc + 4), Wrap(pc + 4), EffectiveAddress(m, i.ra, i.d);
    if i.Lmw? {
      LoadMultipleMoves(m.(pc := next), i.rt, ea, next');
      if LoadMultiple(m.(pc := next), i.rt, ea).Some? {
        LoadMultipleFallsThrough(m.(pc := next), i.rt, ea);
      }
    } else {
      StoreMultipleMoves(m.(pc := next), i.rs, ea, next');
      if StoreMultiple(m.(pc := next), i.rs, ea).Some? {
        StoreMultipleFallsThrough(m.(pc := next), i.rs, ea);
      }
    }
  }

  /** An instruction does the same at another place exactly if it is movable. */
  lemma MovedExecutes(i: Instr, m: Machine, pc: Word)
    requires m.pc % 4 == 0 && pc % 4 == 0 && pc != m.pc
    ensures SameElsewhere(Execute(i, m), Execute(i, m.(pc := pc)), Wrap(m.pc + 4), Wrap(pc + 4)) <==> Movable(i, m)
  {
    hide Execute, SameElsewhere, Wrap, IsNext, Taken;
    if i.Branch? || i.BranchCond? || i.BranchLr? {
      BranchMoves(i, m, pc);
    } else if i.Lmw? || i.Stmw? {
      MultipleMoves(i, m, pc);
    } else {
      PlainMoves(i, m, pc);
    }
  }

  /** In the stub, the original's first instruction does what it does in the
      original exactly if it is movable, which install does not check. */
  lemma StubKeepsFirst(m: Machine, p: map<Word, Word>, original: Word, new_: Word, stub: Word)
    requires Rerouted(m.mem, p, original, new_, stub) && m.pc == original
    ensures SameElsewhere(Execute(Decode(m.mem[original]), m.(mem := p)), Step(m.(pc := stub, mem := p)),
                          Wrap(original + 4), Wrap(stub + 4)) <==>
              Movable(Decode(m.mem[original]), m)
  {
    hide Decode, Execute, Movable, SameElsewhere, BranchWord, Wrap, Taken;
    var i := Decode(m.mem[original]);
    MovedExecutes(i, m.(mem := p), stub);
    SameMovable(i, m, p);
  }

  lemma SameMovable(i: Instr, m: Machine, p: map<Word, Word>)
    ensures Movable(i, m.(mem := p)) <==> Movable(i, m)
  {
  }

  /** The first instruction of the original, executed in the stub: one step, or
      two when it goes on to the stub's branch. */
  lemma StubStarts(m: Machine, p: map<Word, Word>, original: Word, new_: Word, stub: Word) returns (j: nat)
    requires Rerouted(m.mem, p, original, new_, stub) && m.pc == original
    requires original + 4 < 0x200_0000
    requires Movable(Decode(m.mem[original]), m) && Avoids(DataRange(m), Patched(original, stub))
    ensures j == 1 || j == 2
    ensures Step(m).Some? <==> Run(m.(pc := stub, mem := p), j).Some?
    ensures Step(m).Some? ==> Agree(Step(m).value, Run(m.(pc := stub, mem := p), j).value, Patched(original, stub))
  {
    hide Decode, Execute, DataRange, StoreRange, BranchWord, Movable, Avoids, Block, Taken;
    var hidden := Patched(original, stub);
    var i := Decode(m.mem[original]);
    var m' := m.(mem := p);
    var s := m.(pc := stub, mem := p);
    ExecuteAgrees(i, m, m', hidden);
    SameMovable(i, m, p);
    MovedExecutes(i, m', stub);
    assert Step(m) == Execute(i, m) && Step(s) == Execute(i, s);
    RunExtends(s, 0, s);
    j := 1;
    if Step(s).Some? && Step(s).value.pc != Step(m).value.pc {
      var t := Step(s).value;
      StubBranchSurvives(m, s, hidden, stub + 4);
      BranchJumps(t, original + 4);
      RunExtends(s, 1, t);
      j := 2;
    }
  }

  /** The first instruction does not store over the branch after it. */
  lemma StubBranchSurvives(m: Machine, s: Machine, hidden: set<int>, a: Word)
    requires m.pc in m.mem && s.pc in s.mem && s.mem[s.pc] == m.mem[m.pc] && s.gpr == m.gpr
    requires Avoids(DataRange(m), hidden) && a in hidden && a in s.mem && Step(s).Some?
    ensures a in Step(s).value.mem && Step(s).value.mem[a] == s.mem[a]
  {
    hide Decode, Execute;
    var (ea, words) := StoreRange(s);
    assert words > 0 ==> StoreRange(s) == DataRange(m);
    if words > 0 {
      StepFrame(s, ea, ea + 4 * words, a);
    } else {
      StepFrame(s, 0, 0, a);
    }
  }

  /** For k instructions the program neither executes nor touches a hidden word. */
  predicate StaysClear(u: Machine, k: nat, hidden: set<int>)
    decreases k
  {
    k > 0 ==>
      && u.pc !in hidden && Avoids(DataRange(u), hidden)
      && (Step(u).Some? ==> StaysClear(Step(u).value, k - 1, hidden))
  }

  lemma {:induction false} RunAgrees(u: Machine, p: Machine, k: nat, hidden: set<int>)
    requires Agree(u, p, hidden) && StaysClear(u, k, hidden)
    ensures Run(u, k).Some? <==> Run(p, k).Some?
    ensures Run(u, k).Some? ==> Agree(Run(u, k).value, Run(p, k).value, hidden)
    decreases k
  {
    hide Step, DataRange, Agree;
    if k > 0 {
      StepAgrees(u, p, hidden);
      if Step(u).Some? {
        RunAgrees(Step(u).value, Step(p).value, k - 1, hidden);
      }
    }
  }

  lemma {:induction false} RunJoins(m: Machine, j: nat, s: Machine, k: nat)
    requires Run(m, j) == Some(s)
    ensures Run(m, j + k) == Run(s, k)
    decreases j
  {
    hide Step;
    if j > 0 {
      RunJoins(Step(m).value, j - 1, s, k);
    }
  }

  lemma {:induction false} RunStops(m: Machine, j: nat, k: nat)
    requires Run(m, j) == None
    ensures Run(m, j + k) == None
    decreases j
  {
    hide Step;
    if j > 0 && Step(m).Some? {
      RunStops(Step(m).value, j - 1, k);
    }
  }

  /** Entered through the stub, the rerouted program makes the same run as the
      unpatched program entered at the original, for as long as that run keeps
      away from the patched words. */
  lemma StubRunsOriginal(m: Machine, p: map<Word, Word>, original: Word, new_: Word, stub: Word, k: nat)
    returns (j: nat)
    requires Rerouted(m.mem, p, original, new_, stub) && m.pc == original
    requires original + 4 < 0x200_0000
    requires Movable(Decode(m.mem[original]), m) && Avoids(DataRange(m), Patched(original, stub))
    requires Step(m).Some? ==> StaysClear(Step(m).value, k, Patched(original, stub))
    ensures j == 1 || j == 2
    ensures Run(m, 1 + k).Some? <==> Run(m.(pc := stub, mem := p), j + k).Some?
    ensures Run(m, 1 + k).Some? ==>
              Agree(Run(m, 1 + k).value, Run(m.(pc := stub, mem := p), j + k).value, Patched(original, stub))
  {
    hide Decode, Step, DataRange, Movable, Avoids, Agree, Patched, StaysClear;
    var hidden := Patched(original, stub);
    var s := m.(pc := stub, mem := p);
    j := StubStarts(m, p, original, new_, stub);
    if Step(m).Some? {
      RunAgrees(Step(m).value, Run(s, j).value, k, hidden);
      RunJoins(s, j, Run(s, j).value, k);
    } else {
      RunStops(s, j, k);
    }
  }

  /** The range check on the stub's branch back admits originals up to 128 MB;
      the branch reaches just those below 32 MB. */
  lemma StubBranchReach(m: Machine, original: Word)
    requires original % 4 == 0 && original + 4 < 0x1_0000_0000 && (original + 4) / 4 < 0x200_0000
    requires m.pc in m.mem && m.mem[m.pc] == BranchWord(original + 4)
    ensures Step(m).Some? && (Step(m).value.pc == original + 4 <==> original + 4 < 0x200_0000)
  {
    BranchJumps(m, original + 4);
  }
}
