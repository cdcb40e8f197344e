/** The part of the 32-bit PowerPC user instruction set that the repository's
    machine code uses: registers, word memory, a decoder of instruction words
    in the formats of section 1.7 of the User Instruction Set Architecture
    (Book I), and a one-instruction step. */
module PowerPC {
  import opened Wrappers

  type Word = w: int | 0 <= w < 0x1_0000_0000
  type Reg = r: int | 0 <= r < 32
  type Gprs = g: seq<Word> | |g| == 32 witness seq(32, _ => 0)
  type CrBits = c: seq<bool> | |c| == 32 witness seq(32, _ => false)

  function Wrap(x: int): Word {
    x % 0x1_0000_0000
  }

  function Sum(a: int, b: int): Word {
    Wrap(a + b)
  }

  function Product(a: int, b: int): Word {
    Wrap(a * b)
  }

  /** The two's-complement reading of a register. */
  function Signed(w: Word): int {
    if w < 0x8000_0000 then w else w - 0x1_0000_0000
  }

  function SignExtend(v: int, size: int): int {
    if v < size / 2 then v else v - size
  }

  // ----- instruction words -----

  /** The field of width log2(size) whose lowest bit has weight `scale`. */
  function Field(w: Word, scale: int, size: int): int
    requires scale > 0 && size > 0
  {
    w / scale % size
  }

  datatype Instr =
    | Addi(rt: Reg, ra: Reg, si: int)
    | Add(rt: Reg, ra: Reg, rb: Reg)
    | Mullw(rt: Reg, ra: Reg, rb: Reg)
    | Or(ra: Reg, rs: Reg, rb: Reg)
    | Mflr(rt: Reg)
    | Mtlr(rs: Reg)
    | Cmpwi(bf: int, ra: Reg, si: int)
    | Lwz(rt: Reg, d: int, ra: Reg)
    | Stw(rs: Reg, d: int, ra: Reg)
    | Stwu(rs: Reg, d: int, ra: Reg)
    | Lmw(rt: Reg, d: int, ra: Reg)
    | Stmw(rs: Reg, d: int, ra: Reg)
    | Branch(li: int, aa: bool, lk: bool)
    | BranchCond(bo: Reg, bi: Reg, bd: int, aa: bool, lk: bool)
    | BranchLr(bo: Reg, bi: Reg, lk: bool)
    | Other  // illegal, or outside the modelled subset: control leaves the program

  function Decode(w: Word): Instr {
    var op := Field(w, 0x400_0000, 64);
    var rt := Field(w, 0x20_0000, 32);
    var ra := Field(w, 0x1_0000, 32);
    var rb := Field(w, 0x800, 32);
    var d := SignExtend(Field(w, 1, 0x1_0000), 0x1_0000);
    var aa := Field(w, 2, 2) == 1;
    var lk := Field(w, 1, 2) == 1;
    if op == 14 then Addi(rt, ra, d)
    else if op == 11 && rt % 4 == 0 then Cmpwi(rt / 4, ra, d)
    else if op == 32 then Lwz(rt, d, ra)
    else if op == 36 then Stw(rt, d, ra)
    else if op == 37 then Stwu(rt, d, ra)
    else if op == 46 then Lmw(rt, d, ra)
    else if op == 47 then Stmw(rt, d, ra)
    else if op == 18 then Branch(SignExtend(4 * Field(w, 4, 0x100_0000), 0x400_0000), aa, lk)
    else if op == 16 then BranchCond(rt, ra, SignExtend(4 * Field(w, 4, 0x4000), 0x1_0000), aa, lk)
    else if op == 19 && Field(w, 2, 1024) == 16 then BranchLr(rt, ra, lk)
    else if op == 31 && !lk then DecodeExtended(Field(w, 2, 1024), rt, ra, rb)
    else Other
  }

  /** Primary opcode 31 with the record bit clear. */
  function DecodeExtended(xo: int, rt: Reg, ra: Reg, rb: Reg): Instr {
    if xo == 266 then Add(rt, ra, rb)
    else if xo == 235 then Mullw(rt, ra, rb)
    else if xo == 444 then Or(ra, rt, rb)
    else if xo == 339 && ra == 8 && rb == 0 then Mflr(rt)
    else if xo == 467 && ra == 8 && rb == 0 then Mtlr(rt)
    else Other
  }

  // ----- execution -----

  /** `mem` holds the mapped, word-aligned addresses; `so` is XER[SO]. */
  datatype Machine = Machine(pc: Word, lr: Word, gpr: Gprs, cr: CrBits, so: bool, mem: map<Word, Word>)

  function Base(m: Machine, ra: Reg): Word {
    if ra == 0 then 0 else m.gpr[ra]
  }

  function EffectiveAddress(m: Machine, ra: Reg, d: int): Word {
    Wrap(Base(m, ra) + d)
  }

  predicate Accessible(m: Machine, ea: Word) {
    ea % 4 == 0 && ea in m.mem
  }

  function LoadMultiple(m: Machine, r: int, ea: Word): Option<Machine>
    requires 0 <= r <= 32
    decreases 32 - r
  {
    if r == 32 then Some(m)
    else if !Accessible(m, ea) then None
    else LoadMultiple(m.(gpr := m.gpr[r := m.mem[ea]]), r + 1, Wrap(ea + 4))
  }

  function StoreMultiple(m: Machine, r: int, ea: Word): Option<Machine>
    requires 0 <= r <= 32
    decreases 32 - r
  {
    if r == 32 then Some(m)
    else if !Accessible(m, ea) then None
    else StoreMultiple(m.(mem := m.mem[ea := m.gpr[r]]), r + 1, Wrap(ea + 4))
  }

  /** The branch conditions that do not involve the count register. */
  function Taken(m: Machine, bo: Reg, bi: Reg): Option<bool> {
    if bo == 20 then Some(true)
    else if bo == 12 then Some(m.cr[bi])
    else if bo == 4 then Some(!m.cr[bi])
    else None
  }

  function Jump(m: Machine, taken: bool, target: int, lk: bool): Machine {
    var next := Wrap(m.pc + 4);
    m.(pc := if taken then Wrap(target - target % 4) else next,
       lr := if lk then next else m.lr)
  }

  function Compare(m: Machine, bf: int, a: int, b: int): CrBits
    requires 0 <= bf < 8
  {
    m.cr[4 * bf := a < b][4 * bf + 1 := a > b][4 * bf + 2 := a == b][4 * bf + 3 := m.so]
  }

  /** Executes one decoded instruction; None when control leaves the program. */
  function Execute(i: Instr, m: Machine): Option<Machine> {
    var next := Wrap(m.pc + 4);
    match i
    case Addi(rt, ra, si) => Some(m.(pc := next, gpr := m.gpr[rt := Wrap(Base(m, ra) + si)]))
    case Add(rt, ra, rb) => Some(m.(pc := next, gpr := m.gpr[rt := Sum(m.gpr[ra], m.gpr[rb])]))
    case Mullw(rt, ra, rb) => Some(m.(pc := next, gpr := m.gpr[rt := Product(m.gpr[ra], m.gpr[rb])]))
    case Or(ra, rs, rb) =>
      // only the register move `mr`, which is `or` of a register with itself
      if rs == rb then Some(m.(pc := next, gpr := m.gpr[ra := m.gpr[rs]])) else None
    case Mflr(rt) => Some(m.(pc := next, gpr := m.gpr[rt := m.lr]))
    case Mtlr(rs) => Some(m.(pc := next, lr := m.gpr[rs]))
    case Cmpwi(bf, ra, si) =>
      if 0 <= bf < 8 then Some(m.(pc := next, cr := Compare(m, bf, Signed(m.gpr[ra]), si))) else None
    case Lwz(rt, d, ra) =>
      var ea := EffectiveAddress(m, ra, d);
      if Accessible(m, ea) then Some(m.(pc := next, gpr := m.gpr[rt := m.mem[ea]])) else None
    case Stw(rs, d, ra) =>
      var ea := EffectiveAddress(m, ra, d);
      if Accessible(m, ea) then Some(m.(pc := next, mem := m.mem[ea := m.gpr[rs]])) else None
    case Stwu(rs, d, ra) =>
      var ea := EffectiveAddress(m, ra, d);
      if ra != 0 && Accessible(m, ea)
      then Some(m.(pc := next, mem := m.mem[ea := m.gpr[rs]], gpr := m.gpr[ra := ea]))
      else None
    case Lmw(rt, d, ra) =>
      if ra < rt then LoadMultiple(m.(pc := next), rt, EffectiveAddress(m, ra, d)) else None
    case Stmw(rs, d, ra) => StoreMultiple(m.(pc := next), rs, EffectiveAddress(m, ra, d))
    case Branch(li, aa, lk) => Some(Jump(m, true, if aa then li else m.pc + li, lk))
    case BranchCond(bo, bi, bd, aa, lk) =>
      var taken := Taken(m, bo, bi);
      if taken.Some? then Some(Jump(m, taken.value, if aa then bd else m.pc + bd, lk)) else None
    case BranchLr(bo, bi, lk) =>
      var taken := Taken(m, bo, bi);
      if taken.Some? then Some(Jump(m, taken.value, m.lr, lk)) else None
    case Other => None
  }

  function Step(m: Machine): Option<Machine> {
    if m.pc in m.mem then Execute(Decode(m.mem[m.pc]), m) else None
  }

  function Run(m: Machine, k: nat): Option<Machine>
    decreases k
  {
    if k == 0 then Some(m)
    else
      var next := Step(m);
      if next.Some? then Run(next.value, k - 1) else None
  }

  lemma {:induction false} RunExtends(m: Machine, k: nat, s: Machine)
    requires Run(m, k) == Some(s)
    ensures Run(m, k + 1) == Step(s)
    decreases k
  {
    hide Step;
    if k == 0 {
      assert Step(m).Some? ==> Run(Step(m).value, 0) == Step(m);
    } else {
      RunExtends(Step(m).value, k - 1, s);
    }
  }

  // ----- where an instruction stores -----

  /** The first address the next instruction stores to, and how many words. */
  function StoreRange(m: Machine): (Word, nat) {
    if m.pc !in m.mem then (0, 0)
    else match Decode(m.mem[m.pc])
      case Stw(_, d, ra) => (EffectiveAddress(m, ra, d), 1)
      case Stwu(_, d, ra) => (EffectiveAddress(m, ra, d), 1)
      case Stmw(rs, d, ra) => (EffectiveAddress(m, ra, d), 32 - rs)
      case _ => (0, 0)
  }

  predicate StoresWithin(m: Machine, lo: int, hi: int) {
    var (ea, words) := StoreRange(m);
    words == 0 || (lo <= ea && ea + 4 * words <= hi)
  }

  /** `m` reaches `t` in exactly `k` instructions, storing only in [lo, hi). */
  predicate Reaches(m: Machine, k: nat, t: Machine, lo: int, hi: int)
    decreases k
  {
    if k == 0 then m == t
    else
      var next := Step(m);
      next.Some? && StoresWithin(m, lo, hi) && Reaches(next.value, k - 1, t, lo, hi)
  }

  lemma {:induction false} ReachesRuns(m: Machine, k: nat, t: Machine, lo: int, hi: int)
    requires Reaches(m, k, t, lo, hi)
    ensures Run(m, k) == Some(t)
    decreases k
  {
    hide Step, StoresWithin;
    if k > 0 {
      ReachesRuns(Step(m).value, k - 1, t, lo, hi);
    }
  }

  lemma {:induction false} ReachesJoins(m: Machine, j: nat, s: Machine, k: nat, t: Machine, lo: int, hi: int)
    requires Reaches(m, j, s, lo, hi) && Reaches(s, k, t, lo, hi)
    ensures Reaches(m, j + k, t, lo, hi)
    decreases j
  {
    hide Step, StoresWithin;
    if j > 0 {
      ReachesJoins(Step(m).value, j - 1, s, k, t, lo, hi);
    }
  }

  /** The first instructions of a run. */
  lemma {:induction false} ReachesPart(m: Machine, j: nat, k: nat, t: Machine, lo: int, hi: int) returns (s: Machine)
    requires Reaches(m, j + k, t, lo, hi)
    ensures Reaches(m, j, s, lo, hi)
    decreases j
  {
    hide Step, StoresWithin;
    if j == 0 {
      s := m;
    } else {
      s := ReachesPart(Step(m).value, j - 1, k, t, lo, hi);
    }
  }

  lemma {:induction false} ReachesWidens(m: Machine, k: nat, t: Machine, lo: int, hi: int, lo': int, hi': int)
    requires Reaches(m, k, t, lo, hi) && lo' <= lo && hi <= hi'
    ensures Reaches(m, k, t, lo', hi')
    decreases k
  {
    hide Step, StoreRange;
    if k > 0 {
      ReachesWidens(Step(m).value, k - 1, t, lo, hi, lo', hi');
    }
  }

  lemma StoresFirst(m: Machine, r: int, ea: Word)
    requires 0 <= r < 32 && StoreMultiple(m, r, ea).Some?
    ensures Accessible(m, ea)
    ensures StoreMultiple(m, r, ea) == StoreMultiple(m.(mem := m.mem[ea := m.gpr[r]]), r + 1, Wrap(ea + 4))
  {
  }

  lemma StoresNone(m: Machine, ea: Word)
    ensures StoreMultiple(m, 32, ea) == Some(m)
  {
  }

  lemma WrapsNext(ea: Word)
    ensures Wrap(ea + 4) == if ea as int + 4 < 0x1_0000_0000 then ea as int + 4 else ea as int + 4 - 0x1_0000_0000
  {
  }

  lemma {:induction false} StoreMultipleFrame(m: Machine, r: int, ea: Word, a: int)
    requires 0 <= r <= 32 && StoreMultiple(m, r, ea).Some? && ea + 4 * (32 - r) <= 0x1_0000_0000
    requires a in m.mem && (a < ea || ea + 4 * (32 - r) <= a)
    ensures var t := StoreMultiple(m, r, ea).value; a in t.mem && t.mem[a] == m.mem[a]
    decreases 32 - r
  {
    hide StoreMultiple, Wrap;
    if r == 32 {
      StoresNone(m, ea);
    } else {
      StoresFirst(m, r, ea);
      WrapsNext(ea);
      StoreMultipleFrame(m.(mem := m.mem[ea := m.gpr[r]]), r + 1, Wrap(ea + 4), a);
    }
  }

  lemma LoadMultipleFrame(m: Machine, r: int, ea: Word)
    requires 0 <= r <= 32 && LoadMultiple(m, r, ea).Some?
    ensures LoadMultiple(m, r, ea).value.mem == m.mem
    decreases 32 - r
  {
  }

  lemma StepFrame(m: Machine, lo: int, hi: int, a: int)
    requires Step(m).Some? && StoresWithin(m, lo, hi) && hi <= 0x1_0000_0000
    requires a in m.mem && (a < lo || hi <= a)
    ensures a in Step(m).value.mem && Step(m).value.mem[a] == m.mem[a]
  {
    hide Decode;
    var i := Decode(m.mem[m.pc]);
    if i.Stmw? {
      StoreMultipleFrame(m.(pc := Wrap(m.pc + 4)), i.rs, EffectiveAddress(m, i.ra, i.d), a);
    } else if i.Lmw? && i.ra < i.rt {
      LoadMultipleFrame(m.(pc := Wrap(m.pc + 4)), i.rt, EffectiveAddress(m, i.ra, i.d));
    }
  }

  /** Words outside the range stored to keep their values over a whole run. */
  lemma {:induction false} ReachesFrame(m: Machine, k: nat, t: Machine, lo: int, hi: int, a: int)
    requires Reaches(m, k, t, lo, hi) && hi <= 0x1_0000_0000
    requires a in m.mem && (a < lo || hi <= a)
    ensures a in t.mem && t.mem[a] == m.mem[a]
    decreases k
  {
    hide Step, StoresWithin;
    if k > 0 {
      StepFrame(m, lo, hi, a);
      ReachesFrame(Step(m).value, k - 1, t, lo, hi, a);
    }
  }

  // ----- two memories that differ where the program does not look -----

  /** The first address the next instruction loads from or stores to, and how
      many words. */
  function DataRange(m: Machine): (Word, nat) {
    if m.pc !in m.mem then (0, 0)
    else match Decode(m.mem[m.pc])
      case Lwz(_, d, ra) => (EffectiveAddress(m, ra, d), 1)
      case Lmw(rt, d, ra) => (EffectiveAddress(m, ra, d), 32 - rt)
      case _ => StoreRange(m)
  }

  predicate Avoids(range: (Word, nat), hidden: set<int>) {
    var (ea, words) := range;
    words > 0 ==> ea + 4 * words <= 0x1_0000_0000 && forall a :: a in hidden ==> a < ea || ea + 4 * words <= a
  }

  /** Equal in everything but the hidden words. */
  predicate Agree(u: Machine, p: Machine, hidden: set<int>) {
    && p == u.(mem := p.mem) && p.mem.Keys == u.mem.Keys
    && forall a :: a in u.mem && a !in hidden ==> p.mem[a] == u.mem[a]
  }

  lemma {:induction false} LoadMultipleAgrees(u: Machine, p: Machine, r: int, ea: Word, hidden: set<int>)
    requires 0 <= r <= 32 && Agree(u, p, hidden) && Avoids((ea, 32 - r), hidden)
    ensures LoadMultiple(u, r, ea).Some? <==> LoadMultiple(p, r, ea).Some?
    ensures LoadMultiple(u, r, ea).Some? ==> Agree(LoadMultiple(u, r, ea).value, LoadMultiple(p, r, ea).value, hidden)
    decreases 32 - r
  {
    if r < 32 && Accessible(u, ea) {
      assert ea !in hidden;
      LoadMultipleAgrees(u.(gpr := u.gpr[r := u.mem[ea]]), p.(gpr := p.gpr[r := p.mem[ea]]), r + 1, Wrap(ea + 4), hidden);
    }
  }

  lemma {:induction false} StoreMultipleAgrees(u: Machine, p: Machine, r: int, ea: Word, hidden: set<int>)
    requires 0 <= r <= 32 && Agree(u, p, hidden) && Avoids((ea, 32 - r), hidden)
    ensures StoreMultiple(u, r, ea).Some? <==> StoreMultiple(p, r, ea).Some?
    ensures StoreMultiple(u, r, ea).Some? ==> Agree(StoreMultiple(u, r, ea).value, StoreMultiple(p, r, ea).value, hidden)
    decreases 32 - r
  {
    if r < 32 && Accessible(u, ea) {
      StoreMultipleAgrees(u.(mem := u.mem[ea := u.gpr[r]]), p.(mem := p.mem[ea := p.gpr[r]]), r + 1, Wrap(ea + 4), hidden);
    }
  }

  /** An instruction that neither is nor touches a hidden word does the same in
      both memories. */
  lemma StepAgrees(u: Machine, p: Machine, hidden: set<int>)
    requires Agree(u, p, hidden) && u.pc !in hidden && Avoids(DataRange(u), hidden)
    ensures Step(u).Some? <==> Step(p).Some?
    ensures Step(u).Some? ==> Agree(Step(u).value, Step(p).value, hidden)
  {
    if u.pc in u.mem {
      ExecuteAgrees(Decode(u.mem[u.pc]), u, p, hidden);
    }
  }

  predicate TouchesMemory(i: Instr) {
    i.Lwz? || i.Stw? || i.Stwu? || i.Lmw? || i.Stmw?
  }

  predicate Branches(i: Instr) {
    i.Branch? || i.BranchCond? || i.BranchLr?
  }

  lemma BranchesAgree(i: Instr, u: Machine, p: Machine, hidden: set<int>)
    requires Agree(u, p, hidden) && Branches(i)
    ensures Execute(i, u).Some? <==> Execute(i, p).Some?
    ensures Execute(i, u).Some? ==> Agree(Execute(i, u).value, Execute(i, p).value, hidden)
    ensures Execute(i, u).Some? ==> Execute(i, u).value.mem == u.mem
  {
  }

  lemma ArithmeticAgrees(i: Instr, u: Machine, p: Machine, hidden: set<int>)
    requires Agree(u, p, hidden) && !TouchesMemory(i) && !Branches(i)
    ensures Execute(i, u).Some? <==> Execute(i, p).Some?
    ensures Execute(i, u).Some? ==> Agree(Execute(i, u).value, Execute(i, p).value, hidden)
    ensures Execute(i, u).Some? ==> Execute(i, u).value.mem == u.mem
  {
    hide Wrap, Product, Sum, Signed;
  }

  lemma RegistersAgree(i: Instr, u: Machine, p: Machine, hidden: set<int>)
    requires Agree(u, p, hidden) && !TouchesMemory(i)
    ensures Execute(i, u).Some? <==> Execute(i, p).Some?
    ensures Execute(i, u).Some? ==> Agree(Execute(i, u).value, Execute(i, p).value, hidden)
    ensures Execute(i, u).Some? ==> Execute(i, u).value.mem == u.mem
  {
    hide Execute, Agree;
    if Branches(i) {
      BranchesAgree(i, u, p, hidden);
    } else {
      ArithmeticAgrees(i, u, p, hidden);
    }
  }

  lemma WordsAgree(i: Instr, u: Machine, p: Machine, hidden: set<int>)
    requires Agree(u, p, hidden) && (i.Lwz? || i.Stw? || i.Stwu?)
    requires Avoids((EffectiveAddress(u, i.ra, i.d), 1), hidden)
    ensures Execute(i, u).Some? <==> Execute(i, p).Some?
    ensures Execute(i, u).Some? ==> Agree(Execute(i, u).value, Execute(i, p).value, hidden)
  {
    var ea := EffectiveAddress(u, i.ra, i.d);
    hide EffectiveAddress;
    assert EffectiveAddress(p, i.ra, i.d) == ea by { assert Base(p, i.ra) == Base(u, i.ra); SameAddress(u, p, i.ra, i.d); }
    assert ea !in hidden;
  }

  lemma SameAddress(u: Machine, p: Machine, ra: Reg, d: int)
    requires u.gpr == p.gpr
    ensures EffectiveAddress(p, ra, d) == EffectiveAddress(u, ra, d)
  {
  }

  lemma ExecuteAgrees(i: Instr, u: Machine, p: Machine, hidden: set<int>)
    requires Agree(u, p, hidden) && u.pc in u.mem && i == Decode(u.mem[u.pc]) && Avoids(DataRange(u), hidden)
    ensures Execute(i, u).Some? <==> Execute(i, p).Some?
    ensures Execute(i, u).Some? ==> Agree(Execute(i, u).value, Execute(i, p).value, hidden)
  {
    hide Decode, Avoids, Agree;
    var next := Wrap(u.pc + 4);
    if i.Lmw? {
      AgreesAt(u, p, hidden, next);
      if i.ra < i.rt {
        LoadMultipleAgrees(u.(pc := next), p.(pc := next), i.rt, EffectiveAddress(u, i.ra, i.d), hidden);
      }
    } else if i.Stmw? {
      AgreesAt(u, p, hidden, next);
      StoreMultipleAgrees(u.(pc := next), p.(pc := next), i.rs, EffectiveAddress(u, i.ra, i.d), hidden);
    } else {
      hide Execute;
      if TouchesMemory(i) {
        WordsAgree(i, u, p, hidden);
      } else {
        RegistersAgree(i, u, p, hidden);
      }
    }
  }

  lemma AgreesAt(u: Machine, p: Machine, hidden: set<int>, pc: Word)
    requires Agree(u, p, hidden)
    ensures Agree(u.(pc := pc), p.(pc := pc), hidden) && p.pc == u.pc
    ensures forall ra: Reg, d: int :: EffectiveAddress(p, ra, d) == EffectiveAddress(u, ra, d)
  {
  }
}
