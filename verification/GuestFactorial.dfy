/** The recursive factorial that the virtual machine monitor demo injects into
    its guest as 26 instruction words. */
module GuestFactorial {
  import opened Wrappers
  import opened PowerPC

  const FACTORIAL_CODE: seq<Word> := [
    0x7c0802a6, 0xbfc1fff8, 0x90010008, 0x9421ffa0,
    0x7c3e0b78, 0x907e0078, 0x801e0078, 0x2f800000,
    0x419d0010, 0x38000001, 0x901e0040, 0x48000024,
    0x805e0078, 0x3802ffff, 0x7c030378, 0x4bffffc5,
    0x7c621b78, 0x801e0078, 0x7c0201d6, 0x901e0040,
    0x807e0040, 0x80210000, 0x80010008, 0x7c0803a6,
    0xbbc1fff8, 0x4e800020
  ]

  /** The instruction at word i. */
  function Listing(i: nat): Instr {
    match i
    case 0 => Mflr(0)
    case 1 => Stmw(30, -8, 1)
    case 2 => Stw(0, 8, 1)
    case 3 => Stwu(1, -96, 1)
    case 4 => Or(30, 1, 1)
    case 5 => Stw(3, 120, 30)
    case 6 => Lwz(0, 120, 30)
    case 7 => Cmpwi(7, 0, 0)
    case 8 => BranchCond(12, 29, 16, false, false)
    case 9 => Addi(0, 0, 1)
    case 10 => Stw(0, 64, 30)
    case 11 => Branch(36, false, false)
    case 12 => Lwz(2, 120, 30)
    case 13 => Addi(0, 2, -1)
    case 14 => Or(3, 0, 0)
    case 15 => Branch(-60, false, true)
    case 16 => Or(2, 3, 3)
    case 17 => Lwz(0, 120, 30)
    case 18 => Mullw(0, 2, 0)
    case 19 => Stw(0, 64, 30)
    case 20 => Lwz(3, 64, 30)
    case 21 => Lwz(1, 0, 1)
    case 22 => Lwz(0, 8, 1)
    case 23 => Mtlr(0)
    case 24 => Lmw(30, -8, 1)
    case 25 => BranchLr(20, 0, false)
    case _ => Other
  }

  /** The C function that was compiled. */
  function Factorial(n: int): int {
    if n <= 0 then 1 else n * Factorial(n - 1)
  }

  /** Activations nested below the outermost one. */
  function Depth(n: int): nat {
    if n <= 0 then 0 else n
  }

  function Instructions(n: int): nat {
    23 * Depth(n) + 18
  }

  // ----- the code in memory -----

  predicate CodeAt(mem: map<Word, Word>, text: int, code: seq<Word>) {
    forall i :: 0 <= i < |code| ==> text + 4 * i in mem && mem[text + 4 * i] == code[i]
  }

  lemma PrologueDecodes()
    ensures Decode(0x7c0802a6) == Mflr(0)
    ensures Decode(0xbfc1fff8) == Stmw(30, -8, 1)
    ensures Decode(0x90010008) == Stw(0, 8, 1)
    ensures Decode(0x9421ffa0) == Stwu(1, -96, 1)
    ensures Decode(0x7c3e0b78) == Or(30, 1, 1)
  {
  }

  lemma GuardDecodes()
    ensures Decode(0x907e0078) == Stw(3, 120, 30)
    ensures Decode(0x801e0078) == Lwz(0, 120, 30)
    ensures Decode(0x2f800000) == Cmpwi(7, 0, 0)
    ensures Decode(0x419d0010) == BranchCond(12, 29, 16, false, false)
  {
  }

  lemma BaseCaseDecodes()
    ensures Decode(0x38000001) == Addi(0, 0, 1)
    ensures Decode(0x901e0040) == Stw(0, 64, 30)
    ensures Decode(0x48000024) == Branch(36, false, false)
  {
  }

  lemma CallDecodes()
    ensures Decode(0x805e0078) == Lwz(2, 120, 30)
    ensures Decode(0x3802ffff) == Addi(0, 2, -1)
    ensures Decode(0x7c030378) == Or(3, 0, 0)
    ensures Decode(0x4bffffc5) == Branch(-60, false, true)
  {
  }

  lemma ProductDecodes()
    ensures Decode(0x7c621b78) == Or(2, 3, 3)
    ensures Decode(0x801e0078) == Lwz(0, 120, 30)
    ensures Decode(0x7c0201d6) == Mullw(0, 2, 0)
    ensures Decode(0x901e0040) == Stw(0, 64, 30)
  {
  }

  lemma EpilogueDecodes()
    ensures Decode(0x807e0040) == Lwz(3, 64, 30)
    ensures Decode(0x80210000) == Lwz(1, 0, 1)
    ensures Decode(0x80010008) == Lwz(0, 8, 1)
    ensures Decode(0x7c0803a6) == Mtlr(0)
    ensures Decode(0xbbc1fff8) == Lmw(30, -8, 1)
    ensures Decode(0x4e800020) == BranchLr(20, 0, false)
  {
  }

  /** Every injected word decodes to the instruction listed for it. */
  lemma CodeDecodes(i: nat)
    requires i < 26
    ensures Decode(FACTORIAL_CODE[i]) == Listing(i)
  {
    hide Decode;
    if i < 5 {
      PrologueDecodes();
    } else if i < 9 {
      GuardDecodes();
    } else if i < 12 {
      BaseCaseDecodes();
    } else if i < 16 {
      CallDecodes();
    } else if i < 20 {
      ProductDecodes();
    } else {
      EpilogueDecodes();
    }
  }

  /** With the code in memory, a step at word i executes instruction i. */
  lemma StepsListing(m: Machine, text: int, i: nat)
    requires CodeAt(m.mem, text, FACTORIAL_CODE) && i < 26 && m.pc == text + 4 * i
    ensures m.pc in m.mem && Decode(m.mem[m.pc]) == Listing(i)
    ensures Step(m) == Execute(Listing(i), m)
  {
    hide Decode, Execute;
    assert m.mem[text + 4 * i] == FACTORIAL_CODE[i];
    CodeDecodes(i);
  }

  // ----- one activation -----

  lemma StoresTwo(m: Machine, ea: Word)
    requires Accessible(m, ea) && Accessible(m, Wrap(ea + 4))
    ensures StoreMultiple(m, 30, ea) ==
            Some(m.(mem := m.mem[ea := m.gpr[30]][Wrap(ea + 4) := m.gpr[31]]))
  {
    var m1 := m.(mem := m.mem[ea := m.gpr[30]]);
    var m2 := m1.(mem := m1.mem[Wrap(ea + 4) := m1.gpr[31]]);
    assert StoreMultiple(m2, 32, Wrap(Wrap(ea + 4) + 4)) == Some(m2);
  }

  lemma LoadsTwo(m: Machine, ea: Word)
    requires Accessible(m, ea) && Accessible(m, Wrap(ea + 4))
    ensures LoadMultiple(m, 30, ea) ==
            Some(m.(gpr := m.gpr[30 := m.mem[ea]][31 := m.mem[Wrap(ea + 4)]]))
  {
    var m1 := m.(gpr := m.gpr[30 := m.mem[ea]]);
    var m2 := m1.(gpr := m1.gpr[31 := m1.mem[Wrap(ea + 4)]]);
    assert LoadMultiple(m2, 32, Wrap(Wrap(ea + 4) + 4)) == Some(m2);
  }

  /** The code is at text, control is at its start, the stack words [lo, sp + 28)
      around stack pointer sp are mapped, and the code is elsewhere. */
  predicate Entered(m: Machine, text: int, sp: int, lo: int) {
    && m.pc == text && CodeAt(m.mem, text, FACTORIAL_CODE)
    && text % 4 == 0 && 0 <= text && text + 104 <= 0x1_0000_0000
    && sp == m.gpr[1] && sp % 4 == 0 && 0 <= lo <= sp - 96 && sp + 28 <= 0x1_0000_0000
    && (forall a :: lo <= a < sp + 28 && a % 4 == 0 ==> a in m.mem)
    && (text + 104 <= lo || sp + 28 <= text)
  }

  lemma CodeSurvives(mem: map<Word, Word>, mem': map<Word, Word>, text: int)
    requires CodeAt(mem, text, FACTORIAL_CODE) && mem.Keys <= mem'.Keys
    requires forall a :: a in mem && text <= a < text + 104 ==> mem'[a] == mem[a]
    ensures CodeAt(mem', text, FACTORIAL_CODE)
  {
  }

  /** `m` is reached from `m0` by k instructions that stored only in [lo, hi);
      it is at word i of the code, which is intact. */
  predicate At(m0: Machine, k: nat, m: Machine, text: int, i: nat, lo: int, hi: int) {
    && Reaches(m0, k, m, lo, hi) && CodeAt(m.mem, text, FACTORIAL_CODE) && i < 26
    && m.pc == text + 4 * i && text % 4 == 0 && 0 <= text && text + 104 <= 0x1_0000_0000
    && (text + 104 <= lo || hi <= text) && 0 <= lo && hi <= 0x1_0000_0000
  }

  lemma Advances(m0: Machine, k: nat, m: Machine, t: Machine, text: int, i: nat, lo: int, hi: int)
    requires At(m0, k, m, text, i, lo, hi)
    requires Execute(Listing(i), m) == Some(t) && StoresWithin(m, lo, hi)
    ensures Reaches(m0, k + 1, t, lo, hi)
  {
    hide Decode, Execute, StoresWithin;
    StepsListing(m, text, i);
    assert Reaches(t, 0, t, lo, hi);
    assert Reaches(m, 1, t, lo, hi);
    ReachesJoins(m0, k, m, 1, t, lo, hi);
  }

  /** An instruction that leaves memory alone. */
  lemma Executes(m0: Machine, k: nat, m: Machine, text: int, i: nat, lo: int, hi: int, t: Machine, j: nat)
    requires At(m0, k, m, text, i, lo, hi) && Execute(Listing(i), m) == Some(t)
    requires !Listing(i).Stw? && !Listing(i).Stwu? && !Listing(i).Stmw?
    requires j < 26 && t.pc == text + 4 * j && t.mem == m.mem
    ensures At(m0, k + 1, t, text, j, lo, hi)
  {
    hide Decode, Execute;
    StepsListing(m, text, i);
    Advances(m0, k, m, t, text, i, lo, hi);
  }

  lemma Moves(m0: Machine, k: nat, m: Machine, text: int, i: nat, lo: int, hi: int, ra: Reg, rs: Reg)
    returns (t: Machine)
    requires At(m0, k, m, text, i, lo, hi) && Listing(i) == Or(ra, rs, rs) && i < 25
    ensures t == m.(pc := text + 4 * i + 4, gpr := m.gpr[ra := m.gpr[rs]])
    ensures At(m0, k + 1, t, text, i + 1, lo, hi)
  {
    hide Decode, Reaches, Listing, CodeAt;
    t := m.(pc := text + 4 * i + 4, gpr := m.gpr[ra := m.gpr[rs]]);
    Executes(m0, k, m, text, i, lo, hi, t, i + 1);
  }

  lemma AddsImmediate(m0: Machine, k: nat, m: Machine, text: int, i: nat, lo: int, hi: int,
                      rt: Reg, ra: Reg, si: int) returns (t: Machine)
    requires At(m0, k, m, text, i, lo, hi) && Listing(i) == Addi(rt, ra, si) && i < 25
    ensures t == m.(pc := text + 4 * i + 4, gpr := m.gpr[rt := Wrap(Base(m, ra) + si)])
    ensures At(m0, k + 1, t, text, i + 1, lo, hi)
  {
    hide Decode, Reaches, Listing, CodeAt;
    t := m.(pc := text + 4 * i + 4, gpr := m.gpr[rt := Wrap(Base(m, ra) + si)]);
    Executes(m0, k, m, text, i, lo, hi, t, i + 1);
  }

  lemma AddressIs(m: Machine, ra: Reg, d: int, ea: Word)
    requires ra != 0 && ea as int == m.gpr[ra] as int + d
    ensures EffectiveAddress(m, ra, d) == ea
  {
  }

  lemma Loads(m0: Machine, k: nat, m: Machine, text: int, i: nat, lo: int, hi: int,
              rt: Reg, d: int, ra: Reg, ea: Word) returns (t: Machine)
    requires At(m0, k, m, text, i, lo, hi) && Listing(i) == Lwz(rt, d, ra) && i < 25
    requires ra != 0 && ea as int == m.gpr[ra] as int + d && Accessible(m, ea)
    ensures t == m.(pc := text + 4 * i + 4, gpr := m.gpr[rt := m.mem[ea]])
    ensures At(m0, k + 1, t, text, i + 1, lo, hi)
  {
    hide Decode, Reaches, Listing, CodeAt, EffectiveAddress;
    AddressIs(m, ra, d, ea);
    t := m.(pc := text + 4 * i + 4, gpr := m.gpr[rt := m.mem[ea]]);
    Executes(m0, k, m, text, i, lo, hi, t, i + 1);
  }

  lemma Stores(m0: Machine, k: nat, m: Machine, text: int, i: nat, lo: int, hi: int,
               rs: Reg, d: int, ra: Reg, ea: Word) returns (t: Machine)
    requires At(m0, k, m, text, i, lo, hi) && Listing(i) == Stw(rs, d, ra) && i < 25
    requires ra != 0 && ea as int == m.gpr[ra] as int + d && Accessible(m, ea) && lo <= ea && ea + 4 <= hi
    ensures t == m.(pc := text + 4 * i + 4, mem := m.mem[ea := m.gpr[rs]])
    ensures At(m0, k + 1, t, text, i + 1, lo, hi)
  {
    hide Decode, Reaches, Listing, CodeAt, FACTORIAL_CODE, EffectiveAddress;
    AddressIs(m, ra, d, ea);
    t := m.(pc := text + 4 * i + 4, mem := m.mem[ea := m.gpr[rs]]);
    CodeSurvives(m.mem, t.mem, text);
    StepsListing(m, text, i);
    Advances(m0, k, m, t, text, i, lo, hi);
  }

  /** Word 0, `mflr r0`. */
  lemma SavesLink(m0: Machine, k: nat, m: Machine, text: int, lo: int, hi: int) returns (t: Machine)
    requires At(m0, k, m, text, 0, lo, hi)
    ensures t == m.(pc := text + 4, gpr := m.gpr[0 := m.lr])
    ensures At(m0, k + 1, t, text, 1, lo, hi)
  {
    hide Decode, Reaches, CodeAt;
    t := m.(pc := text + 4, gpr := m.gpr[0 := m.lr]);
    Executes(m0, k, m, text, 0, lo, hi, t, 1);
  }

  /** Word 1, `stmw r30,-8(r1)`. */
  lemma SavesPair(m0: Machine, k: nat, m: Machine, text: int, lo: int, hi: int, ea: Word, next: Word, t: Machine)
    requires At(m0, k, m, text, 1, lo, hi) && ea as int == m.gpr[1] as int - 8 && next as int == ea as int + 4
    requires Accessible(m, ea) && Accessible(m, next) && lo <= ea && ea as int + 8 <= hi <= 0x1_0000_0000
    requires t == m.(pc := text + 8, mem := m.mem[ea := m.gpr[30]][next := m.gpr[31]])
    ensures At(m0, k + 1, t, text, 2, lo, hi)
  {
    hide Decode, Reaches, StoreMultiple, CodeAt, FACTORIAL_CODE, EffectiveAddress;
    AddressIs(m, 1, -8, ea);
    WrapsNext(ea);
    StoresTwo(m.(pc := text + 8), ea);
    CodeSurvives(m.mem, t.mem, text);
    StepsListing(m, text, 1);
    Advances(m0, k, m, t, text, 1, lo, hi);
  }

  /** Word 3, `stwu r1,-96(r1)`. */
  lemma Pushes(m0: Machine, k: nat, m: Machine, text: int, lo: int, hi: int, ea: Word) returns (t: Machine)
    requires At(m0, k, m, text, 3, lo, hi) && ea as int == m.gpr[1] as int - 96
    requires Accessible(m, ea) && lo <= ea && ea + 4 <= hi
    ensures t == m.(pc := text + 16, gpr := m.gpr[1 := ea], mem := m.mem[ea := m.gpr[1]])
    ensures At(m0, k + 1, t, text, 4, lo, hi)
  {
    hide Decode, Reaches, CodeAt, FACTORIAL_CODE, EffectiveAddress;
    AddressIs(m, 1, -96, ea);
    t := m.(pc := text + 16, gpr := m.gpr[1 := ea], mem := m.mem[ea := m.gpr[1]]);
    CodeSurvives(m.mem, t.mem, text);
    StepsListing(m, text, 3);
    Advances(m0, k, m, t, text, 3, lo, hi);
  }

  lemma Starts(m: Machine, text: int, lo: int, hi: int)
    requires m.pc == text && CodeAt(m.mem, text, FACTORIAL_CODE)
    requires text % 4 == 0 && 0 <= text && text + 104 <= 0x1_0000_0000 && (text + 104 <= lo || hi <= text)
    requires 0 <= lo && hi <= 0x1_0000_0000
    ensures At(m, 0, m, text, 0, lo, hi)
  {
  }

  /** Words 0-4: save the link register, r30 and r31, and push a frame. */
  lemma PushesFrame(m: Machine, text: int, sp: int, lo: int) returns (t: Machine)
    requires Entered(m, text, sp, lo)
    ensures t == m.(pc := text + 20, gpr := m.gpr[0 := m.lr][1 := sp - 96][30 := sp - 96],
                    mem := m.mem[sp - 8 := m.gpr[30]][sp - 4 := m.gpr[31]][sp + 8 := m.lr][sp - 96 := sp])
    ensures At(m, 5, t, text, 5, lo, sp + 28)
  {
    hide At, CodeAt, FACTORIAL_CODE;
    var hi := sp + 28;
    Starts(m, text, lo, hi);
    var s1 := SavesLink(m, 0, m, text, lo, hi);
    var s2 := s1.(pc := text + 8, mem := m.mem[sp - 8 := m.gpr[30]][sp - 4 := m.gpr[31]]);
    SavesPair(m, 1, s1, text, lo, hi, sp - 8, sp - 4, s2);
    var s3 := Stores(m, 2, s2, text, 2, lo, hi, 0, 8, 1, sp + 8);
    var s4 := Pushes(m, 3, s3, text, lo, hi, sp - 96);
    t := Moves(m, 4, s4, text, 4, lo, hi, 30, 1);
  }

  /** An unconditional branch to word j. */
  lemma Jumps(m0: Machine, k: nat, m: Machine, text: int, i: nat, lo: int, hi: int, li: int, lk: bool, j: nat)
    returns (t: Machine)
    requires At(m0, k, m, text, i, lo, hi) && Listing(i) == Branch(li, false, lk) && i < 25 && j < 26
    requires 4 * i + li == 4 * j
    ensures t == m.(pc := text + 4 * j, lr := if lk then text + 4 * i + 4 else m.lr)
    ensures At(m0, k + 1, t, text, j, lo, hi)
  {
    hide Decode, Reaches, Listing, CodeAt;
    t := m.(pc := text + 4 * j, lr := if lk then text + 4 * i + 4 else m.lr);
    Executes(m0, k, m, text, i, lo, hi, t, j);
  }

  /** Word 18, `mullw r0,r2,r0`. */
  lemma TakesProduct(m0: Machine, k: nat, m: Machine, text: int, lo: int, hi: int) returns (t: Machine)
    requires At(m0, k, m, text, 18, lo, hi)
    ensures t == m.(pc := text + 76, gpr := m.gpr[0 := Product(m.gpr[2], m.gpr[0])])
    ensures At(m0, k + 1, t, text, 19, lo, hi)
  {
    hide Decode, Reaches, CodeAt, Product;
    t := m.(pc := text + 76, gpr := m.gpr[0 := Product(m.gpr[2], m.gpr[0])]);
    Executes(m0, k, m, text, 18, lo, hi, t, 19);
  }

  /** Word 23, `mtlr r0`. */
  lemma RestoresLink(m0: Machine, k: nat, m: Machine, text: int, lo: int, hi: int) returns (t: Machine)
    requires At(m0, k, m, text, 23, lo, hi)
    ensures t == m.(pc := text + 96, lr := m.gpr[0])
    ensures At(m0, k + 1, t, text, 24, lo, hi)
  {
    hide Decode, Reaches, CodeAt;
    t := m.(pc := text + 96, lr := m.gpr[0]);
    Executes(m0, k, m, text, 23, lo, hi, t, 24);
  }

  /** Words 7-8, `cmpwi cr7,r0,0` and `bgt cr7`. */
  lemma BranchesOnSign(m0: Machine, k: nat, m: Machine, text: int, lo: int, hi: int) returns (t: Machine)
    requires At(m0, k, m, text, 7, lo, hi)
    ensures t == m.(pc := if Signed(m.gpr[0]) > 0 then text + 48 else text + 36, cr := t.cr)
    ensures forall b :: 0 <= b < 28 ==> t.cr[b] == m.cr[b]
    ensures At(m0, k + 2, t, text, (if Signed(m.gpr[0]) > 0 then 12 else 9), lo, hi)
  {
    hide Decode, Reaches, CodeAt, FACTORIAL_CODE;
    var s := m.(pc := text + 32, cr := Compare(m, 7, Signed(m.gpr[0]), 0));
    Executes(m0, k, m, text, 7, lo, hi, s, 8);
    t := s.(pc := if Signed(m.gpr[0]) > 0 then text + 48 else text + 36);
    Executes(m0, k + 1, s, text, 8, lo, hi, t, if Signed(m.gpr[0]) > 0 then 12 else 9);
  }

  /** Words 5-8: keep the argument and test its sign. */
  lemma TestsArgument(m0: Machine, k: nat, m: Machine, text: int, sp: int, lo: int) returns (t: Machine)
    requires At(m0, k, m, text, 5, lo, sp + 28) && m.gpr[30] == sp - 96
    requires lo <= sp + 24 && Accessible(m, sp + 24)
    ensures t.pc == (if Signed(m.gpr[3]) > 0 then text + 48 else text + 36)
    ensures t == m.(pc := t.pc, gpr := m.gpr[0 := m.gpr[3]], cr := t.cr, mem := m.mem[sp + 24 := m.gpr[3]])
    ensures forall b :: 0 <= b < 28 ==> t.cr[b] == m.cr[b]
    ensures At(m0, k + 4, t, text, (if Signed(m.gpr[3]) > 0 then 12 else 9), lo, sp + 28)
  {
    hide At, Signed;
    var hi := sp + 28;
    var s1 := Stores(m0, k, m, text, 5, lo, hi, 3, 120, 30, sp + 24);
    var s2 := Loads(m0, k + 1, s1, text, 6, lo, hi, 0, 120, 30, sp + 24);
    t := BranchesOnSign(m0, k + 2, s2, text, lo, hi);
  }

  /** Words 9-11: the result is 1. */
  lemma BaseCase(m0: Machine, k: nat, m: Machine, text: int, sp: int, lo: int) returns (t: Machine)
    requires At(m0, k, m, text, 9, lo, sp + 28) && m.gpr[30] == sp - 96
    requires lo <= sp - 32 && Accessible(m, sp - 32)
    ensures t == m.(pc := text + 80, gpr := m.gpr[0 := 1], mem := m.mem[sp - 32 := 1])
    ensures At(m0, k + 3, t, text, 20, lo, sp + 28)
  {
    hide At;
    var hi := sp + 28;
    var s1 := AddsImmediate(m0, k, m, text, 9, lo, hi, 0, 0, 1);
    var s2 := Stores(m0, k + 1, s1, text, 10, lo, hi, 0, 64, 30, sp - 32);
    t := Jumps(m0, k + 2, s2, text, 11, lo, hi, 36, false, 20);
  }

  /** Words 12-15: call with the argument less one. */
  lemma Calls(m0: Machine, k: nat, m: Machine, text: int, sp: int, lo: int, n: Word) returns (t: Machine)
    requires At(m0, k, m, text, 12, lo, sp + 28) && m.gpr[30] == sp - 96
    requires lo <= sp + 24 && Accessible(m, sp + 24) && m.mem[sp + 24] == n && n > 0
    ensures t == m.(pc := text, lr := text + 64, gpr := m.gpr[2 := n][0 := n - 1][3 := n - 1])
    ensures At(m0, k + 4, t, text, 0, lo, sp + 28)
  {
    hide At;
    var hi := sp + 28;
    var s1 := Loads(m0, k, m, text, 12, lo, hi, 2, 120, 30, sp + 24);
    var s2 := AddsImmediate(m0, k + 1, s1, text, 13, lo, hi, 0, 2, -1);
    var s3 := Moves(m0, k + 2, s2, text, 14, lo, hi, 3, 0);
    t := Jumps(m0, k + 3, s3, text, 15, lo, hi, -60, true, 0);
  }

  /** Words 16-19: multiply the inner result by the saved argument. */
  lemma Multiplies(m0: Machine, k: nat, m: Machine, text: int, sp: int, lo: int, n: Word) returns (t: Machine)
    requires At(m0, k, m, text, 16, lo, sp + 28) && m.gpr[30] == sp - 96
    requires lo <= sp - 32 && Accessible(m, sp + 24) && Accessible(m, sp - 32) && m.mem[sp + 24] == n
    ensures var product := Product(m.gpr[3], n);
      t == m.(pc := text + 80, gpr := m.gpr[2 := m.gpr[3]][0 := product], mem := m.mem[sp - 32 := product])
    ensures At(m0, k + 4, t, text, 20, lo, sp + 28)
  {
    hide At, Product;
    var hi := sp + 28;
    var s1 := Moves(m0, k, m, text, 16, lo, hi, 2, 3);
    var s2 := Loads(m0, k + 1, s1, text, 17, lo, hi, 0, 120, 30, sp + 24);
    var s3 := TakesProduct(m0, k + 2, s2, text, lo, hi);
    t := Stores(m0, k + 3, s3, text, 19, lo, hi, 0, 64, 30, sp - 32);
  }

  /** Words 20-23: load the result, the back chain and the saved link register. */
  lemma LoadsResult(m0: Machine, k: nat, m: Machine, text: int, sp: int, lo: int) returns (t: Machine)
    requires At(m0, k, m, text, 20, lo, sp + 28) && m.gpr[30] == m.gpr[1] == sp - 96
    requires Accessible(m, sp - 96) && Accessible(m, sp - 32) && Accessible(m, sp + 8) && m.mem[sp - 96] == sp
    ensures t == m.(pc := text + 96, lr := m.mem[sp + 8],
                    gpr := m.gpr[3 := m.mem[sp - 32]][1 := sp][0 := m.mem[sp + 8]])
    ensures At(m0, k + 4, t, text, 24, lo, sp + 28)
  {
    hide At;
    var hi := sp + 28;
    var s1 := Loads(m0, k, m, text, 20, lo, hi, 3, 64, 30, sp - 32);
    var s2 := Loads(m0, k + 1, s1, text, 21, lo, hi, 1, 0, 1, sp - 96);
    var s3 := Loads(m0, k + 2, s2, text, 22, lo, hi, 0, 8, 1, sp + 8);
    t := RestoresLink(m0, k + 3, s3, text, lo, hi);
  }

  /** Words 24-25: restore r30 and r31 and return. */
  lemma Returns(m0: Machine, k: nat, m: Machine, text: int, lo: int, hi: int, ea: Word, next: Word)
    returns (t: Machine)
    requires At(m0, k, m, text, 24, lo, hi)
    requires ea as int == m.gpr[1] as int - 8 && next as int == ea as int + 4 && Accessible(m, ea) && Accessible(m, next)
    ensures t == m.(pc := m.lr - m.lr % 4, gpr := m.gpr[30 := m.mem[ea]][31 := m.mem[next]])
    ensures Reaches(m0, k + 2, t, lo, hi)
  {
    hide Decode, Reaches, CodeAt, FACTORIAL_CODE, LoadMultiple, EffectiveAddress;
    AddressIs(m, 1, -8, ea);
    WrapsNext(ea);
    LoadsTwo(m.(pc := text + 100), ea);
    var s1 := m.(pc := text + 100, gpr := m.gpr[30 := m.mem[ea]][31 := m.mem[next]]);
    Executes(m0, k, m, text, 24, lo, hi, s1, 25);
    t := s1.(pc := m.lr - m.lr % 4);
    StepsListing(s1, text, 25);
    Advances(m0, k + 1, s1, t, text, 25, lo, hi);
  }

  // ----- the whole call -----

  /** The stack words a call may change: its frames below sp, and the link and
      argument words in the caller's frame. */
  predicate Scratch(a: int, sp: int, depth: nat) {
    sp - 96 * (depth + 1) <= a < sp || a == sp + 8 || a == sp + 24
  }

  /** `mem` holds the frame of the activation entered as `m`, and has changed
      only in words that a call of this depth may change. */
  predicate Framed(m: Machine, mem: map<Word, Word>, sp: int, depth: nat) {
    && mem.Keys == m.mem.Keys
    && sp - 96 in mem && sp - 32 in mem && sp - 8 in mem && sp - 4 in mem && sp + 8 in mem && sp + 24 in mem
    && mem[sp - 8] == m.gpr[30] && mem[sp - 4] == m.gpr[31] && mem[sp + 8] == m.lr
    && mem[sp - 96] == sp && mem[sp + 24] == m.gpr[3]
    && (forall a :: a in m.mem && !Scratch(a, sp, depth) ==> mem[a] == m.mem[a])
  }

  /** Registers a call preserves, besides the stack pointer, r30 and r31. */
  predicate KeepsRegisters(m: Machine, t: Machine) {
    && t.so == m.so
    && (forall r: Reg :: r != 0 && r != 1 && r != 2 && r != 3 && r != 30 ==> t.gpr[r] == m.gpr[r])
    && (forall b :: 0 <= b < 28 ==> t.cr[b] == m.cr[b])
  }

  /** The back chain of the deepest activation, the lowest word stored to. */
  predicate DeepestFrame(mem: map<Word, Word>, sp: int, depth: nat) {
    sp - 96 * (depth + 1) in mem && mem[sp - 96 * (depth + 1)] == sp - 96 * depth
  }

  /** `t` is `m` after returning from the call. */
  predicate Returned(m: Machine, t: Machine, sp: int, n: int) {
    && t.pc == m.lr - m.lr % 4 && t.lr == m.lr && t.so == m.so
    && t.gpr[3] == Wrap(Factorial(n))
    && (forall r: Reg :: r != 0 && r != 2 && r != 3 ==> t.gpr[r] == m.gpr[r])
    && (forall b :: 0 <= b < 28 ==> t.cr[b] == m.cr[b])
    && t.mem.Keys == m.mem.Keys && DeepestFrame(t.mem, sp, Depth(n))
    && (forall a :: a in m.mem && !Scratch(a, sp, Depth(n)) ==> t.mem[a] == m.mem[a])
  }

  /** One multiplication modulo 2^32. */
  lemma WrapsProduct(n: int)
    requires n > 0
    ensures Product(Wrap(Factorial(n - 1)), n) == Wrap(Factorial(n))
  {
    var f := Factorial(n - 1);
    var q := f / 0x1_0000_0000;
    assert Wrap(f) * n == n * f + (-q * n) * 0x1_0000_0000;
    WrapsMultiple(n * f, -q * n);
  }

  lemma WrapsMultiple(x: int, q: int)
    ensures Wrap(x + q * 0x1_0000_0000) == Wrap(x)
  {
  }

  /** From entry up to the test of the argument. */
  lemma Enters(m: Machine, text: int, sp: int, n: int, lo: int) returns (t: Machine)
    requires n == Signed(m.gpr[3]) && lo == sp - 96 * (Depth(n) + 1) && Entered(m, text, sp, lo)
    ensures At(m, 9, t, text, (if n > 0 then 12 else 9), lo, sp + 28)
    ensures t.lr == m.lr && t.gpr[1] == t.gpr[30] == sp - 96
    ensures KeepsRegisters(m, t) && Framed(m, t.mem, sp, Depth(n))
  {
    hide Decode, Reaches, CodeAt, FACTORIAL_CODE, EffectiveAddress, Execute;
    var s := PushesFrame(m, text, sp, lo);
    t := TestsArgument(m, 5, s, text, sp, lo);
  }

  /** What the epilogue makes of the frame is what the caller is promised. */
  lemma FrameReturns(m: Machine, s: Machine, t: Machine, sp: int, n: int)
    requires sp == m.gpr[1] && sp % 4 == 0 && KeepsRegisters(m, s) && Framed(m, s.mem, sp, Depth(n))
    requires s.mem[sp - 32] == Wrap(Factorial(n)) && DeepestFrame(s.mem, sp, Depth(n))
    requires t == s.(pc := m.lr - m.lr % 4, lr := m.lr,
                     gpr := s.gpr[3 := s.mem[sp - 32]][1 := sp][0 := m.lr][30 := s.mem[sp - 8]][31 := s.mem[sp - 4]])
    ensures Returned(m, t, sp, n)
  {
    hide Wrap, Factorial, Depth;
    forall r: Reg | r != 0 && r != 2 && r != 3 ensures t.gpr[r] == m.gpr[r] {
    }
  }

  /** From the common exit to the caller. */
  lemma Exits(m: Machine, k: nat, s: Machine, text: int, sp: int, n: int, lo: int) returns (t: Machine)
    requires sp == m.gpr[1] && sp % 4 == 0 && At(m, k, s, text, 20, lo, sp + 28)
    requires s.gpr[1] == s.gpr[30] == sp - 96 && KeepsRegisters(m, s) && Framed(m, s.mem, sp, Depth(n))
    requires s.mem[sp - 32] == Wrap(Factorial(n)) && DeepestFrame(s.mem, sp, Depth(n))
    ensures Reaches(m, k + 6, t, lo, sp + 28) && Returned(m, t, sp, n)
  {
    hide At, Reaches, Wrap, Factorial, Depth, Returned, KeepsRegisters, DeepestFrame;
    var s1 := LoadsResult(m, k, s, text, sp, lo);
    t := Returns(m, k + 4, s1, text, lo, sp + 28, sp - 8, sp - 4);
    FrameReturns(m, s, t, sp, n);
  }

  /** From the test of a positive argument to the nested entry. */
  lemma EntersInner(m: Machine, s: Machine, text: int, sp: int, n: int, lo: int) returns (c: Machine)
    requires n == m.gpr[3] == Signed(m.gpr[3]) && 0 < n && lo == sp - 96 * (n + 1) && Entered(m, text, sp, lo)
    requires At(m, 9, s, text, 12, lo, sp + 28) && s.gpr[1] == s.gpr[30] == sp - 96
    requires KeepsRegisters(m, s) && Framed(m, s.mem, sp, n)
    ensures Reaches(m, 13, c, lo, sp + 28) && Entered(c, text, sp - 96, lo)
    ensures c.lr == text + 64 && c.gpr[3] == n - 1 && c.gpr[30] == sp - 96
    ensures KeepsRegisters(m, c) && c.mem == s.mem
  {
    hide Decode, Reaches, CodeAt, FACTORIAL_CODE, EffectiveAddress, Execute;
    c := Calls(m, 9, s, text, sp, lo, n);
  }

  /** A nested call leaves the frame of its caller, and the code, as they were. */
  lemma InnerKeepsFrame(m: Machine, c: Machine, u: Machine, text: int, sp: int, n: int)
    requires 0 < n && Entered(c, text, sp - 96, sp - 96 * (n + 1)) && sp + 28 <= 0x1_0000_0000
    requires text + 104 <= sp - 96 * (n + 1) || sp + 28 <= text
    requires Framed(m, c.mem, sp, n) && Returned(c, u, sp - 96, n - 1)
    ensures Framed(m, u.mem, sp, n) && CodeAt(u.mem, text, FACTORIAL_CODE)
  {
    hide Factorial, CodeAt, FACTORIAL_CODE;
    CodeSurvives(c.mem, u.mem, text);
    forall a | a in m.mem && !Scratch(a, sp, n) ensures u.mem[a] == m.mem[a] {
      assert !Scratch(a, sp - 96, n - 1);
    }
  }

  /** Where the nested call returns to, and with what. */
  lemma ReturnsInner(m: Machine, k: nat, c: Machine, u: Machine, text: int, sp: int, n: int, lo: int)
    requires 0 < n && lo == sp - 96 * (n + 1) && Entered(m, text, sp, lo)
    requires Entered(c, text, sp - 96, lo) && c.lr == text + 64 && c.gpr[30] == sp - 96
    requires KeepsRegisters(m, c) && Framed(m, c.mem, sp, n)
    requires Returned(c, u, sp - 96, n - 1) && Reaches(m, k, u, lo, sp + 28)
    ensures At(m, k, u, text, 16, lo, sp + 28)
    ensures u.gpr[1] == u.gpr[30] == sp - 96 && u.gpr[3] == Wrap(Factorial(n - 1))
    ensures KeepsRegisters(m, u) && Framed(m, u.mem, sp, n) && DeepestFrame(u.mem, sp, n)
  {
    hide Reaches, FACTORIAL_CODE, CodeAt, Wrap, Factorial;
    InnerKeepsFrame(m, c, u, text, sp, n);
  }

  /** The product is stored where the frame keeps its result. */
  lemma StoresResult(m: Machine, u: Machine, s: Machine, sp: int, n: int, v: Word)
    requires n > 0 && u.gpr[1] == u.gpr[30] == sp - 96
    requires KeepsRegisters(m, u) && Framed(m, u.mem, sp, n) && DeepestFrame(u.mem, sp, n)
    requires s == u.(pc := s.pc, gpr := u.gpr[2 := u.gpr[3]][0 := v], mem := u.mem[sp - 32 := v])
    ensures s.gpr[1] == s.gpr[30] == sp - 96
    ensures KeepsRegisters(m, s) && Framed(m, s.mem, sp, n) && DeepestFrame(s.mem, sp, n)
  {
  }

  /** After the nested return: multiply and exit. */
  lemma Resumes(m: Machine, k: nat, c: Machine, u: Machine, text: int, sp: int, n: int, lo: int)
    returns (t: Machine)
    requires n == m.gpr[3] == Signed(m.gpr[3]) && 0 < n && lo == sp - 96 * (n + 1) && Entered(m, text, sp, lo)
    requires Entered(c, text, sp - 96, lo) && c.lr == text + 64 && c.gpr[30] == sp - 96
    requires KeepsRegisters(m, c) && Framed(m, c.mem, sp, n)
    requires Returned(c, u, sp - 96, n - 1) && Reaches(m, k, u, lo, sp + 28)
    ensures Reaches(m, k + 10, t, lo, sp + 28) && Returned(m, t, sp, n)
  {
    hide At, Reaches, CodeAt, Wrap, Product, Factorial, Signed, Returned, KeepsRegisters, DeepestFrame;
    ReturnsInner(m, k, c, u, text, sp, n, lo);
    WrapsProduct(n);
    var s := Multiplies(m, k, u, text, sp, lo, n);
    StoresResult(m, u, s, sp, n, Product(u.gpr[3], n));
    t := Exits(m, k + 4, s, text, sp, n, lo);
  }

  /** Total correctness of one call of the injected code, for every argument:
      the result, the instruction count, the words stored to, and what is
      preserved. */
  lemma {:induction false} FactorialReturns(m: Machine, text: int, sp: int, n: int) returns (t: Machine)
    requires n == Signed(m.gpr[3]) && Entered(m, text, sp, sp - 96 * (Depth(n) + 1))
    ensures Reaches(m, Instructions(n), t, sp - 96 * (Depth(n) + 1), sp + 28)
    ensures Returned(m, t, sp, n)
    decreases Depth(n)
  {
    hide Decode, Reaches, CodeAt, FACTORIAL_CODE, EffectiveAddress, Execute;
    var lo, hi := sp - 96 * (Depth(n) + 1), sp + 28;
    var s := Enters(m, text, sp, n, lo);
    if n <= 0 {
      var s1 := BaseCase(m, 9, s, text, sp, lo);
      t := Exits(m, 12, s1, text, sp, n, lo);
    } else {
      var c := EntersInner(m, s, text, sp, n, lo);
      var u := FactorialReturns(c, text, sp - 96, n - 1);
      ReachesWidens(c, Instructions(n - 1), u, lo, sp - 68, lo, hi);
      ReachesJoins(m, 13, c, Instructions(n - 1), u, lo, hi);
      t := Resumes(m, 13 + Instructions(n - 1), c, u, text, sp, n, lo);
    }
  }

  // ----- how deep a call goes -----

  /** A call with a positive argument pushes its frame and calls itself with one
      less, whatever there is below the frame. */
  lemma Descends(m: Machine, text: int, sp: int, lo: int) returns (c: Machine)
    requires Entered(m, text, sp, lo) && lo <= sp - 192 && Signed(m.gpr[3]) > 0
    ensures Reaches(m, 13, c, lo, sp + 28) && Entered(c, text, sp - 96, lo) && c.gpr[3] == m.gpr[3] - 1
  {
    hide Decode, Reaches, CodeAt, FACTORIAL_CODE, EffectiveAddress, Execute;
    var s := PushesFrame(m, text, sp, lo);
    var t := TestsArgument(m, 5, s, text, sp, lo);
    c := Calls(m, 9, t, text, sp, lo, m.gpr[3]);
  }

  /** The frame d calls down is pushed after 13 d + 5 instructions, and its back
      chain stored. */
  lemma {:induction false} PushesDeep(m: Machine, text: int, sp: int, d: nat) returns (t: Machine)
    requires Entered(m, text, sp, sp - 96 * (d + 1)) && d <= Depth(Signed(m.gpr[3]))
    ensures Reaches(m, 13 * d + 5, t, sp - 96 * (d + 1), sp + 28)
    ensures DeepestFrame(t.mem, sp, d)
    decreases d
  {
    hide Decode, Reaches, CodeAt, FACTORIAL_CODE, EffectiveAddress, Execute;
    var lo, hi := sp - 96 * (d + 1), sp + 28;
    if d == 0 {
      t := PushesFrame(m, text, sp, lo);
    } else {
      var c := Descends(m, text, sp, lo);
      t := PushesDeep(c, text, sp - 96, d - 1);
      ReachesWidens(c, 13 * (d - 1) + 5, t, lo, sp - 68, lo, hi);
      ReachesJoins(m, 13, c, 13 * (d - 1) + 5, t, lo, hi);
    }
  }
}
