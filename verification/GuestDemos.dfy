/** Filling the guest's text page and registers, and what the two demo programs
    then do. Page size and red zone come from system headers that are not part
    of this model, so they are parameters. */
module GuestDemos {
  import opened Wrappers
  import opened PowerPC
  import opened Templates
  import opened GuestFactorial

  class VmmRegs32 {
    var ppcPC: Word
    var ppcLR: Word
    const ppcGPRs: array<Word>

    constructor ()
      ensures fresh(ppcGPRs) && ppcGPRs.Length == 32
    {
      ppcPC, ppcLR := 0, 0;
      ppcGPRs := new Word[32](_ => 0);
    }
  }

  // ----- the hand-packed program -----

  const ILLEGAL_3: Word := 0xdeadbeef
  const ILLEGAL_5: Word := 0xfeedface

  function DummyWords(text: Word): seq<Word> {
    [ PackD(DForm(14, 10, 0, 4)),
      PackD(DForm(14, 11, 0, 5)),
      PackI(IForm(18, Wrap(text + 16) / 4 % 0x100_0000, 1, 0)),
      ILLEGAL_3,
      PackXO(XOForm(31, 12, 10, 11, 0, 266, 0)),
      ILLEGAL_5 ]
  }

  // Each template is filled one bit-field at a time, in place, over whatever
  // the word held.

  method FillD(text: array<Word>, k: nat, f: DForm)
    requires k < text.Length
    modifies text
    ensures text[..] == old(text[..])[k := PackD(f)]
  {
    forall g: DForm ensures UnpackD(PackD(g)) == g { UnpacksD(g); }
    hide PackD, UnpackD;
    text[k] := PackD(UnpackD(text[k]).(OP := f.OP));
    text[k] := PackD(UnpackD(text[k]).(RT := f.RT));
    text[k] := PackD(UnpackD(text[k]).(RA := f.RA));
    text[k] := PackD(UnpackD(text[k]).(SI := f.SI));
  }

  method FillI(text: array<Word>, k: nat, f: IForm)
    requires k < text.Length
    modifies text
    ensures text[..] == old(text[..])[k := PackI(f)]
  {
    forall g: IForm ensures UnpackI(PackI(g)) == g { UnpacksI(g); }
    hide PackI, UnpackI;
    text[k] := PackI(UnpackI(text[k]).(OP := f.OP));
    text[k] := PackI(UnpackI(text[k]).(LI := f.LI));
    text[k] := PackI(UnpackI(text[k]).(AA := f.AA));
    text[k] := PackI(UnpackI(text[k]).(LK := f.LK));
  }

  method FillXO(text: array<Word>, k: nat, f: XOForm)
    requires k < text.Length
    modifies text
    ensures text[..] == old(text[..])[k := PackXO(f)]
  {
    forall g: XOForm ensures UnpackXO(PackXO(g)) == g { UnpacksXO(g); }
    hide PackXO, UnpackXO;
    text[k] := PackXO(UnpackXO(text[k]).(OP := f.OP));
    text[k] := PackXO(UnpackXO(text[k]).(RT := f.RT));
    text[k] := PackXO(UnpackXO(text[k]).(RA := f.RA));
    text[k] := PackXO(UnpackXO(text[k]).(RB := f.RB));
    text[k] := PackXO(UnpackXO(text[k]).(OE := f.OE));
    text[k] := PackXO(UnpackXO(text[k]).(XO := f.XO));
    text[k] := PackXO(UnpackXO(text[k]).(Rc := f.Rc));
  }

  method InitGuestTextDummy(text: array<Word>, guestTextAddress: Word)
    requires text.Length >= 6
    modifies text
    ensures text[..] == DummyWords(guestTextAddress) + old(text[6..])
  {
    hide PackD, PackI, PackXO;
    text[3] := ILLEGAL_3;
    text[5] := ILLEGAL_5;
    FillD(text, 0, DForm(14, 10, 0, 4));
    FillD(text, 1, DForm(14, 11, 0, 5));
    FillI(text, 2, IForm(18, Wrap(guestTextAddress + 4 * 4) / 4 % 0x100_0000, 1, 0));
    FillXO(text, 4, XOForm(31, 12, 10, 11, 0, 266, 0));
  }

  lemma IllegalDecodes(text: Word)
    ensures Decode(DummyWords(text)[3]) == Decode(DummyWords(text)[5]) == Other
  {
    assert Decode(ILLEGAL_3) == Decode(ILLEGAL_5) == Other;
    hide Decode, PackI;
  }

  // What the packed words are to the decoder.
  lemma DummyDecodes(text: Word)
    ensures Decode(DummyWords(text)[0]) == Addi(10, 0, 4)
    ensures Decode(DummyWords(text)[1]) == Addi(11, 0, 5)
    ensures Decode(DummyWords(text)[2]) ==
            Branch(SignExtend(4 * (Wrap(text + 16) / 4 % 0x100_0000), 0x400_0000), true, false)
    ensures Decode(DummyWords(text)[4]) == Add(12, 10, 11)
  {
    hide Decode;
    DecodesAddi(DForm(14, 10, 0, 4));
    DecodesAddi(DForm(14, 11, 0, 5));
    DecodesBranch(IForm(18, Wrap(text + 16) / 4 % 0x100_0000, 1, 0));
    DecodesAdd(XOForm(31, 12, 10, 11, 0, 266, 0));
  }

  lemma StepsDummy(m: Machine, text: Word, i: nat)
    requires i < 6 && CodeAt(m.mem, text, DummyWords(text)) && m.pc == text + 4 * i
    ensures Step(m) == Execute(Decode(DummyWords(text)[i]), m)
  {
    hide Decode, Execute;
  }

  predicate DummyLoaded(m: Machine, text: Word) {
    && text % 4 == 0 && text + 24 <= 0x1_0000_0000
    && m.pc == text && CodeAt(m.mem, text, DummyWords(text))
  }

  /** The state after the branch, at whatever address it names. */
  function AfterBranch(m: Machine, text: Word): Machine {
    var t := SignExtend(4 * (Wrap(text + 16) / 4 % 0x100_0000), 0x400_0000);
    m.(pc := Wrap(t - t % 4), gpr := m.gpr[10 := 4][11 := 5])
  }

  lemma DummyBranches(m: Machine, text: Word)
    requires DummyLoaded(m, text)
    ensures Run(m, 0) == Some(m)
    ensures Run(m, 1) == Some(m.(pc := text + 4, gpr := m.gpr[10 := 4]))
    ensures Run(m, 2) == Some(m.(pc := text + 8, gpr := m.gpr[10 := 4][11 := 5]))
    ensures Run(m, 3) == Some(AfterBranch(m, text))
  {
    hide Decode, DummyWords, Step, CodeAt, SignExtend;
    DummyDecodes(text);
    var m1 := m.(pc := text + 4, gpr := m.gpr[10 := 4]);
    var m2 := m1.(pc := text + 8, gpr := m1.gpr[11 := 5]);
    StepsDummy(m, text, 0);
    RunExtends(m, 0, m);
    StepsDummy(m1, text, 1);
    RunExtends(m, 1, m1);
    StepsDummy(m2, text, 2);
    RunExtends(m, 2, m2);
  }

  lemma DummyAdds(m: Machine, text: Word)
    requires DummyLoaded(m, text) && AfterBranch(m, text).pc == text + 16
    ensures Run(m, 4) == Some(m.(pc := text + 20, gpr := m.gpr[10 := 4][11 := 5][12 := 9]))
  {
    hide Decode, DummyWords, Step, CodeAt, Run, SignExtend;
    DummyDecodes(text);
    DummyBranches(m, text);
    StepsDummy(AfterBranch(m, text), text, 4);
    RunExtends(m, 3, AfterBranch(m, text));
  }

  lemma DummySkips(m: Machine, text: Word, k: nat)
    requires DummyLoaded(m, text) && AfterBranch(m, text).pc == text + 16 && k <= 4
    ensures Run(m, k).Some? && Run(m, k).value.pc != text + 12
  {
    hide Decode, DummyWords, CodeAt, Step, Run, SignExtend;
    DummyBranches(m, text);
    DummyAdds(m, text);
  }

  /** At its sixth word the program stops, as at its fourth it would. */
  lemma DummyStops(m: Machine, text: Word, i: nat)
    requires text as int + 24 <= 0x1_0000_0000 && CodeAt(m.mem, text, DummyWords(text))
    requires (i == 3 || i == 5) && m.pc == text + 4 * i
    ensures Step(m) == None
  {
    hide Decode, DummyWords, CodeAt;
    IllegalDecodes(text);
    StepsDummy(m, text, i);
  }

  lemma BranchArrives(m: Machine, text: Word)
    requires DummyLoaded(m, text)
    ensures AfterBranch(m, text).pc == text + 16 <==> BranchReachable(text + 16)
  {
    AbsoluteTarget(text + 16);
    hide DummyWords, CodeAt, BranchReachable, SignExtend;
    assert Wrap(text + 16) == text + 16;
  }

  /** The program adds 4 and 5 and arrives at its sixth word, never fetching the
      fourth, exactly when its fifth word is within reach of its own branch. */
  lemma DummyProgram(m: Machine, text: Word)
    requires DummyLoaded(m, text)
    ensures Run(m, 3).Some? && (Run(m, 3).value.pc == text + 16 <==> BranchReachable(text + 16))
    ensures BranchReachable(text + 16) ==>
              && (forall k :: 0 <= k <= 4 ==> Run(m, k).Some? && Run(m, k).value.pc != text + 12)
              && Run(m, 4) == Some(m.(pc := text + 20, gpr := m.gpr[10 := 4][11 := 5][12 := 9]))
              && Step(Run(m, 4).value) == None
  {
    hide Decode, DummyWords, CodeAt, Step, Run, BranchReachable, AfterBranch;
    BranchArrives(m, text);
    DummyBranches(m, text);
    if BranchReachable(text + 16) {
      DummyAdds(m, text);
      DummyStops(Run(m, 4).value, text, 5);
      forall k | 0 <= k <= 4 ensures Run(m, k).Some? && Run(m, k).value.pc != text + 12 {
        DummySkips(m, text, k);
      }
    }
  }

  // ----- the factorial -----

  method InitGuestTextFactorial(text: array<Word>, guestTextAddress: Word, ppcRegs32: VmmRegs32, pageSize: Word)
    requires text.Length >= 26 && ppcRegs32.ppcGPRs.Length == 32 && text != ppcRegs32.ppcGPRs
    modifies text, ppcRegs32`ppcLR, ppcRegs32.ppcGPRs
    ensures text[..] == FACTORIAL_CODE + old(text[26..])
    ensures ppcRegs32.ppcGPRs[..] == old(ppcRegs32.ppcGPRs[..])[3 := 10]
    ensures ppcRegs32.ppcLR == Wrap(guestTextAddress + pageSize - 4)
  {
    forall i | 0 <= i < |FACTORIAL_CODE| {
      text[i] := FACTORIAL_CODE[i];
    }
    ppcRegs32.ppcGPRs[3] := 10;
    ppcRegs32.ppcLR := Wrap(guestTextAddress + pageSize - 4);
  }

  /** What `main` puts in the registers before a demo fills the text page. */
  method SetUpRegisters(ppcRegs32: VmmRegs32, pageSize: Word, redZone: Word)
    requires ppcRegs32.ppcGPRs.Length == 32
    modifies ppcRegs32`ppcPC, ppcRegs32.ppcGPRs
    ensures ppcRegs32.ppcPC == pageSize
    ensures ppcRegs32.ppcGPRs[..] == old(ppcRegs32.ppcGPRs[..])[1 := Wrap(3 * pageSize - redZone)]
  {
    var guestTextAddress := pageSize;
    var guestStackAddress := 2 * pageSize as int;
    ppcRegs32.ppcPC := guestTextAddress;
    ppcRegs32.ppcGPRs[1] := Wrap(guestStackAddress + pageSize - redZone);
  }

  /** The guest's address space: the text page at pageSize, the zero-filled
      stack page right above it. */
  function GuestMemory(text: seq<Word>, pageSize: int): map<Word, Word>
    requires 0 <= pageSize && 3 * pageSize <= 0x1_0000_0000 && 4 * |text| == pageSize
  {
    map a: Word | pageSize <= a < 3 * pageSize && a % 4 == 0 ::
      if a < 2 * pageSize then text[(a - pageSize) / 4] else 0
  }

  predicate PageSizes(pageSize: int, redZone: int) {
    && 208 <= pageSize && pageSize % 4 == 0 && 3 * pageSize <= 0x1_0000_0000
    && 28 <= redZone && redZone % 4 == 0 && redZone + 96 <= pageSize
  }

  /** The guest as `main` and InitGuestTextFactorial leave it, for an argument
      other than 10 too. */
  predicate FactorialGuest(m: Machine, pageSize: int, redZone: int) {
    && PageSizes(pageSize, redZone)
    && m.pc == pageSize && m.lr == 2 * pageSize - 4 && m.gpr[1] == 3 * pageSize - redZone
    && m.mem == GuestMemory(FACTORIAL_CODE + seq(pageSize / 4 - 26, _ => 0), pageSize)
  }

  /** The guest that the registers and the text page make, whatever its condition
      register and summary overflow are. */
  ghost function MachineOf(ppcRegs32: VmmRegs32, text: seq<Word>, pageSize: int, cr: CrBits, so: bool): Machine
    requires ppcRegs32.ppcGPRs.Length == 32 && 0 <= pageSize && 3 * pageSize <= 0x1_0000_0000 && 4 * |text| == pageSize
    reads ppcRegs32, ppcRegs32.ppcGPRs
  {
    Machine(ppcRegs32.ppcPC, ppcRegs32.ppcLR, ppcRegs32.ppcGPRs[..], cr, so, GuestMemory(text, pageSize))
  }

  /** `main` up to the mapping of the text page, for the factorial demo: from a
      page of zeros it makes the guest whose runs are described below. */
  method PrepareFactorial(text: array<Word>, ppcRegs32: VmmRegs32, pageSize: Word, redZone: Word)
    requires PageSizes(pageSize, redZone) && 4 * text.Length == pageSize && forall i :: 0 <= i < text.Length ==> text[i] == 0
    requires ppcRegs32.ppcGPRs.Length == 32 && text != ppcRegs32.ppcGPRs
    modifies text, ppcRegs32`ppcPC, ppcRegs32`ppcLR, ppcRegs32.ppcGPRs
    ensures forall cr, so :: FactorialGuest(MachineOf(ppcRegs32, text[..], pageSize, cr, so), pageSize, redZone)
    ensures forall cr, so :: MachineOf(ppcRegs32, text[..], pageSize, cr, so).gpr[3] == 10
  {
    CodeLength();
    hide FACTORIAL_CODE, GuestMemory;
    SetUpRegisters(ppcRegs32, pageSize, redZone);
    InitGuestTextFactorial(text, pageSize, ppcRegs32, pageSize);
    assert text[..] == FACTORIAL_CODE + seq(pageSize / 4 - 26, _ => 0);
  }

  /** The same for the other demo. */
  method PrepareDummy(text: array<Word>, ppcRegs32: VmmRegs32, pageSize: Word, redZone: Word)
    requires PageSizes(pageSize, redZone) && 4 * text.Length == pageSize
    requires ppcRegs32.ppcGPRs.Length == 32 && text != ppcRegs32.ppcGPRs
    modifies text, ppcRegs32`ppcPC, ppcRegs32.ppcGPRs
    ensures forall cr, so :: DummyLoaded(MachineOf(ppcRegs32, text[..], pageSize, cr, so), pageSize)
  {
    hide DummyWords;
    SetUpRegisters(ppcRegs32, pageSize, redZone);
    InitGuestTextDummy(text, pageSize);
    DummyLength(pageSize);
    TextMapped(text[..], pageSize, DummyWords(pageSize));
  }

  lemma DummyLength(text: Word)
    ensures |DummyWords(text)| == 6
  {
  }

  /** What the text page begins with is in the guest's memory. */
  lemma TextMapped(text: seq<Word>, pageSize: int, code: seq<Word>)
    requires 0 <= pageSize && 3 * pageSize <= 0x1_0000_0000 && 4 * |text| == pageSize && code <= text
    ensures CodeAt(GuestMemory(text, pageSize), pageSize, code)
  {
    forall i | 0 <= i < |code|
      ensures pageSize + 4 * i in GuestMemory(text, pageSize) && GuestMemory(text, pageSize)[pageSize + 4 * i] == code[i]
    {
      WordIndex(pageSize, i);
    }
  }

  predicate FitsStackPage(n: int, pageSize: int, redZone: int) {
    96 * (Depth(n) + 1) + redZone <= pageSize
  }

  lemma Aligned(x: int, y: int)
    requires x % 4 == 0 && y % 4 == 0
    ensures (x - y) % 4 == 0 && (x + y) % 4 == 0
  {
  }

  /** The words of the guest's two pages, and its registers. */
  lemma GuestWord(m: Machine, pageSize: int, redZone: int, a: int)
    requires FactorialGuest(m, pageSize, redZone) && pageSize <= a < 3 * pageSize && a % 4 == 0
    ensures a in m.mem
    ensures m.mem[a] == if a < pageSize + 104 then FACTORIAL_CODE[(a - pageSize) / 4] else 0
  {
    hide FACTORIAL_CODE;
    CodeLength();
    var i := (a - pageSize) / 4;
    assert a - pageSize == 4 * i by { Aligned(a, pageSize); }
  }

  lemma GuestRegisters(m: Machine, pageSize: int, redZone: int)
    requires FactorialGuest(m, pageSize, redZone)
    ensures PageSizes(pageSize, redZone)
    ensures m.pc == pageSize && m.lr == 2 * pageSize - 4 && m.gpr[1] == 3 * pageSize - redZone
  {
    hide FACTORIAL_CODE, GuestMemory;
  }

  lemma WordIndex(base: int, i: int)
    requires base % 4 == 0
    ensures (base + 4 * i) % 4 == 0 && (base + 4 * i - base) / 4 == i
  {
  }

  lemma CodeLength()
    ensures |FACTORIAL_CODE| == 26
  {
  }

  lemma GuestCodeWord(m: Machine, pageSize: int, redZone: int, i: nat)
    requires FactorialGuest(m, pageSize, redZone) && i < |FACTORIAL_CODE| == 26
    ensures pageSize + 4 * i in m.mem && m.mem[pageSize + 4 * i] == FACTORIAL_CODE[i]
  {
    hide FactorialGuest, FACTORIAL_CODE;
    GuestRegisters(m, pageSize, redZone);
    WordIndex(pageSize, i);
    GuestWord(m, pageSize, redZone, pageSize + 4 * i);
  }

  lemma GuestCode(m: Machine, pageSize: int, redZone: int)
    requires FactorialGuest(m, pageSize, redZone)
    ensures CodeAt(m.mem, pageSize, FACTORIAL_CODE)
  {
    hide FACTORIAL_CODE, FactorialGuest;
    CodeLength();
    forall i | 0 <= i < 26
      ensures pageSize + 4 * i in m.mem && m.mem[pageSize + 4 * i] == FACTORIAL_CODE[i]
    {
      GuestCodeWord(m, pageSize, redZone, i);
    }
  }

  lemma GuestEntered(m: Machine, pageSize: int, redZone: int, lo: int)
    requires FactorialGuest(m, pageSize, redZone)
    requires pageSize + 104 <= lo <= 3 * pageSize - redZone - 96
    ensures Entered(m, pageSize, 3 * pageSize - redZone, lo)
  {
    hide FactorialGuest, FACTORIAL_CODE, CodeAt;
    GuestRegisters(m, pageSize, redZone);
    GuestCode(m, pageSize, redZone);
    Aligned(pageSize, pageSize);
    Aligned(2 * pageSize, pageSize);
    Aligned(3 * pageSize, redZone);
    forall a | lo <= a < 3 * pageSize - redZone + 28 && a % 4 == 0 ensures a in m.mem {
      GuestWord(m, pageSize, redZone, a);
    }
  }

  lemma GuestZeroed(m: Machine, pageSize: int, redZone: int, a: int)
    requires FactorialGuest(m, pageSize, redZone) && pageSize + 104 <= a < 3 * pageSize && a % 4 == 0
    ensures a in m.mem && m.mem[a] == 0
  {
    hide FactorialGuest, FACTORIAL_CODE;
    GuestRegisters(m, pageSize, redZone);
    GuestWord(m, pageSize, redZone, a);
  }

  lemma StopsAtLr(m: Machine, t: Machine, sp: int, n: int)
    requires Returned(m, t, sp, n) && m.lr % 4 == 0 && m.lr < sp - 96 * (Depth(n) + 1)
    requires m.lr in m.mem && m.mem[m.lr] == 0
    ensures t.pc == m.lr && t.gpr[3] == Wrap(Factorial(n)) && Step(t).None?
  {
    hide Step, Factorial, DeepestFrame;
    assert t.mem[m.lr] == 0;
    StopsAtZero(t);
  }

  lemma FrameRoom(pageSize: int, redZone: int, n: int)
    requires PageSizes(pageSize, redZone) && FitsStackPage(n, pageSize, redZone)
    ensures var sp := 3 * pageSize - redZone; var lo := sp - 96 * (Depth(n) + 1);
      pageSize + 104 <= 2 * pageSize - 4 < lo <= sp - 96 && (2 * pageSize - 4) % 4 == 0 && sp < 3 * pageSize
  {
    hide Depth;
    Aligned(pageSize, pageSize);
    Aligned(2 * pageSize, 4);
  }

  lemma GuestFits(m: Machine, pageSize: int, redZone: int, n: int)
    requires FactorialGuest(m, pageSize, redZone) && FitsStackPage(n, pageSize, redZone)
    ensures var sp := 3 * pageSize - redZone;
      && Entered(m, pageSize, sp, sp - 96 * (Depth(n) + 1))
      && m.lr == 2 * pageSize - 4 && m.lr % 4 == 0 && m.lr < sp - 96 * (Depth(n) + 1)
      && m.lr in m.mem && m.mem[m.lr] == 0
  {
    hide FactorialGuest, PageSizes, FitsStackPage, Entered, Depth;
    GuestRegisters(m, pageSize, redZone);
    FrameRoom(pageSize, redZone, n);
    GuestEntered(m, pageSize, redZone, 3 * pageSize - redZone - 96 * (Depth(n) + 1));
    GuestZeroed(m, pageSize, redZone, 2 * pageSize - 4);
  }

  /** Whatever the argument, if its frames fit the stack page the guest computes
      the factorial and stops at the word the link register named. */
  lemma FactorialDemo(m: Machine, pageSize: int, redZone: int, n: int) returns (t: Machine)
    requires FactorialGuest(m, pageSize, redZone) && n == Signed(m.gpr[3]) && FitsStackPage(n, pageSize, redZone)
    ensures Run(m, Instructions(n)) == Some(t) && Step(t).None?
    ensures t.pc == 2 * pageSize - 4 && t.gpr[3] == Wrap(Factorial(n))
  {
    hide Step, Run, Reaches, Factorial, Instructions, Entered, Returned, FactorialGuest, FitsStackPage, Wrap, Signed;
    var sp := 3 * pageSize - redZone;
    GuestFits(m, pageSize, redZone, n);
    t := FactorialReturns(m, pageSize, sp, n);
    ReachesRuns(m, Instructions(n), t, sp - 96 * (Depth(n) + 1), sp + 28);
    StopsAtLr(m, t, sp, n);
  }

  lemma StopsAtZero(m: Machine)
    requires m.pc in m.mem && m.mem[m.pc] == 0
    ensures Step(m).None?
  {
  }

  /** A run that stores a frame's back chain below the stack page is not one that
      stores only within it. */
  lemma StoresBelow(m: Machine, t: Machine, t': Machine, j: nat, k: nat, pageSize: int, sp: int, d: nat)
    requires Run(m, j) == Some(t) && DeepestFrame(t.mem, sp, d) && sp - 96 * d > 0
    requires 0 <= sp - 96 * (d + 1) < 2 * pageSize && 3 * pageSize <= 0x1_0000_0000
    requires sp - 96 * (d + 1) in m.mem && m.mem[sp - 96 * (d + 1)] == 0
    ensures !Reaches(m, j + k, t', 2 * pageSize, 3 * pageSize)
  {
    hide Run, Reaches;
    if Reaches(m, j + k, t', 2 * pageSize, 3 * pageSize) {
      var s := ReachesPart(m, j, k, t', 2 * pageSize, 3 * pageSize);
      ReachesRuns(m, j, s, 2 * pageSize, 3 * pageSize);
      ReachesFrame(m, j, s, 2 * pageSize, 3 * pageSize, sp - 96 * (d + 1));
    }
  }

  /** The first frame that does not fit the stack page, for an argument whose
      frames do not all fit: it still lies above the code. */
  lemma FirstFrameBelow(pageSize: int, redZone: int, n: int) returns (d: nat)
    requires PageSizes(pageSize, redZone) && !FitsStackPage(n, pageSize, redZone)
    ensures 1 <= d <= Depth(n)
    ensures var lo := 3 * pageSize - redZone - 96 * (d + 1);
      pageSize + 104 <= lo < 2 * pageSize && lo % 4 == 0 && lo + 96 >= 2 * pageSize
  {
    d := (pageSize - redZone) / 96;
  }

  lemma FitsWithin(m: Machine, pageSize: int, redZone: int, n: int)
    requires FactorialGuest(m, pageSize, redZone) && n == Signed(m.gpr[3]) && FitsStackPage(n, pageSize, redZone)
    ensures exists t :: Reaches(m, Instructions(n), t, 2 * pageSize, 3 * pageSize)
  {
    hide Step, FACTORIAL_CODE, Reaches, CodeAt, Factorial, GuestMemory, Entered, Returned;
    var sp := 3 * pageSize - redZone;
    var lo := sp - 96 * (Depth(n) + 1);
    GuestEntered(m, pageSize, redZone, lo);
    var t := FactorialReturns(m, pageSize, sp, n);
    ReachesWidens(m, Instructions(n), t, lo, sp + 28, 2 * pageSize, 3 * pageSize);
  }

  lemma StoresBeyond(m: Machine, t': Machine, pageSize: int, redZone: int, n: int)
    requires FactorialGuest(m, pageSize, redZone) && n == Signed(m.gpr[3]) && !FitsStackPage(n, pageSize, redZone)
    ensures !Reaches(m, Instructions(n), t', 2 * pageSize, 3 * pageSize)
  {
    hide Step, Run, FACTORIAL_CODE, Reaches, CodeAt, Factorial, GuestMemory, Entered, DeepestFrame;
    var sp := 3 * pageSize - redZone;
    var d := FirstFrameBelow(pageSize, redZone, n);
    var lo := sp - 96 * (d + 1);
    GuestEntered(m, pageSize, redZone, lo);
    GuestZeroed(m, pageSize, redZone, lo);
    var t := PushesDeep(m, pageSize, sp, d);
    ReachesRuns(m, 13 * d + 5, t, lo, sp + 28);
    StoresBelow(m, t, t', 13 * d + 5, Instructions(n) - (13 * d + 5), pageSize, sp, d);
  }

  /** The stack page is enough for exactly the arguments up to
      (pageSize - redZone) / 96 - 1, of all arguments there are: for any greater
      one the run stores below it, into the text page. */
  lemma StackPageDepth(m: Machine, pageSize: int, redZone: int, n: int)
    requires FactorialGuest(m, pageSize, redZone) && n == Signed(m.gpr[3])
    ensures (exists t :: Reaches(m, Instructions(n), t, 2 * pageSize, 3 * pageSize)) <==> FitsStackPage(n, pageSize, redZone)
  {
    hide FactorialGuest, FitsStackPage, Reaches, Instructions;
    if FitsStackPage(n, pageSize, redZone) {
      FitsWithin(m, pageSize, redZone, n);
    } else {
      forall t ensures !Reaches(m, Instructions(n), t, 2 * pageSize, 3 * pageSize) {
        StoresBeyond(m, t, pageSize, redZone, n);
      }
    }
  }

  /** The shipped demo, factorial(10): 248 instructions. */
  lemma FactorialOfTen(m: Machine, pageSize: int, redZone: int)
    requires FactorialGuest(m, pageSize, redZone) && m.gpr[3] == 10 && redZone + 1056 <= pageSize
    ensures Run(m, 248).Some? && Run(m, 248).value.pc == 2 * pageSize - 4
    ensures Run(m, 248).value.gpr[3] == 3628800
  {
    hide Step, Run, FactorialGuest;
    var t := FactorialDemo(m, pageSize, redZone, 10);
    assert Factorial(5) == 120;
    assert Factorial(10) == 3628800;
  }
}
