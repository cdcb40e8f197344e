/** The C bit-field templates for instruction words, which the repository's
    programs overlay on memory to write one field at a time. */
module Templates {
  import opened PowerPC
  import opened Division

  type Bit = b: int | 0 <= b < 2
  type Bits5 = b: int | 0 <= b < 32
  type Bits6 = b: int | 0 <= b < 64
  type Bits9 = b: int | 0 <= b < 512
  type Bits16 = b: int | 0 <= b < 0x1_0000
  type Bits24 = b: int | 0 <= b < 0x100_0000

  // add immediate
  datatype DForm = DForm(OP: Bits6, RT: Bits5, RA: Bits5, SI: Bits16)

  // unconditional branch
  datatype IForm = IForm(OP: Bits6, LI: Bits24, AA: Bit, LK: Bit)

  // add
  datatype XOForm = XOForm(OP: Bits6, RT: Bits5, RA: Bits5, RB: Bits5, OE: Bit, XO: Bits9, Rc: Bit)

  function PackD(f: DForm): Word {
    f.OP * 0x400_0000 + f.RT * 0x20_0000 + f.RA * 0x1_0000 + f.SI
  }

  function UnpackD(w: Word): DForm {
    DForm(Field(w, 0x400_0000, 64), Field(w, 0x20_0000, 32), Field(w, 0x1_0000, 32), Field(w, 1, 0x1_0000))
  }

  function PackI(f: IForm): Word {
    f.OP * 0x400_0000 + f.LI * 4 + f.AA * 2 + f.LK
  }

  function UnpackI(w: Word): IForm {
    IForm(Field(w, 0x400_0000, 64), Field(w, 4, 0x100_0000), Field(w, 2, 2), Field(w, 1, 2))
  }

  function PackXO(f: XOForm): Word {
    f.OP * 0x400_0000 + f.RT * 0x20_0000 + f.RA * 0x1_0000 + f.RB * 0x800 + f.OE * 0x400 + f.XO * 2 + f.Rc
  }

  function UnpackXO(w: Word): XOForm {
    XOForm(Field(w, 0x400_0000, 64), Field(w, 0x20_0000, 32), Field(w, 0x1_0000, 32), Field(w, 0x800, 32),
           Field(w, 0x400, 2), Field(w, 2, 512), Field(w, 1, 2))
  }

  /** The field between `hi` above it and `lo` below it. */
  lemma FieldIs(w: Word, scale: int, size: int, hi: int, v: int, lo: int)
    requires scale > 0 && size > 0 && 0 <= lo < scale && 0 <= v < size
    requires w == (hi * size + v) * scale + lo
    ensures Field(w, scale, size) == v
  {
    QuotientIs(w, scale, hi * size + v, lo);
    QuotientIs(hi * size + v, size, hi, v);
  }

  // Unpacking a packed template gives back every field.

  lemma UnpacksD(f: DForm)
    ensures UnpackD(PackD(f)) == f
  {
    var w := PackD(f);
    FieldIs(w, 0x400_0000, 64, 0, f.OP, f.RT * 0x20_0000 + f.RA * 0x1_0000 + f.SI);
    FieldIs(w, 0x20_0000, 32, f.OP, f.RT, f.RA * 0x1_0000 + f.SI);
    FieldIs(w, 0x1_0000, 32, f.OP * 32 + f.RT, f.RA, f.SI);
    FieldIs(w, 1, 0x1_0000, f.OP * 0x400 + f.RT * 32 + f.RA, f.SI, 0);
  }

  lemma UnpacksI(f: IForm)
    ensures UnpackI(PackI(f)) == f
  {
    var w := PackI(f);
    FieldIs(w, 0x400_0000, 64, 0, f.OP, f.LI * 4 + f.AA * 2 + f.LK);
    FieldIs(w, 4, 0x100_0000, f.OP, f.LI, f.AA * 2 + f.LK);
    FieldIs(w, 2, 2, f.OP * 0x100_0000 + f.LI, f.AA, f.LK);
    FieldIs(w, 1, 2, f.OP * 0x200_0000 + f.LI * 2 + f.AA, f.LK, 0);
  }

  lemma UnpacksXO(f: XOForm)
    ensures UnpackXO(PackXO(f)) == f
  {
    var w := PackXO(f);
    var low := f.OE * 0x400 + f.XO * 2 + f.Rc;
    var high := f.OP * 0x400 + f.RT * 32 + f.RA;
    FieldIs(w, 0x400_0000, 64, 0, f.OP, f.RT * 0x20_0000 + f.RA * 0x1_0000 + f.RB * 0x800 + low);
    FieldIs(w, 0x20_0000, 32, f.OP, f.RT, f.RA * 0x1_0000 + f.RB * 0x800 + low);
    FieldIs(w, 0x1_0000, 32, f.OP * 32 + f.RT, f.RA, f.RB * 0x800 + low);
    FieldIs(w, 0x800, 32, high, f.RB, low);
    FieldIs(w, 0x400, 2, high * 32 + f.RB, f.OE, f.XO * 2 + f.Rc);
    FieldIs(w, 2, 512, high * 64 + f.RB * 2 + f.OE, f.XO, f.Rc);
    FieldIs(w, 1, 2, high * 0x8000 + f.RB * 0x400 + f.OE * 512 + f.XO, f.Rc, 0);
  }

  // Packing what was unpacked gives back the word.

  /** What is left of a word above its low bits. */
  function Above(w: Word, scale: int): int
    requires scale > 0
  {
    w / scale
  }

  lemma WholeWord(w: Word)
    ensures Above(w, 1) == w && Above(w, 0x1_0000_0000) == 0
  {
  }

  lemma Spreads(a: int, b: int, size: int, scale: int)
    requires 0 <= b < size && scale > 0
    ensures (a * size + b) * scale == a * (size * scale) + b * scale && b * scale <= size * scale - scale
  {
    Distributes(a * size, b, scale);
    Associates(a, size, scale);
    MultipleGrows(b, size - 1, scale);
    Distributes(size - 1, 1, scale);
  }

  lemma PartsOf(x: int, d: int)
    requires d > 0
    ensures x == x / d * d + x % d && 0 <= x % d < d
  {
  }

  /** A field lies between what is above it and what is above its lowest bit. */
  lemma FieldSplits(w: Word, scale: int, size: int, whole: int)
    requires scale > 0 && size > 0 && whole > 0 && whole == size * scale
    ensures Above(w, scale) == Above(w, whole) * size + Field(w, scale, size)
  {
    var q := w / scale;
    var a, b, r := q / size, q % size, w % scale;
    PartsOf(w, scale);
    PartsOf(q, size);
    Spreads(a, b, size, scale);
    QuotientIs(w, whole, a, b * scale + r);
  }

  lemma RepacksD(w: Word)
    ensures PackD(UnpackD(w)) == w
  {
    hide Field, Above;
    WholeWord(w);
    FieldSplits(w, 1, 0x1_0000, 0x1_0000);
    FieldSplits(w, 0x1_0000, 32, 0x20_0000);
    FieldSplits(w, 0x20_0000, 32, 0x400_0000);
    FieldSplits(w, 0x400_0000, 64, 0x1_0000_0000);
  }

  lemma RepacksI(w: Word)
    ensures PackI(UnpackI(w)) == w
  {
    hide Field, Above;
    WholeWord(w);
    FieldSplits(w, 1, 2, 2);
    FieldSplits(w, 2, 2, 4);
    FieldSplits(w, 4, 0x100_0000, 0x400_0000);
    FieldSplits(w, 0x400_0000, 64, 0x1_0000_0000);
  }

  lemma RepacksXO(w: Word)
    ensures PackXO(UnpackXO(w)) == w
  {
    hide Field, Above;
    WholeWord(w);
    FieldSplits(w, 1, 2, 2);
    FieldSplits(w, 2, 512, 0x400);
    FieldSplits(w, 0x400, 2, 0x800);
    FieldSplits(w, 0x800, 32, 0x1_0000);
    FieldSplits(w, 0x1_0000, 32, 0x20_0000);
    FieldSplits(w, 0x20_0000, 32, 0x400_0000);
    FieldSplits(w, 0x400_0000, 64, 0x1_0000_0000);
  }

  // What a packed template means to the decoder.

  lemma DecodesAddi(f: DForm)
    requires f.OP == 14
    ensures Decode(PackD(f)) == Addi(f.RT, f.RA, SignExtend(f.SI, 0x1_0000))
  {
    UnpacksD(f);
  }

  lemma DecodesBranch(f: IForm)
    requires f.OP == 18
    ensures Decode(PackI(f)) == Branch(SignExtend(4 * f.LI, 0x400_0000), f.AA == 1, f.LK == 1)
  {
    UnpacksI(f);
  }

  lemma DecodesAdd(f: XOForm)
    requires f.OP == 31 && f.OE == 0 && f.XO == 266 && f.Rc == 0
    ensures Decode(PackXO(f)) == Add(f.RT, f.RA, f.RB)
  {
    UnpacksXO(f);
    var w := PackXO(f);
    FieldIs(w, 2, 1024, f.OP * 0x8000 + f.RT * 0x400 + f.RA * 32 + f.RB, f.XO, 0);
  }

  /** Addresses that an absolute I-form branch can name: its 26-bit target is
      sign-extended, so they are the lowest and the highest 32 MB. */
  predicate BranchReachable(a: int) {
    0 <= a < 0x200_0000 || 0xfe00_0000 <= a < 0x1_0000_0000
  }

  lemma AbsoluteTarget(a: Word)
    requires a % 4 == 0
    ensures var t := SignExtend(4 * (a / 4 % 0x100_0000), 0x400_0000);
      (Wrap(t - t % 4) == a <==> BranchReachable(a)) && t % 4 == 0
  {
    var high := a / 0x400_0000;
    assert a / 4 / 0x100_0000 == high;
    assert 4 * (a / 4 % 0x100_0000) == a - high * 0x400_0000;
  }
}
