/** The filter's cipher: every byte complemented, computed eight bytes at a time. */
module CryptoBytes {
  import opened Division
  import opened Powers

  type Byte = b: int | 0 <= b < 256
  type UInt64 = w: int | 0 <= w < 0x1_0000_0000_0000_0000

  function Complement(s: seq<Byte>): (t: seq<Byte>)
    ensures |t| == |s|
  {
    seq(|s|, i requires 0 <= i < |s| => 255 - s[i])
  }

  lemma Involution(s: seq<Byte>)
    ensures Complement(Complement(s)) == s
  {
  }

  /** Bitwise complement. */
  function Not(w: UInt64): UInt64 {
    0xffff_ffff_ffff_ffff - w
  }

  /** Eight bytes of memory as the UInt64 they are read as. */
  function Join(s: seq<Byte>): UInt64
    requires |s| == 8
  {
    s[0] as int * 0x100_0000_0000_0000 + s[1] as int * 0x1_0000_0000_0000 + s[2] as int * 0x100_0000_0000
    + s[3] as int * 0x1_0000_0000 + s[4] as int * 0x100_0000 + s[5] as int * 0x1_0000 + s[6] as int * 0x100
    + s[7] as int
  }

  /** The bytes a UInt64 is written as. */
  function Split(w: UInt64): (s: seq<Byte>)
    ensures |s| == 8
  {
    [w / 0x100_0000_0000_0000, w / 0x1_0000_0000_0000 % 256, w / 0x100_0000_0000 % 256, w / 0x1_0000_0000 % 256,
     w / 0x100_0000 % 256, w / 0x1_0000 % 256, w / 0x100 % 256, w % 256]
  }

  lemma PartIs(w: UInt64, scale: int, hi: int, v: Byte, lo: int)
    requires scale > 0 && 0 <= lo < scale && w == (hi * 256 + v) * scale + lo
    ensures w / scale % 256 == v
  {
    QuotientIs(w, scale, hi * 256 + v, lo);
    QuotientIs(hi * 256 + v, 256, hi, v);
  }

  lemma SplitsJoined(s: seq<Byte>)
    requires |s| == 8
    ensures Split(Join(s)) == s
  {
    var w := Join(s);
    var lo6 := s[7] as int;
    var lo5 := s[6] as int * 0x100 + lo6;
    var lo4 := s[5] as int * 0x1_0000 + lo5;
    var lo3 := s[4] as int * 0x100_0000 + lo4;
    var lo2 := s[3] as int * 0x1_0000_0000 + lo3;
    var lo1 := s[2] as int * 0x100_0000_0000 + lo2;
    var lo0 := s[1] as int * 0x1_0000_0000_0000 + lo1;
    var hi2 := s[0] as int * 0x100 + s[1] as int;
    var hi3 := hi2 * 0x100 + s[2] as int;
    var hi4 := hi3 * 0x100 + s[3] as int;
    var hi5 := hi4 * 0x100 + s[4] as int;
    var hi6 := hi5 * 0x100 + s[5] as int;
    var hi7 := hi6 * 0x100 + s[6] as int;
    QuotientIs(w, 0x100_0000_0000_0000, s[0], lo0);
    PartIs(w, 0x1_0000_0000_0000, s[0], s[1], lo1);
    PartIs(w, 0x100_0000_0000, hi2, s[2], lo2);
    PartIs(w, 0x1_0000_0000, hi3, s[3], lo3);
    PartIs(w, 0x100_0000, hi4, s[4], lo4);
    PartIs(w, 0x1_0000, hi5, s[5], lo5);
    PartIs(w, 0x100, hi6, s[6], lo6);
    PartIs(w, 1, hi7, s[7], 0);
  }

  /** Complementing eight bytes at once complements each of them. */
  lemma NotComplements(s: seq<Byte>)
    requires |s| == 8
    ensures Split(Not(Join(s))) == Complement(s)
  {
    assert Not(Join(s)) == Join(Complement(s));
    SplitsJoined(Complement(s));
  }

  // ----- what complementing does to bits -----

  /** Bit k of a number, counted from the lowest. */
  function Bit(x: nat, k: nat): nat {
    x / Pow2(k) % 2
  }

  /** Taking a number from all ones turns every bit over. */
  lemma TurnsOver(x: nat, m: nat, d: nat)
    requires d > 0 && x < m * (2 * d)
    ensures (m * (2 * d) - 1 - x) / d % 2 == 1 - x / d % 2
  {
    var q, r := x / d, x % d;
    var a, c := q / 2, q % 2;
    var y := m * (2 * d) - 1 - x;
    assert x == q * d + r;
    AllOnesLess(m, d, q, r);
    QuotientIs(y, d, 2 * m - 1 - q, d - 1 - r);
    QuotientIs(2 * m - 1 - q, 2, m - 1 - a, 1 - c);
  }

  lemma AllOnesLess(m: int, d: int, q: int, r: int)
    ensures m * (2 * d) - 1 - (q * d + r) == (2 * m - 1 - q) * d + (d - 1 - r)
  {
    assert m * (2 * d) == (2 * m) * d;
    Distributes(2 * m, -1 - q, d);
    Distributes(-1, -q, d);
    assert (-q) * d == -(q * d);
  }

  lemma Halves(n: nat, k: nat)
    requires k < n
    ensures Pow2(n) == Pow2(n - 1 - k) * (2 * Pow2(k))
  {
    Pow2Adds(n - 1 - k, k + 1);
  }

  lemma Pow2Of8()
    ensures Pow2(8) == 256
  {
    assert Pow2(4) == 16;
    Pow2Adds(4, 4);
  }

  /** Every byte of the complement has each of its eight bits turned over. */
  lemma ComplementTurnsBits(s: seq<Byte>, i: nat, k: nat)
    requires i < |s| && k < 8
    ensures Bit(Complement(s)[i], k) == 1 - Bit(s[i], k)
  {
    Pow2Of8();
    hide Pow2;
    Halves(8, k);
    TurnsOver(s[i], Pow2(7 - k), Pow2(k));
  }

  lemma Pow2Of64()
    ensures Pow2(64) == 0x1_0000_0000_0000_0000
  {
    Pow2Of8();
    hide Pow2;
    Pow2Adds(8, 8);
    Pow2Adds(16, 16);
    Pow2Adds(32, 32);
  }

  /** And a word each of its sixty-four. */
  lemma NotTurnsBits(w: UInt64, k: nat)
    requires k < 64
    ensures Bit(Not(w), k) == 1 - Bit(w, k)
  {
    Pow2Of64();
    hide Pow2;
    Halves(64, k);
    TurnsOver(w, Pow2(63 - k), Pow2(k));
  }
}
