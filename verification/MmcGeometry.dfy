// The geometry of a card and the range check of the block requests (mmc/mmccombo.c).
//
// A card describes itself in 128 bits, the CSD register of version 1.0 (section 5.3.2 of the SD
// Physical Layer Simplified Specification), sent with the highest byte first. All arithmetic of
// the driver is unsigned and 32 bits wide; Cut says where it is cut.

module MmcGeometry {
  import opened Integers

  type Csd = c: seq<Byte> | |c| == 16 witness seq(16, i => 0)

  // x * 2^n and x / 2^n.
  function Up(x: nat, n: nat): nat { if n == 0 then x else 2 * Up(x, n - 1) }
  function Down(x: nat, n: nat): nat
    decreases n, x
  {
    if n == 0 then x else Down(x, n - 1) / 2
  }

  // The low w bits of x.
  function Low(x: nat, w: nat): nat
    decreases w, x
  {
    if w == 0 then 0 else x % 2 + 2 * Low(x / 2, w - 1)
  }

  // ---------- The register, by bits ----------

  function At(c: Csd, i: nat): nat
    requires i < 16
  {
    c[i]
  }

  // Bit i of the register.
  function Bits(c: Csd): nat -> nat {
    (i: nat) => if i < 128 then Down(At(c, 15 - i / 8), i % 8) % 2 else 0
  }

  // The w bits from lo on.
  function Field(bits: nat -> nat, lo: nat, w: nat): nat
    decreases w, bits
  {
    if w == 0 then 0 else bits(lo) + 2 * Field(bits, lo + 1, w - 1)
  }

  datatype Range = Range(lo: nat, width: nat)

  const C_SIZE := Range(62, 12)
  const C_SIZE_MULT := Range(47, 3)
  const READ_BL_LEN := Range(80, 4)

  function CSize(c: Csd): nat { Field(Bits(c), C_SIZE.lo, C_SIZE.width) }
  function CSizeMult(c: Csd): nat { Field(Bits(c), C_SIZE_MULT.lo, C_SIZE_MULT.width) }
  function ReadBlLen(c: Csd): nat { Field(Bits(c), READ_BL_LEN.lo, READ_BL_LEN.width) }

  // The three fields that give the size of a card.
  datatype Geometry = Geometry(cSize: nat, cSizeMult: nat, readBlLen: nat)

  function Parse(c: Csd): Geometry { Geometry(CSize(c), CSizeMult(c), ReadBlLen(c)) }

  // The widths of the fields.
  predicate InFields(g: Geometry) { g.cSize < 0x1000 && g.cSizeMult < 8 && g.readBlLen < 0x10 }

  function Blocks(g: Geometry): nat { Up(g.cSize + 1, g.cSizeMult + 2) }
  function BlockLen(g: Geometry): nat { Up(1, g.readBlLen) }

  // The capacity of the card in bytes.
  function Capacity(g: Geometry): nat { Up(Blocks(g), g.readBlLen) }

  lemma {:induction false} FieldSplit(bits: nat -> nat, lo: nat, v: nat, w: nat)
    ensures Field(bits, lo, v + w) == Field(bits, lo, v) + Up(Field(bits, lo + v, w), v)
    decreases v
  {
    if v > 0 { FieldSplit(bits, lo + 1, v - 1, w); }
  }

  // Bits that lie in one byte are a part of that byte.
  lemma {:induction false} FieldInByte(bits: nat -> nat, base: nat, b: nat, i: nat, w: nat)
    requires i + w <= 8
    requires forall j :: 0 <= j < 8 ==> bits(base + j) == Down(b, j) % 2
    ensures Field(bits, base + i, w) == Low(Down(b, i), w)
    decreases w
  {
    if w > 0 { FieldInByte(bits, base, b, i + 1, w - 1); }
  }

  // The k-th byte from the end.
  lemma FieldInRegister(c: Csd, k: nat, i: nat, w: nat)
    requires k < 16 && i + w <= 8
    ensures Field(Bits(c), 8 * k + i, w) == Low(Down(At(c, 15 - k), i), w)
  {
    FieldInByte(Bits(c), 8 * k, At(c, 15 - k), i, w);
  }

  // Low is the remainder, and Down is the quotient.
  lemma {:induction false} LowRest(x: nat, w: nat) returns (q: nat)
    ensures x == Low(x, w) + Up(q, w) && Low(x, w) < Up(1, w)
  {
    q := x;
    if w > 0 { q := LowRest(x / 2, w - 1); }
  }

  lemma {:induction false} DownRange(x: nat, n: nat)
    ensures Up(Down(x, n), n) <= x < Up(Down(x, n) + 1, n)
  {
    if n > 0 {
      DownRange(x, n - 1);
      UpMonotone(2 * Down(x, n), Down(x, n - 1), n - 1);
      UpMonotone(Down(x, n - 1) + 1, 2 * Down(x, n) + 2, n - 1);
      UpTwice(Down(x, n), n - 1);
      UpTwice(Down(x, n) + 1, n - 1);
    }
  }

  lemma {:induction false} UpMonotone(x: nat, y: nat, n: nat)
    requires x <= y
    ensures Up(x, n) <= Up(y, n)
  {
    if n > 0 { UpMonotone(x, y, n - 1); }
  }

  lemma {:induction false} UpTwice(x: nat, n: nat)
    ensures Up(2 * x, n) == 2 * Up(x, n)
  {
    if n > 0 { UpTwice(x, n - 1); }
  }

  lemma {:induction false} UpIs(x: nat, n: nat)
    ensures n == 0 ==> Up(x, n) == x
    ensures n == 1 ==> Up(x, n) == 2 * x
    ensures n == 2 ==> Up(x, n) == 4 * x
    ensures n == 3 ==> Up(x, n) == 8 * x
    ensures n == 4 ==> Up(x, n) == 0x10 * x
    ensures n == 5 ==> Up(x, n) == 0x20 * x
    ensures n == 6 ==> Up(x, n) == 0x40 * x
    ensures n == 7 ==> Up(x, n) == 0x80 * x
    ensures n == 8 ==> Up(x, n) == 0x100 * x
  {
    if n > 0 { UpIs(x, n - 1); }
  }

  lemma DownIs(x: nat, n: nat)
    ensures n == 0 ==> Down(x, n) == x
    ensures n == 6 ==> Down(x, n) == x / 0x40
    ensures n == 7 ==> Down(x, n) == x / 0x80
  {
    DownRange(x, n);
    UpIs(Down(x, n), n);
    UpIs(Down(x, n) + 1, n);
  }

  lemma LowIs(x: nat, w: nat)
    ensures w == 1 ==> Low(x, w) == x % 2
    ensures w == 2 ==> Low(x, w) == x % 4
    ensures w == 4 ==> Low(x, w) == x % 0x10
    ensures w == 8 && x < 0x100 ==> Low(x, w) == x
  {
    if w == 1 || w == 2 || w == 4 {
      LowIsRemainder(x, w, if w == 1 then 2 else if w == 2 then 4 else 0x10);
    } else if w == 8 {
      var q := LowRest(x, w);
      UpIs(q, w);
    }
  }

  lemma LowIsRemainder(x: nat, w: nat, m: nat)
    requires (w, m) == (1, 2) || (w, m) == (2, 4) || (w, m) == (4, 0x10)
    ensures Low(x, w) == x % m
  {
    var q := LowRest(x, w);
    UpIs(q, w);
    UpIs(1, w);
    RemainderIs(x, q, Low(x, w), m);
  }

  lemma RemainderIs(x: nat, q: nat, y: nat, m: nat)
    requires m == 2 || m == 4 || m == 0x10
    requires x == m * q + y && y < m
    ensures y == x % m
  {
  }

  // Fields that lie in one byte, for the shifts and masks of the source.
  lemma TopBits(c: Csd, k: nat)
    requires k < 16
    ensures Field(Bits(c), 8 * k + 6, 2) == At(c, 15 - k) / 0x40
  {
    FieldInRegister(c, k, 6, 2);
    TopOfByte(At(c, 15 - k));
  }

  lemma TopOfByte(b: nat)
    requires b < 0x100
    ensures Low(Down(b, 6), 2) == b / 0x40
  {
    DownIs(b, 6);
    LowIs(b / 0x40, 2);
  }

  lemma TopBit(c: Csd, k: nat)
    requires k < 16
    ensures Field(Bits(c), 8 * k + 7, 1) == At(c, 15 - k) / 0x80
  {
    var b := At(c, 15 - k);
    FieldInRegister(c, k, 7, 1);
    DownIs(b, 7);
    LowIs(b / 0x80, 1);
  }

  lemma WholeByte(c: Csd, k: nat)
    requires k < 16
    ensures Field(Bits(c), 8 * k, 8) == At(c, 15 - k)
  {
    var b := At(c, 15 - k);
    FieldInRegister(c, k, 0, 8);
    DownIs(b, 0);
    LowIs(b, 8);
  }

  lemma LowBits(c: Csd, k: nat, w: nat)
    requires k < 16 && (w == 2 || w == 4)
    ensures Field(Bits(c), 8 * k, w) == At(c, 15 - k) % Up(1, w)
  {
    var b := At(c, 15 - k);
    FieldInRegister(c, k, 0, w);
    DownIs(b, 0);
    LowIs(b, w);
    UpIs(1, w);
  }

  // ---------- mmc_card_config ----------

  // The register is read as in the source, by bytes.
  lemma CSizeByBytes(c: Csd)
    ensures CSize(c) == (At(c, 8) + At(c, 7) * 0x100 + At(c, 6) % 4 * 0x1_0000) / 0x40
  {
    CSizePieces(c);
    TenAndTwo(Bits(c), At(c, 6), At(c, 7), At(c, 8));
  }

  lemma CSizePieces(c: Csd)
    ensures Field(Bits(c), 62, 2) == At(c, 8) / 0x40 && Field(Bits(c), 64, 8) == At(c, 7)
    ensures Field(Bits(c), 72, 2) == At(c, 6) % 4
  {
    TopBits(c, 7);
    WholeByte(c, 8);
    LowBits(c, 9, 2);
    UpIs(1, 2);
  }

  lemma TenAndTwo(bits: nat -> nat, b6: nat, b7: nat, b8: nat)
    requires Field(bits, 62, 2) == b8 / 0x40 && Field(bits, 64, 8) == b7 && Field(bits, 72, 2) == b6 % 4
    ensures Field(bits, C_SIZE.lo, C_SIZE.width) == (b8 + b7 * 0x100 + b6 % 4 * 0x1_0000) / 0x40
  {
    Joined(bits, 62, 2, 8, 2);
    UpIs(b6 % 4, 8);
    UpIs(b7 + 0x100 * (b6 % 4), 2);
  }

  lemma CSizeMultByBytes(c: Csd)
    ensures CSizeMult(c) == (At(c, 10) + At(c, 9) % 4 * 0x100) / 0x80
  {
    TopBit(c, 5);
    LowBits(c, 6, 2);
    UpIs(1, 2);
    OneAndTwo(Bits(c), At(c, 9), At(c, 10));
  }

  lemma OneAndTwo(bits: nat -> nat, b9: nat, b10: nat)
    requires Field(bits, 47, 1) == b10 / 0x80 && Field(bits, 48, 2) == b9 % 4
    ensures Field(bits, C_SIZE_MULT.lo, C_SIZE_MULT.width) == (b10 + b9 % 4 * 0x100) / 0x80
  {
    FieldSplit(bits, 47, 1, 2);
    UpIs(b9 % 4, 1);
  }

  lemma ReadBlLenByBytes(c: Csd)
    ensures ReadBlLen(c) == At(c, 5) % 0x10
  {
    LowBits(c, 10, 4);
    UpIs(1, 4);
  }

  lemma Joined(bits: nat -> nat, lo: nat, u: nat, v: nat, w: nat)
    ensures Field(bits, lo, u + v + w)
         == Field(bits, lo, u) + Up(Field(bits, lo + u, v) + Up(Field(bits, lo + u + v, w), v), u)
  {
    FieldSplit(bits, lo, u, v + w);
    FieldSplit(bits, lo + u, v, w);
    assert u + (v + w) == u + v + w;
  }

  // ---------- The sizes ----------

  lemma {:induction false} UpIsProduct(x: nat, n: nat)
    ensures Up(x, n) == x * Up(1, n)
  {
    if n > 0 {
      UpIsProduct(x, n - 1);
      DoubleFactor(x, Up(1, n - 1));
    }
  }

  lemma DoubleFactor(x: nat, y: nat)
    ensures x * (2 * y) == 2 * (x * y)
  {
  }

  lemma {:induction false} UpGrows(x: nat, n: nat, k: nat)
    ensures Up(x, n) <= Up(x, n + k)
  {
    if k > 0 { UpGrows(x, n, k - 1); }
  }

  lemma {:induction false} UpUp(x: nat, n: nat, k: nat)
    ensures Up(x, n + k) == Up(Up(x, n), k)
  {
    if k > 0 { UpUp(x, n, k - 1); }
  }

  lemma ParsedInFields(c: Csd)
    ensures InFields(Parse(c))
  {
    CSizeByBytes(c);
    CSizeMultByBytes(c);
    ReadBlLenByBytes(c);
  }

  // Everything but the capacity fits 32 bits.
  lemma UpBounds(n: nat, m: nat, l: nat)
    requires n <= 0x1000 && m <= 9 && l < 0x10
    ensures Up(1, m) <= 0x200 && Up(n, m) <= 0x20_0000 && Up(1, l) <= 0x1_0000
  {
    UpNine(1, m);
    UpNine(n, m);
    UpGrows(1, l, 16 - l);
    UpUp(1, 8, 8);
    UpIs(1, 8);
    UpIs(Up(1, 8), 8);
  }

  lemma UpNine(x: nat, n: nat)
    requires n <= 9
    ensures Up(x, n) <= 0x200 * x
  {
    UpGrows(x, n, 9 - n);
    UpIs(x, 8);
  }

  // What the driver keeps of a card, in sectors of 512 bytes.
  function Sectors(g: Geometry): nat { 2 * (Cut(Capacity(g)) / 0x400) }

  // The sector count is exact exactly when the capacity fits 32 bits and is a whole number of
  // kilobytes; the second part holds for every block length from 256 up.
  lemma SectorsExact(g: Geometry)
    requires InFields(g)
    ensures Sectors(g) * 512 == Capacity(g) <==> Capacity(g) < 0x1_0000_0000 && Capacity(g) % 0x400 == 0
    ensures g.readBlLen >= 8 ==> Capacity(g) % 0x400 == 0
    ensures BlockLen(g) == 512 ==> Sectors(g) * 512 == Capacity(g)
  {
    SizeExact(g.cSize + 1, g.cSizeMult, g.readBlLen);
  }

  lemma SizeExact(n: nat, m: nat, l: nat)
    requires n <= 0x1000 && m < 8 && l < 0x10
    ensures var s := Up(Up(n, m + 2), l);
            && (2 * (Cut(s) / 0x400) * 512 == s <==> s < 0x1_0000_0000 && s % 0x400 == 0)
            && (l >= 8 ==> s % 0x400 == 0)
            && (Up(1, l) == 512 ==> 2 * (Cut(s) / 0x400) * 512 == s)
  {
    UpBounds(n, m + 2, l);
    BlockLen512(l);
    UpIs(Up(n, m + 2), 8);
    if l >= 8 { WholeKilobytes(n, m, l); }
    assert l == 9 ==> Up(Up(n, m + 2), l) == 2 * Up(Up(n, m + 2), 8);
  }

  lemma WholeKilobytes(n: nat, m: nat, l: nat)
    requires l >= 8
    ensures Up(Up(n, m + 2), l) % 0x400 == 0
  {
    var u := Up(n, m);
    UpUp(n, m, 2);
    UpIs(u, 2);
    UpUp(4 * u, l - 8, 8);
    UpTwice(2 * u, l - 8);
    UpTwice(u, l - 8);
    UpIs(Up(4 * u, l - 8), 8);
    WholeThousand(Up(u, l - 8), Up(Up(n, m + 2), l));
  }

  lemma WholeThousand(x: nat, y: nat)
    requires y == 0x400 * x
    ensures y % 0x400 == 0
  {
  }

  lemma BlockLen512(l: nat)
    ensures Up(1, l) == 512 <==> l == 9
  {
    UpIs(1, 8);
    if l < 9 { UpGrows(1, l, 8 - l); }
    if l > 9 { UpGrows(1, 10, l - 10); }
  }

  // ---------- Requests ----------

  // One block moved: its byte address on the card and its place in the buffer.
  datatype Move = Move(address: nat, offset: nat)

  // The i-th block of a request from sector on, with the cuts of the 32-bit arithmetic.
  function BlockAt(blockLen: nat, sector: nat, i: nat): Move {
    Move(Cut((sector + i) * blockLen), i * blockLen)
  }

  // Sector sector + i of the card in the i-th sector of the buffer.
  predicate Right(g: Geometry, m: Move, sector: nat, i: nat) {
    m == Move(512 * (sector + i), 512 * i) && m.address + 512 <= Capacity(g)
  }

  // The range check of the source: the sum has 32 bits.
  predicate Passes(g: Geometry, sector: Word, nr: nat, start: Word) { Cut(sector + nr + start) <= Sectors(g) }

  // The blocks of a request of nr sectors from sector s on are the right ones.
  ghost predicate AllRight(g: Geometry, s: nat, nr: nat) {
    forall i :: 0 <= i < nr ==> Right(g, BlockAt(BlockLen(g), s, i), s, i)
  }

  // A request that passes the check moves the right blocks, exactly if the sum of the check did not
  // wrap and the block length is 512; with another block length only sector 0 alone is right.
  lemma RequestExact(g: Geometry, sector: Word, nr: nat, start: Word)
    requires InFields(g) && 0 < nr && Passes(g, sector, nr, start)
    ensures AllRight(g, sector + start, nr)
       <==> sector + nr + start < 0x1_0000_0000 && (BlockLen(g) == 512 || (sector + start == 0 && nr == 1))
  {
    var s := sector + start;
    SectorsExact(g);
    CapacityBound(g);
    if s + nr >= 0x1_0000_0000 {
      assert !Right(g, BlockAt(BlockLen(g), s, nr - 1), s, nr - 1);
    } else if BlockLen(g) == 512 {
      RangeRight(g, s, nr);
    } else {
      OtherRange(g, s, nr);
    }
  }

  lemma OtherRange(g: Geometry, s: nat, nr: nat)
    requires InFields(g) && BlockLen(g) != 512 && 0 < nr && s + nr <= Sectors(g)
    ensures AllRight(g, s, nr) <==> s == 0 && nr == 1
  {
    if nr > 1 {
      assert !Right(g, BlockAt(BlockLen(g), s, 1), s, 1);
    } else if s > 0 {
      BlockLen512(g.readBlLen);
      OtherLength(s, g.readBlLen);
      assert !Right(g, BlockAt(BlockLen(g), s, 0), s, 0);
    } else {
      assert Right(g, BlockAt(BlockLen(g), 0, 0), 0, 0);
    }
  }

  lemma RangeRight(g: Geometry, s: nat, nr: nat)
    requires InFields(g) && BlockLen(g) == 512 && s + nr <= Sectors(g)
    ensures AllRight(g, s, nr)
  {
    SectorsExact(g);
  }

  // The check lets a request through whose sum wraps to zero: one sector at the last number of
  // 32 bits, which is moved at an address behind every card of this kind.
  lemma WrappedRequest(g: Geometry)
    requires InFields(g) && BlockLen(g) == 512
    ensures Passes(g, 0xFFFF_FFFF, 1, 0)
    ensures BlockAt(512, 0xFFFF_FFFF, 0).address == 0xFFFF_FE00 && !AllRight(g, 0xFFFF_FFFF, 1)
  {
    var n: nat := 0xFFFF_FFFF;
    assert Cut(n + 1 + 0) == 0;
    assert Cut(n * 512) == 0xFFFF_FE00;
    RequestExact(g, 0xFFFF_FFFF, 1, 0);
  }

  // In a range of fewer than 2^23 sectors, a block length other than 512 gives the wrong address.
  lemma OtherLength(s: nat, l: nat)
    requires 0 < s < 0x80_0000 && l < 0x10 && l != 9
    ensures Cut(s * Up(1, l)) != 512 * s
  {
    UpIs(1, 8);
    if l < 9 {
      UpGrows(1, l, 8 - l);
      Times(s, Up(1, l), 256);
    } else {
      UpUp(1, 9, l - 9);
      UpIsProduct(512, l - 9);
      UpAtLeastTwo(l - 9);
      LongerLength(s, Up(1, l - 9) - 1);
    }
  }

  lemma UpAtLeastTwo(k: nat)
    requires k > 0
    ensures Up(1, k) % 2 == 0 && Up(1, k) >= 2
  {
    UpGrows(1, 0, k - 1);
  }

  lemma Times(s: nat, x: nat, y: nat)
    requires x <= y
    ensures s * x <= s * y
  {
  }

  lemma LongerLength(s: nat, o: nat)
    requires 0 < s < 0x80_0000 && o % 2 == 1
    ensures Cut(s * (512 * (o + 1))) != 512 * s
  {
    var p := s * (512 * (o + 1));
    assert p == 512 * (s * o) + 512 * s;
    if Cut(p) == 512 * s {
      var q := p / 0x1_0000_0000;
      assert s * o == q * 0x80_0000;
      PowerTwentyThree(23);
      OddPart(s, o, q, 23);
    }
  }

  lemma PowerTwentyThree(t: nat)
    requires t == 23
    ensures Up(1, t) == 0x80_0000
  {
    UpUp(1, 8, 8);
    UpUp(1, 16, 7);
    UpIs(1, 8);
    UpIs(0x100, 8);
    UpIs(0x1_0000, 7);
  }

  // An odd factor takes no part in divisibility by a power of two.
  lemma {:induction false} OddPart(s: nat, o: nat, q: nat, t: nat)
    requires o % 2 == 1 && s * o == q * Up(1, t)
    ensures s == 0 || s >= Up(1, t)
    decreases t
  {
    if t > 0 {
      assert s * o == 2 * (q * Up(1, t - 1));
      assert s % 2 == 0 by {
        if s % 2 == 1 { OddTimesOdd(s, o); }
      }
      assert 2 * (s / 2 * o) == s * o;
      OddPart(s / 2, o, q, t - 1);
    }
  }

  lemma OddTimesOdd(a: nat, b: nat)
    requires a % 2 == 1 && b % 2 == 1
    ensures (a * b) % 2 == 1
  {
    var x, y := a / 2, b / 2;
    assert a * b == 2 * (2 * (x * y) + x + y) + 1;
  }

  lemma CapacityBound(g: Geometry)
    requires InFields(g)
    ensures Capacity(g) <= 0x20_0000_0000
  {
    UpBounds(g.cSize + 1, g.cSizeMult + 2, g.readBlLen);
    ProductBound(Blocks(g), g.readBlLen);
  }

  lemma ProductBound(n: nat, l: nat)
    requires n <= 0x20_0000 && l < 0x10
    ensures Up(n, l) <= 0x20_0000_0000
  {
    UpBounds(0, 0, l);
    UpIsProduct(n, l);
    Times(n, Up(1, l), 0x1_0000);
  }

  lemma CutProduct(a: nat, b: nat)
    ensures Cut(Cut(a) * b) == Cut(a * b)
  {
    var m := 0x1_0000_0000;
    assert a == a / m * m + Cut(a);
    assert a * b == (a / m * b) * m + Cut(a) * b;
    CutPlus(Cut(a) * b, a / m * b);
  }

  lemma {:induction false} CutPlus(x: nat, k: nat)
    ensures Cut(x + k * 0x1_0000_0000) == Cut(x)
  {
    if k > 0 { CutPlus(x, k - 1); }
  }

  lemma CutSum(x: nat, b: nat)
    ensures Cut(Cut(x) + b) == Cut(x + b)
  {
    var q := x / 0x1_0000_0000;
    assert x + b == Cut(x) + b + q * 0x1_0000_0000;
    CutPlus(Cut(x) + b, q);
  }

  lemma NextBlock(blockLen: nat, sector: nat, i: nat)
    ensures Cut(BlockAt(blockLen, sector, i).address + blockLen) == BlockAt(blockLen, sector, i + 1).address
    ensures i * blockLen + blockLen == (i + 1) * blockLen
  {
    CutSum((sector + i) * blockLen, blockLen);
    OneMore(sector + i, blockLen);
    OneMore(i, blockLen);
  }

  lemma OneMore(i: nat, b: nat)
    ensures i * b + b == (i + 1) * b
  {
  }

  datatype Cmd = READ | WRITE | Other

  class Disk {
    var blockLen: Word          // hd_hardsectsizes[0]
    var nrSects: Word           // hd[0].nr_sects
    var media: bool             // mmc_media_detect
    ghost var card: Geometry    // of the card that was configured last

    ghost predicate Configured()
      reads this
    {
      InFields(card) && blockLen == BlockLen(card) && nrSects == Sectors(card)
    }

    constructor ()
      ensures blockLen == 0 && nrSects == 0 && !media
    {
      blockLen, nrSects, media := 0, 0, false;
    }

    // The end of mmc_card_config, on a register that was read without error, and what mmc_init
    // keeps of it.
    method CardConfig(csd: Csd) returns (size: Word)
      modifies this
      ensures card == Parse(csd) && Configured() && media == old(media)
      ensures size == Capacity(card) / 0x400 <==> Capacity(card) < 0x1_0000_0000
    {
      var g := ReadFields(csd);
      size := Configure(g);
    }

    method Configure(g: Geometry) returns (size: Word)
      requires InFields(g)
      modifies this
      ensures card == g && Configured() && media == old(media)
      ensures size == Capacity(card) / 0x400 <==> Capacity(card) < 0x1_0000_0000
    {
      card := g;
      size := Sizes(g.cSize, g.cSizeMult, g.readBlLen);
    }

    // The shifts and products.
    method Sizes(cSize: nat, cSizeMult: nat, readBlLen: nat) returns (size: Word)
      requires cSize < 0x1000 && cSizeMult < 8 && readBlLen < 0x10
      modifies this
      ensures var s := Up(Up(cSize + 1, cSizeMult + 2), readBlLen);
              && blockLen == Up(1, readBlLen) && nrSects == 2 * (Cut(s) / 0x400) && (media, card) == old((media, card))
              && (size == s / 0x400 <==> s < 0x1_0000_0000)
    {
      UpBounds(cSize + 1, cSizeMult + 2, readBlLen);
      UpIsProduct(cSize + 1, cSizeMult + 2);
      var mult := Cut(Up(1, cSizeMult + 2));
      var blocknr := Cut((cSize + 1) * mult);
      blockLen := Cut(Up(1, readBlLen));
      UpIsProduct(blocknr, readBlLen);
      size := Cut(blockLen * blocknr) / 0x400;
      nrSects := size * 2;
    }

    // mmc_request, for one request; fails says which block transfers fail.
    method Request(sector: Word, nr: Word, start: Word, cmd: Cmd, fails: nat -> bool)
      returns (code: int, moves: seq<Move>)
      ensures cmd == Other || !media || Cut(sector + nr + start) > nrSects ==> code == 0 && moves == []
      ensures cmd != Other && media && Cut(sector + nr + start) <= nrSects ==>
                Done(blockLen, sector + start, Rounds(nr), fails, code, moves)
      ensures Configured() && code == 1 && 0 < Rounds(nr) ==>
                (MovesRight(card, sector + start, moves)
                 <==> sector + nr + start < 0x1_0000_0000 && (blockLen == 512 || (sector + start == 0 && nr == 1)))
      ensures nr < 0x8000_0000 && code == 1 ==> |moves| == nr
      ensures nr < 0x8000_0000 && media && cmd != Other && Cut(sector + nr + start) <= nrSects && code == 0 ==>
                0 < |moves| <= nr
      ensures nr >= 0x8000_0000 ==> moves == []
      ensures forall i :: 0 <= i < |moves| ==> moves[i].offset == i * blockLen
    {
      if Cut(sector + nr + start) > nrSects || !media || cmd == Other {
        return 0, [];
      }
      code, moves := MoveBlocks(sector + start, Rounds(nr), fails);
      if Configured() && code == 1 && 0 < Rounds(nr) {
        RequestExact(card, sector, nr, start);
        MovesAreRight(card, sector + start, nr, moves);
      }
    }

    // The loop over the blocks.
    method MoveBlocks(s: nat, nr: nat, fails: nat -> bool) returns (code: int, moves: seq<Move>)
      ensures Done(blockLen, s, nr, fails, code, moves)
    {
      code, moves := 1, [];
      CutProduct(s, blockLen);
      var address: nat, buffer: nat := Cut(Cut(s) * blockLen), 0;
      var i := 0;
      while i < nr
        invariant 0 <= i <= nr && |moves| == i
        invariant Move(address, buffer) == BlockAt(blockLen, s, i)
        invariant forall j :: 0 <= j < i ==> !fails(j)
        invariant forall j :: 0 <= j < i ==> moves[j] == BlockAt(blockLen, s, j)
      {
        moves := moves + [Move(address, buffer)];
        if fails(i) {
          return 0, moves;
        }
        NextBlock(blockLen, s, i);
        address, buffer := Cut(address + blockLen), buffer + blockLen;
        i := i + 1;
      }
    }
  }

  // The count becomes signed; a negative one means no round.
  function Rounds(nr: Word): nat { if nr < 0x8000_0000 then nr else 0 }

  // The blocks in order up to the first failure, and success exactly if there is none.
  ghost predicate Done(blockLen: nat, s: nat, nr: nat, fails: nat -> bool, code: int, moves: seq<Move>) {
    && (code == 1 <==> forall i :: 0 <= i < nr ==> !fails(i))
    && (code == 1 ==> |moves| == nr)
    && (code != 1 ==> code == 0 && 0 < |moves| <= nr && fails(|moves| - 1))
    && (forall i :: 0 <= i < |moves| - 1 ==> !fails(i))
    && (forall i :: 0 <= i < |moves| ==> moves[i] == BlockAt(blockLen, s, i))
  }

  ghost predicate MovesRight(g: Geometry, s: nat, moves: seq<Move>) {
    forall i :: 0 <= i < |moves| ==> Right(g, moves[i], s, i)
  }

  lemma MovesAreRight(g: Geometry, s: nat, nr: nat, moves: seq<Move>)
    requires |moves| == nr && forall i :: 0 <= i < nr ==> moves[i] == BlockAt(BlockLen(g), s, i)
    ensures MovesRight(g, s, moves) <==> AllRight(g, s, nr)
  {
    if MovesRight(g, s, moves) {
      forall i | 0 <= i < nr ensures Right(g, BlockAt(BlockLen(g), s, i), s, i) { assert Right(g, moves[i], s, i); }
    }
  }

  // The shifts and masks of the source.
  method ReadFields(csd: Csd) returns (g: Geometry)
    ensures g == Parse(csd) && InFields(g)
  {
    CSizeByBytes(csd);
    CSizeMultByBytes(csd);
    ReadBlLenByBytes(csd);
    ParsedInFields(csd);
    g := Geometry((At(csd, 8) + At(csd, 7) * 0x100 + At(csd, 6) % 4 * 0x1_0000) / 0x40,
                  (At(csd, 10) + At(csd, 9) % 4 * 0x100) / 0x80,
                  At(csd, 5) % 0x10);
  }
}
