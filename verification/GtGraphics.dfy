// Rectangle copies in graphics memory (dvb/drivers/media/dvb/avia/avia_gt_gv.c): the row loop of
// avia_gt_gv_copyarea over the copy engine, and exactly when it is a faithful rectangle move.

module GtGraphics {
  import opened Integers
  import opened GtAccel

  // ---------- Rectangles in strided memory ----------

  // Start of row r: base + r * stride, counted up row by row.
  function RowStart(base: nat, stride: nat, r: nat): nat
    decreases r
  {
    if r == 0 then base else RowStart(base, stride, r - 1) + stride
  }

  lemma {:induction false} RowStartProduct(base: nat, stride: nat, r: nat)
    ensures RowStart(base, stride, r) == base + r * stride
    decreases r
  {
    if r > 0 {
      RowStartProduct(base, stride, r - 1);
      assert r * stride == (r - 1) * stride + stride;
    }
  }

  // Address of the byte in row r, column c of a rectangle that starts at base.
  function At(base: nat, stride: nat, r: nat, c: nat): nat { RowStart(base, stride, r) + c }

  ghost predicate FitsIn(base: nat, stride: nat, w: nat, h: nat, size: nat) {
    forall r :: 0 <= r < h ==> At(base, stride, r, w) <= size
  }

  // Address a lies in one of the first h rows.
  ghost predicate InRect(a: nat, base: nat, stride: nat, w: nat, h: nat) {
    exists r :: 0 <= r < h && At(base, stride, r, 0) <= a < At(base, stride, r, w)
  }

  // No row of one rectangle has a byte in common with a row of the other.
  ghost predicate Disjoint(s: nat, d: nat, stride: nat, w: nat, h: nat) {
    forall r, r' {:trigger RowsApart(At(s, stride, r, 0), At(d, stride, r', 0), w)} ::
      0 <= r < h && 0 <= r' < h ==> RowsApart(At(s, stride, r, 0), At(d, stride, r', 0), w)
  }

  predicate RowsApart(s1: nat, d1: nat, w: nat) { s1 + w <= d1 || d1 + w <= s1 }

  // m' is m with the rectangle at s moved to d: every destination byte is the original source
  // byte, and every other byte is unchanged.
  ghost predicate Moved(m: seq<Byte>, m': seq<Byte>, s: nat, d: nat, stride: nat, w: nat, h: nat) {
    |m'| == |m| && RowsMatch(m, m', s, d, stride, w, h) && OutsideKept(m, m', d, stride, w, h)
  }

  ghost predicate RowsMatch(m: seq<Byte>, m': seq<Byte>, s: nat, d: nat, stride: nat, w: nat, h: nat) {
    forall r :: 0 <= r < h ==> RowMatches(m, m', At(s, stride, r, 0), At(d, stride, r, 0), w)
  }

  ghost predicate OutsideKept(m: seq<Byte>, m': seq<Byte>, d: nat, stride: nat, w: nat, h: nat)
    requires |m| == |m'|
  {
    forall a :: 0 <= a < |m| && !InRect(a, d, stride, w, h) ==> m'[a] == m[a]
  }

  ghost predicate RowMatches(m: seq<Byte>, m': seq<Byte>, s1: nat, d1: nat, w: nat) {
    && s1 + w <= |m| && d1 + w <= |m'|
    && forall a :: d1 <= a < d1 + w ==> m'[a] == m[s1 + (a - d1)]
  }

  // Rows follow one another in memory when they fit the stride.
  lemma {:induction false} RowOrder(base: nat, stride: nat, r: nat, r': nat)
    requires r < r'
    ensures At(base, stride, r, stride) <= At(base, stride, r', 0)
    decreases r'
  {
    if r < r' - 1 { RowOrder(base, stride, r, r' - 1); }
  }

  lemma {:induction false} RowShift(s: nat, d: nat, stride: nat, r: nat)
    ensures RowStart(d, stride, r) - RowStart(s, stride, r) == d - s
    decreases r
  {
    if r > 0 { RowShift(s, d, stride, r - 1); }
  }

  // What the row loop leaves in memory after h rows.
  ghost function CopyRows(m: seq<Byte>, s: nat, d: nat, stride: nat, w: nat, h: nat): (r: seq<Byte>)
    requires FitsIn(s, stride, w, h, |m|) && FitsIn(d, stride, w, h, |m|)
    ensures |r| == |m|
    decreases h
  {
    if h == 0 then m
    else
      assert At(s, stride, h - 1, w) <= |m| && At(d, stride, h - 1, w) <= |m|;
      CopyBytes(CopyRows(m, s, d, stride, w, h - 1), At(s, stride, h - 1, 0), At(d, stride, h - 1, 0), w)
  }

  // ---------- If the destination does not start above the source, or does not overlap it ----------

  // A forward copy of one row.
  lemma {:induction false} RowMoved(m: seq<Byte>, s: nat, d: nat, n: nat) returns (r: seq<Byte>)
    requires s + n <= |m| && d + n <= |m|
    requires d <= s || s + n <= d
    ensures r == CopyBytes(m, s, d, n) && |r| == |m|
    ensures forall a :: d <= a < d + n ==> r[a] == m[s + (a - d)]
    ensures forall a :: 0 <= a < |m| && !(d <= a < d + n) ==> r[a] == m[a]
    decreases n
  {
    r := m;
    if n > 0 {
      var m1 := m[d := m[s]];
      r := RowMoved(m1, s + 1, d + 1, n - 1);
    }
  }

  // Rows of a destination that is not above the source, or is apart from it, leave later source rows alone.
  lemma LaterRowApart(s: nat, d: nat, stride: nat, w: nat, h: nat, r: nat, k: nat)
    requires w <= stride && r < k < h
    requires d <= s || Disjoint(s, d, stride, w, h)
    ensures RowsApart(At(s, stride, k, 0), At(d, stride, r, 0), w)
  {
    if d <= s {
      RowShift(s, d, stride, r);
      RowOrder(s, stride, r, k);
    }
  }

  lemma {:induction false} RowsMoved(m: seq<Byte>, s: nat, d: nat, stride: nat, w: nat, h: nat, k: nat)
    requires w <= stride && k <= h
    requires FitsIn(s, stride, w, h, |m|) && FitsIn(d, stride, w, h, |m|)
    requires d <= s || Disjoint(s, d, stride, w, h)
    ensures Moved(m, CopyRows(m, s, d, stride, w, k), s, d, stride, w, k)
    decreases k
  {
    if k > 0 {
      RowsMoved(m, s, d, stride, w, h, k - 1);
      AddRow(m, CopyRows(m, s, d, stride, w, k - 1), s, d, stride, w, h, k);
    }
  }

  // One more row.
  lemma AddRow(m: seq<Byte>, m1: seq<Byte>, s: nat, d: nat, stride: nat, w: nat, h: nat, k: nat)
    requires w <= stride && 0 < k <= h
    requires d <= s || Disjoint(s, d, stride, w, h)
    requires Moved(m, m1, s, d, stride, w, k - 1)
    requires At(s, stride, k - 1, w) <= |m1| && At(d, stride, k - 1, w) <= |m1|
    ensures Moved(m, CopyBytes(m1, At(s, stride, k - 1, 0), At(d, stride, k - 1, 0), w), s, d, stride, w, k)
  {
    var s1, d1 := At(s, stride, k - 1, 0), At(d, stride, k - 1, 0);
    SameRow(s, d, stride, w, h, k);
    var m2 := RowMoved(m1, s1, d1, w);
    AddMovedRow(m, m1, m2, s, d, stride, w, h, k, s1, d1);
  }

  lemma AddMovedRow(m: seq<Byte>, m1: seq<Byte>, m2: seq<Byte>, s: nat, d: nat, stride: nat, w: nat, h: nat, k: nat,
                    s1: nat, d1: nat)
    requires w <= stride && 0 < k <= h && |m| == |m1| == |m2|
    requires s1 == At(s, stride, k - 1, 0) && d1 == At(d, stride, k - 1, 0)
    requires d <= s || Disjoint(s, d, stride, w, h)
    requires Moved(m, m1, s, d, stride, w, k - 1)
    requires RowMatches(m1, m2, s1, d1, w)
    requires forall a :: 0 <= a < |m| && !(d1 <= a < d1 + w) ==> m2[a] == m1[a]
    ensures Moved(m, m2, s, d, stride, w, k)
  {
    NewRow(m, m1, m2, s, d, stride, w, h, k, s1, d1);
    OldRows(m, m1, m2, s, d, stride, w, k);
    OutsideRows(m, m1, m2, d, stride, w, k);
    LastRow(m, m2, s, d, stride, w, k);
  }

  // Within one row the same alternative holds.
  lemma SameRow(s: nat, d: nat, stride: nat, w: nat, h: nat, k: nat)
    requires 0 < k <= h
    requires d <= s || Disjoint(s, d, stride, w, h)
    ensures var s1, d1 := At(s, stride, k - 1, 0), At(d, stride, k - 1, 0);
            d1 <= s1 || s1 + w <= d1
  {
    RowShift(s, d, stride, k - 1);
    assert d <= s || RowsApart(At(s, stride, k - 1, 0), At(d, stride, k - 1, 0), w);
  }

  lemma NewRow(m: seq<Byte>, m1: seq<Byte>, m2: seq<Byte>, s: nat, d: nat, stride: nat, w: nat, h: nat, k: nat,
               s1: nat, d1: nat)
    requires w <= stride && 0 < k <= h && |m| == |m1| == |m2|
    requires s1 == At(s, stride, k - 1, 0) && d1 == At(d, stride, k - 1, 0)
    requires d <= s || Disjoint(s, d, stride, w, h)
    requires OutsideKept(m, m1, d, stride, w, k - 1)
    requires RowMatches(m1, m2, s1, d1, w)
    ensures RowMatches(m, m2, s1, d1, w)
  {
    forall a | d1 <= a < d1 + w ensures m2[a] == m[s1 + (a - d1)] {
      forall r | 0 <= r < k - 1 ensures !(At(d, stride, r, 0) <= s1 + (a - d1) < At(d, stride, r, w)) {
        LaterRowApart(s, d, stride, w, h, r, k - 1);
      }
    }
  }

  lemma OldRows(m: seq<Byte>, m1: seq<Byte>, m2: seq<Byte>, s: nat, d: nat, stride: nat, w: nat, k: nat)
    requires w <= stride && 0 < k && |m| == |m1| == |m2|
    requires RowsMatch(m, m1, s, d, stride, w, k - 1)
    requires forall a :: 0 <= a < |m| && !(At(d, stride, k - 1, 0) <= a < At(d, stride, k - 1, w)) ==> m2[a] == m1[a]
    ensures RowsMatch(m, m2, s, d, stride, w, k - 1)
  {
    forall r | 0 <= r < k - 1 ensures RowMatches(m, m2, At(s, stride, r, 0), At(d, stride, r, 0), w) {
      RowOrder(d, stride, r, k - 1);
      assert RowMatches(m, m1, At(s, stride, r, 0), At(d, stride, r, 0), w);
    }
  }

  lemma OutsideRows(m: seq<Byte>, m1: seq<Byte>, m2: seq<Byte>, d: nat, stride: nat, w: nat, k: nat)
    requires 0 < k && |m| == |m1| == |m2|
    requires OutsideKept(m, m1, d, stride, w, k - 1)
    requires forall a :: 0 <= a < |m| && !(At(d, stride, k - 1, 0) <= a < At(d, stride, k - 1, w)) ==> m2[a] == m1[a]
    ensures OutsideKept(m, m2, d, stride, w, k)
  {
  }

  lemma LastRow(m: seq<Byte>, m2: seq<Byte>, s: nat, d: nat, stride: nat, w: nat, k: nat)
    requires 0 < k && RowsMatch(m, m2, s, d, stride, w, k - 1)
    requires RowMatches(m, m2, At(s, stride, k - 1, 0), At(d, stride, k - 1, 0), w)
    ensures RowsMatch(m, m2, s, d, stride, w, k)
  {
  }

  // ---------- Otherwise some picture is damaged ----------

  ghost predicate OnlyAt(m: seq<Byte>, a: nat) {
    forall x :: 0 <= x < |m| && x != a ==> m[x] == 0
  }

  // Copying bytes that do not include a cannot spread what is stored at a.
  lemma {:induction false} OnlyAtKept(m: seq<Byte>, s: nat, d: nat, n: nat, a: nat)
    requires s + n <= |m| && d + n <= |m|
    requires OnlyAt(m, a) && !(s <= a < s + n)
    ensures OnlyAt(CopyBytes(m, s, d, n), a)
    decreases n
  {
    if n > 0 { OnlyAtKept(m[d := m[s]], s + 1, d + 1, n - 1, a); }
  }

  lemma {:induction false} RowsBeforeKeep(m: seq<Byte>, s: nat, d: nat, stride: nat, w: nat, h: nat, k: nat,
                                          r1: nat, c1: nat)
    requires w <= stride && k <= r1 < h && c1 < w
    requires FitsIn(s, stride, w, h, |m|) && FitsIn(d, stride, w, h, |m|)
    requires OnlyAt(m, At(s, stride, r1, c1))
    ensures OnlyAt(CopyRows(m, s, d, stride, w, k), At(s, stride, r1, c1))
    decreases k
  {
    if k > 0 {
      RowsBeforeKeep(m, s, d, stride, w, h, k - 1, r1, c1);
      RowOrder(s, stride, k - 1, r1);
      assert At(s, stride, k - 1, w) <= |m| && At(d, stride, k - 1, w) <= |m|;
      var m1 := CopyRows(m, s, d, stride, w, k - 1);
      OnlyAtKept(m1, At(s, stride, k - 1, 0), At(d, stride, k - 1, 0), w, At(s, stride, r1, c1));
    }
  }

  // The row that overwrites the marked byte before it has been read erases the mark.
  lemma RowErases(m: seq<Byte>, s: nat, d: nat, n: nat, c2: nat)
    requires s + n <= |m| && d + n <= |m| && c2 < n && s < d
    requires OnlyAt(m, d + c2) && !(s <= d + c2 <= s + c2)
    ensures OnlyAt(CopyBytes(m, s, d, n), |m|)
  {
    var a := d + c2;
    CopySplit(m, s, d, c2, n - c2);
    var m1 := CopyBytes(m, s, d, c2);
    OnlyAtKept(m, s, d, c2, a);
    var m2 := m1[a := m1[s + c2]];
    assert OnlyAt(m2, |m|);
    OnlyAtKept(m2, s + c2 + 1, a + 1, n - c2 - 1, |m|);
  }

  lemma {:induction false} RowsAfterKeep(m: seq<Byte>, s: nat, d: nat, stride: nat, w: nat, h: nat, k0: nat, k: nat)
    requires k0 <= k <= h
    requires FitsIn(s, stride, w, h, |m|) && FitsIn(d, stride, w, h, |m|)
    requires OnlyAt(CopyRows(m, s, d, stride, w, k0), |m|)
    ensures OnlyAt(CopyRows(m, s, d, stride, w, k), |m|)
    decreases k
  {
    if k > k0 {
      RowsAfterKeep(m, s, d, stride, w, h, k0, k - 1);
      assert At(s, stride, k - 1, w) <= |m| && At(d, stride, k - 1, w) <= |m|;
      OnlyAtKept(CopyRows(m, s, d, stride, w, k - 1), At(s, stride, k - 1, 0), At(d, stride, k - 1, 0), w, |m|);
    }
  }

  // A destination above the source that overlaps it: a picture that is not moved faithfully.
  lemma OverlapDamages(size: nat, s: nat, d: nat, stride: nat, w: nat, h: nat) returns (m: seq<Byte>)
    requires w <= stride && s < d && !Disjoint(s, d, stride, w, h)
    requires FitsIn(s, stride, w, h, size) && FitsIn(d, stride, w, h, size)
    ensures |m| == size && !Moved(m, CopyRows(m, s, d, stride, w, h), s, d, stride, w, h)
  {
    var r1, r2 :| 0 <= r1 < h && 0 <= r2 < h && !RowsApart(At(s, stride, r1, 0), At(d, stride, r2, 0), w);
    var a := if At(s, stride, r1, 0) < At(d, stride, r2, 0) then At(d, stride, r2, 0) else At(s, stride, r1, 0);
    var c1, c2 := a - At(s, stride, r1, 0), a - At(d, stride, r2, 0);
    assert At(s, stride, r1, w) <= size;
    assert r2 <= r1 by {
      RowShift(s, d, stride, r2);
      if r1 < r2 { RowOrder(s, stride, r1, r2); }
    }
    RowShift(s, d, stride, r2);
    m := seq(size, i => if i == a then 1 else 0);
    RowsBeforeKeep(m, s, d, stride, w, h, r2, r1, c1);
    var m1 := CopyRows(m, s, d, stride, w, r2);
    assert At(s, stride, r2, w) <= |m| && At(d, stride, r2, w) <= |m|;
    var s2, d2 := At(s, stride, r2, 0), At(d, stride, r2, 0);
    if r2 < r1 { RowOrder(s, stride, r2, r1); }
    RowErases(m1, s2, d2, w, c2);
    assert OnlyAt(CopyRows(m, s, d, stride, w, r2 + 1), |m|);
    RowsAfterKeep(m, s, d, stride, w, h, r2 + 1, h);
    assert At(d, stride, r1, w) <= size;
    assert CopyRows(m, s, d, stride, w, h)[At(d, stride, r1, c1)] != m[At(s, stride, r1, 0) + c1];
    assert !RowMatches(m, CopyRows(m, s, d, stride, w, h), At(s, stride, r1, 0), At(d, stride, r1, 0), w);
  }

  // The row loop moves every picture faithfully if and only if the destination does not start
  // above the source, or the rectangles have no byte in common.
  lemma CopyRowsExact(size: nat, s: nat, d: nat, stride: nat, w: nat, h: nat)
    requires w <= stride
    requires FitsIn(s, stride, w, h, size) && FitsIn(d, stride, w, h, size)
    ensures (forall m: seq<Byte> | |m| == size :: Moved(m, CopyRows(m, s, d, stride, w, h), s, d, stride, w, h))
       <==> d <= s || Disjoint(s, d, stride, w, h)
  {
    if d <= s || Disjoint(s, d, stride, w, h) {
      forall m: seq<Byte> | |m| == size
        ensures Moved(m, CopyRows(m, s, d, stride, w, h), s, d, stride, w, h)
      {
        RowsMoved(m, s, d, stride, w, h, h);
      }
    } else {
      var m := OverlapDamages(size, s, d, stride, w, h);
    }
  }

  // ---------- The driver ----------

  const MODE_RGB4 := 1
  const MODE_RGB8 := 2
  const MODE_RGB16 := 3
  const MODE_RGB32 := 4
  const MEM_GV_OFFS := 0

  // avia_gt_get_bpp: bytes per pixel.
  function Bpp(mode: Byte): (b: Halfword) {
    if mode == MODE_RGB4 || mode == MODE_RGB8 then 1
    else if mode == MODE_RGB32 then 4
    else 2
  }

  // avia_gt_gv_set_stride followed by avia_gt_gv_get_stride: the STRIDE field has 14 bits and counts
  // words on the eNX; it has 10 bits and counts halfwords on the GTX.
  function StrideField(chip: Chipset, width: Halfword, mode: Byte): nat {
    if chip.ENX? then (width * Bpp(mode) + 3) / 4 % 0x4000
    else (width * Bpp(mode) + 1) / 2 % 0x400
  }

  function Stride(chip: Chipset, field: nat): (s: Halfword) {
    (if chip.ENX? then field * 4 else field * 2) % 0x1_0000
  }

  const WIDTHS: set<int> := {720, 640, 360, 320}
  const HEIGHTS: set<int> := {576, 480, 288, 240}

  // For the widths that avia_gt_gv_set_input_size accepts, a line fits the programmed stride
  // except for 32-bit pixels at 640 or 720 columns on the GTX, where the field overflows.
  predicate WideEnough(chip: Chipset, width: Halfword, mode: Byte) {
    !(chip.GTX? && mode == MODE_RGB32 && width >= 640)
  }

  lemma LineFitsStride(chip: Chipset, width: Halfword, mode: Byte)
    requires width in WIDTHS
    ensures width * Bpp(mode) <= Stride(chip, StrideField(chip, width, mode)) <==> WideEnough(chip, width, mode)
  {
    assert width * Bpp(mode) == (if Bpp(mode) == 1 then width else if Bpp(mode) == 2 then 2 * width else 4 * width);
    BytesFitStride(chip, width * Bpp(mode));
  }

  lemma BytesFitStride(chip: Chipset, n: nat)
    requires n <= 2880
    ensures chip.ENX? ==> n <= Stride(chip, (n + 3) / 4 % 0x4000)
    ensures chip.GTX? ==> (n <= Stride(chip, (n + 1) / 2 % 0x400) <==> n <= 2046)
  {
  }

  // The stride of an accepted width is the length of its line in bytes, written out for the four
  // modes; where the field of the GTX overflows, it is 2048 less.
  lemma StrideIsLine(chip: Chipset, width: Halfword, mode: Byte)
    requires width in WIDTHS
    ensures var n := width * (if mode == 1 || mode == 2 then 1 else if mode == 4 then 4 else 2);
            Stride(chip, StrideField(chip, width, mode)) == if chip.GTX? && n >= 2560 then n - 2048 else n
  {
    var n := width * Bpp(mode);
    assert n == (if mode == 1 || mode == 2 then width else if mode == 4 then 4 * width else 2 * width);
    StrideOfBytes(chip, n);
  }

  lemma StrideOfBytes(chip: Chipset, n: nat)
    requires n <= 2880 && n % 4 == 0 && (n >= 2048 ==> n >= 2560)
    ensures chip.ENX? ==> Stride(chip, (n + 3) / 4 % 0x4000) == n
    ensures chip.GTX? ==> Stride(chip, (n + 1) / 2 % 0x400) == if n >= 2560 then n - 2048 else n
  {
    StrideOfQuads(chip, n / 4, (n + 3) / 4, (n + 1) / 2);
  }

  lemma StrideOfQuads(chip: Chipset, q: nat, words: nat, halves: nat)
    requires q <= 720 && (q >= 512 ==> q >= 640) && words == q && halves == 2 * q
    ensures chip.ENX? ==> Stride(chip, words % 0x4000) == 4 * q
    ensures chip.GTX? ==> Stride(chip, halves % 0x400) == if q >= 640 then 4 * q - 2048 else 4 * q
  {
  }

  // ---------- Pixels ----------

  // Byte k of the pixel in column x and row r of an area, before and after.
  ghost predicate PixelByte(m: seq<Byte>, m': seq<Byte>, srcX: nat, srcY: nat, dstX: nat, dstY: nat,
                            stride: nat, p: nat, r: nat, x: nat, k: nat)
  {
    var from := (srcY + r) * stride + (srcX + x) * p + k;
    var to := (dstY + r) * stride + (dstX + x) * p + k;
    from < |m| && to < |m'| && m'[to] == m[from]
  }

  ghost predicate InPixelRow(a: nat, dstX: nat, dstY: nat, width: nat, stride: nat, p: nat, r: nat) {
    (dstY + r) * stride + dstX * p <= a < (dstY + r) * stride + (dstX + width) * p
  }

  // Every byte of every pixel of the area is where its new place says, and nothing else has changed.
  ghost predicate PixelsMoved(m: seq<Byte>, m': seq<Byte>, srcX: nat, srcY: nat, width: nat, height: nat,
                              dstX: nat, dstY: nat, stride: nat, p: nat)
  {
    && |m'| == |m|
    && (forall r: nat, x: nat, k: nat :: r < height && x < width && k < p ==>
          PixelByte(m, m', srcX, srcY, dstX, dstY, stride, p, r, x, k))
    && (forall a: nat ::
          a < |m| && (forall r: nat :: r < height ==> !InPixelRow(a, dstX, dstY, width, stride, p, r)) ==>
            m'[a] == m[a])
  }

  // Pixels in rows, as bytes in rows.
  lemma PixelPlace(x0: nat, y0: nat, stride: nat, p: nat, r: nat, x: nat, k: nat)
    ensures (y0 + r) * stride + (x0 + x) * p + k == At(y0 * stride + x0 * p, stride, r, x * p + k)
  {
    RowStartProduct(y0 * stride + x0 * p, stride, r);
    Distributes(y0, r, stride);
    Distributes(x0, x, p);
  }

  lemma Distributes(a: nat, b: nat, c: nat)
    ensures (a + b) * c == a * c + b * c
  {
  }

  lemma InsideRow(x: nat, width: nat, p: nat, k: nat)
    requires x < width && k < p
    ensures x * p + k < width * p
  {
    Distributes(x, width - x, p);
    Distributes(1, width - x - 1, p);
  }

  lemma MovedPixels(m: seq<Byte>, m': seq<Byte>, srcX: nat, srcY: nat, width: nat, height: nat,
                    dstX: nat, dstY: nat, stride: nat, p: nat)
    requires Moved(m, m', srcY * stride + srcX * p, dstY * stride + dstX * p, stride, width * p, height)
    ensures PixelsMoved(m, m', srcX, srcY, width, height, dstX, dstY, stride, p)
  {
    var s, d, w := srcY * stride + srcX * p, dstY * stride + dstX * p, width * p;
    forall r: nat, x: nat, k: nat | r < height && x < width && k < p
      ensures PixelByte(m, m', srcX, srcY, dstX, dstY, stride, p, r, x, k)
    {
      MovedPixel(m, m', srcX, srcY, width, height, dstX, dstY, stride, p, r, x, k, s, d, w);
    }
    forall a: nat | a < |m| && forall r: nat :: r < height ==> !InPixelRow(a, dstX, dstY, width, stride, p, r)
      ensures m'[a] == m[a]
    {
      OutsidePixels(a, dstX, dstY, width, height, stride, p);
    }
  }

  lemma MovedPixel(m: seq<Byte>, m': seq<Byte>, srcX: nat, srcY: nat, width: nat, height: nat,
                   dstX: nat, dstY: nat, stride: nat, p: nat, r: nat, x: nat, k: nat, s: nat, d: nat, w: nat)
    requires s == srcY * stride + srcX * p && d == dstY * stride + dstX * p && w == width * p
    requires RowsMatch(m, m', s, d, stride, w, height)
    requires r < height && x < width && k < p
    ensures PixelByte(m, m', srcX, srcY, dstX, dstY, stride, p, r, x, k)
  {
    var c := ByteInRow(x, width, p, k, w);
    var from := PixelAddress(srcX, srcY, stride, p, r, x, k, s, c);
    var to := PixelAddress(dstX, dstY, stride, p, r, x, k, d, c);
    RowByte(m, m', s, d, stride, w, height, r, c);
  }

  lemma ByteInRow(x: nat, width: nat, p: nat, k: nat, w: nat) returns (c: nat)
    requires x < width && k < p && w == width * p
    ensures c == x * p + k && c < w
  {
    c := x * p + k;
    InsideRow(x, width, p, k);
  }

  lemma PixelAddress(x0: nat, y0: nat, stride: nat, p: nat, r: nat, x: nat, k: nat, s: nat, c: nat) returns (a: nat)
    requires s == y0 * stride + x0 * p && c == x * p + k
    ensures a == (y0 + r) * stride + (x0 + x) * p + k == At(s, stride, r, c)
  {
    a := At(s, stride, r, c);
    PixelPlace(x0, y0, stride, p, r, x, k);
  }

  lemma RowByte(m: seq<Byte>, m': seq<Byte>, s: nat, d: nat, stride: nat, w: nat, h: nat, r: nat, c: nat)
    requires RowsMatch(m, m', s, d, stride, w, h) && r < h && c < w
    ensures At(s, stride, r, c) < |m| && At(d, stride, r, c) < |m'| && m'[At(d, stride, r, c)] == m[At(s, stride, r, c)]
  {
    assert RowMatches(m, m', At(s, stride, r, 0), At(d, stride, r, 0), w);
  }

  lemma OutsidePixels(a: nat, dstX: nat, dstY: nat, width: nat, height: nat, stride: nat, p: nat)
    requires forall r: nat :: r < height ==> !InPixelRow(a, dstX, dstY, width, stride, p, r)
    ensures !InRect(a, dstY * stride + dstX * p, stride, width * p, height)
  {
    var d := dstY * stride + dstX * p;
    forall r: nat | r < height ensures !(At(d, stride, r, 0) <= a < At(d, stride, r, width * p)) {
      assert !InPixelRow(a, dstX, dstY, width, stride, p, r);
      PixelPlace(dstX, dstY, stride, p, r, 0, 0);
      PixelPlace(dstX, dstY, stride, p, r, width, 0);
    }
  }

  lemma PartOfLine(width: Halfword, line: Halfword, mode: Byte)
    requires width <= line
    ensures width * Bpp(mode) <= line * Bpp(mode)
  {
  }

  class Gv {
    var inputMode: Byte
    var inputWidth: Halfword
    var strideField: nat
    const gt: Gt

    constructor (gt: Gt)
      ensures this.gt == gt && inputMode == MODE_RGB16 && inputWidth == 720 && strideField == 0
    {
      this.gt, inputMode, inputWidth, strideField := gt, MODE_RGB16, 720, 0;
    }

    // The stride register holds the value for the current width and mode.
    ghost predicate Programmed()
      reads this
    {
      inputWidth in WIDTHS && strideField == StrideField(gt.chip, inputWidth, inputMode)
    }

    // A whole line of pixels fits between two line starts.
    ghost predicate LineFits()
      reads this
    {
      inputWidth * Bpp(inputMode) <= LineStride()
    }

    // avia_gt_gv_set_input_mode: every mode keeps the stride right for the width that was accepted.
    method SetInputMode(mode: Byte)
      modifies this
      ensures inputMode == mode && inputWidth == old(inputWidth)
      ensures inputWidth in WIDTHS ==> Programmed() && (LineFits() <==> WideEnough(gt.chip, inputWidth, mode))
      ensures strideField == StrideField(gt.chip, inputWidth, mode)
      ensures inputWidth in WIDTHS ==>
                var n := inputWidth * (if mode == 1 || mode == 2 then 1 else if mode == 4 then 4 else 2);
                LineStride() == if gt.chip.GTX? && n >= 2560 then n - 2048 else n
    {
      inputMode := mode;
      strideField := StrideField(gt.chip, inputWidth, inputMode);
      if inputWidth in WIDTHS {
        LineFitsStride(gt.chip, inputWidth, mode);
        StrideIsLine(gt.chip, inputWidth, mode);
      }
    }

    // avia_gt_gv_set_input_size, without the scaling bits.
    method SetInputSize(width: Halfword, height: Halfword) returns (ok: bool)
      modifies this
      ensures ok <==> width in WIDTHS && height in HEIGHTS
      ensures !ok ==> (inputWidth, strideField) == old((inputWidth, strideField))
      ensures ok ==> inputWidth == width && Programmed() && (LineFits() <==> WideEnough(gt.chip, width, inputMode))
      ensures inputMode == old(inputMode)
      ensures ok ==>
                var n := width * (if inputMode == 1 || inputMode == 2 then 1 else if inputMode == 4 then 4 else 2);
                LineStride() == if gt.chip.GTX? && n >= 2560 then n - 2048 else n
    {
      if width != 720 && width != 640 && width != 360 && width != 320 { return false; }
      if height != 576 && height != 480 && height != 288 && height != 240 { return false; }
      inputWidth := width;
      strideField := StrideField(gt.chip, inputWidth, inputMode);
      LineFitsStride(gt.chip, inputWidth, inputMode);
      StrideIsLine(gt.chip, inputWidth, inputMode);
      ok := true;
    }

    // avia_gt_gv_copyarea
    method CopyArea(srcX: Halfword, srcY: Halfword, width: Halfword, height: Halfword, dstX: Halfword, dstY: Halfword)
      requires gt.Valid()
      requires FitsIn(Corner(srcX, srcY), LineStride(), width * Bpp(inputMode), height, |gt.mem|)
      requires FitsIn(Corner(dstX, dstY), LineStride(), width * Bpp(inputMode), height, |gt.mem|)
      modifies gt
      ensures var s, d, w := Corner(srcX, srcY), Corner(dstX, dstY), width * Bpp(inputMode);
              && |gt.mem| == |old(gt.mem)|
              && gt.mem == CopyRows(old(gt.mem), s, d, LineStride(), w, height)
              && (w <= LineStride() && (d <= s || Disjoint(s, d, LineStride(), w, height)) ==>
                    Moved(old(gt.mem), gt.mem, s, d, LineStride(), w, height))
      ensures var s, d, w := Corner(srcX, srcY), Corner(dstX, dstY), width * Bpp(inputMode);
              Programmed() && WideEnough(gt.chip, inputWidth, inputMode) && width <= inputWidth
              && (d <= s || Disjoint(s, d, LineStride(), w, height)) ==>
                Moved(old(gt.mem), gt.mem, s, d, LineStride(), w, height)
      ensures var stride := LineStride();
              var p := if inputMode == 1 || inputMode == 2 then 1 else if inputMode == 4 then 4 else 2;
              var s, d := srcY * stride + srcX * p, dstY * stride + dstX * p;
              width * p <= stride && (d <= s || Disjoint(s, d, stride, width * p, height)) ==>
                PixelsMoved(old(gt.mem), gt.mem, srcX, srcY, width, height, dstX, dstY, stride, p)
    {
      if Programmed() && width <= inputWidth {
        LineFitsStride(gt.chip, inputWidth, inputMode);
        PartOfLine(width, inputWidth, inputMode);
      }
      var w := width * Bpp(inputMode);
      ghost var s, d, stride := Corner(srcX, srcY), Corner(dstX, dstY), LineStride();
      var line := 0;
      while line < height
        invariant 0 <= line <= height && gt.Valid()
        invariant |gt.mem| == |old(gt.mem)|
        invariant gt.mem == CopyRows(old(gt.mem), s, d, stride, w, line)
      {
        CopyLine(srcX, srcY, dstX, dstY, w, line, height, s, d, stride, old(gt.mem));
        line := line + 1;
      }
      if w <= stride && (d <= s || Disjoint(s, d, stride, w, height)) {
        RowsMoved(old(gt.mem), s, d, stride, w, height, height);
        MovedPixels(old(gt.mem), gt.mem, srcX, srcY, width, height, dstX, dstY, stride, Bpp(inputMode));
      }
    }

    // One round of the row loop.
    method CopyLine(srcX: Halfword, srcY: Halfword, dstX: Halfword, dstY: Halfword, w: nat, line: nat,
                    ghost height: nat, ghost s: nat, ghost d: nat, ghost stride: nat, ghost m: seq<Byte>)
      requires gt.Valid() && line < height && |gt.mem| == |m|
      requires s == Corner(srcX, srcY) && d == Corner(dstX, dstY) && stride == LineStride()
      requires FitsIn(s, stride, w, height, |m|) && FitsIn(d, stride, w, height, |m|)
      requires gt.mem == CopyRows(m, s, d, stride, w, line)
      modifies gt
      ensures gt.Valid() && |gt.mem| == |m| && gt.mem == CopyRows(m, s, d, stride, w, line + 1)
    {
      CornerBelow(srcX, srcY, line);
      CornerBelow(dstX, dstY, line);
      assert At(s, stride, line, w) <= |m| && At(d, stride, line, w) <= |m|;
      gt.Copy(Corner(srcX, srcY + line), Corner(dstX, dstY + line), w);
    }

    function LineStride(): (s: Halfword)
      reads this
    {
      Stride(gt.chip, strideField)
    }

    // Start address of a pixel.
    function Corner(x: Halfword, y: nat): nat
      reads this
    {
      MEM_GV_OFFS + y * LineStride() + x * Bpp(inputMode)
    }

    lemma CornerBelow(x: Halfword, y: nat, line: nat)
      ensures Corner(x, y + line) == At(Corner(x, y), LineStride(), line, 0)
    {
      var stride := LineStride();
      RowStartProduct(Corner(x, y), stride, line);
      assert (y + line) * stride == y * stride + line * stride;
    }
  }
}
