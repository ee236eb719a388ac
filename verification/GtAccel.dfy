// The copy and CRC engines of the AViA eNX/GTX and the driver loops that cut long requests
// into commands (dvb/drivers/media/dvb/avia/avia_gt_accel.c).

module GtAccel {
  import opened Integers

  datatype Chipset = ENX | GTX

  const MAX_ADDRESS := 0x40_0000  // the address registers hold 22 bits

  // ---------- What the engines do, byte by byte ----------

  // Forward copy of n bytes: each byte is read and written before the next one is read.
  ghost function CopyBytes(m: seq<Byte>, s: nat, d: nat, n: nat): (r: seq<Byte>)
    requires s + n <= |m| && d + n <= |m|
    ensures |r| == |m|
    decreases n
  {
    if n == 0 then m else CopyBytes(m[d := m[s]], s + 1, d + 1, n - 1)
  }

  // One transfer may be cut anywhere.
  lemma {:induction false} CopySplit(m: seq<Byte>, s: nat, d: nat, a: nat, b: nat)
    requires s + a + b <= |m| && d + a + b <= |m|
    ensures CopyBytes(m, s, d, a + b) == CopyBytes(CopyBytes(m, s, d, a), s + a, d + a, b)
    decreases a
  {
    if a > 0 { CopySplit(m[d := m[s]], s + 1, d + 1, a - 1, b); }
  }

  // The CRC register after feeding q; one byte changes it by an arbitrary function of the hardware.
  ghost function Feed(update: (Word, Byte) -> Word, crc: Word, q: seq<Byte>): Word
    decreases |q|
  {
    if |q| == 0 then crc else update(Feed(update, crc, q[..|q| - 1]), q[|q| - 1])
  }

  lemma {:induction false} FeedConcat(update: (Word, Byte) -> Word, crc: Word, p: seq<Byte>, q: seq<Byte>)
    ensures Feed(update, crc, p + q) == Feed(update, Feed(update, crc, p), q)
    decreases |q|
  {
    if |q| == 0 {
      assert p + q == p;
    } else {
      FeedConcat(update, crc, p, q[..|q| - 1]);
      assert (p + q)[..|p + q| - 1] == p + q[..|q| - 1];
    }
  }

  lemma FeedMore(update: (Word, Byte) -> Word, crc: Word, m: seq<Byte>, a: nat, b: nat, c: nat)
    requires a <= b <= c <= |m|
    ensures Feed(update, Feed(update, crc, m[a..b]), m[b..c]) == Feed(update, crc, m[a..c])
  {
    FeedConcat(update, crc, m[a..b], m[b..c]);
    assert m[a..b] + m[b..c] == m[a..c];
  }

  // ---------- What avia_gt_accel_crc32 returns ----------

  const ONES: Word := 0xFFFF_FFFF

  // seed ^ 0xFFFFFFFF
  function Invert(x: Word): Word { ONES - x }

  // The big-endian word that the GTX path loads into the CRC register when the seed is all ones.
  function WordAt(q: seq<Byte>): Word
    requires |q| >= 4
  {
    q[0] as int * 0x100_0000 + q[1] as int * 0x1_0000 + q[2] as int * 0x100 + q[3] as int
  }

  // The GTX path takes the first word of the range itself when the seed is all ones.
  predicate Preloads(chip: Chipset, seed: Word) { chip.GTX? && seed == ONES }

  ghost function CrcOf(update: (Word, Byte) -> Word, chip: Chipset, q: seq<Byte>, seed: Word): Word
    requires Preloads(chip, seed) ==> |q| >= 4
  {
    if Preloads(chip, seed) then Invert(Feed(update, WordAt(q), q[4..]))
    else Invert(Feed(update, Invert(seed), q))
  }

  // The register goes on from the complement of the first part's sum.
  lemma CrcGoesOn(update: (Word, Byte) -> Word, chip: Chipset, p: seq<Byte>, q: seq<Byte>, seed: Word)
    requires Preloads(chip, seed) ==> |p| >= 4
    ensures CrcOf(update, chip, p + q, seed) == Invert(Feed(update, Invert(CrcOf(update, chip, p, seed)), q))
  {
    if Preloads(chip, seed) {
      FeedConcat(update, WordAt(p), p[4..], q);
      assert (p + q)[4..] == p[4..] + q;
    } else {
      FeedConcat(update, Invert(seed), p, q);
    }
  }

  // A range may be summed in two calls, the second seeded with the result of the first.  If that
  // result is all ones, the GTX preloads the first word of q instead of feeding it to a register of
  // zero, and the sum is right exactly if both come to the same.
  lemma CrcChaining(update: (Word, Byte) -> Word, chip: Chipset, p: seq<Byte>, q: seq<Byte>, seed: Word)
    requires Preloads(chip, seed) ==> |p| >= 4
    requires Preloads(chip, CrcOf(update, chip, p, seed)) ==> |q| >= 4
    ensures var crc := CrcOf(update, chip, p, seed);
            CrcOf(update, chip, p + q, seed) == CrcOf(update, chip, q, crc)
            <==> (Preloads(chip, crc) ==>
                    Feed(update, WordAt(q), q[4..]) == Feed(update, Feed(update, 0, q[..4]), q[4..]))
  {
    CrcGoesOn(update, chip, p, q, seed);
    if Preloads(chip, CrcOf(update, chip, p, seed)) {
      FeedConcat(update, 0, q[..4], q[4..]);
      assert q[..4] + q[4..] == q;
    }
  }

  // Bytes the GTX command loop feeds: the range, except that an empty range at an even address
  // is padded to one halfword.
  function Padded(b: nat, n: nat): nat {
    if n == 0 && b % 2 == 0 then 2 else n
  }

  // Bytes that one call consumes.
  function Span(chip: Chipset, b: nat, n: nat, seed: Word): nat
    requires Preloads(chip, seed) ==> n >= 4
  {
    if Preloads(chip, seed) then 4 + Padded(b + 4, n - 4)
    else if chip.GTX? then Padded(b, n)
    else n
  }

  // The call sums exactly the requested range unless the command loop of the GTX starts empty
  // at an even address.
  lemma SpanExact(chip: Chipset, b: nat, n: nat, seed: Word)
    requires Preloads(chip, seed) ==> n >= 4
    ensures Span(chip, b, n, seed) == n
       <==> !(chip.GTX? && b % 2 == 0 && n == if seed == ONES then 4 else 0)
  {
  }

  // The sum of a call in numbers: register and result are complements of seed and sum; with an all-ones
  // seed the GTX takes the first four bytes, the highest first, as its register.
  lemma CrcIs(update: (Word, Byte) -> Word, chip: Chipset, m: seq<Byte>, b: nat, n: nat, seed: Word)
    requires (Preloads(chip, seed) ==> n >= 4) && b + Span(chip, b, n, seed) <= |m|
    ensures var r := CrcOf(update, chip, m[b..b + Span(chip, b, n, seed)], seed);
            && (chip.ENX? || (seed != 0xFFFF_FFFF && (n > 0 || b % 2 == 1)) ==>
                  r + Feed(update, 0xFFFF_FFFF - seed, m[b..b + n]) == 0xFFFF_FFFF)
            && (chip.GTX? && seed == 0xFFFF_FFFF && (n > 4 || b % 2 == 1) ==>
                  var w := ((m[b] as int * 256 + m[b + 1] as int) * 256 + m[b + 2] as int) * 256 + m[b + 3] as int;
                  r + Feed(update, w, m[b + 4..b + n]) == 0xFFFF_FFFF)
  {
    SpanExact(chip, b, n, seed);
    if Preloads(chip, seed) { PreloadIs(m, b, Span(chip, b, n, seed)); }
  }

  lemma PreloadIs(m: seq<Byte>, b: nat, n: nat)
    requires n >= 4 && b + n <= |m|
    ensures WordAt(m[b..b + n])
         == ((m[b] as int * 256 + m[b + 1] as int) * 256 + m[b + 2] as int) * 256 + m[b + 3] as int
    ensures m[b..b + n][4..] == m[b + 4..b + n]
  {
  }

  // ---------- The chip and the driver ----------

  class Gt {
    const chip: Chipset
    const update: (Word, Byte) -> Word
    var mem: seq<Byte>            // graphics memory
    var src: nat                  // CPCSRC1 / CCSA
    var dst: nat                  // CPCDST / CDA
    var crc: Word                 // CPCCRCSRC2 / RCRC
    const maxTransactionSize: nat

    constructor (chip: Chipset, mem: seq<Byte>, update: (Word, Byte) -> Word)
      requires |mem| <= MAX_ADDRESS
      ensures this.chip == chip && this.mem == mem && this.update == update && Valid()
    {
      this.chip, this.mem, this.update := chip, mem, update;
      src, dst, crc := 0, 0, 0;
      maxTransactionSize := if chip.ENX? then 64 else 16;
    }

    ghost predicate Valid()
      reads this
    {
      |mem| <= MAX_ADDRESS && maxTransactionSize == (if chip.ENX? then 64 else 16)
    }

    // A write of the copy command register.  LEN has 6 bits on the eNX and 4 on the GTX; the
    // engine moves LEN + 1 bytes and leaves both addresses behind the last byte.
    method CopyCommand(cmd: nat)
      requires chip.ENX? ==> cmd / 0x100 % 4 == 3 && cmd / 0x400 == 0
      requires chip.GTX? ==> cmd / 0x100 == 3
      requires var n := cmd % (if chip.ENX? then 64 else 16) + 1;
               src + n <= |mem| && dst + n <= |mem|
      modifies this
      ensures var n := cmd % (if chip.ENX? then 64 else 16) + 1;
              && src == old(src) + n && dst == old(dst) + n
              && mem == CopyBytes(old(mem), old(src), old(dst), n)
      ensures crc == old(crc) && |mem| == old(|mem|)
    {
      var n := cmd % (if chip.ENX? then 64 else 16) + 1;
      var i := 0;
      while i < n
        invariant i <= n && src == old(src) + i && dst == old(dst) + i && crc == old(crc) && |mem| == old(|mem|)
        invariant CopyBytes(mem, src, dst, n - i) == CopyBytes(old(mem), old(src), old(dst), n)
      {
        mem := mem[dst := mem[src]];
        src, dst := src + 1, dst + 1;
        i := i + 1;
      }
    }

    // avia_gt_accel_copy with decrement = 0.
    method Copy(bufferSrc: nat, bufferDst: nat, bufferSize: nat)
      requires Valid() && bufferSrc + bufferSize <= |mem| && bufferDst + bufferSize <= |mem|
      modifies this
      ensures mem == CopyBytes(old(mem), bufferSrc, bufferDst, bufferSize)
      ensures crc == old(crc) && Valid()
    {
      src, dst := bufferSrc, bufferDst;
      var size := bufferSize;
      while size > 0
        invariant 0 <= size <= bufferSize && Valid() && crc == old(crc) && |mem| == old(|mem|)
        invariant src == bufferSrc + (bufferSize - size) && dst == bufferDst + (bufferSize - size)
        invariant CopyBytes(mem, src, dst, size) == CopyBytes(old(mem), bufferSrc, bufferDst, bufferSize)
      {
        var n := CopyTransaction(bufferSrc, bufferDst, size);
        size := size - n;
      }
    }

    // One round of the loop; an odd buffer address shortens the long commands of the GTX.
    method CopyTransaction(bufferSrc: nat, bufferDst: nat, size: nat) returns (n: nat)
      requires Valid() && 0 < size && src + size <= |mem| && dst + size <= |mem|
      modifies this
      ensures Valid() && crc == old(crc) && |mem| == old(|mem|)
      ensures 0 < n <= size && src == old(src) + n && dst == old(dst) + n
      ensures CopyBytes(mem, src, dst, size - n) == CopyBytes(old(mem), old(src), old(dst), size)
    {
      n := if size > maxTransactionSize then maxTransactionSize else size;
      if chip.GTX? && (bufferSrc % 2 == 1 || bufferDst % 2 == 1) && n == maxTransactionSize {
        n := n - 2;
      }
      CopySplit(mem, src, dst, n, size - n);
      CopyCommand(3 * 0x100 + (n - 1));
    }

    // A CRC command of the eNX: LEN + 1 bytes from the source address on.
    method EnxCrcCommand(cmd: nat)
      requires cmd / 0x4000 == 1 && cmd / 0x40 % 0x100 == 0 && src + cmd % 64 + 1 <= |mem|
      modifies `src, `crc
      ensures src == old(src) + cmd % 64 + 1
      ensures crc == Feed(update, old(crc), mem[old(src)..src])
    {
      var end := src + cmd % 64 + 1;
      FeedRange(src, end);
      src := end;
    }

    // One command of the eNX loop.
    method EnxTransaction(t: nat)
      requires 0 < t <= 64 && src + t <= |mem|
      modifies `src, `crc
      ensures src == old(src) + t && crc == Feed(update, old(crc), mem[old(src)..src])
    {
      EnxCrcCommand(0x4000 + (t - 1));
    }

    // A CRC command of the GTX, layout CRCC: LEN + 1 halfwords from halfword Addr on, without
    // the first byte if F is set and without the last byte unless L is set.
    method GtxCrcCommand(cmd: nat)
      requires CrccFrom(cmd) <= CrccTo(cmd) <= |mem|
      modifies `crc
      ensures crc == Feed(update, old(crc), mem[CrccFrom(cmd)..CrccTo(cmd)])
    {
      FeedRange(CrccFrom(cmd), CrccTo(cmd));
    }

    // One command of the GTX loop: t bytes from the halfword of b on, the last one only if l is set.
    method GtxTransaction(t: nat, l: nat, b: nat)
      requires 0 < t <= 16 && l <= 1 && b < MAX_ADDRESS
      requires b <= CommandEnd(t, l, b) <= |mem|
      modifies `crc
      ensures crc == Feed(update, old(crc), mem[b..CommandEnd(t, l, b)])
    {
      var cmd := CrccWord(t, l, b);
      GtxCrcCommand(cmd);
    }

    // The command word of the GTX loop.
    method CrccWord(t: nat, l: nat, b: nat) returns (cmd: nat)
      requires 0 < t <= 16 && l <= 1 && b < MAX_ADDRESS
      ensures CrccFrom(cmd) == b && CrccTo(cmd) == CommandEnd(t, l, b)
    {
      var len := t / 2 + t % 2 - 1;
      CrccDecoded(len, l, b);
      cmd := Crcc(len, l, b);
    }

    method FeedRange(from: nat, to: nat)
      requires from <= to <= |mem|
      modifies `crc
      ensures crc == Feed(update, old(crc), mem[from..to])
    {
      var i := from;
      while i < to
        invariant from <= i <= to
        invariant crc == Feed(update, old(crc), mem[from..i])
      {
        assert mem[from..i + 1][..i - from] == mem[from..i];
        crc := update(crc, mem[i]);
        i := i + 1;
      }
    }

    // avia_gt_accel_crc32.
    method Crc32(buffer: nat, bufferSize: nat, seed: Word) returns (r: Word)
      requires Valid() && (Preloads(chip, seed) ==> bufferSize >= 4)
      requires buffer + Span(chip, buffer, bufferSize, seed) <= |mem|
      modifies `src, `crc
      ensures r == CrcOf(update, chip, mem[buffer..buffer + Span(chip, buffer, bufferSize, seed)], seed)
    {
      ghost var q := mem[buffer..buffer + Span(chip, buffer, bufferSize, seed)];
      if chip.ENX? {
        crc := Invert(seed);
        src := buffer;
        EnxCrcLoop(bufferSize);
      } else if seed != ONES {
        crc := Invert(seed);
        GtxCrcLoop(buffer, bufferSize);
      } else {
        crc := WordAt(mem[buffer..buffer + 4]);
        assert mem[buffer..buffer + 4] == q[..4];
        assert q[4..] == mem[buffer + 4..buffer + 4 + Padded(buffer + 4, bufferSize - 4)];
        GtxCrcLoop(buffer + 4, bufferSize - 4);
      }
      r := Invert(crc);
    }

    // The eNX loop: the source address advances by itself.
    method EnxCrcLoop(bufferSize: nat)
      requires Valid() && chip.ENX? && src + bufferSize <= |mem|
      modifies `src, `crc
      ensures crc == Feed(update, old(crc), mem[old(src)..old(src) + bufferSize])
    {
      var size := bufferSize;
      while size > 0
        invariant 0 <= size <= bufferSize && src == old(src) + (bufferSize - size)
        invariant crc == Feed(update, old(crc), mem[old(src)..src])
      {
        var transaction := if size > maxTransactionSize then maxTransactionSize else size;
        FeedMore(update, old(crc), mem, old(src), src, src + transaction);
        EnxTransaction(transaction);
        size := size - transaction;
      }
    }

    // The GTX loop, for every parity of start and end.
    method GtxCrcLoop(buffer: nat, bufferSize: nat)
      requires Valid() && chip.GTX? && buffer + Padded(buffer, bufferSize) <= |mem|
      modifies `crc
      ensures crc == Feed(update, old(crc), mem[buffer..buffer + Padded(buffer, bufferSize)])
    {
      var oddStart := if buffer % 2 == 1 || bufferSize == 0 then 1 else 0;
      var oddEnd := if (buffer + bufferSize) % 2 == 1 then 1 else 0;
      var b, size := buffer, bufferSize + oddStart + oddEnd;
      ghost var end := buffer + Padded(buffer, bufferSize);
      ghost var pos := buffer;  // everything before pos has been fed
      while size > 0
        invariant CrcProgress(buffer, bufferSize, oddStart, oddEnd, b, size, pos)
        invariant buffer <= pos <= end && (size == 0 ==> pos == end)
        invariant crc == Feed(update, old(crc), mem[buffer..pos])
        decreases size
      {
        var transaction := if size > maxTransactionSize then maxTransactionSize else size;
        var l := if oddEnd == 1 && size == transaction then 0 else 1;
        ghost var next := CrcAdvance(buffer, bufferSize, oddStart, oddEnd, b, size, pos, transaction, l);
        FeedMore(update, old(crc), mem, buffer, pos, next);
        GtxTransaction(transaction, l, b);
        pos := next;
        if oddStart == 1 {
          oddStart := 0;
          b := b + transaction - 1;
        } else {
          b := b + transaction;
        }
        size := size - transaction;
      }
    }

    // avia_gt_dmx_queue_crc32: a range of a ring buffer, in one or two calls.  On the GTX a first
    // part of at most four bytes is refused with 0.
    method QueueCrc32(memAddr: nat, queueSize: nat, readPos: nat, count: nat, seed: Word) returns (r: Word)
      requires Valid() && 0 < count <= queueSize && readPos < queueSize && memAddr + queueSize <= |mem|
      requires readPos + count <= queueSize ==>
                && (Preloads(chip, seed) ==> count >= 4)
                && memAddr + readPos + Span(chip, memAddr + readPos, count, seed) <= |mem|
      requires var k := queueSize - readPos;
               readPos + count > queueSize && (chip.GTX? ==> k > 4)
               && Preloads(chip, CrcOf(update, chip, mem[memAddr + readPos..memAddr + queueSize], seed))
               ==> count - k >= 4
      modifies `src, `crc
      ensures readPos + count <= queueSize ==>
                var a := memAddr + readPos;
                r == CrcOf(update, chip, mem[a..a + Span(chip, a, count, seed)], seed)
      ensures readPos + count > queueSize && chip.GTX? && queueSize - readPos <= 4 ==> r == 0
      ensures readPos + count > queueSize && (chip.GTX? ==> queueSize - readPos > 4) ==>
                var n := count - (queueSize - readPos);
                var p := mem[memAddr + readPos..memAddr + queueSize];
                var crc1 := CrcOf(update, chip, p, seed);
                && memAddr + Span(chip, memAddr, n, crc1) <= |mem|
                && r == CrcOf(update, chip, mem[memAddr..memAddr + Span(chip, memAddr, n, crc1)], crc1)
                && (!Preloads(chip, crc1) ==> r == CrcOf(update, chip, p + mem[memAddr..memAddr + n], seed))
    {
      if readPos + count > queueSize {
        var chunk1 := queueSize - readPos;
        if chip.GTX? && chunk1 <= 4 { return 0; }
        r := WrappedCrc32(memAddr + readPos, chunk1, memAddr, count - chunk1, seed);
      } else {
        r := Crc32(memAddr + readPos, count, seed);
      }
    }

    // Two parts, the second seeded with the sum of the first.
    method WrappedCrc32(a: nat, chunk1: nat, b: nat, n: nat, seed: Word) returns (r: Word)
      requires Valid() && 0 < n && 0 < chunk1 && (chip.GTX? ==> chunk1 > 4)
      requires a + chunk1 <= |mem| && b + n + chunk1 <= |mem|
      requires Preloads(chip, CrcOf(update, chip, mem[a..a + chunk1], seed)) ==> n >= 4
      modifies `src, `crc
      ensures var p := mem[a..a + chunk1];
              var crc1 := CrcOf(update, chip, p, seed);
              && b + Span(chip, b, n, crc1) <= |mem|
              && r == CrcOf(update, chip, mem[b..b + Span(chip, b, n, crc1)], crc1)
              && (!Preloads(chip, crc1) ==> r == CrcOf(update, chip, p + mem[b..b + n], seed))
    {
      SpanExact(chip, a, chunk1, seed);
      var crc1 := Crc32(a, chunk1, seed);
      SpanExact(chip, b, n, crc1);
      r := Crc32(b, n, crc1);
      if !Preloads(chip, crc1) { CrcChaining(update, chip, mem[a..a + chunk1], mem[b..b + n], seed); }
    }
  }

  // State of the GTX loop: before the first command nothing is fed; afterwards the next address
  // is even and is the first byte not fed yet.
  ghost predicate CrcProgress(buffer: nat, n: nat, oddStart: int, oddEnd: int, b: int, size: int, pos: int) {
    && 0 <= oddStart <= 1 && 0 <= oddEnd <= 1 && 0 <= size
    && (oddEnd == 1 <==> (buffer + n) % 2 == 1)
    && (oddStart == 1 ==> (buffer % 2 == 1 || n == 0) && b == pos == buffer && size == n + 1 + oddEnd)
    && (oddStart == 0 && size > 0 ==> n > 0 && b == pos && b % 2 == 0 && b + size == buffer + n + oddEnd)
  }

  // One command of at most eight halfwords feeds from pos up to next.
  lemma CrcAdvance(buffer: nat, n: nat, oddStart: int, oddEnd: int, b: int, size: int, pos: int, t: int, l: int)
    returns (next: nat)
    requires CrcProgress(buffer, n, oddStart, oddEnd, b, size, pos) && 0 < size
    requires buffer + Padded(buffer, n) <= MAX_ADDRESS
    requires buffer <= pos <= buffer + Padded(buffer, n)
    requires t == if size > 16 then 16 else size
    requires l == if oddEnd == 1 && size == t then 0 else 1
    ensures 0 <= b < MAX_ADDRESS && b == pos && 0 < t <= 16
    ensures pos <= next == CommandEnd(t, l, b) <= buffer + Padded(buffer, n)
    ensures CrcProgress(buffer, n, 0, oddEnd, b + t - oddStart, size - t, next)
    ensures size == t ==> next == buffer + Padded(buffer, n)
  {
    next := b - b % 2 + t + t % 2 - (1 - l);
  }

  // Where a transaction of t bytes from b on ends, in whole halfwords minus the last byte unless l is set.
  function CommandEnd(t: nat, l: nat, b: nat): int { b - b % 2 + t + t % 2 - (1 - l) }

  // The word written to CRCC.
  function Crcc(len: nat, l: nat, b: nat): nat { len * 0x200_0000 + l * 0x100_0000 + b }

  // First byte and end of the range a CRCC word stands for.
  function CrccFrom(cmd: nat): nat { 2 * (cmd / 2 % 0x20_0000) + cmd % 2 }

  function CrccTo(cmd: nat): int {
    2 * (cmd / 2 % 0x20_0000) + 2 * (cmd / 0x200_0000 % 8 + 1) - (1 - cmd / 0x100_0000 % 2)
  }

  // Up to eight halfwords fit the three bits of LEN, and the fields do not overlap.
  lemma CrccDecoded(len: nat, l: nat, b: nat)
    requires len < 8 && l <= 1 && b < MAX_ADDRESS
    ensures CrccFrom(Crcc(len, l, b)) == b
    ensures CrccTo(Crcc(len, l, b)) == b - b % 2 + 2 * len + 1 + l
  {
    var cmd := Crcc(len, l, b);
    assert cmd / 0x200_0000 == len;
    assert cmd / 0x100_0000 == 2 * len + l;
    assert cmd / 2 == len * 0x100_0000 + l * 0x80_0000 + b / 2;
    assert cmd / 2 % 0x20_0000 == b / 2;
  }
}
