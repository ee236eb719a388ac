// The sectioned microcode loader of the MPEG decoder (dvb/drivers/media/dvb/avia/avia_av_core.c).
//
// The image is an array of 32-bit words: a header, then sections of four header words and data.
// Every section is written to the chip memory and read back; the chip memory may be faulty.

module AvMicrocode {
  import opened Integers

  // A 32-bit word as its four bytes in memory.
  datatype MemWord = MemWord(b0: Byte, b1: Byte, b2: Byte, b3: Byte)

  const UX_NUM_SECTIONS := 1
  const UX_FIRST_SECTION_START := 3
  const UX_SECTION_LENGTH_OFFSET := 1
  const UX_SECTION_WRITE_ADDR_OFFSET := 2
  const UX_SECTION_DATA_OFFSET := 4
  const UX_SECTION_HEADER_LENGTH := 4
  const ADDRESS_SPACE := 0x40_0000       // addresses are masked with 0x3FFFFF

  // le32_to_cpu
  function Le32(w: MemWord): nat {
    w.b0 as int + w.b1 as int * 0x100 + w.b2 as int * 0x1_0000 + w.b3 as int * 0x100_0000
  }

  // The sum of two unsigned 32-bit numbers.
  function Sum32(a: nat, b: nat): nat { if a + b < 0x1_0000_0000 then a + b else a + b - 0x1_0000_0000 }

  // The same number divided by four, from the bytes.
  function Quads(w: MemWord): nat {
    w.b0 / 4 + w.b1 as int * 0x40 + w.b2 as int * 0x4000 + w.b3 as int * 0x40_0000
  }

  lemma QuadsIs(w: MemWord)
    ensures Quads(w) == Le32(w) / 4
  {
  }

  // ---------- Chip memory ----------

  // One write, at a masked address.
  datatype Write = Write(at: nat, data: MemWord)

  // address & 0x3FFFFF, by going around the address space.
  function Masked(address: nat): nat {
    if address < ADDRESS_SPACE then address else Masked(address - ADDRESS_SPACE)
  }

  lemma {:induction false} MaskedIs(address: nat)
    ensures Masked(address) == address % ADDRESS_SPACE
    decreases address
  {
    if address >= ADDRESS_SPACE { MaskedIs(address - ADDRESS_SPACE); }
  }

  // The cell of a faithful memory after a history of writes.
  function Cell(init: nat -> MemWord, h: seq<Write>, a: nat): MemWord
    decreases |h|
  {
    if |h| == 0 then init(a)
    else if h[|h| - 1].at == a then h[|h| - 1].data
    else Cell(init, h[..|h| - 1], a)
  }

  // What a read returns: any function of the history and the address; faithful if it is the cell.
  type Sense = (seq<Write>, nat) -> MemWord

  ghost predicate Faithful(sense: Sense, init: nat -> MemWord) {
    forall h, a :: sense(h, a) == Cell(init, h, a)
  }

  // ---------- Images ----------

  function Words(image: seq<MemWord>, off: nat): nat
    requires off + UX_SECTION_HEADER_LENGTH <= |image|
  {
    Quads(image[off + UX_SECTION_LENGTH_OFFSET])
  }

  function Target(image: seq<MemWord>, off: nat): nat
    requires off + UX_SECTION_HEADER_LENGTH <= |image|
  {
    Le32(image[off + UX_SECTION_WRITE_ADDR_OFFSET])
  }

  function Next(image: seq<MemWord>, off: nat): nat
    requires off + UX_SECTION_HEADER_LENGTH <= |image|
  {
    off + Words(image, off) + UX_SECTION_HEADER_LENGTH
  }

  // One section lies inside the image.
  predicate Fits(image: seq<MemWord>, off: nat) {
    off + UX_SECTION_HEADER_LENGTH <= |image| && Next(image, off) <= |image|
  }

  // n sections from off on lie inside the image.
  predicate Layout(image: seq<MemWord>, off: nat, n: nat)
    decreases n
  {
    n == 0
    || (Fits(image, off) && Layout(image, Next(image, off), n - 1))
  }

  // Words written at consecutive word addresses.
  function WritesAt(target: nat, data: seq<MemWord>): (w: seq<Write>)
    ensures |w| == |data|
  {
    seq(|data|, i requires 0 <= i < |data| => Write(Masked(target + 4 * i), data[i]))
  }

  function Data(image: seq<MemWord>, off: nat): seq<MemWord>
    requires Fits(image, off)
  {
    image[off + UX_SECTION_DATA_OFFSET..off + UX_SECTION_DATA_OFFSET + Words(image, off)]
  }

  // The writes of one section.
  function SectionWrites(image: seq<MemWord>, off: nat): seq<Write>
    requires Fits(image, off)
  {
    WritesAt(Target(image, off), Data(image, off))
  }

  // The writes of n sections, in order.
  function ImageWrites(image: seq<MemWord>, off: nat, n: nat): seq<Write>
    requires Layout(image, off, n)
    decreases n
  {
    if n == 0 then [] else SectionWrites(image, off) + ImageWrites(image, Next(image, off), n - 1)
  }

  // Every write of w reads back equal after history h.
  ghost predicate ReadsBack(sense: Sense, h: seq<Write>, w: seq<Write>) {
    forall i :: 0 <= i < |w| ==> sense(h, w[i].at) == w[i].data
  }

  // The history before each section, and the writes of the section.
  datatype Check = Check(before: seq<Write>, w: seq<Write>)

  function Checks(image: seq<MemWord>, off: nat, n: nat, h: seq<Write>): seq<Check>
    requires Layout(image, off, n)
    decreases n
  {
    if n == 0 then []
    else [Check(h, SectionWrites(image, off))] + Checks(image, Next(image, off), n - 1, h + SectionWrites(image, off))
  }

  // Every section reads back equal right after it has been written.
  ghost predicate Verified(sense: Sense, c: seq<Check>) {
    forall k :: 0 <= k < |c| ==> ReadsBack(sense, c[k].before + c[k].w, c[k].w)
  }

  function End(c: seq<Check>, h: seq<Write>): seq<Write> {
    if |c| == 0 then h else c[|c| - 1].before + c[|c| - 1].w
  }

  lemma EndCons(c: Check, rest: seq<Check>)
    ensures End([c] + rest, c.before) == End(rest, c.before + c.w)
  {
  }

  lemma Regroup(a: seq<Write>, b: seq<Write>, c: seq<Write>)
    ensures (a + b) + c == a + (b + c)
  {
  }

  // The loader writes the sections of the image in order, each exactly once.
  lemma {:induction false} ChecksEnd(image: seq<MemWord>, off: nat, n: nat, h: seq<Write>)
    requires Layout(image, off, n)
    ensures |Checks(image, off, n, h)| == n
    ensures End(Checks(image, off, n, h), h) == h + ImageWrites(image, off, n)
    decreases n
  {
    if n == 0 {
      assert h + [] == h;
    } else {
      var w, off' := SectionWrites(image, off), Next(image, off);
      var rest := Checks(image, off', n - 1, h + w);
      ChecksEnd(image, off', n - 1, h + w);
      EndCons(Check(h, w), rest);
      Regroup(h, w, ImageWrites(image, off', n - 1));
    }
  }

  // ---------- The layout of an image, in numbers ----------

  // Word 1 of a section counts its bytes and word 2 is its address, both with the lowest byte first; the
  // data follow the four header words, and the next section follows the data.
  lemma SectionIs(image: seq<MemWord>, off: nat, i: nat, bytes: nat, address: nat)
    requires Fits(image, off) && i < |SectionWrites(image, off)|
    requires var l := image[off + 1];
             bytes == l.b0 as int + 256 * (l.b1 as int + 256 * (l.b2 as int + 256 * l.b3 as int))
    requires var a := image[off + 2];
             address == a.b0 as int + 256 * (a.b1 as int + 256 * (a.b2 as int + 256 * a.b3 as int))
    ensures |SectionWrites(image, off)| == bytes / 4 && Next(image, off) == off + 4 + bytes / 4
    ensures off + 4 + i < |image|
    ensures SectionWrites(image, off)[i] == Write((address + 4 * i) % 0x40_0000, image[off + 4 + i])
  {
    LowestFirst(image[off + 1]);
    LowestFirst(image[off + 2]);
    SectionAt(image, off, i, bytes, address);
  }

  // The same for the two numbers of the header.
  lemma SectionAt(image: seq<MemWord>, off: nat, i: nat, bytes: nat, address: nat)
    requires Fits(image, off) && i < |SectionWrites(image, off)|
    requires bytes == Le32(image[off + 1]) && address == Le32(image[off + 2])
    ensures |SectionWrites(image, off)| == bytes / 4 && Next(image, off) == off + 4 + bytes / 4
    ensures off + 4 + i < |image|
    ensures SectionWrites(image, off)[i] == Write((address + 4 * i) % 0x40_0000, image[off + 4 + i])
  {
    QuadsIs(image[off + 1]);
    WriteIs(address, Data(image, off), i);
  }

  lemma LowestFirst(w: MemWord)
    ensures Le32(w) == w.b0 as int + 256 * (w.b1 as int + 256 * (w.b2 as int + 256 * w.b3 as int))
  {
  }

  lemma WriteIs(target: nat, data: seq<MemWord>, i: nat)
    requires i < |data|
    ensures WritesAt(target, data)[i] == Write((target + 4 * i) % 0x40_0000, data[i])
  {
    MaskedIs(target + 4 * i);
  }

  // ---------- A faithful memory ----------

  // No two words of w go to one address unless they are equal.
  ghost predicate Clean(w: seq<Write>) {
    forall i, j :: 0 <= i < j < |w| && w[i].at == w[j].at ==> w[i].data == w[j].data
  }

  lemma {:induction false} CellAfter(init: nat -> MemWord, h: seq<Write>, w: seq<Write>, i: nat)
    requires Clean(w) && i < |w|
    ensures Cell(init, h + w, w[i].at) == w[i].data
    decreases |w|
  {
    var n := |w| - 1;
    assert (h + w)[..|h + w| - 1] == h + w[..n];
    if w[n].at != w[i].at {
      CellAfter(init, h, w[..n], i);
    }
  }

  lemma {:induction false} CellUntouched(init: nat -> MemWord, h: seq<Write>, w: seq<Write>, a: nat)
    requires forall i :: 0 <= i < |w| ==> w[i].at != a
    ensures Cell(init, h + w, a) == Cell(init, h, a)
    decreases |w|
  {
    if |w| == 0 {
      assert h + w == h;
    } else {
      assert (h + w)[..|h + w| - 1] == h + w[..|w| - 1];
      CellUntouched(init, h, w[..|w| - 1], a);
    }
  }

  lemma FaithfulReadsBack(sense: Sense, init: nat -> MemWord, h: seq<Write>, w: seq<Write>)
    requires Faithful(sense, init)
    ensures ReadsBack(sense, h + w, w) <==> Clean(w)
  {
    if Clean(w) {
      forall i | 0 <= i < |w| ensures sense(h + w, w[i].at) == w[i].data { CellAfter(init, h, w, i); }
    } else {
      var i, j :| 0 <= i < j < |w| && w[i].at == w[j].at && w[i].data != w[j].data;
      assert sense(h + w, w[i].at) == sense(h + w, w[j].at);
    }
  }

  // With a faithful memory every section verifies exactly when no section overwrites one of its
  // own words with a different one; sections may overlap one another.
  lemma FaithfulVerified(sense: Sense, init: nat -> MemWord, c: seq<Check>)
    requires Faithful(sense, init)
    ensures Verified(sense, c) <==> forall k :: 0 <= k < |c| ==> Clean(c[k].w)
  {
    forall k | 0 <= k < |c| ensures ReadsBack(sense, c[k].before + c[k].w, c[k].w) <==> Clean(c[k].w) {
      FaithfulReadsBack(sense, init, c[k].before, c[k].w);
    }
  }

  // A section of at most 2^20 words never meets itself.
  lemma ShortSectionClean(target: nat, data: seq<MemWord>)
    requires |data| <= 0x10_0000
    ensures Clean(WritesAt(target, data))
  {
    var w := WritesAt(target, data);
    forall i, j | 0 <= i < j < |w| ensures w[i].at != w[j].at {
      MaskedApart(target, i, j);
    }
  }

  // No section is longer than the address space.
  predicate Short(image: seq<MemWord>, off: nat, n: nat)
    requires Layout(image, off, n)
    decreases n
  {
    n == 0 || (Words(image, off) <= 0x10_0000 && Short(image, Next(image, off), n - 1))
  }

  // So with a faithful memory such an image loads without error, wherever its sections go.
  lemma {:induction false} FaithfulLoads(sense: Sense, init: nat -> MemWord, image: seq<MemWord>, off: nat,
                                         n: nat, h: seq<Write>)
    requires Faithful(sense, init) && Layout(image, off, n) && Short(image, off, n)
    ensures Verified(sense, Checks(image, off, n, h))
    decreases n
  {
    if n > 0 {
      var w := SectionWrites(image, off);
      ShortSectionClean(Target(image, off), Data(image, off));
      FaithfulReadsBack(sense, init, h, w);
      FaithfulLoads(sense, init, image, Next(image, off), n - 1, h + w);
    }
  }

  lemma MaskedApart(t: nat, i: nat, j: nat)
    requires i < j < i + 0x10_0000
    ensures Masked(t + 4 * i) != Masked(t + 4 * j)
  {
    MaskedIs(t + 4 * i);
    MaskedIs(t + 4 * j);
  }

  // Every word of w is at its address, and every other cell is as it was.
  ghost predicate Loaded(init: nat -> MemWord, h0: seq<Write>, h: seq<Write>, w: seq<Write>) {
    && (forall i :: 0 <= i < |w| ==> Cell(init, h, w[i].at) == w[i].data)
    && (forall a :: (forall i :: 0 <= i < |w| ==> w[i].at != a) ==> Cell(init, h, a) == Cell(init, h0, a))
  }

  // If no two words of the whole image share an address, the load leaves every word at its
  // address and every other cell as it was.
  lemma LoadedContents(init: nat -> MemWord, h: seq<Write>, image: seq<MemWord>, off: nat, n: nat)
    requires Layout(image, off, n) && Clean(ImageWrites(image, off, n))
    ensures Loaded(init, h, h + ImageWrites(image, off, n), ImageWrites(image, off, n))
  {
    var w := ImageWrites(image, off, n);
    forall i | 0 <= i < |w| ensures Cell(init, h + w, w[i].at) == w[i].data { CellAfter(init, h, w, i); }
    forall a: nat | forall i :: 0 <= i < |w| ==> w[i].at != a ensures Cell(init, h + w, a) == Cell(init, h, a) {
      CellUntouched(init, h, w, a);
    }
  }

  // No section overwrites one of its own words with a different one.
  ghost predicate SectionsClean(image: seq<MemWord>, off: nat, n: nat)
    requires Layout(image, off, n)
    decreases n
  {
    n == 0 || (Clean(SectionWrites(image, off)) && SectionsClean(image, Next(image, off), n - 1))
  }

  // With a faithful memory that is exactly when the image verifies, after any history.
  lemma {:induction false} ChecksClean(sense: Sense, init: nat -> MemWord, image: seq<MemWord>, off: nat,
                                         n: nat, h: seq<Write>)
    requires Faithful(sense, init) && Layout(image, off, n)
    ensures Verified(sense, Checks(image, off, n, h)) <==> SectionsClean(image, off, n)
    decreases n
  {
    if n > 0 {
      var w := SectionWrites(image, off);
      ChecksClean(sense, init, image, Next(image, off), n - 1, h + w);
      FaithfulReadsBack(sense, init, h, w);
      FirstCheck(sense, image, off, n, h);
    }
  }

  lemma FirstCheck(sense: Sense, image: seq<MemWord>, off: nat, n: nat, h: seq<Write>)
    requires n > 0 && Layout(image, off, n)
    ensures var w := SectionWrites(image, off);
            Verified(sense, Checks(image, off, n, h))
            <==> ReadsBack(sense, h + w, w) && Verified(sense, Checks(image, Next(image, off), n - 1, h + w))
  {
    var w := SectionWrites(image, off);
    VerifiedFirst(sense, Check(h, w), Checks(image, Next(image, off), n - 1, h + w));
  }

  lemma VerifiedFirst(sense: Sense, c: Check, rest: seq<Check>)
    ensures Verified(sense, [c] + rest) <==> ReadsBack(sense, c.before + c.w, c.w) && Verified(sense, rest)
  {
    var q := [c] + rest;
    assert q[0] == c;
    assert forall k :: 0 <= k < |rest| ==> q[k + 1] == rest[k];
    if Verified(sense, q) {
      forall k | 0 <= k < |rest| ensures ReadsBack(sense, rest[k].before + rest[k].w, rest[k].w) {
        assert q[k + 1] == rest[k];
      }
    }
  }

  // And such an image loads without error.
  lemma {:induction false} CleanLoads(sense: Sense, init: nat -> MemWord, image: seq<MemWord>, off: nat, n: nat,
                                      h: seq<Write>)
    requires Faithful(sense, init) && Layout(image, off, n) && Clean(ImageWrites(image, off, n))
    ensures Verified(sense, Checks(image, off, n, h))
    decreases n
  {
    if n > 0 {
      var w, off' := SectionWrites(image, off), Next(image, off);
      CleanParts(w, ImageWrites(image, off', n - 1));
      FaithfulReadsBack(sense, init, h, w);
      CleanLoads(sense, init, image, off', n - 1, h + w);
    }
  }

  lemma CleanParts(a: seq<Write>, b: seq<Write>)
    requires Clean(a + b)
    ensures Clean(a) && Clean(b)
  {
    var c := a + b;
    assert forall i :: 0 <= i < |a| ==> c[i] == a[i];
    forall i, j | 0 <= i < j < |b| && b[i].at == b[j].at ensures b[i].data == b[j].data {
      assert c[|a| + i] == b[i] && c[|a| + j] == b[j];
    }
  }

  lemma NextWrite(h: seq<Write>, w: seq<Write>, i: nat)
    requires i < |w|
    ensures h + w[..i] + [w[i]] == h + w[..i + 1]
  {
  }

  lemma ReadsBackNext(sense: Sense, h: seq<Write>, w: seq<Write>, i: nat)
    requires i < |w|
    ensures ReadsBack(sense, h, w[..i + 1]) <==> ReadsBack(sense, h, w[..i]) && sense(h, w[i].at) == w[i].data
  {
    assert w[..i + 1] == w[..i] + [w[i]];
    assert w[..i + 1][i] == w[i];
    assert forall k :: 0 <= k < i ==> w[..i + 1][k] == w[..i][k];
  }

  // ---------- The driver ----------

  class Chip {
    const sense: Sense
    var h: seq<Write>           // the history of the chip memory

    constructor (sense: Sense)
      ensures this.sense == sense && h == []
    {
      this.sense, h := sense, [];
    }

    // avia_av_dram_write
    method DramWrite(address: nat, data: MemWord)
      modifies this
      ensures h == old(h) + [Write(Masked(address), data)]
    {
      MaskedIs(address);
      h := h + [Write(address % ADDRESS_SPACE, data)];
    }

    // avia_av_dram_read
    method DramRead(address: nat) returns (data: MemWord)
      ensures data == sense(h, Masked(address))
    {
      MaskedIs(address);
      data := sense(h, address % ADDRESS_SPACE);
    }

    // The length field of a section, in words.
    method LengthField(image: seq<MemWord>, off: nat) returns (words: nat)
      requires off + UX_SECTION_HEADER_LENGTH <= |image|
      ensures words == Words(image, off)
    {
      QuadsIs(image[off + UX_SECTION_LENGTH_OFFSET]);
      words := Le32(image[off + UX_SECTION_LENGTH_OFFSET]) / 4;
    }

    // avia_av_dram_memcpy32; src is the position of the words in the image.
    method DramMemcpy32(dst: nat, image: seq<MemWord>, src: nat, dwords: nat)
      requires src + dwords <= |image|
      modifies this
      ensures h == old(h) + WritesAt(dst, image[src..src + dwords])
    {
      ghost var w := WritesAt(dst, image[src..src + dwords]);
      ghost var h0 := h;
      var d, s, left := dst, src, dwords;
      while left > 0
        invariant 0 <= left <= dwords && d == dst + 4 * (dwords - left) && s == src + (dwords - left)
        invariant h == h0 + w[..dwords - left]
      {
        NextWrite(h0, w, dwords - left);
        left := left - 1;
        DramWrite(d, image[s]);
        s, d := s + 1, d + 4;
      }
      assert w[..dwords] == w;
    }

    // The comparison of avia_av_load_dram_image.
    method CountErrors(dst: nat, image: seq<MemWord>, src: nat, words: nat) returns (errors: nat)
      requires src + words <= |image|
      ensures errors <= words
      ensures errors == 0 <==> ReadsBack(sense, h, WritesAt(dst, image[src..src + words]))
    {
      ghost var w := WritesAt(dst, image[src..src + words]);
      var d, s, left := dst, src, words;
      errors := 0;
      while left > 0
        invariant 0 <= left <= words && d == dst + 4 * (words - left) && s == src + (words - left)
        invariant errors <= words - left
        invariant errors == 0 <==> ReadsBack(sense, h, w[..words - left])
      {
        ReadsBackNext(sense, h, w, words - left);
        left := left - 1;
        var data := DramRead(d);
        if data != image[s] { errors := errors + 1; }
        s, d := s + 1, d + 4;
      }
      assert w[..words] == w;
    }

    // avia_av_load_dram_image
    method LoadDramImage(image: seq<MemWord>, off: nat) returns (errors: nat)
      requires Fits(image, off)
      modifies this
      ensures h == old(h) + SectionWrites(image, off)
      ensures errors <= Words(image, off)
      ensures errors == 0 <==> ReadsBack(sense, h, SectionWrites(image, off))
    {
      var words := LengthField(image, off);
      var dst, src := Target(image, off), off + UX_SECTION_DATA_OFFSET;
      DramMemcpy32(dst, image, src, words);
      errors := CountErrors(dst, image, src, words);
    }

    // avia_av_load_microcode: 0 exactly when every word of every section read back equal.
    method LoadMicrocode(image: seq<MemWord>) returns (rc: int)
      requires UX_FIRST_SECTION_START <= |image| < 0x1_0000_0000
      requires Layout(image, UX_FIRST_SECTION_START, Le32(image[UX_NUM_SECTIONS]))
      modifies this
      ensures rc == 0 || rc == -1
      ensures rc == 0 <==> Verified(sense, Checks(image, UX_FIRST_SECTION_START, Le32(image[UX_NUM_SECTIONS]), old(h)))
      ensures h == old(h) + ImageWrites(image, UX_FIRST_SECTION_START, Le32(image[UX_NUM_SECTIONS]))
      ensures var n := image[1];
              var sections := n.b0 as int + 256 * (n.b1 as int + 256 * (n.b2 as int + 256 * n.b3 as int));
              Layout(image, 3, sections) && h == old(h) + ImageWrites(image, 3, sections)
    {
      var num := Le32(image[UX_NUM_SECTIONS]);
      ChecksEnd(image, UX_FIRST_SECTION_START, num, h);
      var errors := LoadSections(image, UX_FIRST_SECTION_START, num);
      rc := if errors != 0 then -1 else 0;
    }

    // The load on a faithful memory: 0 exactly when no section overwrites one of its own words, and if
    // no two words of the image share an address, every word is where it belongs and nothing else
    // has changed.
    method LoadFaithfully(image: seq<MemWord>, ghost init: nat -> MemWord) returns (rc: int)
      requires Faithful(sense, init) && UX_FIRST_SECTION_START <= |image| < 0x1_0000_0000
      requires Layout(image, UX_FIRST_SECTION_START, Le32(image[UX_NUM_SECTIONS]))
      modifies this
      ensures rc == 0 <==> SectionsClean(image, UX_FIRST_SECTION_START, Le32(image[UX_NUM_SECTIONS]))
      ensures var w := ImageWrites(image, UX_FIRST_SECTION_START, Le32(image[UX_NUM_SECTIONS]));
              Clean(w) ==> rc == 0 && Loaded(init, old(h), h, w)
    {
      ghost var num, h0 := Le32(image[UX_NUM_SECTIONS]), h;
      rc := LoadMicrocode(image);
      ChecksClean(sense, init, image, UX_FIRST_SECTION_START, num, h0);
      if Clean(ImageWrites(image, UX_FIRST_SECTION_START, num)) {
        CleanLoads(sense, init, image, UX_FIRST_SECTION_START, num, h0);
        LoadedContents(init, h0, image, UX_FIRST_SECTION_START, num);
      }
    }

    // The section loop.
    method LoadSections(image: seq<MemWord>, from: nat, num: nat) returns (errors: nat)
      requires from <= |image| < 0x1_0000_0000 && Layout(image, from, num)
      modifies this
      ensures errors == 0 <==> Verified(sense, Checks(image, from, num, old(h)))
      ensures h == End(Checks(image, from, num, old(h)), old(h))
    {
      var numSections, dataOffset: nat := num, from;
      ghost var all := Checks(image, from, num, h);
      ghost var done: seq<Check> := [];
      ghost var h0 := h;
      errors := 0;
      LoadingStart(image, from, num, h, sense);
      while numSections > 0
        invariant Loading(image, dataOffset, numSections, done, all, h0, h, sense, errors)
      {
        errors, dataOffset, done := LoadSection(image, dataOffset, numSections, done, all, h0, errors);
        numSections := numSections - 1;
      }
      LoadingEnd(image, dataOffset, done, all, h0, h, sense, errors);
    }

    // One section of the loop.
    method LoadSection(image: seq<MemWord>, off: nat, ghost n: nat, ghost done: seq<Check>,
                       ghost all: seq<Check>, ghost h0: seq<Write>, errors: nat)
      returns (errors': nat, next: nat, ghost done': seq<Check>)
      requires n > 0 && Loading(image, off, n, done, all, h0, h, sense, errors)
      modifies this
      ensures Loading(image, next, n - 1, done', all, h0, h, sense, errors')
    {
      ghost var was := h;
      ghost var c := Check(h, SectionWrites(image, off));
      var e := LoadDramImage(image, off);
      LoadingNext(image, off, n, done, all, h0, was, sense, errors, e);
      done' := done + [c];
      var words := LengthField(image, off);
      next := off + words + UX_SECTION_HEADER_LENGTH;
      errors' := Sum32(errors, e);
    }
  }

  // n sections are left at off; done are the checks behind, all those of the whole load.
  ghost predicate Loading(image: seq<MemWord>, off: nat, n: nat, done: seq<Check>, all: seq<Check>, h0: seq<Write>,
                          h: seq<Write>, sense: Sense, errors: nat)
  {
    && errors <= off <= |image| < 0x1_0000_0000 && Layout(image, off, n)
    && done + Checks(image, off, n, h) == all && h == End(done, h0)
    && (errors == 0 <==> Verified(sense, done))
  }

  lemma LoadingStart(image: seq<MemWord>, off: nat, n: nat, h: seq<Write>, sense: Sense)
    requires off <= |image| < 0x1_0000_0000 && Layout(image, off, n)
    ensures Loading(image, off, n, [], Checks(image, off, n, h), h, h, sense, 0)
  {
    assert [] + Checks(image, off, n, h) == Checks(image, off, n, h);
  }

  lemma LoadingEnd(image: seq<MemWord>, off: nat, done: seq<Check>, all: seq<Check>, h0: seq<Write>,
                   h: seq<Write>, sense: Sense, errors: nat)
    requires Loading(image, off, 0, done, all, h0, h, sense, errors)
    ensures h == End(all, h0) && (errors == 0 <==> Verified(sense, all))
  {
    assert done + [] == done;
  }

  lemma LoadingNext(image: seq<MemWord>, off: nat, n: nat, done: seq<Check>, all: seq<Check>, h0: seq<Write>,
                    h: seq<Write>, sense: Sense, errors: nat, e: nat)
    requires n > 0 && Loading(image, off, n, done, all, h0, h, sense, errors)
    requires e <= Words(image, off)
    requires e == 0 <==> ReadsBack(sense, h + SectionWrites(image, off), SectionWrites(image, off))
    ensures Sum32(errors, e) == errors + e
    ensures var w := SectionWrites(image, off);
            Loading(image, Next(image, off), n - 1, done + [Check(h, w)], all, h0, h + w, sense, errors + e)
  {
    var w := SectionWrites(image, off);
    var c := Check(h, w);
    var rest := Checks(image, Next(image, off), n - 1, h + w);
    assert done + ([c] + rest) == (done + [c]) + rest;
    VerifiedNext(sense, done, c);
  }

  lemma VerifiedNext(sense: Sense, done: seq<Check>, c: Check)
    ensures Verified(sense, done + [c]) <==> Verified(sense, done) && ReadsBack(sense, c.before + c.w, c.w)
  {
    assert (done + [c])[|done|] == c;
    assert forall k :: 0 <= k < |done| ==> (done + [c])[k] == done[k];
  }
}
