// The transfer routines of the card driver (mmc/mmccombo.c): the bit loop mmc_spi_io_1/2/4 and
// the unrolled burst routines, which write precomputed port images.  Both forms are proved
// against the same wire history, so for every card they put the same bits on the wire and
// deliver the same bytes.

module SpiBus {
  import opened SpiPins

  // The lines a transfer drives, and the line it reads, on each port.
  function OutA(p: Pins): Reg { if p.di.A? then {p.di.n} else {} }
  function OutB(p: Pins): Reg { {p.clk} + (if p.di.B? then {p.di.n} else {}) }
  function InA(p: Pins): Reg { if p.dO.A? then {p.dO.n} else {} }
  function InB(p: Pins): Reg { if p.dO.B? then {p.dO.n} else {} }

  // Writing a data register has no effect on an input line.
  function Latched(was: Reg, v: Reg, input: Reg): Reg { (v - input) + (was * input) }

  lemma LatchedRest(was: Reg, v: Reg, output: Reg, input: Reg)
    ensures v - output - input == was - output - input ==> Latched(was, v, input) - output == was - output
  {
    if v - output - input == was - output - input {
      forall x ensures x in Latched(was, v, input) - output <==> x in was - output {
        assert x in v - output - input <==> x in was - output - input;
      }
    }
  }

  class SpiHost {
    const pins: Pins
    const card: Card
    var padat: Reg                // output latches of the data registers
    var pbdat: Reg
    var wire: seq<Event>

    constructor (pins: Pins, card: Card, padat: Reg, pbdat: Reg)
      ensures this.pins == pins && this.card == card
      ensures this.padat == padat && this.pbdat == pbdat && wire == []
    {
      this.pins, this.card := pins, card;
      this.padat, this.pbdat, wire := padat, pbdat, [];
    }

    predicate Clk()
      reads this
    {
      pins.clk in pbdat
    }

    predicate Di()
      reads this
    {
      if pins.di.A? then pins.di.n in padat else pins.di.n in pbdat
    }

    // The clock is low, and all lines but clock and DI are as before: chip select, the latch of the
    // input line, and every line that is not part of the bus.
    twostate predicate Resting()
      reads this
    {
      !Clk() && padat - OutA(pins) == old(padat) - OutA(pins) && pbdat - OutB(pins) == old(pbdat) - OutB(pins)
    }

    // Only clock, DI and chip select may differ from before.
    twostate predicate OnlyBus()
      reads this
    {
      && padat - OutA(pins) == old(padat) - OutA(pins)
      && pbdat - OutB(pins) - {pins.cs} == old(pbdat) - OutB(pins) - {pins.cs}
    }

    // ---------- Single register accesses ----------

    // Reading a data register: an input line reads the level that the card drives.
    function Seen(reg: Reg, onPort: bool): Reg
      reads this
    {
      if !onPort then reg else if card(wire, Clk()) then reg + {pins.dO.n} else reg - {pins.dO.n}
    }

    function Pa(): Reg
      reads this
    {
      Seen(padat, pins.dO.A?)
    }

    function Pb(): Reg
      reads this
    {
      Seen(pbdat, pins.dO.B?)
    }

    method PutPa(v: Reg)
      modifies this`padat
      ensures padat == Latched(old(padat), v, InA(pins))
      ensures v - OutA(pins) - InA(pins) == old(padat) - OutA(pins) - InA(pins) ==>
          padat - OutA(pins) == old(padat) - OutA(pins)
    {
      LatchedRest(padat, v, OutA(pins), InA(pins));
      padat := Latched(padat, v, InA(pins));
    }

    // A rising clock lets the card sample DI.
    method PutPb(v: Reg)
      requires Wired(pins)
      modifies this`pbdat, this`wire
      ensures pbdat == Latched(old(pbdat), v, InB(pins))
      ensures v - OutB(pins) - InB(pins) == old(pbdat) - OutB(pins) - InB(pins) ==>
          pbdat - OutB(pins) == old(pbdat) - OutB(pins)
      ensures wire == if !old(Clk()) && Clk() then old(wire) + [Edge(Di())] else old(wire)
    {
      var was := Clk();
      LatchedRest(pbdat, v, OutB(pins), InB(pins));
      pbdat := Latched(pbdat, v, InB(pins));
      if !was && Clk() { wire := wire + [Edge(Di())]; }
    }

    // ---------- The bit loop: mmc_spi_io_1/2/4 ----------

    method SetDi(level: bool)
      requires Wired(pins) && !Clk()
      modifies this
      ensures Di() == level && Resting() && wire == old(wire)
    {
      if pins.di.A? {
        PutPa(if level then Pa() + {pins.di.n} else Pa() - {pins.di.n});
      } else {
        PutPb(if level then Pb() + {pins.di.n} else Pb() - {pins.di.n});
      }
    }

    // One bit of the loop: set DI, raise the clock, sample DO, lower the clock.
    method IoBit(level: bool) returns (answer: bool)
      requires Wired(pins) && !Clk()
      modifies this
      ensures Resting()
      ensures wire == old(wire) + [Edge(level)] && answer == card(wire, true)
    {
      SetDi(level);
      PutPb(Pb() + {pins.clk});
      answer := if pins.dO.A? then pins.dO.n in Pa() else pins.dO.n in Pb();
      PutPb(Pb() - {pins.clk});
    }

    method IoStep(dataOut: bv8, i: bv8, result: bv8, ghost w0: seq<Event>, ghost k: nat) returns (r: bv8)
      requires Wired(pins) && !Clk() && k < 8 && i == Mask(k)
      requires wire == w0 + Edges(dataOut, k) && result == Answer(card, w0, dataOut, k)
      modifies this
      ensures Resting() && wire == w0 + Edges(dataOut, k + 1) && r == Answer(card, w0, dataOut, k + 1)
    {
      ghost var next := BitStep(card, w0, dataOut, k, i);
      var answer := IoBit(dataOut & i != 0);
      r := if answer then result | i else result;
    }

    method Io(dataOut: bv8) returns (result: bv8)
      requires Wired(pins) && !Clk()
      modifies this
      ensures Resting()
      ensures wire == Sent(old(wire), dataOut) && result == Reply(card, old(wire), dataOut)
    {
      result := 0;
      var i: bv8 := 0x80;
      ghost var k := 0;
      while i != 0
        invariant k <= 8 && i == Mask(k) && Resting()
        invariant wire == old(wire) + Edges(dataOut, k) && result == Answer(card, old(wire), dataOut, k)
        decreases 8 - k
      {
        NextMask(k);
        result := IoStep(dataOut, i, result, old(wire), k);
        i := i >> 1;
        k := k + 1;
      }
    }

    // Several bytes through the bit loop.
    method IoWrite(data: array<bv8>, from: nat, n: nat)
      requires Wired(pins) && from + n <= data.Length && !Clk()
      modifies this
      ensures Resting() && wire == SentAll(old(wire), data[from..from + n])
    {
      ghost var q := data[from..from + n];
      var k := 0;
      while k < n
        invariant k <= n && Resting() && wire == SentAll(old(wire), q[..k])
      {
        NextByte(old(wire), q, k);
        var r := Io(data[from + k]);
        k := k + 1;
      }
      assert q[..k] == q;
    }

    method IoRead(dest: array<bv8>, n: nat)
      requires Wired(pins) && n <= dest.Length && !Clk()
      modifies this, dest
      ensures Resting() && wire == SentAll(old(wire), Idle(n))
      ensures dest[..n] == Replies(card, old(wire), Idle(n))
      ensures forall j :: n <= j < dest.Length ==> dest[j] == old(dest[j])
    {
      var k := 0;
      while k < n
        invariant k <= n && Resting() && wire == SentAll(old(wire), Idle(k))
        invariant dest[..k] == Replies(card, old(wire), Idle(k))
        invariant forall j :: k <= j < dest.Length ==> dest[j] == old(dest[j])
      {
        IdleNext(card, old(wire), k);
        var r := Io(ONES);
        dest[k] := r;
        assert dest[..k + 1] == dest[..k] + [r];
        k := k + 1;
      }
    }

    // ---------- Burst writes: mmc_spi_write_14 and mmc_spi_write_2 ----------

    // Between the steps of a burst, all lines but clock and DI are as before.
    twostate predicate Steady()
      reads this
    {
      padat - OutA(pins) == old(padat) - OutA(pins) && pbdat - OutB(pins) == old(pbdat) - OutB(pins)
    }

    // An image for port B that changes no line but clock and DI; on an input line it may hold anything.
    predicate ImageB(v: Reg, clk: bool)
      reads this
    {
      v - OutB(pins) - InB(pins) == pbdat - OutB(pins) - InB(pins) && (pins.clk in v <==> clk)
    }

    predicate ImageA(v: Reg)
      reads this
    {
      v - OutA(pins) - InA(pins) == padat - OutA(pins) - InA(pins)
    }

    // One bit with DI on port B: data with the clock low, then the same data with the clock high.
    method Burst14Bit(bit: bool, cldl: Reg, cldh: Reg, chdl: Reg, chdh: Reg)
      requires Wired(pins) && pins.di.B?
      requires ImageB(cldl, false) && ImageB(cldh, false) && ImageB(chdl, true) && ImageB(chdh, true)
      requires pins.di.n !in cldl && pins.di.n in cldh && pins.di.n !in chdl && pins.di.n in chdh
      modifies this
      ensures Steady() && wire == old(wire) + [Edge(bit)]
    {
      if bit {
        PutPb(cldh);
        PutPb(chdh);
      } else {
        PutPb(cldl);
        PutPb(chdl);
      }
    }

    method Burst14Byte(b: bv8, cldl: Reg, cldh: Reg, chdl: Reg, chdh: Reg)
      requires Wired(pins) && pins.di.B?
      requires ImageB(cldl, false) && ImageB(cldh, false) && ImageB(chdl, true) && ImageB(chdh, true)
      requires pins.di.n !in cldl && pins.di.n in cldh && pins.di.n !in chdl && pins.di.n in chdh
      modifies this
      ensures Steady() && wire == Sent(old(wire), b)
    {
      Burst14Bit(b & 0x80 != 0, cldl, cldh, chdl, chdh);
      Burst14Bit(b & 0x40 != 0, cldl, cldh, chdl, chdh);
      Burst14Bit(b & 0x20 != 0, cldl, cldh, chdl, chdh);
      Burst14Bit(b & 0x10 != 0, cldl, cldh, chdl, chdh);
      Burst14Bit(b & 0x08 != 0, cldl, cldh, chdl, chdh);
      Burst14Bit(b & 0x04 != 0, cldl, cldh, chdl, chdh);
      Burst14Bit(b & 0x02 != 0, cldl, cldh, chdl, chdh);
      Burst14Bit(b & 0x01 != 0, cldl, cldh, chdl, chdh);
      EightEdges(old(wire), b);
    }

    method Write14(data: array<bv8>, from: nat, charcnt: nat)
      requires Wired(pins) && pins.di.B? && from + charcnt <= data.Length
      modifies this
      ensures Resting() && wire == SentAll(old(wire), data[from..from + charcnt])
    {
      var cldl := Pb() - {pins.di.n, pins.clk};
      var cldh := (Pb() + {pins.di.n}) - {pins.clk};
      var chdl := (Pb() + {pins.clk}) - {pins.di.n};
      var chdh := Pb() + {pins.clk, pins.di.n};
      ghost var q := data[from..from + charcnt];
      var k := 0;
      while k < charcnt
        invariant k <= charcnt && Steady() && wire == SentAll(old(wire), q[..k])
      {
        NextByte(old(wire), q, k);
        Burst14Byte(data[from + k], cldl, cldh, chdl, chdh);
        k := k + 1;
      }
      assert q[..k] == q;
      PutPb(cldh);
    }

    // One bit with DI on port A.
    method Burst2Bit(bit: bool, dataLow: Reg, dataHigh: Reg, clkLow: Reg, clkHigh: Reg)
      requires Wired(pins) && pins.di.A? && !Clk()
      requires ImageB(clkLow, false) && ImageB(clkHigh, true)
      requires ImageA(dataLow) && ImageA(dataHigh)
      requires pins.di.n !in dataLow && pins.di.n in dataHigh
      modifies this
      ensures Resting() && wire == old(wire) + [Edge(bit)]
    {
      PutPa(if bit then dataHigh else dataLow);
      PutPb(clkHigh);
      PutPb(clkLow);
    }

    method Burst2Byte(b: bv8, dataLow: Reg, dataHigh: Reg, clkLow: Reg, clkHigh: Reg)
      requires Wired(pins) && pins.di.A? && !Clk()
      requires ImageB(clkLow, false) && ImageB(clkHigh, true)
      requires ImageA(dataLow) && ImageA(dataHigh)
      requires pins.di.n !in dataLow && pins.di.n in dataHigh
      modifies this
      ensures Resting() && wire == Sent(old(wire), b)
    {
      Burst2Bit(b & 0x80 != 0, dataLow, dataHigh, clkLow, clkHigh);
      Burst2Bit(b & 0x40 != 0, dataLow, dataHigh, clkLow, clkHigh);
      Burst2Bit(b & 0x20 != 0, dataLow, dataHigh, clkLow, clkHigh);
      Burst2Bit(b & 0x10 != 0, dataLow, dataHigh, clkLow, clkHigh);
      Burst2Bit(b & 0x08 != 0, dataLow, dataHigh, clkLow, clkHigh);
      Burst2Bit(b & 0x04 != 0, dataLow, dataHigh, clkLow, clkHigh);
      Burst2Bit(b & 0x02 != 0, dataLow, dataHigh, clkLow, clkHigh);
      Burst2Bit(b & 0x01 != 0, dataLow, dataHigh, clkLow, clkHigh);
      EightEdges(old(wire), b);
    }

    method Write2(data: array<bv8>, from: nat, charcnt: nat)
      requires Wired(pins) && pins.di.A? && from + charcnt <= data.Length && !Clk()
      modifies this
      ensures Resting() && wire == SentAll(old(wire), data[from..from + charcnt])
    {
      var clkHigh := Pb() + {pins.clk};
      var clkLow := Pb() - {pins.clk};
      var dataHigh := Pa() + {pins.di.n};
      var dataLow := Pa() - {pins.di.n};
      ghost var q := data[from..from + charcnt];
      var k := 0;
      while k < charcnt
        invariant k <= charcnt && Resting() && wire == SentAll(old(wire), q[..k])
      {
        NextByte(old(wire), q, k);
        Burst2Byte(data[from + k], dataLow, dataHigh, clkLow, clkHigh);
        k := k + 1;
      }
      assert q[..k] == q;
    }

    // The burst write of the configured wiring.
    method WriteMultiple(data: array<bv8>, from: nat, charcnt: nat)
      requires Wired(pins) && from + charcnt <= data.Length && !Clk()
      modifies this
      ensures Resting() && wire == SentAll(old(wire), data[from..from + charcnt])
    {
      if pins.di.A? {
        Write2(data, from, charcnt);
      } else {
        Write14(data, from, charcnt);
      }
    }

    // ---------- Chip select: mmc_spi_cs_low_PB* and mmc_spi_cs_high_PB* ----------

    method SetCs(level: bool)
      requires Wired(pins) && !Clk()
      modifies this
      ensures !Clk() && wire == old(wire) + [Select(level)]
      ensures pins.cs in pbdat <==> level
      ensures padat == old(padat) && pbdat - {pins.cs} == old(pbdat) - {pins.cs} && OnlyBus()
    {
      PutPb(if level then Pb() + {pins.cs} else Pb() - {pins.cs});
      wire := wire + [Select(level)];
      assert (pbdat - OutB(pins)) - {pins.cs} == (pbdat - {pins.cs}) - OutB(pins);
      assert old(pbdat) - OutB(pins) - {pins.cs} == (old(pbdat) - {pins.cs}) - OutB(pins);
    }

    // ---------- Burst reads: mmc_read_multiple_1/2/4 ----------

    // One bit with DI held high: raise the clock, shift in DO, lower the clock.
    method ReadBit(result: bv8, clkLow: Reg, clkHigh: Reg, ghost w0: seq<Event>, ghost k: nat) returns (r: bv8)
      requires Wired(pins) && !Clk() && Di() && k < 8
      requires ImageB(clkLow, false) && ImageB(clkHigh, true)
      requires pins.di.B? ==> pins.di.n in clkLow && pins.di.n in clkHigh
      requires wire == w0 + Edges(ONES, k) && result == Shifted(card, w0, ONES, k)
      modifies this
      ensures Resting() && Di()
      ensures wire == w0 + Edges(ONES, k + 1) && r == Shifted(card, w0, ONES, k + 1)
    {
      OnesEdge(w0, k);
      PutPb(clkHigh);
      r := Push(result, if pins.dO.A? then pins.dO.n in Pa() else pins.dO.n in Pb());
      PutPb(clkLow);
    }

    method ReadByte(clkLow: Reg, clkHigh: Reg) returns (r: bv8)
      requires Wired(pins) && !Clk() && Di()
      requires ImageB(clkLow, false) && ImageB(clkHigh, true)
      requires pins.di.B? ==> pins.di.n in clkLow && pins.di.n in clkHigh
      modifies this
      ensures Resting() && Di() && wire == Sent(old(wire), ONES) && r == Reply(card, old(wire), ONES)
    {
      ghost var w0 := wire;
      assert w0 + Edges(ONES, 0) == w0;
      r := ReadBit(0, clkLow, clkHigh, w0, 0);
      r := ReadBit(r, clkLow, clkHigh, w0, 1);
      r := ReadBit(r, clkLow, clkHigh, w0, 2);
      r := ReadBit(r, clkLow, clkHigh, w0, 3);
      r := ReadBit(r, clkLow, clkHigh, w0, 4);
      r := ReadBit(r, clkLow, clkHigh, w0, 5);
      r := ReadBit(r, clkLow, clkHigh, w0, 6);
      r := ReadBit(r, clkLow, clkHigh, w0, 7);
      ShiftedIsAnswer(card, w0, ONES);
    }

    // Precompute the clock images, and set DI before the next rising edge.
    method StartRead() returns (clkLow: Reg, clkHigh: Reg)
      requires Wired(pins) && !Clk()
      modifies this
      ensures Resting() && Di() && wire == old(wire)
      ensures ImageB(clkLow, false) && ImageB(clkHigh, true)
      ensures pins.di.B? ==> pins.di.n in clkLow && pins.di.n in clkHigh
    {
      if pins.di.B? {
        clkHigh := Pb() + {pins.clk, pins.di.n};
        clkLow := (Pb() + {pins.di.n}) - {pins.clk};
        PutPb(Pb() + {pins.di.n});
      } else {
        clkHigh := Pb() + {pins.clk};
        clkLow := Pb() - {pins.clk};
        PutPa(Pa() + {pins.di.n});
      }
    }

    method ReadMultiple(dest: array<bv8>, charcnt: nat)
      requires Wired(pins) && charcnt <= dest.Length && !Clk()
      modifies this, dest
      ensures Resting() && wire == SentAll(old(wire), Idle(charcnt))
      ensures dest[..charcnt] == Replies(card, old(wire), Idle(charcnt))
      ensures forall j :: charcnt <= j < dest.Length ==> dest[j] == old(dest[j])
    {
      var clkLow, clkHigh := StartRead();
      var k := 0;
      while k < charcnt
        invariant k <= charcnt && Resting() && Di() && wire == SentAll(old(wire), Idle(k))
        invariant dest[..k] == Replies(card, old(wire), Idle(k))
        invariant forall j :: k <= j < dest.Length ==> dest[j] == old(dest[j])
      {
        IdleNext(card, old(wire), k);
        var r := ReadByte(clkLow, clkHigh);
        dest[k] := r;
        assert dest[..k + 1] == dest[..k] + [r];
        k := k + 1;
      }
    }
  }

  lemma IdleNext(card: Card, wire: seq<Event>, k: nat)
    ensures SentAll(wire, Idle(k + 1)) == Sent(SentAll(wire, Idle(k)), ONES)
    ensures Replies(card, wire, Idle(k + 1))
         == Replies(card, wire, Idle(k)) + [Reply(card, SentAll(wire, Idle(k)), ONES)]
  {
    SentAllSnoc(wire, Idle(k), ONES);
    RepliesSnoc(card, wire, Idle(k), ONES);
    assert Idle(k + 1) == Idle(k) + [ONES];
  }

  lemma NextByte(wire: seq<Event>, q: seq<bv8>, k: nat)
    requires k < |q|
    ensures SentAll(wire, q[..k + 1]) == Sent(SentAll(wire, q[..k]), q[k])
  {
    SentAllSnoc(wire, q[..k], q[k]);
    assert q[..k + 1] == q[..k] + [q[k]];
  }

  lemma EightEdges(wire: seq<Event>, b: bv8)
    ensures wire + [Edge(b & 0x80 != 0)] + [Edge(b & 0x40 != 0)] + [Edge(b & 0x20 != 0)] + [Edge(b & 0x10 != 0)]
          + [Edge(b & 0x08 != 0)] + [Edge(b & 0x04 != 0)] + [Edge(b & 0x02 != 0)] + [Edge(b & 0x01 != 0)]
         == Sent(wire, b)
  {
    FirstEdges(wire, b);
    LastEdges(wire, b);
  }

  lemma FirstEdges(wire: seq<Event>, b: bv8)
    ensures wire + [Edge(b & 0x80 != 0)] + [Edge(b & 0x40 != 0)] + [Edge(b & 0x20 != 0)] + [Edge(b & 0x10 != 0)]
         == wire + Edges(b, 4)
  {
    assert wire + Edges(b, 0) == wire;
    NextEdge(wire, b, 0);
    NextEdge(wire, b, 1);
    NextEdge(wire, b, 2);
    NextEdge(wire, b, 3);
  }

  lemma LastEdges(wire: seq<Event>, b: bv8)
    ensures wire + Edges(b, 4)
          + [Edge(b & 0x08 != 0)] + [Edge(b & 0x04 != 0)] + [Edge(b & 0x02 != 0)] + [Edge(b & 0x01 != 0)]
         == Sent(wire, b)
  {
    NextEdge(wire, b, 4);
    NextEdge(wire, b, 5);
    NextEdge(wire, b, 6);
    NextEdge(wire, b, 7);
  }

  lemma OnesEdge(wire: seq<Event>, k: nat)
    requires k < 8
    ensures wire + Edges(ONES, k) + [Edge(true)] == wire + Edges(ONES, k + 1)
  {
    assert ONES & Mask(k) != 0;
    NextEdge(wire, ONES, k);
  }

  lemma BitStep(card: Card, wire: seq<Event>, b: bv8, k: nat, i: bv8) returns (next: bv8)
    requires k < 8 && i == Mask(k)
    ensures wire + Edges(b, k) + [Edge(b & i != 0)] == wire + Edges(b, k + 1)
    ensures next == Answer(card, wire, b, k + 1)
    ensures next
         == if card(wire + Edges(b, k + 1), true) then Answer(card, wire, b, k) | i else Answer(card, wire, b, k)
  {
    NextEdge(wire, b, k);
    next := Answer(card, wire, b, k + 1);
  }

  lemma NextMask(k: nat)
    requires k <= 8 && Mask(k) != 0
    ensures k < 8 && Mask(k) >> 1 == Mask(k + 1)
  {
  }

  lemma NextEdge(wire: seq<Event>, b: bv8, k: nat)
    requires k < 8
    ensures wire + Edges(b, k) + [Edge(b & Mask(k) != 0)] == wire + Edges(b, k + 1)
  {
  }
}
