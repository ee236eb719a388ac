// Borrowing and returning the port lines of the card (mmc/mmccombo.c, mmc_hardware_init and
// mmc_hardware_cleanup).  Registers are sets of the lines that read one; a saved mask such as
// ~(~padir & m) is kept as the lines m - padir that it clears.

module MmcHardware {
  import opened SpiPins
  import SpiBus
  import opened Integers
  import opened MmcProtocol
  import opened MmcWire
  import opened MmcBlocks

  // The eight registers: assignment, open drain, direction and data of both ports.
  datatype Regs = Regs(papar: Reg, paodr: Reg, padir: Reg, padat: Reg, pbpar: Reg, pbodr: Reg, pbdir: Reg, pbdat: Reg)

  // Saved settings: lines to set again (par, odr, di1, da1) and lines to clear again (di0, da0).
  datatype Saved = Saved(papar: Reg, paodr: Reg, padi0: Reg, padi1: Reg, pada0: Reg, pada1: Reg,
                         pbpar: Reg, pbodr: Reg, pbdi0: Reg, pbdi1: Reg, pbda0: Reg, pbda1: Reg)

  // Lines a wiring uses on each port, as outputs and as input.
  function OutA(w: nat): Reg { if w == 2 then {8} else {} }
  function InA(w: nat): Reg { if w == 1 then {7} else if w == 2 then {9} else {} }
  function OutB(w: nat): Reg { if w == 1 then {22, 23, 19} else if w == 2 then {17, 16} else {17, 16, 19} }
  function InB(w: nat): Reg { if w == 4 then {18} else {} }

  // What a register is while it is borrowed: only lines of out + in differ from e.
  ghost predicate Cleared(now: Reg, e: Reg, lines: Reg, saved: Reg) {
    now == e - lines && saved == e * lines
  }

  ghost predicate Directed(now: Reg, e: Reg, out: Reg, input: Reg, saved0: Reg, saved1: Reg) {
    now == (e + out) - input && saved0 == out - e && saved1 == e * input
  }

  ghost predicate Driven(now: Reg, e: Reg, out: Reg, saved0: Reg, saved1: Reg) {
    now - out == e - out && saved0 == out - e && saved1 == e * out
  }

  // The registers r with the lines of wiring w taken, given that they will be returned as e.
  ghost predicate Taken(w: nat, r: Regs, e: Regs, s: Saved) {
    && Cleared(r.papar, e.papar, OutA(w) + InA(w), s.papar)
    && Cleared(r.paodr, e.paodr, OutA(w) + InA(w), s.paodr)
    && Directed(r.padir, e.padir, OutA(w), InA(w), s.padi0, s.padi1)
    && Driven(r.padat, e.padat, OutA(w), s.pada0, s.pada1)
    && Cleared(r.pbpar, e.pbpar, OutB(w) + InB(w), s.pbpar)
    && Cleared(r.pbodr, e.pbodr, OutB(w) + InB(w), s.pbodr)
    && Directed(r.pbdir, e.pbdir, OutB(w), InB(w), s.pbdi0, s.pbdi1)
    && Driven(r.pbdat, e.pbdat, OutB(w), s.pbda0, s.pbda1)
  }

  predicate Supported(w: nat) { w == 1 || w == 2 || w == 4 }

  // The direction bit of PB18 is cleared by wiring 4 but not saved.
  function Forgotten(w: nat, r: Regs): Regs {
    if w == 4 then r.(pbdir := r.pbdir - {18}) else r
  }

  // Lines of wiring w that are assigned to another function.
  predicate Conflict(w: nat, r: Regs) {
    r.papar * (OutA(w) + InA(w)) != {} || r.pbpar * (OutB(w) + InB(w)) != {}
  }

  lemma CarefulReturn(now: Reg, e: Reg, out: Reg, saved0: Reg, saved1: Reg)
    requires Driven(now, e, out, saved0, saved1)
    ensures (now - saved0) + saved1 == e
  {
    forall x ensures x in (now - saved0) + saved1 <==> x in e {
      assert x in now - out <==> x in e - out;
    }
  }

  function PinsOf(w: nat): Pins { if w == 1 then W1 else if w == 2 then W2 else W4 }

  // The lines that transfers drive are the ones the wiring takes as outputs.
  lemma TransferLines(w: nat)
    requires Supported(w)
    ensures SpiBus.OutA(PinsOf(w)) == OutA(w) && SpiBus.OutB(PinsOf(w)) + {PinsOf(w).cs} == OutB(w)
    ensures SpiBus.InA(PinsOf(w)) == InA(w) && SpiBus.InB(PinsOf(w)) == InB(w)
  {
  }

  // What the transfer routines keep of the data registers is all that a transfer must keep.
  lemma TransferLevels(w: nat, r: Regs, padat: Reg, pbdat: Reg)
    requires Supported(w)
    requires var p := PinsOf(w);
             && padat - SpiBus.OutA(p) == r.padat - SpiBus.OutA(p)
             && pbdat - SpiBus.OutB(p) - {p.cs} == r.pbdat - SpiBus.OutB(p) - {p.cs}
    ensures padat == (r.padat - OutA(w)) + padat * OutA(w) && pbdat == (r.pbdat - OutB(w)) + pbdat * OutB(w)
  {
    TransferLines(w);
    Kept(r.padat, padat, OutA(w));
    var p := PinsOf(w);
    assert pbdat - OutB(w) == pbdat - SpiBus.OutB(p) - {p.cs};
    assert r.pbdat - OutB(w) == r.pbdat - SpiBus.OutB(p) - {p.cs};
    Kept(r.pbdat, pbdat, OutB(w));
  }

  lemma Kept(was: Reg, now: Reg, lines: Reg)
    requires now - lines == was - lines
    ensures now == (was - lines) + now * lines
  {
    assert now == (now - lines) + now * lines;
  }

  // Clock low, chip select and DI high.
  ghost predicate BusIdle(w: nat, r: Regs) {
    var p := PinsOf(w);
    p.clk !in r.pbdat && p.cs in r.pbdat && p.di.n in (if p.di.A? then r.padat else r.pbdat)
  }

  class Hardware {
    var r: Regs
    var myports: Saved
    var actualhard: nat
    ghost var due: Regs           // what the registers are when nothing is borrowed

    ghost predicate Valid()
      reads this
    {
      && (actualhard == 0 || Supported(actualhard))
      && (actualhard == 0 ==> r == due)
      && (actualhard != 0 ==> Taken(actualhard, r, due, myports))
    }

    constructor (r: Regs)
      ensures Valid() && this.r == r && due == r && actualhard == 0
    {
      this.r, due, actualhard := r, r, 0;
      myports := Saved({}, {}, {}, {}, {}, {}, {}, {}, {}, {}, {}, {});
    }

    // mmc_hardware_cleanup
    method Cleanup()
      requires Valid()
      modifies this
      ensures Valid() && actualhard == 0 && r == due == old(due)
    {
      if actualhard == 0 { return; }
      CarefulReturn(r.padat, due.padat, OutA(actualhard), myports.pada0, myports.pada1);
      CarefulReturn(r.pbdat, due.pbdat, OutB(actualhard), myports.pbda0, myports.pbda1);
      r := r.(papar := r.papar + myports.papar);
      r := r.(pbpar := r.pbpar + myports.pbpar);
      r := r.(paodr := r.paodr + myports.paodr);
      r := r.(pbodr := r.pbodr + myports.pbodr);
      r := r.(padir := r.padir - myports.padi0);
      r := r.(pbdir := r.pbdir - myports.pbdi0);
      r := r.(padir := r.padir + myports.padi1);
      r := r.(pbdir := r.pbdir + myports.pbdi1);
      r := r.(padat := r.padat - myports.pada0);
      r := r.(pbdat := r.pbdat - myports.pbda0);
      r := r.(padat := r.padat + myports.pada1);
      r := r.(pbdat := r.pbdat + myports.pbda1);
      actualhard := 0;
    }

    // mmc_hardware_init for a supported wiring; ok is a zero return code.
    method Init(wiringopt: nat, forcehw: bool) returns (ok: bool)
      requires Valid() && Supported(wiringopt)
      modifies this
      ensures Valid()
      ensures old(actualhard) == wiringopt ==> ok && (r, due, actualhard) == old((r, due, actualhard))
      ensures old(actualhard) != wiringopt ==>
                && (ok <==> forcehw || !Conflict(wiringopt, old(due)))
                && actualhard == (if ok then wiringopt else 0)
                && due == (if ok then Forgotten(wiringopt, old(due)) else old(due))
                && (ok ==> BusIdle(wiringopt, r))
    {
      if actualhard == wiringopt { return true; }
      Cleanup();
      if wiringopt == 1 {
        ok := TakeWiring1(forcehw);
      } else if wiringopt == 2 {
        ok := TakeWiring2(forcehw);
      } else {
        ok := TakeWiring4(forcehw);
      }
      if ok { actualhard := wiringopt; }
    }

    method TakeWiring1(forcehw: bool) returns (ok: bool)
      requires Valid() && actualhard == 0
      modifies this
      ensures actualhard == 0 && due == old(due)
      ensures ok <==> forcehw || !Conflict(1, due)
      ensures if ok then Taken(1, r, due, myports) && BusIdle(1, r) else r == old(r)
    {
      var rc := (r.papar * {7}) + (r.pbpar * {22, 23, 19});
      ok := forcehw || rc == {};
      if ok {
        myports := Saved(r.papar * {7}, r.paodr * {7}, {} - r.padir, r.padir * {7}, {} - r.padat, {},
                         r.pbpar * {22, 23, 19}, r.pbodr * {22, 23, 19}, {22, 23, 19} - r.pbdir, {},
                         {22, 23, 19} - r.pbdat, r.pbdat * {22, 23, 19});
        r := r.(pbpar := r.pbpar - {22, 23, 19});
        r := r.(pbodr := r.pbodr - {22, 23, 19});
        r := r.(pbdir := r.pbdir + {22, 23, 19});
        r := r.(papar := r.papar - {7});
        r := r.(paodr := r.paodr - {7});
        r := r.(padir := r.padir - {7});
        r := r.(pbdat := r.pbdat - {22});
        r := r.(pbdat := r.pbdat + {19, 23});
      }
    }

    method TakeWiring2(forcehw: bool) returns (ok: bool)
      requires Valid() && actualhard == 0
      modifies this
      ensures actualhard == 0 && due == old(due)
      ensures ok <==> forcehw || !Conflict(2, due)
      ensures if ok then Taken(2, r, due, myports) && BusIdle(2, r) else r == old(r)
    {
      var rc := (r.papar * {9, 8}) + (r.pbpar * {17, 16});
      ok := forcehw || rc == {};
      if ok {
        myports := Saved(r.papar * {9, 8}, r.paodr * {9, 8}, {8} - r.padir, r.padir * {9}, {8} - r.padat, r.padat * {8},
                         r.pbpar * {17, 16}, r.pbodr * {17, 16}, {17, 16} - r.pbdir, {},
                         {16, 17} - r.pbdat, r.pbdat * {17, 16});
        r := r.(pbpar := r.pbpar - {17, 16});
        r := r.(pbodr := r.pbodr - {17, 16});
        r := r.(pbdir := r.pbdir + {17, 16});
        r := r.(papar := r.papar - {9, 8});
        r := r.(paodr := r.paodr - {9, 8});
        r := r.(padir := r.padir + {8});
        r := r.(padir := r.padir - {9});
        r := r.(pbdat := r.pbdat - {17});
        r := r.(padat := r.padat + {8});
        r := r.(pbdat := r.pbdat + {16});
      }
    }

    // The saved direction lines leave out PB18 although its direction bit is cleared.
    method TakeWiring4(forcehw: bool) returns (ok: bool)
      requires Valid() && actualhard == 0
      modifies this
      ensures actualhard == 0
      ensures ok <==> forcehw || !Conflict(4, old(due))
      ensures due == if ok then Forgotten(4, old(due)) else old(due)
      ensures if ok then Taken(4, r, due, myports) && BusIdle(4, r) else r == old(r)
    {
      var rc := r.pbpar * {17, 16, 18, 19};
      ok := forcehw || rc == {};
      if ok {
        myports := Saved({}, {}, {} - r.padir, {}, {} - r.padat, {},
                         r.pbpar * {17, 16, 18, 19}, r.pbodr * {17, 16, 18, 19}, {17, 16, 19} - r.pbdir, {},
                         {16, 17, 19} - r.pbdat, r.pbdat * {17, 16, 19});
        r := r.(pbpar := r.pbpar - {17, 16, 18, 19});
        r := r.(pbodr := r.pbodr - {17, 16, 18, 19});
        r := r.(pbdir := r.pbdir + {17, 16, 19});
        r := r.(pbdir := r.pbdir - {18});
        r := r.(pbdat := r.pbdat - {17});
        r := r.(pbdat := r.pbdat + {16, 19});
        due := Forgotten(4, due);
      }
    }

    // A block transfer of the host drivers on these registers is such a transfer.
    method WriteBlock(mmc: Mmc, opt: nat, addr: Word, data: array<bv8>) returns (rc: nat)
      requires Valid() && Attached(mmc) && data.Length >= BLOCK && data != mmc.writeBuf
      modifies this, mmc.host, mmc.writeBuf
      ensures Valid() && Attached(mmc) && actualhard == old(actualhard) && due == old(due)
      ensures (rc, mmc.host.wire) == Write(mmc.host.card, old(mmc.host.wire), addr, data[..BLOCK])
      ensures exists n1, n2 ::
                WroteBlock(mmc.host.card, old(mmc.host.wire), mmc.host.wire, addr, data[..BLOCK], rc, n1, n2)
    {
      rc := mmc.WriteBlock(opt, addr, data);
      TakeLevels(mmc);
    }

    method ReadBlock(mmc: Mmc, opt: nat, data: array<bv8>, addr: Word) returns (rc: nat)
      requires Valid() && Attached(mmc) && data.Length >= BLOCK && data != mmc.readBuf
      modifies this, mmc.host, mmc.readBuf, data
      ensures Valid() && Attached(mmc) && actualhard == old(actualhard) && due == old(due)
      ensures var c := Read(mmc.host.card, old(mmc.host.wire), addr);
              rc == c.0 && mmc.host.wire == c.1 && (rc == 0 ==> data[..BLOCK] == c.2)
      ensures exists n1, n2 ::
                HasReadBlock(mmc.host.card, old(mmc.host.wire), mmc.host.wire, addr, data[..BLOCK], rc, n1, n2)
    {
      ghost var was := mmc.host.wire;
      rc := mmc.ReadBlock(opt, data, addr);
      ghost var d := data[..BLOCK];
      ghost var n1, n2 :| HasReadBlock(mmc.host.card, was, mmc.host.wire, addr, d, rc, n1, n2);
      TakeLevels(mmc);
      assert data[..BLOCK] == d;
    }

    // The host has driven the lines of the wiring.
    method TakeLevels(mmc: Mmc)
      requires Valid() && Supported(actualhard) && mmc.host.pins == PinsOf(actualhard) && mmc.Ready()
      requires var p := PinsOf(actualhard);
               && mmc.host.padat - SpiBus.OutA(p) == r.padat - SpiBus.OutA(p)
               && mmc.host.pbdat - SpiBus.OutB(p) - {p.cs} == r.pbdat - SpiBus.OutB(p) - {p.cs}
      modifies this
      ensures Valid() && Attached(mmc) && actualhard == old(actualhard) && due == old(due)
    {
      TransferLevels(actualhard, r, mmc.host.padat, mmc.host.pbdat);
      Transfer(mmc.host.padat, mmc.host.pbdat);
    }

    // The host works on these registers with the wiring that is borrowed.
    ghost predicate Attached(mmc: Mmc)
      reads this, mmc.host
    {
      && Supported(actualhard) && mmc.host.pins == PinsOf(actualhard) && mmc.Ready()
      && mmc.host.padat == r.padat && mmc.host.pbdat == r.pbdat
    }

    // Any number of transfers: the output lines of the wiring end with arbitrary levels.
    method Transfer(highA: Reg, highB: Reg)
      requires Valid()
      modifies this
      ensures Valid() && actualhard == old(actualhard) && due == old(due)
      ensures actualhard != 0 ==>
                && r.padat == (old(r).padat - OutA(actualhard)) + highA * OutA(actualhard)
                && r.pbdat == (old(r).pbdat - OutB(actualhard)) + highB * OutB(actualhard)
    {
      if actualhard != 0 {
        r := r.(padat := (r.padat - OutA(actualhard)) + highA * OutA(actualhard),
                pbdat := (r.pbdat - OutB(actualhard)) + highB * OutB(actualhard));
      }
    }

    // Any run of init attempts, transfers and releases, followed by the cleanup of the module exit.
    // The registers come back as they were, exactly unless an attempt with wiring 4 that is forced,
    // or finds its lines free, meets PB18 as an output.
    method Session(ops: seq<Op>)
      requires Valid() && actualhard == 0
      requires forall i :: 0 <= i < |ops| && ops[i].Init? ==> Supported(ops[i].wiringopt)
      modifies this
      ensures actualhard == 0
      ensures r == if Takes4(ops, |ops|, old(r)) then Forgotten(4, old(r)) else old(r)
      ensures r == old(r) <==> !(Takes4(ops, |ops|, old(r)) && 18 in old(r).pbdir)
    {
      ghost var r0 := r;
      for k := 0 to |ops|
        invariant Valid() && Returns(ops, k, r0)
      {
        Perform(ops[k], ops, k, r0);
      }
      Cleanup();
    }

    // What is due after k operations on registers that were r0.
    ghost predicate Returns(ops: seq<Op>, k: nat, r0: Regs)
      requires k <= |ops|
      reads this
    {
      && due == (if Takes4(ops, k, r0) then Forgotten(4, r0) else r0)
      && (actualhard == 4 ==> Takes4(ops, k, r0))
    }

    method Perform(op: Op, ghost ops: seq<Op>, ghost k: nat, ghost r0: Regs)
      requires Valid() && k < |ops| && op == ops[k] && (op.Init? ==> Supported(op.wiringopt))
      requires Returns(ops, k, r0)
      modifies this
      ensures Valid() && Returns(ops, k + 1, r0)
    {
      Takes4Next(ops, k, r0);
      match op
      case Init(w, force) =>
        var _ := Init(w, force);
      case Transfer(a, b) => Transfer(a, b);
      case Release => Cleanup();
    }
  }

  // highA and highB are the output lines that a transfer leaves high.
  datatype Op = Init(wiringopt: nat, force: bool) | Transfer(highA: Reg, highB: Reg) | Release

  // One of the first k operations takes the lines of wiring 4.
  ghost predicate Takes4(ops: seq<Op>, k: nat, r0: Regs)
    requires k <= |ops|
  {
    exists i :: 0 <= i < k && TakesWiring4(ops[i], r0)
  }

  predicate TakesWiring4(op: Op, r0: Regs) { op.Init? && op.wiringopt == 4 && (op.force || !Conflict(4, r0)) }

  lemma Takes4Next(ops: seq<Op>, k: nat, r0: Regs)
    requires k < |ops|
    ensures Takes4(ops, k + 1, r0) <==> Takes4(ops, k, r0) || TakesWiring4(ops[k], r0)
  {
  }
}
