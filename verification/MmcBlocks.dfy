// Block transfers of the card driver (mmc/mmccombo.c, high-level driver).  The failsafe path
// (opt = 0) and the optimised path (opt = 1) are proved against one wire protocol: for every
// card they produce the same wire history, the same return code and the same data.

module MmcBlocks {
  import opened Integers
  import opened SpiPins
  import opened SpiBus
  import opened MmcProtocol
  import opened MmcWire

  lemma SentFive(wire: seq<Event>, a: bv8, b: bv8, c: bv8, d: bv8, e: bv8)
    ensures SentAll(wire, [a, b, c, d, e]) == Sent(Sent(Sent(Sent(Sent(wire, a), b), c), d), e)
  {
    SentOne(wire, [a]);
    SentAllSnoc(wire, [a], b);
    assert [a] + [b] == [a, b];
    SentAllSnoc(wire, [a, b], c);
    assert [a, b] + [c] == [a, b, c];
    SentAllSnoc(wire, [a, b, c], d);
    assert [a, b, c] + [d] == [a, b, c, d];
    SentAllSnoc(wire, [a, b, c, d], e);
    assert [a, b, c, d] + [e] == [a, b, c, d, e];
  }

  lemma SentOne(wire: seq<Event>, q: seq<bv8>)
    requires |q| == 1
    ensures SentAll(wire, q) == Sent(wire, q[0])
  {
    assert q[..0] == [];
  }

  class Mmc {
    const host: SpiHost
    const writeBuf: array<bv8>    // the static buffers of mmc_write_block and mmc_read_block
    const readBuf: array<bv8>

    constructor (host: SpiHost)
      ensures this.host == host && fresh(writeBuf) && writeBuf.Length == 8 && fresh(readBuf) && readBuf.Length == 5
    {
      this.host := host;
      writeBuf := new bv8[8];
      readBuf := new bv8[5];
    }

    // mmc_write_block: the option selects the routines, not the outcome.
    method WriteBlock(opt: nat, addr: Word, data: array<bv8>) returns (rc: nat)
      requires Ready() && data.Length >= BLOCK && data != writeBuf
      modifies host, writeBuf
      ensures Ready() && host.OnlyBus() && (rc, host.wire) == Write(host.card, old(host.wire), addr, data[..BLOCK])
      ensures exists n1, n2 :: WroteBlock(host.card, old(host.wire), host.wire, addr, data[..BLOCK], rc, n1, n2)
    {
      ghost var n1, n2 := WriteOnWire(host.card, host.wire, addr, data[..BLOCK]);
      if opt == 0 {
        rc := WriteBlockIo(addr, data);
      } else {
        rc := WriteBlockOpt(addr, data);
      }
    }

    // mmc_read_block
    method ReadBlock(opt: nat, data: array<bv8>, addr: Word) returns (rc: nat)
      requires Ready() && data.Length >= BLOCK && data != readBuf
      modifies host, readBuf, data
      ensures Ready() && host.OnlyBus()
      ensures var r := Read(host.card, old(host.wire), addr);
              rc == r.0 && host.wire == r.1 && (rc == 0 ==> data[..BLOCK] == r.2)
      ensures rc != 0 ==> data[..] == old(data[..])
      ensures data[BLOCK..] == old(data[BLOCK..])
      ensures exists n1, n2 :: HasReadBlock(host.card, old(host.wire), host.wire, addr, data[..BLOCK], rc, n1, n2)
    {
      ghost var n1, n2 := ReadOnWire(host.card, host.wire, addr);
      ghost var was := host.wire;
      if opt == 0 {
        rc := ReadBlockIo(data, addr);
      } else {
        rc := ReadBlockOpt(data, addr);
      }
      DataUnread(host.card, was, host.wire, addr, Read(host.card, was, addr).2, data[..BLOCK], rc, n1, n2);
    }

    predicate Ready()
      reads host
    {
      writeBuf.Length == 8 && readBuf.Length == 5 && Wired(host.pins) && !host.Clk()
    }

    // ---------- opt = 0 ----------

    method IdleIo(n: nat)
      requires Ready()
      modifies host
      ensures Ready() && host.OnlyBus() && host.wire == SentAll(old(host.wire), Idle(n))
    {
      var i := 0;
      while i < n
        invariant 0 <= i <= n && Ready() && host.OnlyBus() && host.wire == SentAll(old(host.wire), Idle(i))
      {
        IdleNext(host.card, old(host.wire), i);
        var _ := host.Io(ONES);
        i := i + 1;
      }
    }

    method OpenIo(cmd: bv8, addr: Word)
      requires Ready()
      modifies host
      ensures Ready() && host.OnlyBus() && host.wire == Opened(old(host.wire), cmd, addr)
    {
      host.SetCs(false);
      IdleIo(4);
      ghost var w4 := host.wire;
      var _ := host.Io(cmd);
      var _ := host.Io(LowByte(addr / 0x100_0000));
      var _ := host.Io(LowByte(addr / 0x1_0000));
      var _ := host.Io(LowByte(addr / 0x100));
      var _ := host.Io(LowByte(addr));
      SentFive(w4, cmd, LowByte(addr / 0x100_0000), LowByte(addr / 0x1_0000), LowByte(addr / 0x100), LowByte(addr));
      var _ := host.Io(ONES);
    }

    method PollIo(want: bv8, limit: nat) returns (ok: bool)
      requires Ready() && limit > 0
      modifies host
      ensures Ready() && host.OnlyBus() && (ok, host.wire) == Polled(host.card, old(host.wire), want, limit)
    {
      var r := !want;
      var i := 0;
      while i < limit
        invariant 0 <= i <= limit && Ready() && host.OnlyBus() && r != want
        invariant Polled(host.card, host.wire, want, limit - i) == Polled(host.card, old(host.wire), want, limit)
      {
        r := host.Io(ONES);
        if r == want { return true; }
        i := i + 1;
      }
      ok := r == want;
    }

    method CloseIo()
      requires Ready()
      modifies host
      ensures Ready() && host.OnlyBus() && host.wire == Closed(old(host.wire))
    {
      host.SetCs(true);
      var _ := host.Io(ONES);
    }

    method WriteBlockIo(addr: Word, data: array<bv8>) returns (rc: nat)
      requires Ready() && data.Length >= BLOCK
      modifies host
      ensures Ready() && host.OnlyBus() && (rc, host.wire) == Write(host.card, old(host.wire), addr, data[..BLOCK])
    {
      OpenIo(CMD_WRITE, addr);
      var ok := PollIo(0, RESPONSE_POLLS);
      if !ok {
        CloseIo();
        return 1;
      }
      var _ := host.Io(START_TOKEN);
      host.IoWrite(data, 0, BLOCK);
      assert data[0..BLOCK] == data[..BLOCK];
      IdleIo(2);
      ok := PollIo(0xFF, BUSY_POLLS);
      CloseIo();
      rc := if ok then 0 else 3;
    }

    method ReadBlockIo(data: array<bv8>, addr: Word) returns (rc: nat)
      requires Ready() && data.Length >= BLOCK
      modifies host, data
      ensures Ready() && host.OnlyBus()
      ensures var r := Read(host.card, old(host.wire), addr);
              rc == r.0 && host.wire == r.1 && (rc == 0 ==> data[..BLOCK] == r.2)
      ensures rc != 0 ==> data[..] == old(data[..])
      ensures data[BLOCK..] == old(data[BLOCK..])
    {
      OpenIo(CMD_READ, addr);
      var ok := PollIo(0, RESPONSE_POLLS);
      if !ok {
        CloseIo();
        return 1;
      }
      ok := PollIo(START_TOKEN, TOKEN_POLLS);
      if !ok {
        CloseIo();
        return 2;
      }
      host.IoRead(data, BLOCK);
      IdleIo(2);
      CloseIo();
      rc := 0;
    }

    // ---------- opt = 1 ----------

    // Read into the buffer, then build the command in it.
    method FillCommand(buf: array<bv8>, cmd: bv8, addr: Word)
      requires Ready() && buf.Length >= 5
      modifies buf
      ensures buf[..5] == Command(cmd, addr)
    {
      ShiftedAddress(addr);
      var a := addr;
      buf[0] := cmd;
      buf[4] := LowByte(a);
      a := a / 0x100;
      buf[3] := LowByte(a);
      a := a / 0x100;
      buf[2] := LowByte(a);
      a := a / 0x100;
      buf[1] := LowByte(a);
    }

    method PollOpt(buf: array<bv8>, want: bv8, limit: nat) returns (ok: bool)
      requires Ready() && buf.Length >= 5 && limit > 0
      modifies host, buf
      ensures Ready() && host.OnlyBus() && (ok, host.wire) == Polled(host.card, old(host.wire), want, limit)
      ensures buf[1..] == old(buf[1..])
    {
      var i := 0;
      while i < limit
        invariant 0 <= i <= limit && Ready() && host.OnlyBus() && (i > 0 ==> buf[0] != want)
        invariant Polled(host.card, host.wire, want, limit - i) == Polled(host.card, old(host.wire), want, limit)
        invariant buf[1..] == old(buf[1..])
      {
        ReadOne(buf);
        if buf[0] == want { return true; }
        i := i + 1;
      }
      ok := buf[0] == want;
    }

    method ReadOne(buf: array<bv8>)
      requires Ready() && buf.Length >= 5
      modifies host, buf
      ensures Ready() && host.OnlyBus() && host.wire == Sent(old(host.wire), ONES)
      ensures buf[0] == Reply(host.card, old(host.wire), ONES) && buf[1..] == old(buf[1..])
    {
      SentOne(host.wire, Idle(1));
      ghost var w := host.wire;
      IdleNext(host.card, w, 0);
      host.ReadMultiple(buf, 1);
      assert buf[..1][0] == buf[0];
    }

    method CloseOpt(buf: array<bv8>)
      requires Ready() && buf.Length >= 5
      modifies host, buf
      ensures Ready() && host.OnlyBus() && host.wire == Closed(old(host.wire))
    {
      host.SetCs(true);
      ReadOne(buf);
    }

    // The buffer keeps the two checksum bytes and the start token behind the command.
    method OpenWrite(addr: Word)
      requires Ready()
      modifies host, writeBuf
      ensures Ready() && host.OnlyBus() && host.wire == Opened(old(host.wire), CMD_WRITE, addr)
      ensures writeBuf[5] == ONES && writeBuf[6] == ONES && writeBuf[7] == START_TOKEN
    {
      host.SetCs(false);
      host.ReadMultiple(writeBuf, 4);
      FillCommand(writeBuf, CMD_WRITE, addr);
      writeBuf[5] := ONES;
      writeBuf[6] := ONES;
      writeBuf[7] := START_TOKEN;
      SentAllSnoc(host.wire, Command(CMD_WRITE, addr), ONES);
      assert writeBuf[0..0 + 6] == writeBuf[..5] + [ONES];
      host.WriteMultiple(writeBuf, 0, 6);
    }

    method OpenRead(addr: Word)
      requires Ready()
      modifies host, readBuf
      ensures Ready() && host.OnlyBus() && host.wire == Opened(old(host.wire), CMD_READ, addr)
    {
      host.SetCs(false);
      host.ReadMultiple(readBuf, 4);
      FillCommand(readBuf, CMD_READ, addr);
      assert readBuf[0..0 + 5] == readBuf[..5];
      host.WriteMultiple(readBuf, 0, 5);
      ReadOne(readBuf);
    }

    method WriteBlockOpt(addr: Word, data: array<bv8>) returns (rc: nat)
      requires Ready() && data.Length >= BLOCK && data != writeBuf
      modifies host, writeBuf
      ensures Ready() && host.OnlyBus() && (rc, host.wire) == Write(host.card, old(host.wire), addr, data[..BLOCK])
    {
      OpenWrite(addr);
      var ok := PollOpt(writeBuf, 0, RESPONSE_POLLS);
      if !ok {
        CloseOpt(writeBuf);
        return 1;
      }
      SentOne(host.wire, writeBuf[7..8]);
      host.WriteMultiple(writeBuf, 7, 1);
      host.WriteMultiple(data, 0, BLOCK);
      assert data[0..BLOCK] == data[..BLOCK];
      assert writeBuf[5..5 + 2] == Idle(2);
      host.WriteMultiple(writeBuf, 5, 2);
      ok := PollOpt(writeBuf, 0xFF, BUSY_POLLS);
      CloseOpt(writeBuf);
      rc := if ok then 0 else 3;
    }

    method ReadBlockOpt(data: array<bv8>, addr: Word) returns (rc: nat)
      requires Ready() && data.Length >= BLOCK && data != readBuf
      modifies host, readBuf, data
      ensures Ready() && host.OnlyBus()
      ensures var r := Read(host.card, old(host.wire), addr);
              rc == r.0 && host.wire == r.1 && (rc == 0 ==> data[..BLOCK] == r.2)
      ensures rc != 0 ==> data[..] == old(data[..])
      ensures data[BLOCK..] == old(data[BLOCK..])
    {
      OpenRead(addr);
      var ok := PollOpt(readBuf, 0, RESPONSE_POLLS);
      if !ok {
        CloseOpt(readBuf);
        return 1;
      }
      ok := PollOpt(readBuf, START_TOKEN, TOKEN_POLLS);
      if !ok {
        CloseOpt(readBuf);
        return 2;
      }
      host.ReadMultiple(data, BLOCK);
      host.ReadMultiple(readBuf, 2);
      CloseOpt(readBuf);
      rc := 0;
    }
  }

  lemma ShiftedAddress(addr: Word)
    ensures addr / 0x100 / 0x100 == addr / 0x1_0000 && addr / 0x100 / 0x100 / 0x100 == addr / 0x100_0000
  {
  }
}
