// The wire protocol of block transfers on the SPI bus of the card (mmc/mmccombo.c, high-level driver):
// what one transfer puts on the wire and returns, for every card.

module MmcProtocol {
  import opened Integers
  import opened SpiPins

  const START_TOKEN: bv8 := 0xFE
  const CMD_READ: bv8 := 0x51
  const CMD_WRITE: bv8 := 0x58
  const BLOCK := 512
  const RESPONSE_POLLS := 8
  const TOKEN_POLLS := 100000
  const BUSY_POLLS := 1000000

  // ---------- The protocol ----------

  function LowByte(a: nat): bv8 { (a % 0x100) as bv8 }

  // The command and its four address bytes, most significant first.
  function Command(cmd: bv8, addr: Word): seq<bv8> {
    [cmd, LowByte(addr / 0x100_0000), LowByte(addr / 0x1_0000), LowByte(addr / 0x100), LowByte(addr)]
  }

  // Chip select low, four idle bytes, the command, and one byte for its checksum.
  function Opened(wire: seq<Event>, cmd: bv8, addr: Word): seq<Event> {
    Sent(SentAll(SentAll(wire + [Select(false)], Idle(4)), Command(cmd, addr)), ONES)
  }

  // Read single bytes until the wanted one arrives, at most limit times.
  function Polled(card: Card, wire: seq<Event>, want: bv8, limit: nat): (bool, seq<Event>)
    decreases limit
  {
    if limit == 0 then (false, wire)
    else if Reply(card, wire, ONES) == want then (true, Sent(wire, ONES))
    else Polled(card, Sent(wire, ONES), want, limit - 1)
  }

  // Chip select high and eight more clocks.
  function Closed(wire: seq<Event>): seq<Event> { Sent(wire + [Select(true)], ONES) }

  // Return code and wire history of a block write.
  function Write(card: Card, wire: seq<Event>, addr: Word, data: seq<bv8>): (nat, seq<Event>) {
    var r := Polled(card, Opened(wire, CMD_WRITE, addr), 0, RESPONSE_POLLS);
    if !r.0 then (1, Closed(r.1))
    else
      var busy := Polled(card, SentAll(SentAll(Sent(r.1, START_TOKEN), data), Idle(2)), 0xFF, BUSY_POLLS);
      (if busy.0 then 0 else 3, Closed(busy.1))
  }

  // Return code, wire history and data of a block read.
  function Read(card: Card, wire: seq<Event>, addr: Word): (nat, seq<Event>, seq<bv8>) {
    var r := Polled(card, Opened(wire, CMD_READ, addr), 0, RESPONSE_POLLS);
    if !r.0 then (1, Closed(r.1), [])
    else
      var token := Polled(card, r.1, START_TOKEN, TOKEN_POLLS);
      if !token.0 then (2, Closed(token.1), [])
      else (0, Closed(SentAll(SentAll(token.1, Idle(BLOCK)), Idle(2))), Replies(card, token.1, Idle(BLOCK)))
  }

  // ---------- Every transaction is bracketed by one chip-select pair ----------

  // w1 extends w0 by clock edges only.
  ghost predicate Clocked(w0: seq<Event>, w1: seq<Event>) {
    && |w0| <= |w1| && w1[..|w0|] == w0
    && forall i :: |w0| <= i < |w1| ==> w1[i].Edge?
  }

  lemma ClockedTrans(w0: seq<Event>, w1: seq<Event>, w2: seq<Event>)
    requires Clocked(w0, w1) && Clocked(w1, w2)
    ensures Clocked(w0, w2)
  {
    assert w2[..|w0|] == w2[..|w1|][..|w0|];
    forall i | |w0| <= i < |w2| ensures w2[i].Edge? {
      if i < |w1| { assert w2[i] == w2[..|w1|][i]; }
    }
  }

  lemma {:induction false} SentClocked(wire: seq<Event>, q: seq<bv8>)
    ensures Clocked(wire, SentAll(wire, q))
    decreases |q|
  {
    if |q| > 0 {
      SentClocked(wire, q[..|q| - 1]);
      ClockedTrans(wire, SentAll(wire, q[..|q| - 1]), SentAll(wire, q));
    }
  }

  lemma {:induction false} PolledClocked(card: Card, wire: seq<Event>, want: bv8, limit: nat)
    ensures Clocked(wire, Polled(card, wire, want, limit).1)
    decreases limit
  {
    if limit > 0 && Reply(card, wire, ONES) != want {
      PolledClocked(card, Sent(wire, ONES), want, limit - 1);
      ClockedTrans(wire, Sent(wire, ONES), Polled(card, wire, want, limit).1);
    }
  }

  // w is the history wire, chip select low, clock edges, chip select high, and eight idle edges.
  ghost predicate Bracketed(wire: seq<Event>, w: seq<Event>) {
    exists body :: Clocked(wire + [Select(false)], body) && w == Closed(body)
  }

  lemma OpenedClocked(wire: seq<Event>, cmd: bv8, addr: Word)
    ensures Clocked(wire + [Select(false)], Opened(wire, cmd, addr))
  {
    var w0 := wire + [Select(false)];
    var w1 := SentAll(w0, Idle(4));
    var w2 := SentAll(w1, Command(cmd, addr));
    SentClocked(w0, Idle(4));
    SentClocked(w1, Command(cmd, addr));
    ClockedTrans(w0, w1, w2);
    ClockedTrans(w0, w2, Sent(w2, ONES));
  }

  // On every exit, a write leaves the card deselected after exactly one selection.
  lemma WriteBracketed(card: Card, wire: seq<Event>, addr: Word, data: seq<bv8>)
    ensures Bracketed(wire, Write(card, wire, addr, data).1)
  {
    var w0 := wire + [Select(false)];
    OpenedClocked(wire, CMD_WRITE, addr);
    var o := Opened(wire, CMD_WRITE, addr);
    PolledClocked(card, o, 0, RESPONSE_POLLS);
    var r := Polled(card, o, 0, RESPONSE_POLLS);
    ClockedTrans(w0, o, r.1);
    if r.0 {
      var t := Sent(r.1, START_TOKEN);
      SentClocked(t, data);
      SentClocked(SentAll(t, data), Idle(2));
      ClockedTrans(w0, r.1, t);
      ClockedTrans(w0, t, SentAll(t, data));
      var s := SentAll(SentAll(t, data), Idle(2));
      ClockedTrans(w0, SentAll(t, data), s);
      PolledClocked(card, s, 0xFF, BUSY_POLLS);
      ClockedTrans(w0, s, Polled(card, s, 0xFF, BUSY_POLLS).1);
    }
  }

  lemma ReadBracketed(card: Card, wire: seq<Event>, addr: Word)
    ensures Bracketed(wire, Read(card, wire, addr).1)
  {
    var w0 := wire + [Select(false)];
    OpenedClocked(wire, CMD_READ, addr);
    var o := Opened(wire, CMD_READ, addr);
    PolledClocked(card, o, 0, RESPONSE_POLLS);
    var r := Polled(card, o, 0, RESPONSE_POLLS);
    ClockedTrans(w0, o, r.1);
    if r.0 {
      PolledClocked(card, r.1, START_TOKEN, TOKEN_POLLS);
      var token := Polled(card, r.1, START_TOKEN, TOKEN_POLLS);
      ClockedTrans(w0, r.1, token.1);
      if token.0 {
        var d := SentAll(token.1, Idle(BLOCK));
        SentClocked(token.1, Idle(BLOCK));
        SentClocked(d, Idle(2));
        ClockedTrans(w0, token.1, d);
        ClockedTrans(w0, d, SentAll(d, Idle(2)));
      }
    }
  }
}
