// The bit-banged SPI bus of the MMC/SD card (mmc/mmccombo.c, low-level driver).
//
// The wire history records what the card sees: the level of DI at every rising clock edge, and
// every chip-select change.  The card is an arbitrary function of that history.  DO is an input:
// reading its port bit yields the level the card drives, and writing it has no effect.

module SpiPins {

  // A port line, numbered as in the manual; a port register is the set of its lines that read one,
  // so that |= adds lines, &= ~ removes them, and & tests them.
  datatype Line = A(n: nat) | B(n: nat)
  type Reg = set<nat>

  // One wiring: clock and chip select are on port B, the data lines on either port.
  datatype Pins = Pins(clk: nat, cs: nat, di: Line, dO: Line)

  const W1 := Pins(22, 23, B(19), A(7))
  const W2 := Pins(17, 16, A(8), A(9))
  const W4 := Pins(17, 16, B(19), B(18))

  predicate Wired(p: Pins) {
    && p.clk != p.cs && p.di != p.dO
    && p.di !in {B(p.clk), B(p.cs)} && p.dO !in {B(p.clk), B(p.cs)}
  }

  lemma AllWired()
    ensures Wired(W1) && Wired(W2) && Wired(W4)
  {
  }

  // ---------- The wire ----------

  datatype Event = Edge(di: bool) | Select(level: bool)

  // What the card drives on DO after a history, with the clock high or low.
  type Card = (seq<Event>, bool) -> bool

  // Bit k of a byte, most significant first.
  function Mask(k: nat): bv8
    requires k <= 8
  {
    if k == 0 then 0x80 else if k == 1 then 0x40 else if k == 2 then 0x20 else if k == 3 then 0x10
    else if k == 4 then 0x08 else if k == 5 then 0x04 else if k == 6 then 0x02 else if k == 7 then 0x01 else 0
  }

  // The edges of the first k bits of a byte.
  function Edges(b: bv8, k: nat): seq<Event>
    requires k <= 8
  {
    seq(k, i requires 0 <= i < k => Edge(b & Mask(i) != 0))
  }

  // The bits the card answers while the first k bits of b are clocked out.
  function Answer(card: Card, wire: seq<Event>, b: bv8, k: nat): bv8
    requires k <= 8
  {
    if k == 0 then 0
    else Set(Answer(card, wire, b, k - 1), Level(card, wire, b, k), Mask(k - 1))
  }

  // One byte out, one byte in.
  function Sent(wire: seq<Event>, b: bv8): seq<Event> { wire + Edges(b, 8) }
  function Reply(card: Card, wire: seq<Event>, b: bv8): bv8 { Answer(card, wire, b, 8) }

  // A run of bytes.
  function SentAll(wire: seq<Event>, q: seq<bv8>): seq<Event>
    decreases |q|
  {
    if |q| == 0 then wire else Sent(SentAll(wire, q[..|q| - 1]), q[|q| - 1])
  }

  function Replies(card: Card, wire: seq<Event>, q: seq<bv8>): (r: seq<bv8>)
    ensures |r| == |q|
    decreases |q|
  {
    if |q| == 0 then []
    else Replies(card, wire, q[..|q| - 1]) + [Reply(card, SentAll(wire, q[..|q| - 1]), q[|q| - 1])]
  }

  const ONES: bv8 := 0xFF

  function Idle(n: nat): seq<bv8> { seq(n, _ => ONES) }

  lemma {:induction false} SentAllConcat(wire: seq<Event>, p: seq<bv8>, q: seq<bv8>)
    ensures SentAll(wire, p + q) == SentAll(SentAll(wire, p), q)
    decreases |q|
  {
    if |q| == 0 {
      assert p + q == p;
    } else {
      assert (p + q)[..|p + q| - 1] == p + q[..|q| - 1];
      SentAllConcat(wire, p, q[..|q| - 1]);
    }
  }

  lemma SentAllSnoc(wire: seq<Event>, q: seq<bv8>, b: bv8)
    ensures SentAll(wire, q + [b]) == Sent(SentAll(wire, q), b)
  {
    assert (q + [b])[..|q + [b]| - 1] == q;
  }

  lemma RepliesSnoc(card: Card, wire: seq<Event>, q: seq<bv8>, b: bv8)
    ensures Replies(card, wire, q + [b]) == Replies(card, wire, q) + [Reply(card, SentAll(wire, q), b)]
  {
    assert (q + [b])[..|q + [b]| - 1] == q;
  }

  // The shift register form used by the burst routines.
  function Shifted(card: Card, wire: seq<Event>, b: bv8, k: nat): bv8
    requires k <= 8
  {
    if k == 0 then 0
    else Push(Shifted(card, wire, b, k - 1), Level(card, wire, b, k))
  }

  // The level on DO behind the k-th edge of b.
  function Level(card: Card, wire: seq<Event>, b: bv8, k: nat): bool
    requires k <= 8
  {
    card(wire + Edges(b, k), true)
  }

  function Set(r: bv8, x: bool, m: bv8): bv8 { if x then r | m else r }
  function Push(r: bv8, x: bool): bv8 { (r << 1) | Bit(x) }

  // Shifting in eight bits gives the same byte as setting eight mask bits.
  lemma ShiftedIsAnswer(card: Card, wire: seq<Event>, b: bv8)
    ensures Shifted(card, wire, b, 8) == Answer(card, wire, b, 8)
  {
    AnswerUnrolled(card, wire, b);
    ShiftedUnrolled(card, wire, b);
    ShiftEight(Level(card, wire, b, 1), Level(card, wire, b, 2), Level(card, wire, b, 3), Level(card, wire, b, 4),
               Level(card, wire, b, 5), Level(card, wire, b, 6), Level(card, wire, b, 7), Level(card, wire, b, 8));
  }

  lemma AnswerUnrolled(card: Card, wire: seq<Event>, b: bv8)
    ensures Answer(card, wire, b, 8) ==
      SetEight(Level(card, wire, b, 1), Level(card, wire, b, 2), Level(card, wire, b, 3), Level(card, wire, b, 4),
               Level(card, wire, b, 5), Level(card, wire, b, 6), Level(card, wire, b, 7), Level(card, wire, b, 8))
  {
    assert Answer(card, wire, b, 1) == Set(0, Level(card, wire, b, 1), 0x80);
    assert Answer(card, wire, b, 2) == Set(Set(0, Level(card, wire, b, 1), 0x80), Level(card, wire, b, 2), 0x40);
    assert Answer(card, wire, b, 4) == Set(Set(Answer(card, wire, b, 2), Level(card, wire, b, 3), 0x20),
        Level(card, wire, b, 4), 0x10);
    assert Answer(card, wire, b, 6) == Set(Set(Answer(card, wire, b, 4), Level(card, wire, b, 5), 0x08),
        Level(card, wire, b, 6), 0x04);
    assert Answer(card, wire, b, 8) == Set(Set(Answer(card, wire, b, 6), Level(card, wire, b, 7), 0x02),
        Level(card, wire, b, 8), 0x01);
  }

  lemma ShiftedUnrolled(card: Card, wire: seq<Event>, b: bv8)
    ensures Shifted(card, wire, b, 8) ==
      PushEight(Level(card, wire, b, 1), Level(card, wire, b, 2), Level(card, wire, b, 3), Level(card, wire, b, 4),
                Level(card, wire, b, 5), Level(card, wire, b, 6), Level(card, wire, b, 7), Level(card, wire, b, 8))
  {
    assert Shifted(card, wire, b, 1) == Push(0, Level(card, wire, b, 1));
    assert Shifted(card, wire, b, 2) == Push(Push(0, Level(card, wire, b, 1)), Level(card, wire, b, 2));
    assert Shifted(card, wire, b, 4) == Push(Push(Shifted(card, wire, b, 2), Level(card, wire, b, 3)),
        Level(card, wire, b, 4));
    assert Shifted(card, wire, b, 6) == Push(Push(Shifted(card, wire, b, 4), Level(card, wire, b, 5)),
        Level(card, wire, b, 6));
    assert Shifted(card, wire, b, 8) == Push(Push(Shifted(card, wire, b, 6), Level(card, wire, b, 7)),
        Level(card, wire, b, 8));
  }

  function Bit(x: bool): bv8 { if x then 1 else 0 }

  function SetEight(a: bool, b: bool, c: bool, d: bool, e: bool, f: bool, g: bool, h: bool): bv8 {
    Set(Set(Set(Set(Set(Set(Set(Set(0, a, 0x80), b, 0x40), c, 0x20), d, 0x10), e, 0x08), f, 0x04), g, 0x02), h, 0x01)
  }

  function PushEight(a: bool, b: bool, c: bool, d: bool, e: bool, f: bool, g: bool, h: bool): bv8 {
    Push(Push(Push(Push(Push(Push(Push(Push(0, a), b), c), d), e), f), g), h)
  }

  lemma ShiftEight(a: bool, b: bool, c: bool, d: bool, e: bool, f: bool, g: bool, h: bool)
    ensures PushEight(a, b, c, d, e, f, g, h) == SetEight(a, b, c, d, e, f, g, h)
  {
  }
}
