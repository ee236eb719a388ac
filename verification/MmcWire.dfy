// What an observer of the SPI wire sees of a block transfer (mmc/mmccombo.c): bytes are read from the
// clock edges with the highest bit first, and the answers of the card from its level behind each
// edge.  Nothing here refers to how the driver builds its bytes.

module MmcWire {
  import opened Integers
  import opened SpiPins
  import opened MmcProtocol

  // ---------- Reading the wire ----------

  function One(x: bool): nat { if x then 1 else 0 }

  // Bits as a number, the highest first.
  function Value(bits: seq<bool>): nat
    decreases |bits|, bits
  {
    if |bits| == 0 then 0 else 2 * Value(bits[..|bits| - 1]) + One(bits[|bits| - 1])
  }

  // The byte of the eight edges from position a on.
  function ByteAt(wire: seq<Event>, a: nat): nat
    requires a + 8 <= |wire|
  {
    Value(seq(8, i requires 0 <= i < 8 => wire[a + i] == Edge(true)))
  }

  // The byte that the card answers meanwhile: its level behind each edge.
  function ReplyAt(card: Card, wire: seq<Event>, a: nat): nat
    requires a + 8 <= |wire|
  {
    Value(seq(8, i requires 0 <= i < 8 => card(wire[..a + i + 1], true)))
  }

  // The b-th byte behind position s, and the b-th reply.
  function ByteNo(wire: seq<Event>, s: nat, b: nat): nat
    requires s + 8 * b + 8 <= |wire|
  {
    ByteAt(wire, s + 8 * b)
  }

  function ReplyNo(card: Card, wire: seq<Event>, s: nat, b: nat): nat
    requires s + 8 * b + 8 <= |wire|
  {
    ReplyAt(card, wire, s + 8 * b)
  }

  // Between two histories: chip select low, n bytes of clock edges, chip select high, and one byte of ones.
  ghost predicate Framed(before: seq<Event>, after: seq<Event>, n: nat) {
    var s := |before| + 1;
    && |after| == s + 8 * n + 9 && after[..|before|] == before
    && after[|before|] == Select(false) && after[s + 8 * n] == Select(true)
    && (forall i :: s <= i < |after| && i != s + 8 * n ==> after[i].Edge?)
    && ByteNo(after, s + 8 * n + 1, 0) == 0xFF
  }

  // The n bytes behind position s, and the n replies.
  function BytesOf(wire: seq<Event>, s: nat, n: nat): seq<nat>
    requires s + 8 * n <= |wire|
  {
    seq(n, b requires 0 <= b < n => ByteNo(wire, s, b))
  }

  function RepliesOf(card: Card, wire: seq<Event>, s: nat, n: nat): seq<nat>
    requires s + 8 * n <= |wire|
  {
    seq(n, b requires 0 <= b < n => ReplyNo(card, wire, s, b))
  }

  // n bytes of ones from byte f on, until the card answers want to the last one, or limit bytes without.
  ghost predicate Asked(bytes: seq<nat>, replies: seq<nat>, f: nat, n: nat, want: nat, limit: nat, ok: bool)
    requires f + n <= |bytes| && |replies| == |bytes|
  {
    && n <= limit && (forall b :: f <= b < f + n ==> bytes[b] == 0xFF)
    && (ok ==> 0 < n && replies[f + n - 1] == want)
    && (!ok ==> n == limit)
    && (forall b :: f <= b < f + n && (ok ==> b < f + n - 1) ==> replies[b] != want)
  }

  // Four bytes of ones, the command with its address, and a byte of ones for the checksum.
  ghost predicate Commanded(bytes: seq<nat>, cmd: nat, addr: Word)
    requires |bytes| >= 10
  {
    && bytes[0] == bytes[1] == bytes[2] == bytes[3] == 0xFF && bytes[4] == cmd
    && ((bytes[5] * 0x100 + bytes[6]) * 0x100 + bytes[7]) * 0x100 + bytes[8] == addr
    && bytes[9] == 0xFF
  }

  // A block write that returned rc, with n1 bytes of polling for the response and n2 for the end.
  ghost predicate WriteSent(bytes: seq<nat>, replies: seq<nat>, addr: Word, data: seq<bv8>, rc: nat, n1: nat, n2: nat)
    requires |data| == 512
  {
    && rc in {0, 1, 3}
    && |bytes| == |replies| == (if rc == 1 then 10 + n1 else 525 + n1 + n2)
    && Commanded(bytes, 0x58, addr)
    && Asked(bytes, replies, 10, n1, 0, 8, rc != 1)
    && (rc != 1 ==>
          && bytes[10 + n1] == 0xFE
          && (forall i :: 0 <= i < 512 ==> bytes[11 + n1 + i] == data[i] as int)
          && bytes[523 + n1] == 0xFF && bytes[524 + n1] == 0xFF
          && Asked(bytes, replies, 525 + n1, n2, 0xFF, 1000000, rc == 0))
  }

  // A block read that returned rc, with n1 bytes of polling for the response and n2 for the data.
  ghost predicate ReadSent(bytes: seq<nat>, replies: seq<nat>, addr: Word, data: seq<bv8>, rc: nat, n1: nat, n2: nat) {
    && rc in {0, 1, 2}
    && |bytes| == |replies| == (if rc == 1 then 10 + n1 else if rc == 2 then 10 + n1 + n2 else 524 + n1 + n2)
    && Commanded(bytes, 0x51, addr)
    && Asked(bytes, replies, 10, n1, 0, 8, rc != 1)
    && (rc != 1 ==> Asked(bytes, replies, 10 + n1, n2, 0xFE, 100000, rc == 0))
    && (rc == 0 ==>
          && |data| == 512
          && (forall i :: 0 <= i < 512 ==> replies[10 + n1 + n2 + i] == data[i] as int)
          && (forall b :: 10 + n1 + n2 <= b < 524 + n1 + n2 ==> bytes[b] == 0xFF))
  }

  // All bytes between the chip-select changes, and all replies to them.
  ghost predicate WroteBlock(card: Card, before: seq<Event>, after: seq<Event>, addr: Word, data: seq<bv8>,
                             rc: nat, n1: nat, n2: nat)
    requires |data| == 512
  {
    var s, n := |before| + 1, if rc == 1 then 10 + n1 else 525 + n1 + n2;
    && Framed(before, after, n)
    && WriteSent(BytesOf(after, s, n), RepliesOf(card, after, s, n), addr, data, rc, n1, n2)
  }

  ghost predicate HasReadBlock(card: Card, before: seq<Event>, after: seq<Event>, addr: Word, data: seq<bv8>,
                               rc: nat, n1: nat, n2: nat)
  {
    var s, n := |before| + 1, if rc == 1 then 10 + n1 else if rc == 2 then 10 + n1 + n2 else 524 + n1 + n2;
    && Framed(before, after, n)
    && ReadSent(BytesOf(after, s, n), RepliesOf(card, after, s, n), addr, data, rc, n1, n2)
  }

  // ---------- One byte ----------

  lemma ValueOfEight(a: bool, b: bool, c: bool, d: bool, e: bool, f: bool, g: bool, h: bool)
    ensures Value([a, b, c, d, e, f, g, h]) == Sum(a, b, c, d, e, f, g, h)
  {
    FirstFour(a, b, c, d);
    ValueOfFour([a, b, c, d], e, f, g, h);
    assert [a, b, c, d] + [e, f, g, h] == [a, b, c, d, e, f, g, h];
  }

  lemma FirstFour(a: bool, b: bool, c: bool, d: bool)
    ensures Value([a, b, c, d]) == 8 * One(a) + 4 * One(b) + 2 * One(c) + One(d)
  {
    ValueOfFour([], a, b, c, d);
    assert [] + [a, b, c, d] == [a, b, c, d];
  }

  lemma ValueOfFour(bits: seq<bool>, a: bool, b: bool, c: bool, d: bool)
    ensures Value(bits + [a, b, c, d])
         == 0x10 * Value(bits) + 8 * One(a) + 4 * One(b) + 2 * One(c) + One(d)
  {
    ValueMore(bits, a);
    ValueMore(bits + [a], b);
    ValueMore(bits + [a] + [b], c);
    ValueMore(bits + [a] + [b] + [c], d);
    assert bits + [a] + [b] + [c] + [d] == bits + [a, b, c, d];
  }

  lemma ValueMore(bits: seq<bool>, x: bool)
    ensures Value(bits + [x]) == 2 * Value(bits) + One(x)
  {
    assert (bits + [x])[..|bits|] == bits;
  }

  function Sum(a: bool, b: bool, c: bool, d: bool, e: bool, f: bool, g: bool, h: bool): nat {
    0x80 * One(a) + 0x40 * One(b) + 0x20 * One(c) + 0x10 * One(d) + 8 * One(e) + 4 * One(f) + 2 * One(g) + One(h)
  }

  lemma ByteBits(b: bv8)
    ensures b as int == Sum(b & 0x80 != 0, b & 0x40 != 0, b & 0x20 != 0, b & 0x10 != 0,
                            b & 0x08 != 0, b & 0x04 != 0, b & 0x02 != 0, b & 0x01 != 0)
  {
  }

  // The eight bits of a byte, the highest first.
  function BitsOf(b: bv8): seq<bool> {
    [b & 0x80 != 0, b & 0x40 != 0, b & 0x20 != 0, b & 0x10 != 0,
     b & 0x08 != 0, b & 0x04 != 0, b & 0x02 != 0, b & 0x01 != 0]
  }

  lemma ValueOfByte(b: bv8)
    ensures Value(BitsOf(b)) == b as int
  {
    ByteBits(b);
    ValueOfEight(b & 0x80 != 0, b & 0x40 != 0, b & 0x20 != 0, b & 0x10 != 0,
                 b & 0x08 != 0, b & 0x04 != 0, b & 0x02 != 0, b & 0x01 != 0);
  }

  lemma EdgesAre(b: bv8)
    ensures |Edges(b, 8)| == 8 && forall i :: 0 <= i < 8 ==> Edges(b, 8)[i] == Edge(BitsOf(b)[i])
  {
  }

  lemma SentByte(wire: seq<Event>, b: bv8)
    ensures |Sent(wire, b)| == |wire| + 8 && ByteAt(Sent(wire, b), |wire|) == b as int
  {
    EdgesAre(b);
    ValueOfByte(b);
    EdgesValue(wire, Edges(b, 8), BitsOf(b));
  }

  lemma EdgesValue(wire: seq<Event>, e: seq<Event>, bits: seq<bool>)
    requires |e| == |bits| == 8 && forall i :: 0 <= i < 8 ==> e[i] == Edge(bits[i])
    ensures ByteAt(wire + e, |wire|) == Value(bits)
  {
    var w := wire + e;
    assert seq(8, i requires 0 <= i < 8 => w[|wire| + i] == Edge(true)) == bits;
  }

  // The card drives a bit behind each edge.
  lemma LevelIs(card: Card, wire: seq<Event>, b: bv8, k: nat)
    requires 1 <= k <= 8
    ensures |Sent(wire, b)| == |wire| + 8 && Level(card, wire, b, k) == card(Sent(wire, b)[..|wire| + k], true)
  {
    assert wire + Edges(b, k) == Sent(wire, b)[..|wire| + k];
  }

  lemma NextBit(r: bv8, r': bv8, x: bool, k: nat, j: nat, l: bool)
    requires k < 8 && j < 8 && r' == Set(r, x, Mask(k)) && r & Mask(k) == 0
    requires (r & Mask(j) != 0 <==> j < k && l) && (j == k ==> l == x)
    ensures r' & Mask(j) != 0 <==> j < k + 1 && l
  {
  }

  // After k edges, the first k bits of the answer are those levels, and the others are clear.
  lemma {:induction false} AnswerBit(card: Card, wire: seq<Event>, b: bv8, k: nat, j: nat)
    requires k <= 8 && j < 8
    ensures Answer(card, wire, b, k) & Mask(j) != 0 <==> j < k && Level(card, wire, b, j + 1)
    decreases k
  {
    if k > 0 {
      AnswerBit(card, wire, b, k - 1, j);
      AnswerBit(card, wire, b, k - 1, k - 1);
      NextBit(Answer(card, wire, b, k - 1), Answer(card, wire, b, k), Level(card, wire, b, k), k - 1, j,
              Level(card, wire, b, j + 1));
    }
  }

  lemma ReplyBits(card: Card, wire: seq<Event>, b: bv8, i: nat)
    requires i < 8
    ensures BitsOf(Reply(card, wire, b))[i] == Level(card, wire, b, i + 1)
  {
    AnswerBit(card, wire, b, 8, i);
    BitsAre(Reply(card, wire, b), i);
  }

  lemma BitsAre(b: bv8, i: nat)
    requires i < 8
    ensures BitsOf(b)[i] == (b & Mask(i) != 0)
  {
  }

  lemma RepliedByte(card: Card, wire: seq<Event>, b: bv8)
    ensures |Sent(wire, b)| == |wire| + 8 && ReplyAt(card, Sent(wire, b), |wire|) == Reply(card, wire, b) as int
  {
    var r := Reply(card, wire, b);
    forall i | 0 <= i < 8 ensures BitsOf(r)[i] == Level(card, wire, b, i + 1) { ReplyBits(card, wire, b, i); }
    ValueOfByte(r);
    LevelsValue(card, wire, b, Sent(wire, b), BitsOf(r));
  }

  lemma LevelsValue(card: Card, wire: seq<Event>, b: bv8, w: seq<Event>, bits: seq<bool>)
    requires w == Sent(wire, b) && |bits| == 8 && |w| == |wire| + 8
    requires forall i :: 0 <= i < 8 ==> bits[i] == Level(card, wire, b, i + 1)
    ensures ReplyAt(card, w, |wire|) == Value(bits)
  {
    forall i | 0 <= i < 8 ensures card(w[..|wire| + i + 1], true) == bits[i] {
      LevelIs(card, wire, b, i + 1);
    }
    assert seq(8, i requires 0 <= i < 8 => card(w[..|wire| + i + 1], true)) == bits;
  }

  // ---------- Many bytes ----------

  // Bytes and replies do not change when the wire goes on.
  lemma Stays(card: Card, wire: seq<Event>, longer: seq<Event>, a: nat)
    requires a + 8 <= |wire| <= |longer| && longer[..|wire|] == wire
    ensures ByteAt(longer, a) == ByteAt(wire, a) && ReplyAt(card, longer, a) == ReplyAt(card, wire, a)
  {
    forall n | a < n <= a + 8 ensures longer[..n] == wire[..n] && longer[n - 1] == wire[n - 1] {
      assert longer[..|wire|][..n] == longer[..n];
      assert longer[..|wire|][n - 1] == longer[n - 1];
    }
    assert seq(8, i requires 0 <= i < 8 => longer[a + i] == Edge(true))
        == seq(8, i requires 0 <= i < 8 => wire[a + i] == Edge(true));
    assert seq(8, i requires 0 <= i < 8 => card(longer[..a + i + 1], true))
        == seq(8, i requires 0 <= i < 8 => card(wire[..a + i + 1], true));
  }

  // Byte b and reply r stand at position a.
  ghost predicate Stands(card: Card, wire: seq<Event>, a: nat, b: bv8, r: bv8) {
    a + 8 <= |wire| && ByteAt(wire, a) == b as int && ReplyAt(card, wire, a) == r as int
  }

  // The bytes q of a run behind w0, and the replies rs to it.
  ghost predicate Carries(card: Card, w0: seq<Event>, wire: seq<Event>, q: seq<bv8>, rs: seq<bv8>) {
    && Clocked(w0, wire) && |wire| == |w0| + 8 * |q| && |rs| == |q|
    && (forall i :: 0 <= i < |q| ==> Stands(card, wire, |w0| + 8 * i, q[i], rs[i]))
  }

  lemma {:induction false} RunCarries(card: Card, w0: seq<Event>, q: seq<bv8>)
    ensures Carries(card, w0, SentAll(w0, q), q, Replies(card, w0, q))
    decreases |q|
  {
    if |q| > 0 {
      var t, b := q[..|q| - 1], q[|q| - 1];
      RunCarries(card, w0, t);
      OneMore(card, w0, t, b);
      assert q == t + [b];
    }
  }

  lemma OneMore(card: Card, w0: seq<Event>, t: seq<bv8>, b: bv8)
    requires Carries(card, w0, SentAll(w0, t), t, Replies(card, w0, t))
    ensures Carries(card, w0, SentAll(w0, t + [b]), t + [b], Replies(card, w0, t + [b]))
  {
    var wire := SentAll(w0, t);
    LastStands(card, wire, b);
    SentIsClocked(wire, b);
    SentAllSnoc(w0, t, b);
    RepliesSnoc(card, w0, t, b);
    CarriesMore(card, w0, wire, Sent(wire, b), t, b, Replies(card, w0, t), Reply(card, wire, b));
  }

  lemma CarriesMore(card: Card, w0: seq<Event>, wire: seq<Event>, longer: seq<Event>, t: seq<bv8>, b: bv8,
                    rs: seq<bv8>, r: bv8)
    requires Carries(card, w0, wire, t, rs) && Clocked(wire, longer) && |longer| == |wire| + 8
    requires Stands(card, longer, |wire|, b, r)
    ensures Carries(card, w0, longer, t + [b], rs + [r])
  {
    ClockedTrans(w0, wire, longer);
    forall i | 0 <= i < |t| ensures Stands(card, longer, |w0| + 8 * i, t[i], rs[i]) {
      StillStands(card, wire, longer, |w0| + 8 * i, t[i], rs[i]);
    }
  }

  lemma SentIsClocked(wire: seq<Event>, b: bv8)
    ensures Clocked(wire, Sent(wire, b)) && |Sent(wire, b)| == |wire| + 8
  {
  }

  lemma StillStands(card: Card, wire: seq<Event>, longer: seq<Event>, a: nat, b: bv8, r: bv8)
    requires Stands(card, wire, a, b, r) && |wire| <= |longer| && longer[..|wire|] == wire
    ensures Stands(card, longer, a, b, r)
  {
    Stays(card, wire, longer, a);
  }

  lemma LastStands(card: Card, wire: seq<Event>, b: bv8)
    ensures Stands(card, Sent(wire, b), |wire|, b, Reply(card, wire, b))
  {
    SentByte(wire, b);
    RepliedByte(card, wire, b);
  }

  // ---------- A framed run ----------

  // The bytes q and the replies rs between one pair of chip-select changes.
  ghost predicate Heard(card: Card, before: seq<Event>, after: seq<Event>, q: seq<bv8>, rs: seq<bv8>) {
    && Framed(before, after, |q|) && |rs| == |q|
    && (forall i :: 0 <= i < |q| ==> Stands(card, after, |before| + 1 + 8 * i, q[i], rs[i]))
  }

  function Ints(q: seq<bv8>): (r: seq<nat>)
    ensures |r| == |q|
  {
    seq(|q|, i requires 0 <= i < |q| => q[i] as nat)
  }

  lemma FramedRun(card: Card, before: seq<Event>, q: seq<bv8>, n: nat)
    requires n == |q|
    ensures var w0, s := before + [Select(false)], |before| + 1;
            var after := Closed(SentAll(w0, q));
            && Framed(before, after, n)
            && BytesOf(after, s, n) == Ints(q) && RepliesOf(card, after, s, n) == Ints(Replies(card, w0, q))
  {
    var w0 := before + [Select(false)];
    RunCarries(card, w0, q);
    FramedCarries(card, before, w0, SentAll(w0, q), q, Replies(card, w0, q));
    HeardAll(card, before, Closed(SentAll(w0, q)), q, Replies(card, w0, q));
  }

  lemma HeardAll(card: Card, before: seq<Event>, after: seq<Event>, q: seq<bv8>, rs: seq<bv8>)
    requires Heard(card, before, after, q, rs)
    ensures |before| + 1 + 8 * |q| <= |after|
    ensures BytesOf(after, |before| + 1, |q|) == Ints(q) && RepliesOf(card, after, |before| + 1, |q|) == Ints(rs)
  {
    var s := |before| + 1;
    forall i | 0 <= i < |q|
      ensures BytesOf(after, s, |q|)[i] == Ints(q)[i] && RepliesOf(card, after, s, |q|)[i] == Ints(rs)[i]
    {
      assert Stands(card, after, s + 8 * i, q[i], rs[i]);
    }
  }

  lemma FramedCarries(card: Card, before: seq<Event>, w0: seq<Event>, wire: seq<Event>, q: seq<bv8>, rs: seq<bv8>)
    requires w0 == before + [Select(false)] && Carries(card, w0, wire, q, rs)
    ensures Heard(card, before, Closed(wire), q, rs)
  {
    FrameIs(before, wire, |q|);
    ClosedPrefix(wire);
    forall i | 0 <= i < |q| ensures Stands(card, Closed(wire), |w0| + 8 * i, q[i], rs[i]) {
      StillStands(card, wire, Closed(wire), |w0| + 8 * i, q[i], rs[i]);
    }
  }

  lemma ClosedPrefix(wire: seq<Event>)
    ensures |Closed(wire)| == |wire| + 9 && Closed(wire)[..|wire|] == wire && Closed(wire)[|wire|] == Select(true)
    ensures forall i :: |wire| < i < |wire| + 9 ==> Closed(wire)[i].Edge?
    ensures ByteAt(Closed(wire), |wire| + 1) == 0xFF
  {
    var t := wire + [Select(true)];
    SentByte(t, ONES);
    SentIsClocked(t, ONES);
    assert Closed(wire)[..|t|] == t;
    assert Closed(wire)[..|wire|] == t[..|wire|] == wire;
  }

  lemma FrameIs(before: seq<Event>, wire: seq<Event>, n: nat)
    requires Clocked(before + [Select(false)], wire) && |wire| == |before| + 1 + 8 * n
    ensures Framed(before, Closed(wire), n)
  {
    var w0, after := before + [Select(false)], Closed(wire);
    ClosedPrefix(wire);
    assert after[..|w0|] == after[..|wire|][..|w0|] == w0;
    assert after[..|before|] == after[..|w0|][..|before|] == before;
    assert after[|before|] == after[..|w0|][|before|];
    forall i | |before| + 1 <= i < |after| && i != |wire| ensures after[i].Edge? {
      if i < |wire| { assert after[i] == after[..|wire|][i]; }
    }
  }

  // ---------- Polls ----------

  // The replies to a run of polls.
  ghost predicate Answered(rs: seq<bv8>, want: bv8, limit: nat, ok: bool) {
    && |rs| <= limit && (ok ==> 0 < |rs| && rs[|rs| - 1] == want) && (!ok ==> |rs| == limit)
    && (forall i :: 0 <= i < |rs| && (ok ==> i < |rs| - 1) ==> rs[i] != want)
  }

  lemma {:induction false} RepliesConcat(card: Card, wire: seq<Event>, p: seq<bv8>, q: seq<bv8>)
    ensures Replies(card, wire, p + q) == Replies(card, wire, p) + Replies(card, SentAll(wire, p), q)
    decreases |q|
  {
    if |q| == 0 {
      assert p + q == p;
    } else {
      var t, b := q[..|q| - 1], q[|q| - 1];
      RepliesConcat(card, wire, p, t);
      SentAllConcat(wire, p, t);
      RepliesSnoc(card, wire, p + t, b);
      RepliesSnoc(card, SentAll(wire, p), t, b);
      assert q == t + [b] && p + q == (p + t) + [b];
    }
  }

  lemma {:induction false} PolledRun(card: Card, wire: seq<Event>, want: bv8, limit: nat) returns (n: nat)
    ensures var r := Polled(card, wire, want, limit);
            r.1 == SentAll(wire, Idle(n)) && Answered(Replies(card, wire, Idle(n)), want, limit, r.0)
    decreases limit
  {
    if limit == 0 {
      n := 0;
    } else if Reply(card, wire, ONES) == want {
      n := 1;
      FirstPoll(card, wire, 0);
    } else {
      n := PolledRun(card, Sent(wire, ONES), want, limit - 1);
      FirstPoll(card, wire, n);
      AnsweredLater(Reply(card, wire, ONES), Replies(card, Sent(wire, ONES), Idle(n)), want, limit,
                    Polled(card, wire, want, limit).0);
      n := n + 1;
    }
  }

  lemma FirstPoll(card: Card, wire: seq<Event>, n: nat)
    ensures SentAll(wire, Idle(n + 1)) == SentAll(Sent(wire, ONES), Idle(n))
    ensures Replies(card, wire, Idle(n + 1)) == [Reply(card, wire, ONES)] + Replies(card, Sent(wire, ONES), Idle(n))
  {
    assert Idle(n + 1) == [ONES] + Idle(n) && [] + [ONES] == [ONES];
    SentAllSnoc(wire, [], ONES);
    RepliesSnoc(card, wire, [], ONES);
    SentAllConcat(wire, [ONES], Idle(n));
    RepliesConcat(card, wire, [ONES], Idle(n));
  }

  lemma AnsweredLater(r: bv8, rs: seq<bv8>, want: bv8, limit: nat, ok: bool)
    requires limit > 0 && r != want && Answered(rs, want, limit - 1, ok)
    ensures Answered([r] + rs, want, limit, ok)
  {
  }

  // ---------- The theorems ----------

  // The command carries its address.
  lemma CommandBytes(cmd: bv8, addr: Word)
    ensures var c := Command(cmd, addr);
            && c[0] == cmd
            && ((c[1] as int * 0x100 + c[2] as int) * 0x100 + c[3] as int) * 0x100 + c[4] as int == addr
  {
    ByteOf(addr / 0x100_0000 % 0x100);
    ByteOf(addr / 0x1_0000 % 0x100);
    ByteOf(addr / 0x100 % 0x100);
    ByteOf(addr % 0x100);
    FourBytes(addr);
  }

  lemma FourBytes(addr: Word)
    ensures ((addr / 0x100_0000 % 0x100 * 0x100 + addr / 0x1_0000 % 0x100) * 0x100 + addr / 0x100 % 0x100) * 0x100
            + addr % 0x100 == addr
  {
    var a := addr / 0x100;
    var b := a / 0x100;
    assert b == addr / 0x1_0000 && b / 0x100 == addr / 0x100_0000;
  }

  // Everything before the first poll.
  function Opening(cmd: bv8, addr: Word): (q: seq<bv8>)
    ensures |q| == 10
  {
    Idle(4) + Command(cmd, addr) + [ONES]
  }

  lemma OpeningIs(wire: seq<Event>, cmd: bv8, addr: Word)
    ensures Opened(wire, cmd, addr) == SentAll(wire + [Select(false)], Opening(cmd, addr))
  {
    var w0 := wire + [Select(false)];
    SentAllConcat(w0, Idle(4), Command(cmd, addr));
    SentAllSnoc(w0, Idle(4) + Command(cmd, addr), ONES);
  }

  lemma OpeningSent(q: seq<bv8>, cmd: bv8, addr: Word)
    requires 10 <= |q| && q[..10] == Opening(cmd, addr)
    ensures Commanded(Ints(q), cmd as int, addr)
  {
    CommandBytes(cmd, addr);
    OpeningBytes(q, cmd, addr);
  }

  lemma OpeningBytes(q: seq<bv8>, cmd: bv8, addr: Word)
    requires 10 <= |q| && q[..10] == Opening(cmd, addr)
    ensures var c := Command(cmd, addr);
            && q[0] == q[1] == q[2] == q[3] == ONES && q[9] == ONES
            && q[4] == c[0] && q[5] == c[1] && q[6] == c[2] && q[7] == c[3] && q[8] == c[4]
  {
    assert forall b :: 0 <= b < 10 ==> q[b] == q[..10][b];
  }

  // A run of polls from byte f on.
  lemma PollsSent(q: seq<bv8>, rs: seq<bv8>, f: nat, n: nat, want: bv8, limit: nat, ok: bool)
    requires f + n <= |q| == |rs| && q[f..f + n] == Idle(n) && Answered(rs[f..f + n], want, limit, ok)
    ensures Asked(Ints(q), Ints(rs), f, n, want as int, limit, ok)
  {
    var a := rs[f..f + n];
    forall b | f <= b < f + n ensures Ints(q)[b] == 0xFF {
      assert q[b] == q[f..f + n][b - f];
    }
    forall b | f <= b < f + n && (ok ==> b < f + n - 1) ensures Ints(rs)[b] != want as int {
      assert rs[b] == a[b - f];
      Differ(rs[b], want);
    }
    assert ok ==> rs[f + n - 1] == a[n - 1];
  }

  lemma Differ(a: bv8, b: bv8)
    requires a != b
    ensures a as int != b as int
  {
    assert a as int as bv8 == a;
  }

  // A run, polls and another run: the replies to the polls are a slice of all replies.
  lemma PolledSlice(card: Card, w0: seq<Event>, q: seq<bv8>, p: seq<bv8>, f: nat, n: nat, t: seq<bv8>)
    requires q == p + Idle(n) + t && f == |p|
    ensures f + n <= |q| && Replies(card, w0, q)[f..f + n] == Replies(card, SentAll(w0, p), Idle(n))
  {
    RepliesConcat(card, w0, p, Idle(n));
    RepliesConcat(card, w0, p + Idle(n), t);
    Middle(Replies(card, w0, p), Replies(card, SentAll(w0, p), Idle(n)), Replies(card, SentAll(w0, p + Idle(n)), t));
  }

  lemma Middle(a: seq<bv8>, b: seq<bv8>, c: seq<bv8>)
    ensures (a + b + c)[|a|..|a| + |b|] == b
  {
  }

  // Start token, data and two bytes for the checksum.
  function Block(data: seq<bv8>): (q: seq<bv8>)
    ensures |q| == |data| + 3
  {
    [START_TOKEN] + data + Idle(2)
  }

  lemma BlockIs(wire: seq<Event>, data: seq<bv8>)
    ensures SentAll(SentAll(Sent(wire, START_TOKEN), data), Idle(2)) == SentAll(wire, Block(data))
  {
    SentAllSnoc(wire, [], START_TOKEN);
    assert [] + [START_TOKEN] == [START_TOKEN];
    SentAllConcat(wire, [START_TOKEN], data);
    SentAllConcat(wire, [START_TOKEN] + data, Idle(2));
  }

  lemma BlockSent(q: seq<bv8>, f: nat, data: seq<bv8>)
    requires |data| == 512 && f + 515 <= |q| && q[f..f + 515] == Block(data)
    ensures Ints(q)[f] == 0xFE && Ints(q)[f + 513] == 0xFF && Ints(q)[f + 514] == 0xFF
    ensures forall i :: 0 <= i < 512 ==> Ints(q)[f + 1 + i] == data[i] as int
  {
    var b := q[f..f + 515];
    assert b[0] == START_TOKEN && b[513] == ONES && b[514] == ONES;
    forall i | 0 <= i < 512 ensures q[f + 1 + i] == data[i] { assert q[f + 1 + i] == b[1 + i]; }
  }

  // What a block write puts on the wire, and which replies give its return code.
  lemma WriteOnWire(card: Card, before: seq<Event>, addr: Word, data: seq<bv8>) returns (n1: nat, n2: nat)
    requires |data| == 512
    ensures var w := Write(card, before, addr, data); WroteBlock(card, before, w.1, addr, data, w.0, n1, n2)
  {
    var w0, a := before + [Select(false)], Opening(CMD_WRITE, addr);
    OpeningIs(before, CMD_WRITE, addr);
    n1 := PolledRun(card, SentAll(w0, a), 0, RESPONSE_POLLS);
    n2 := 0;
    SentAllConcat(w0, a, Idle(n1));
    var ok := Polled(card, SentAll(w0, a), 0, RESPONSE_POLLS).0;
    if ok {
      n2 := WriteAnswered(card, before, addr, data, n1, a + Idle(n1));
    } else {
      WriteRefused(card, before, addr, data, n1);
    }
  }

  lemma WriteAnswered(card: Card, before: seq<Event>, addr: Word, data: seq<bv8>, n1: nat, p: seq<bv8>)
    returns (n2: nat)
    requires |data| == 512 && p == Opening(CMD_WRITE, addr) + Idle(n1)
    requires var a := Opening(CMD_WRITE, addr);
             Answered(Replies(card, SentAll(before + [Select(false)], a), Idle(n1)), 0, RESPONSE_POLLS, true)
    ensures var r := SentAll(before + [Select(false)], p);
            var busy := Polled(card, SentAll(SentAll(Sent(r, START_TOKEN), data), Idle(2)), 0xFF, BUSY_POLLS);
            WroteBlock(card, before, Closed(busy.1), addr, data, if busy.0 then 0 else 3, n1, n2)
  {
    var w0 := before + [Select(false)];
    var b := p + Block(data);
    BlockIs(SentAll(w0, p), data);
    SentAllConcat(w0, p, Block(data));
    n2 := PolledRun(card, SentAll(w0, b), 0xFF, BUSY_POLLS);
    SentAllConcat(w0, b, Idle(n2));
    WriteDone(card, before, addr, data, n1, n2, Polled(card, SentAll(w0, b), 0xFF, BUSY_POLLS).0);
  }

  lemma WriteDone(card: Card, before: seq<Event>, addr: Word, data: seq<bv8>, n1: nat, n2: nat, ok: bool)
    requires |data| == 512
    requires var w0, a := before + [Select(false)], Opening(CMD_WRITE, addr);
             && Answered(Replies(card, SentAll(w0, a), Idle(n1)), 0, RESPONSE_POLLS, true)
             && Answered(Replies(card, SentAll(w0, a + Idle(n1) + Block(data)), Idle(n2)), 0xFF, BUSY_POLLS, ok)
    ensures var q := Opening(CMD_WRITE, addr) + Idle(n1) + Block(data) + Idle(n2);
            var after := Closed(SentAll(before + [Select(false)], q));
            WroteBlock(card, before, after, addr, data, if ok then 0 else 3, n1, n2)
  {
    var w0, a := before + [Select(false)], Opening(CMD_WRITE, addr);
    var q := a + Idle(n1) + Block(data) + Idle(n2);
    WriteParts(card, w0, q, a, addr, data, n1, n2, ok);
    FramedRun(card, before, q, 525 + n1 + n2);
  }

  lemma WriteParts(card: Card, w0: seq<Event>, q: seq<bv8>, a: seq<bv8>, addr: Word, data: seq<bv8>,
                   n1: nat, n2: nat, ok: bool)
    requires |data| == 512 && a == Opening(CMD_WRITE, addr) && q == a + Idle(n1) + Block(data) + Idle(n2)
    requires Answered(Replies(card, SentAll(w0, a), Idle(n1)), 0, 8, true)
    requires Answered(Replies(card, SentAll(w0, a + Idle(n1) + Block(data)), Idle(n2)), 0xFF, 1000000, ok)
    ensures WriteSent(Ints(q), Ints(Replies(card, w0, q)), addr, data, if ok then 0 else 3, n1, n2)
  {
    Empty(q);
    TwoPolls(card, w0, q, a, n1, Block(data), 525 + n1, n2, []);
    WriteSlices(q, a, n1, Block(data), n2);
    WriteInts(q, Replies(card, w0, q), addr, data, n1, n2, ok);
  }

  // The replies to two runs of polls inside one run.
  lemma TwoPolls(card: Card, w0: seq<Event>, q: seq<bv8>, a: seq<bv8>, n1: nat, b: seq<bv8>, f: nat, n2: nat,
                 t: seq<bv8>)
    requires q == a + Idle(n1) + b + Idle(n2) + t && |a| == 10 && f == 10 + n1 + |b|
    ensures 10 + n1 <= f <= f + n2 <= |q|
    ensures Replies(card, w0, q)[10..10 + n1] == Replies(card, SentAll(w0, a), Idle(n1))
    ensures Replies(card, w0, q)[f..f + n2] == Replies(card, SentAll(w0, a + Idle(n1) + b), Idle(n2))
  {
    PolledSlice(card, w0, q, a + Idle(n1) + b, f, n2, t);
    Reassoc(a + Idle(n1), b, Idle(n2), t);
    PolledSlice(card, w0, q, a, 10, n1, b + Idle(n2) + t);
  }

  lemma Empty(a: seq<bv8>)
    ensures a + [] == a
  {
  }

  lemma Reassoc(a: seq<bv8>, b: seq<bv8>, c: seq<bv8>, d: seq<bv8>)
    ensures a + b + c + d == a + (b + c + d)
  {
  }

  lemma WriteSlices(q: seq<bv8>, a: seq<bv8>, n1: nat, b: seq<bv8>, n2: nat)
    requires |a| == 10 && |b| == 515 && q == a + Idle(n1) + b + Idle(n2)
    ensures |q| == 525 + n1 + n2 && q[..10] == a && q[10..10 + n1] == Idle(n1)
    ensures q[10 + n1..525 + n1] == b && q[525 + n1..525 + n1 + n2] == Idle(n2)
  {
  }

  lemma WriteInts(q: seq<bv8>, rs: seq<bv8>, addr: Word, data: seq<bv8>, n1: nat, n2: nat, ok: bool)
    requires |data| == 512 && |q| == |rs| == 525 + n1 + n2 && q[..10] == Opening(CMD_WRITE, addr)
    requires q[10..10 + n1] == Idle(n1) && q[10 + n1..525 + n1] == Block(data) && q[525 + n1..525 + n1 + n2] == Idle(n2)
    requires Answered(rs[10..10 + n1], 0, 8, true) && Answered(rs[525 + n1..525 + n1 + n2], 0xFF, 1000000, ok)
    ensures WriteSent(Ints(q), Ints(rs), addr, data, if ok then 0 else 3, n1, n2)
  {
    OpeningSent(q, CMD_WRITE, addr);
    PollsSent(q, rs, 10, n1, 0, 8, true);
    BlockSent(q, 10 + n1, data);
    PollsSent(q, rs, 525 + n1, n2, 0xFF, 1000000, ok);
  }

  lemma WriteRefused(card: Card, before: seq<Event>, addr: Word, data: seq<bv8>, n1: nat)
    requires |data| == 512
    requires var a := Opening(CMD_WRITE, addr);
             Answered(Replies(card, SentAll(before + [Select(false)], a), Idle(n1)), 0, RESPONSE_POLLS, false)
    ensures var after := Closed(SentAll(before + [Select(false)], Opening(CMD_WRITE, addr) + Idle(n1)));
            WroteBlock(card, before, after, addr, data, 1, n1, 0)
  {
    var w0, a := before + [Select(false)], Opening(CMD_WRITE, addr);
    RefusedInts(card, w0, a + Idle(n1), a, CMD_WRITE, addr, n1);
    FramedRun(card, before, a + Idle(n1), 10 + n1);
  }

  lemma RefusedInts(card: Card, w0: seq<Event>, q: seq<bv8>, a: seq<bv8>, cmd: bv8, addr: Word, n1: nat)
    requires a == Opening(cmd, addr) && q == a + Idle(n1)
    requires Answered(Replies(card, SentAll(w0, a), Idle(n1)), 0, 8, false)
    ensures |q| == 10 + n1 && Commanded(Ints(q), cmd as int, addr)
    ensures Asked(Ints(q), Ints(Replies(card, w0, q)), 10, n1, 0, 8, false)
  {
    Empty(q);
    PolledSlice(card, w0, q, a, 10, n1, []);
    TwoParts(q, a, Idle(n1));
    OpeningSent(q, cmd, addr);
    PollsSent(q, Replies(card, w0, q), 10, n1, 0, 8, false);
  }

  lemma TwoParts(q: seq<bv8>, a: seq<bv8>, x: seq<bv8>)
    requires q == a + x
    ensures q[..|a|] == a && q[|a|..|a| + |x|] == x
  {
  }

  // What a block read puts on the wire, which replies give its return code, and which are its data.
  lemma ReadOnWire(card: Card, before: seq<Event>, addr: Word) returns (n1: nat, n2: nat)
    ensures var r := Read(card, before, addr); HasReadBlock(card, before, r.1, addr, r.2, r.0, n1, n2)
  {
    var w0, a := before + [Select(false)], Opening(CMD_READ, addr);
    OpeningIs(before, CMD_READ, addr);
    n1 := PolledRun(card, SentAll(w0, a), 0, RESPONSE_POLLS);
    n2 := 0;
    SentAllConcat(w0, a, Idle(n1));
    var ok := Polled(card, SentAll(w0, a), 0, RESPONSE_POLLS).0;
    if ok {
      n2 := ReadAnswered(card, before, addr, n1, a + Idle(n1));
    } else {
      ReadRefused(card, before, addr, n1);
    }
  }

  // Without success the data do not matter.
  lemma DataUnread(card: Card, before: seq<Event>, after: seq<Event>, addr: Word, data: seq<bv8>, other: seq<bv8>,
                   rc: nat, n1: nat, n2: nat)
    requires HasReadBlock(card, before, after, addr, data, rc, n1, n2) && (rc == 0 ==> other == data)
    ensures HasReadBlock(card, before, after, addr, other, rc, n1, n2)
  {
  }

  lemma ReadRefused(card: Card, before: seq<Event>, addr: Word, n1: nat)
    requires var a := Opening(CMD_READ, addr);
             Answered(Replies(card, SentAll(before + [Select(false)], a), Idle(n1)), 0, RESPONSE_POLLS, false)
    ensures var after := Closed(SentAll(before + [Select(false)], Opening(CMD_READ, addr) + Idle(n1)));
            HasReadBlock(card, before, after, addr, [], 1, n1, 0)
  {
    var w0, a := before + [Select(false)], Opening(CMD_READ, addr);
    RefusedInts(card, w0, a + Idle(n1), a, CMD_READ, addr, n1);
    FramedRun(card, before, a + Idle(n1), 10 + n1);
  }

  lemma ReadAnswered(card: Card, before: seq<Event>, addr: Word, n1: nat, p: seq<bv8>) returns (n2: nat)
    requires p == Opening(CMD_READ, addr) + Idle(n1)
    requires var a := Opening(CMD_READ, addr);
             Answered(Replies(card, SentAll(before + [Select(false)], a), Idle(n1)), 0, RESPONSE_POLLS, true)
    ensures var token := Polled(card, SentAll(before + [Select(false)], p), START_TOKEN, TOKEN_POLLS);
            if token.0 then
              HasReadBlock(card, before, Closed(SentAll(SentAll(token.1, Idle(BLOCK)), Idle(2))), addr,
                           Replies(card, token.1, Idle(BLOCK)), 0, n1, n2)
            else HasReadBlock(card, before, Closed(token.1), addr, [], 2, n1, n2)
  {
    var w0 := before + [Select(false)];
    n2 := PolledRun(card, SentAll(w0, p), START_TOKEN, TOKEN_POLLS);
    SentAllConcat(w0, p, Idle(n2));
    SentAllConcat(w0, p + Idle(n2), Idle(BLOCK));
    SentAllConcat(w0, p + Idle(n2) + Idle(BLOCK), Idle(2));
    if Polled(card, SentAll(w0, p), START_TOKEN, TOKEN_POLLS).0 {
      ReadDone(card, before, addr, n1, n2);
    } else {
      ReadNoToken(card, before, addr, n1, n2);
    }
  }

  lemma ReadNoToken(card: Card, before: seq<Event>, addr: Word, n1: nat, n2: nat)
    requires var w0, a := before + [Select(false)], Opening(CMD_READ, addr);
             && Answered(Replies(card, SentAll(w0, a), Idle(n1)), 0, RESPONSE_POLLS, true)
             && Answered(Replies(card, SentAll(w0, a + Idle(n1)), Idle(n2)), START_TOKEN, TOKEN_POLLS, false)
    ensures var q := Opening(CMD_READ, addr) + Idle(n1) + Idle(n2);
            HasReadBlock(card, before, Closed(SentAll(before + [Select(false)], q)), addr, [], 2, n1, n2)
  {
    var w0, a := before + [Select(false)], Opening(CMD_READ, addr);
    var q := a + Idle(n1) + Idle(n2);
    Empty(q);
    ReadPolls(card, w0, q, a, addr, n1, n2, [], false);
    FramedRun(card, before, q, 10 + n1 + n2);
  }

  lemma ReadInts(q: seq<bv8>, rs: seq<bv8>, addr: Word, n1: nat, n2: nat, ok: bool)
    requires |q| == |rs| >= 10 + n1 + n2 && q[..10] == Opening(CMD_READ, addr)
    requires q[10..10 + n1] == Idle(n1) && q[10 + n1..10 + n1 + n2] == Idle(n2)
    requires Answered(rs[10..10 + n1], 0, 8, true) && Answered(rs[10 + n1..10 + n1 + n2], 0xFE, 100000, ok)
    ensures Commanded(Ints(q), 0x51, addr) && Asked(Ints(q), Ints(rs), 10, n1, 0, 8, true)
    ensures Asked(Ints(q), Ints(rs), 10 + n1, n2, 0xFE, 100000, ok)
  {
    OpeningSent(q, CMD_READ, addr);
    PollsSent(q, rs, 10, n1, 0, 8, true);
    PollsSent(q, rs, 10 + n1, n2, 0xFE, 100000, ok);
  }

  lemma ReadDone(card: Card, before: seq<Event>, addr: Word, n1: nat, n2: nat)
    requires var w0, a := before + [Select(false)], Opening(CMD_READ, addr);
             && Answered(Replies(card, SentAll(w0, a), Idle(n1)), 0, RESPONSE_POLLS, true)
             && Answered(Replies(card, SentAll(w0, a + Idle(n1)), Idle(n2)), START_TOKEN, TOKEN_POLLS, true)
    ensures var w0, p := before + [Select(false)], Opening(CMD_READ, addr) + Idle(n1) + Idle(n2);
            HasReadBlock(card, before, Closed(SentAll(w0, p + Idle(BLOCK) + Idle(2))), addr,
                         Replies(card, SentAll(w0, p), Idle(BLOCK)), 0, n1, n2)
  {
    var w0, a := before + [Select(false)], Opening(CMD_READ, addr);
    var p := a + Idle(n1) + Idle(n2);
    var q := p + Idle(BLOCK) + Idle(2);
    ReadParts(card, w0, q, a, p, addr, n1, n2);
    FramedRun(card, before, q, 524 + n1 + n2);
  }

  lemma ReadParts(card: Card, w0: seq<Event>, q: seq<bv8>, a: seq<bv8>, p: seq<bv8>, addr: Word, n1: nat, n2: nat)
    requires a == Opening(CMD_READ, addr) && p == a + Idle(n1) + Idle(n2) && q == p + Idle(BLOCK) + Idle(2)
    requires Answered(Replies(card, SentAll(w0, a), Idle(n1)), 0, 8, true)
    requires Answered(Replies(card, SentAll(w0, a + Idle(n1)), Idle(n2)), 0xFE, 100000, true)
    ensures ReadSent(Ints(q), Ints(Replies(card, w0, q)), addr, Replies(card, SentAll(w0, p), Idle(BLOCK)), 0, n1, n2)
  {
    var d := Idle(BLOCK) + Idle(2);
    Rejoin(p, Idle(BLOCK), Idle(2));
    ReadPolls(card, w0, q, a, addr, n1, n2, d, true);
    PolledSlice(card, w0, q, p, 10 + n1 + n2, BLOCK, Idle(2));
    LastPart(q, p, d);
    DataSent(q, Replies(card, w0, q), 10 + n1 + n2, Replies(card, SentAll(w0, p), Idle(BLOCK)));
  }

  lemma ReadPolls(card: Card, w0: seq<Event>, q: seq<bv8>, a: seq<bv8>, addr: Word, n1: nat, n2: nat, d: seq<bv8>,
                  ok: bool)
    requires a == Opening(CMD_READ, addr) && q == a + Idle(n1) + Idle(n2) + d
    requires Answered(Replies(card, SentAll(w0, a), Idle(n1)), 0, 8, true)
    requires Answered(Replies(card, SentAll(w0, a + Idle(n1)), Idle(n2)), 0xFE, 100000, ok)
    ensures |q| == 10 + n1 + n2 + |d| && Commanded(Ints(q), 0x51, addr)
    ensures Asked(Ints(q), Ints(Replies(card, w0, q)), 10, n1, 0, 8, true)
    ensures Asked(Ints(q), Ints(Replies(card, w0, q)), 10 + n1, n2, 0xFE, 100000, ok)
  {
    Rejoin(a + Idle(n1), Idle(n2), d);
    PollsInRow(card, w0, q, a, a + Idle(n1), n1, n2, d, Idle(n2) + d);
    ReadSlices(q, a, n1, n2, d);
    ReadInts(q, Replies(card, w0, q), addr, n1, n2, ok);
  }

  // The same with nothing between the two runs; t and u are what follows the second and the first.
  lemma PollsInRow(card: Card, w0: seq<Event>, q: seq<bv8>, a: seq<bv8>, p: seq<bv8>, n1: nat, n2: nat,
                   t: seq<bv8>, u: seq<bv8>)
    requires |a| == 10 && p == a + Idle(n1) && q == p + Idle(n2) + t && q == p + u
    ensures 10 + n1 + n2 <= |q|
    ensures Replies(card, w0, q)[10..10 + n1] == Replies(card, SentAll(w0, a), Idle(n1))
    ensures Replies(card, w0, q)[10 + n1..10 + n1 + n2] == Replies(card, SentAll(w0, p), Idle(n2))
  {
    PolledSlice(card, w0, q, p, 10 + n1, n2, t);
    PolledSlice(card, w0, q, a, 10, n1, u);
  }

  lemma ReadSlices(q: seq<bv8>, a: seq<bv8>, n1: nat, n2: nat, d: seq<bv8>)
    requires |a| == 10 && q == a + Idle(n1) + Idle(n2) + d
    ensures |q| == 10 + n1 + n2 + |d| && q[..10] == a
    ensures q[10..10 + n1] == Idle(n1) && q[10 + n1..10 + n1 + n2] == Idle(n2)
  {
  }

  lemma LastPart(q: seq<bv8>, p: seq<bv8>, d: seq<bv8>)
    requires q == p + d
    ensures |q| == |p| + |d| && q[|p|..] == d
  {
  }

  lemma Rejoin(a: seq<bv8>, b: seq<bv8>, c: seq<bv8>)
    ensures a + b + c == a + (b + c)
  {
  }

  // The data of a read are the replies to 512 bytes of ones.
  lemma DataSent(q: seq<bv8>, rs: seq<bv8>, f: nat, data: seq<bv8>)
    requires |q| == |rs| == f + 514 && q[f..] == Idle(BLOCK) + Idle(2) && |data| == 512 && rs[f..f + 512] == data
    ensures forall i :: 0 <= i < 512 ==> Ints(rs)[f + i] == data[i] as int
    ensures forall b :: f <= b < f + 514 ==> Ints(q)[b] == 0xFF
  {
    forall i | 0 <= i < 512 ensures rs[f + i] == data[i] { assert rs[f + i] == rs[f..f + 512][i]; }
    forall b | f <= b < f + 514 ensures q[b] == ONES { assert q[b] == q[f..][b - f]; }
  }
}
