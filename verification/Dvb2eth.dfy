// The UDP packetizer (dvb2eth/dvb2eth.c): a window of at most two memory segments is cut into
// packets of 1316 payload bytes, each behind a header from a ring of 32 prepared slots.

module Dvb2eth {
  import opened Integers

  const PAYLOAD := 1316
  const UDP_HEADERS := 32
  const SKELETON := 44            // two alignment bytes and 42 bytes on the wire
  const TS_PACKET := 188

  // ---------- The IPv4 header checksum (section 3.1 of RFC 791, section 1 of RFC 1071) ----------

  // Halfword i of a byte string, in network order.
  function Half(h: seq<Byte>, i: nat): nat
    requires 2 * i + 1 < |h|
  {
    h[2 * i] as int * 0x100 + h[2 * i + 1] as int
  }

  // Sum of the halfwords of a header.
  function HeaderSum(h: seq<Byte>): nat
    decreases |h|
  {
    if |h| < 2 then 0 else Half(h, 0) + HeaderSum(h[2..])
  }

  // One's complement folding: carries are added back.
  function Fold(x: nat): (r: nat)
    ensures r < TWO_16
    decreases x
  {
    if x < TWO_16 then x else Fold(x / TWO_16 + x % TWO_16)
  }

  // Folding keeps the value modulo 2^16 - 1 and never turns a positive sum into zero.
  lemma {:induction false} FoldMod(x: nat)
    ensures Fold(x) % 0xFFFF == x % 0xFFFF && (Fold(x) == 0 <==> x == 0) && Fold(x) <= x
    decreases x
  {
    if x >= TWO_16 {
      FoldMod(x / TWO_16 + x % TWO_16);
      var q, m := x / TWO_16, x % TWO_16;
      assert x == q * 0xFFFF + (q + m);
      ModShift(q, q + m);
    }
  }

  lemma ModShift(q: nat, y: nat)
    ensures (q * 0xFFFF + y) % 0xFFFF == y % 0xFFFF
  {
    var k := y / 0xFFFF;
    assert q * 0xFFFF + y == (q + k) * 0xFFFF + y % 0xFFFF;
  }

  // ip_fast_csum: the complement of the folded sum.
  function IpFastCsum(h: seq<Byte>): (c: nat)
    requires |h| == 20
    ensures c < TWO_16
  {
    0xFFFF - Fold(HeaderSum(h))
  }

  // A header sums to all ones.
  predicate ChecksumOk(h: seq<Byte>)
    requires |h| == 20
  {
    Fold(HeaderSum(h)) == 0xFFFF
  }

  // The sum of the ten halfwords of a header, written out in its bytes.
  function BytesSum(h: seq<Byte>): nat
    requires |h| == 20
  {
    (h[0] as int + h[2] as int + h[4] as int + h[6] as int + h[8] as int
     + h[10] as int + h[12] as int + h[14] as int + h[16] as int + h[18] as int) * 256
    + h[1] as int + h[3] as int + h[5] as int + h[7] as int + h[9] as int
    + h[11] as int + h[13] as int + h[15] as int + h[17] as int + h[19] as int
  }

  lemma HeaderSumIs(h: seq<Byte>)
    requires |h| == 20
    ensures HeaderSum(h) == BytesSum(h)
  {
    FirstHalves(h);
    FirstHalves(h[10..]);
    assert h[10..][10..] == [];
  }

  lemma FirstHalves(h: seq<Byte>)
    requires |h| >= 10
    ensures HeaderSum(h) == Half(h, 0) + Half(h, 1) + Half(h, 2) + Half(h, 3) + Half(h, 4) + HeaderSum(h[10..])
  {
    assert h[2..][2..] == h[4..] && h[4..][2..] == h[6..] && h[6..][2..] == h[8..] && h[8..][2..] == h[10..];
    assert HeaderSum(h) == Half(h, 0) + HeaderSum(h[2..]);
    assert HeaderSum(h[2..]) == Half(h, 1) + HeaderSum(h[4..]);
    assert HeaderSum(h[4..]) == Half(h, 2) + HeaderSum(h[6..]);
    assert HeaderSum(h[6..]) == Half(h, 3) + HeaderSum(h[8..]);
  }

  // A checksum is right if and only if the sum is a positive multiple of 65535.
  lemma ChecksumIs(h: seq<Byte>)
    requires |h| == 20
    ensures ChecksumOk(h) <==> BytesSum(h) > 0 && BytesSum(h) % 65535 == 0
  {
    HeaderSumIs(h);
    FoldMod(BytesSum(h));
    OnlyAllOnes(Fold(BytesSum(h)));
  }

  lemma OnlyAllOnes(x: nat)
    requires x < 0x1_0000
    ensures x == 0xFFFF <==> x > 0 && x % 65535 == 0
  {
  }

  // A 16-bit store in network order.
  function Store16(h: seq<Byte>, at: nat, v: nat): (r: seq<Byte>)
    requires at + 1 < |h| && v < TWO_16
    ensures |r| == |h|
  {
    h[at := v / 0x100][at + 1 := v % 0x100]
  }

  // Adding the complement of a folded sum gives all ones.
  lemma ComplementFolds(s: nat)
    ensures Fold(s + (0xFFFF - Fold(s))) == 0xFFFF
  {
    FoldMod(s);
    SameModDifference(s, Fold(s));
    var t := s + (0xFFFF - Fold(s));
    ModShift(1, s - Fold(s));
    FoldMod(t);
    assert t % 0xFFFF == 0 && t > 0;
  }

  lemma {:induction false} StoreSum(h: seq<Byte>, at: nat, v: nat)
    requires at % 2 == 0 && at + 1 < |h| && v < TWO_16
    ensures Half(Store16(h, at, v), at / 2) == v
    ensures HeaderSum(Store16(h, at, v)) == HeaderSum(h) - Half(h, at / 2) + v
    decreases |h|
  {
    var r := Store16(h, at, v);
    if at == 0 {
      assert r[2..] == h[2..];
    } else {
      StoreSum(h[2..], at - 2, v);
      assert r[2..] == Store16(h[2..], at - 2, v);
      assert Half(h[2..], (at - 2) / 2) == Half(h, at / 2);
    }
  }

  // Filling the cleared checksum field makes every header valid.
  lemma CsumMakesValid(h: seq<Byte>)
    requires |h| == 20
    ensures ChecksumOk(Store16(Store16(h, 10, 0), 10, IpFastCsum(Store16(h, 10, 0))))
  {
    var z := Store16(h, 10, 0);
    StoreSum(h, 10, 0);
    StoreSum(z, 10, IpFastCsum(z));
    ComplementFolds(HeaderSum(z));
  }

  lemma SameModDifference(a: nat, b: nat)
    requires a % 0xFFFF == b % 0xFFFF && b <= a
    ensures (a - b) % 0xFFFF == 0
  {
    var q := a / 0xFFFF - b / 0xFFFF;
    assert a - b == q * 0xFFFF;
  }

  // ---------- The packetizer ----------

  datatype Packet = Packet(slot: nat, header: seq<Byte>, payload: seq<Byte>)

  // The header bytes that stay as prepared: all but identification and checksum.
  ghost predicate AsPrepared(h: seq<Byte>, skeleton: seq<Byte>) {
    && |h| == |skeleton| == SKELETON
    && forall i :: 0 <= i < SKELETON && !(20 <= i < 22) && !(26 <= i < 28) ==> h[i] == skeleton[i]
  }

  // The 42 header bytes of a packet: as prepared, but for its own identification and checksum.
  ghost predicate GoodHeader(h: seq<Byte>, id: nat, skeleton: seq<Byte>)
    requires |skeleton| == SKELETON
  {
    && |h| == SKELETON - 2
    && (forall k :: 0 <= k < SKELETON - 2 && !(18 <= k < 20) && !(24 <= k < 26) ==> h[k] == skeleton[k + 2])
    && h[18] as int * 256 + h[19] as int == id && ChecksumOk(h[14..34])
  }

  // A packet with one whole payload.
  ghost predicate GoodPacket(p: Packet, slot: nat, id: nat, skeleton: seq<Byte>)
    requires |skeleton| == SKELETON
  {
    p.slot == slot && GoodHeader(p.header, id, skeleton) && |p.payload| == PAYLOAD
  }

  // Packets with consecutive slots and identifications.
  ghost predicate Train(q: seq<Packet>, slot: nat, id: nat, skeleton: seq<Byte>)
    requires |skeleton| == SKELETON
    decreases |q|
  {
    |q| == 0
    || (var i := |q| - 1;
        Train(q[..i], slot, id, skeleton) && GoodPacket(q[i], SlotAt(slot, i), IdAt(id, i), skeleton))
  }

  // What the packets carry.
  function Payloads(q: seq<Packet>): seq<Byte>
    decreases |q|
  {
    if |q| == 0 then [] else Payloads(q[..|q| - 1]) + q[|q| - 1].payload
  }

  // i places further around the header ring, and around the 16-bit identifications.
  function SlotAt(slot: nat, i: nat): (r: nat)
    ensures slot < UDP_HEADERS ==> r < UDP_HEADERS
    decreases i
  {
    if i == 0 then slot else Around(SlotAt(slot, i - 1), UDP_HEADERS)
  }

  function IdAt(id: nat, i: nat): (r: nat)
    ensures id < TWO_16 ==> r < TWO_16
    decreases i
  {
    if i == 0 then id else Around(IdAt(id, i - 1), TWO_16)
  }

  function Around(p: nat, size: nat): nat { if p + 1 == size then 0 else p + 1 }

  // A step written with a remainder.
  lemma AroundIs(slot: nat, id: nat)
    ensures slot < UDP_HEADERS ==> (slot + 1) % UDP_HEADERS == Around(slot, UDP_HEADERS)
    ensures id < TWO_16 ==> (id + 1) % TWO_16 == Around(id, TWO_16)
  {
  }

  lemma TrainGrows(q: seq<Packet>, p: Packet, slot: nat, id: nat, skeleton: seq<Byte>)
    requires |skeleton| == SKELETON && Train(q, slot, id, skeleton)
    requires GoodPacket(p, SlotAt(slot, |q|), IdAt(id, |q|), skeleton)
    ensures Train(q + [p], slot, id, skeleton) && Payloads(q + [p]) == Payloads(q) + p.payload
  {
    assert (q + [p])[..|q|] == q;
  }

  // The payload bytes of a train are whole packets.
  lemma {:induction false} TrainLength(q: seq<Packet>, slot: nat, id: nat, skeleton: seq<Byte>)
    requires |skeleton| == SKELETON && Train(q, slot, id, skeleton)
    ensures |Payloads(q)| == PAYLOAD * |q|
    decreases |q|
  {
    if |q| > 0 { TrainLength(q[..|q| - 1], slot, id, skeleton); }
  }

  // The IPv4 header inside a slot.
  function Ip(udp: seq<Byte>): seq<Byte>
    requires |udp| == SKELETON
  {
    udp[16..36]
  }

  // The loop of dvb2eth_send over the remaining segments of a window.
  ghost predicate Remaining(mem: seq<Byte>, first: nat, firstLen: nat, second: nat, secondLen: nat, rest: seq<Byte>) {
    && first + firstLen <= |mem| && second + secondLen <= |mem|
    && mem[first..first + firstLen] + mem[second..second + secondLen] == rest
  }

  class Packetizer {
    const headers: array<seq<Byte>>     // the header ring, one entry per slot
    ghost const skeleton: seq<Byte>
    var headerIndex: nat
    var udpId: nat
    var xmit: seq<Packet>               // what the Ethernet driver was given

    ghost predicate Valid()
      reads this, headers
    {
      && headers.Length == UDP_HEADERS && |skeleton| == SKELETON
      && headerIndex < UDP_HEADERS && udpId < TWO_16
      && forall s :: 0 <= s < UDP_HEADERS ==> AsPrepared(headers[s], skeleton)
    }

    // The skeleton is copied to every slot (DVB2ETH_SET_DEST).
    constructor (skel: seq<Byte>)
      requires |skel| == SKELETON
      ensures Valid() && skeleton == skel && fresh(headers)
      ensures headerIndex == 0 && udpId == 15796 && xmit == []
    {
      skeleton := skel;
      headerIndex, udpId, xmit := 0, 15796, [];
      headers := new seq<Byte>[UDP_HEADERS](_ => skel);
    }

    // Stamp the current slot with the next identification and its checksum.
    method CreateHeader()
      requires Valid()
      modifies this`udpId, headers
      ensures Valid() && udpId == Around(old(udpId), TWO_16)
      ensures Half(Ip(headers[headerIndex]), 2) == old(udpId) && ChecksumOk(Ip(headers[headerIndex]))
    {
      var udp := headers[headerIndex];
      udp := Store16(udp, 20, udpId);
      AroundIs(headerIndex, udpId);
      udpId := (udpId + 1) % TWO_16;
      udp := Store16(udp, 26, 0);
      ghost var h := Ip(udp);
      CsumMakesValid(h);
      assert h == Store16(h, 10, 0);
      var c := IpFastCsum(Ip(udp));
      udp := Store16(udp, 26, c);
      assert Ip(udp) == Store16(h, 10, c);
      headers[headerIndex] := udp;
    }

    // scc_enet_multiple_xmit: the slot without its two alignment bytes, then one or two segments.
    method Xmit(payload: seq<Byte>) returns (ghost p: Packet)
      requires Valid()
      modifies this`xmit
      ensures p == Packet(headerIndex, headers[headerIndex][2..], payload) && xmit == old(xmit) + [p]
    {
      p := Packet(headerIndex, headers[headerIndex][2..], payload);
      xmit := xmit + [Packet(headerIndex, headers[headerIndex][2..], payload)];
    }

    // Header of one packet, and the packet itself.
    method Emit(payload: seq<Byte>) returns (ghost p: Packet)
      requires Valid() && |payload| == PAYLOAD
      modifies this, headers
      ensures Valid() && headerIndex == old(headerIndex) && udpId == Around(old(udpId), TWO_16)
      ensures xmit == old(xmit) + [p] && GoodPacket(p, headerIndex, old(udpId), skeleton) && p.payload == payload
    {
      CreateHeader();
      assert headers[headerIndex][2..][14..34] == Ip(headers[headerIndex]);
      p := Xmit(payload);
    }

    // One round of dvb2eth_send: a packet from the front of the window.
    method SendOne(mem: seq<Byte>, first: nat, firstLen: nat, second: nat, secondLen: nat, ghost rest: seq<Byte>)
      returns (first': nat, firstLen': nat, second': nat, secondLen': nat, ghost p: Packet)
      requires Valid() && Remaining(mem, first, firstLen, second, secondLen, rest) && |rest| >= PAYLOAD
      modifies this, headers
      ensures Valid() && headerIndex == Around(old(headerIndex), UDP_HEADERS) && udpId == Around(old(udpId), TWO_16)
      ensures Remaining(mem, first', firstLen', second', secondLen', rest[PAYLOAD..])
      ensures xmit == old(xmit) + [p] && p.payload == rest[..PAYLOAD]
      ensures GoodPacket(p, old(headerIndex), old(udpId), skeleton)
    {
      CutFront(mem, first, firstLen, second, secondLen, rest);
      first', firstLen', second', secondLen' := first, firstLen, second, secondLen;
      if firstLen' >= PAYLOAD {
        p := Emit(mem[first'..first' + PAYLOAD]);
        first', firstLen' := first' + PAYLOAD, firstLen' - PAYLOAD;
      } else {
        var sLen := PAYLOAD - firstLen';
        p := Emit(mem[first'..first' + firstLen'] + mem[second'..second' + sLen]);
        second', secondLen' := second' + sLen, secondLen' - sLen;
        firstLen' := 0;
      }
      if firstLen' == 0 {
        first', firstLen' := second', secondLen';
        second', secondLen' := 0, 0;
      }
      AroundIs(headerIndex, udpId);
      headerIndex := (headerIndex + 1) % UDP_HEADERS;
    }

    // dvb2eth_send: whole packets from the front of the window; the result is what they took.
    method Send(mem: seq<Byte>, first: nat, firstLen: nat, second: nat, secondLen: nat)
      returns (sent: nat, ghost q: seq<Packet>)
      requires Valid() && first + firstLen <= |mem| && second + secondLen <= |mem| && firstLen + secondLen < TWO_32
      modifies this, headers
      ensures Valid()
      ensures |q| == (firstLen + secondLen) / PAYLOAD && sent == PAYLOAD * |q|
      ensures xmit == old(xmit) + q
      ensures headerIndex == SlotAt(old(headerIndex), |q|) && udpId == IdAt(old(udpId), |q|)
      ensures Train(q, old(headerIndex), old(udpId), skeleton)
      ensures Payloads(q) == (mem[first..first + firstLen] + mem[second..second + secondLen])[..sent]
    {
      var len := firstLen + secondLen;
      if len < PAYLOAD {
          return 0, [];
      }
      sent, q := SendAll(mem, first, firstLen, second, secondLen,
                         mem[first..first + firstLen] + mem[second..second + secondLen]);
    }

    // The part of avia_gt_napi_queue_callback_ts_pes before and around the call: an incomplete
    // transport packet is cut off the window; the result is what the caller removes from its queue.
    method Callback(mem: seq<Byte>, first: nat, buf1Len: nat, second: nat, buf2Len: nat, ghost window: seq<Byte>)
      returns (remove: nat, ghost q: seq<Packet>)
      requires Valid() && Remaining(mem, first, buf1Len, second, buf2Len, window) && buf1Len + buf2Len < TWO_32
      modifies this, headers
      ensures Valid()
      ensures remove == PAYLOAD * |q| && remove <= buf1Len + buf2Len < remove + PAYLOAD
      ensures xmit == old(xmit) + q
      ensures headerIndex == SlotAt(old(headerIndex), |q|) && udpId == IdAt(old(udpId), |q|)
      ensures Train(q, old(headerIndex), old(udpId), skeleton)
      ensures Payloads(q) == window[..remove]
    {
      var len := buf1Len + buf2Len;
      var len1, len2 := buf1Len, buf2Len;
      var cutoff := len % TS_PACKET;
      if cutoff != 0 {
        if cutoff > len2 {
          len1 := len1 - (cutoff - len2);
          len2 := 0;
        } else {
          len2 := len2 - cutoff;
        }
      }
      CutoffHarmless(len);
      remove, q := Send(mem, first, len1, second, len2);
      ghost var cut := mem[first..first + len1] + mem[second..second + len2];
      assert cut == window[..len - cutoff];
      assert cut[..remove] == window[..remove];
    }

    // Many calls: what is not sent stays in the queue in front of the data that arrives; wraps[k] says
    // where the ring buffer of the queue wraps in the k-th window. All packets together are one train
    // over the whole stream.
    method SendStream(arrivals: seq<seq<Byte>>, wraps: seq<nat>) returns (pending: seq<Byte>, ghost q: seq<Packet>)
      requires Valid() && |wraps| == |arrivals|
      requires forall k :: 0 <= k < |arrivals| ==> |arrivals[k]| + PAYLOAD < TWO_32
      modifies this, headers
      ensures Valid() && xmit == old(xmit) + q
      ensures |q| == |Concat(arrivals)| / PAYLOAD
      ensures headerIndex == SlotAt(old(headerIndex), |q|) && udpId == IdAt(old(udpId), |q|)
      ensures Train(q, old(headerIndex), old(udpId), skeleton) && Payloads(q) + pending == Concat(arrivals)
    {
      pending, q := [], [];
      ghost var slot, id := headerIndex, udpId;
      for k := 0 to |arrivals|
        invariant Valid() && xmit == old(xmit) + q
        invariant Sending(q, pending, Concat(arrivals[..k]), slot, id)
      {
        assert arrivals[..k + 1][..k] == arrivals[..k];
        ghost var was := q;
        pending, q := SendNext(pending, arrivals[k], wraps[k], q, Concat(arrivals[..k]), slot, id);
        assert q == was + q[|was|..];
      }
      assert arrivals[..|arrivals|] == arrivals;
      TrainLength(q, slot, id, skeleton);
      WholeOf(|q|, |pending|, |Concat(arrivals)|);
    }

    ghost predicate Sending(q: seq<Packet>, pending: seq<Byte>, stream: seq<Byte>, slot: nat, id: nat)
      reads this
      requires |skeleton| == SKELETON
    {
      && Train(q, slot, id, skeleton) && Payloads(q) + pending == stream && |pending| < PAYLOAD
      && headerIndex == SlotAt(slot, |q|) && udpId == IdAt(id, |q|)
    }

    // One of many calls.
    method SendNext(pending: seq<Byte>, arrived: seq<Byte>, wrap: nat, ghost q: seq<Packet>, ghost stream: seq<Byte>,
                    ghost slot: nat, ghost id: nat)
      returns (rest: seq<Byte>, ghost q': seq<Packet>)
      requires Valid() && Sending(q, pending, stream, slot, id) && |arrived| + PAYLOAD < TWO_32
      modifies this, headers
      ensures Valid() && Sending(q', rest, stream + arrived, slot, id)
      ensures |q| <= |q'| && q'[..|q|] == q && xmit == old(xmit) + q'[|q|..]
    {
      ghost var p;
      rest, p := Feed(pending, arrived, wrap);
      TrainJoins(q, p, slot, id, skeleton);
      FurtherOn(slot, id, |q|, |p|);
      Regroup(Payloads(q), pending, arrived, Payloads(p), rest);
      q' := q + p;
      assert q'[|q|..] == p;
    }

    // One window: the queued bytes in two segments, as the ring buffer holds them.
    method Feed(pending: seq<Byte>, arrived: seq<Byte>, wrap: nat) returns (rest: seq<Byte>, ghost q: seq<Packet>)
      requires Valid() && |pending + arrived| < TWO_32
      modifies this, headers
      ensures Valid() && xmit == old(xmit) + q
      ensures Payloads(q) + rest == pending + arrived && |rest| < PAYLOAD
      ensures headerIndex == SlotAt(old(headerIndex), |q|) && udpId == IdAt(old(udpId), |q|)
      ensures Train(q, old(headerIndex), old(udpId), skeleton)
    {
      var window := pending + arrived;
      var mem, n := RingOf(window, wrap);
      var remove;
      remove, q := Callback(mem, |window| - n, n, 0, |window| - n, window);
      rest := Behind(window, remove);
    }

    // The window in a ring buffer that wraps behind its first n bytes.
    method RingOf(window: seq<Byte>, wrap: nat) returns (mem: seq<Byte>, n: nat)
      ensures n <= |window| && Remaining(mem, |window| - n, n, 0, |window| - n, window)
    {
      n := if wrap <= |window| then wrap else |window|;
      mem := window[n..] + window[..n];
      assert mem[|window| - n..|window| - n + n] == window[..n];
      assert mem[0..0 + (|window| - n)] == window[n..];
    }

    method Behind(window: seq<Byte>, remove: nat) returns (rest: seq<Byte>)
      requires remove <= |window|
      ensures window[..remove] + rest == window && |rest| == |window| - remove
    {
      rest := window[remove..];
    }

    // The loop of dvb2eth_send.
    method SendAll(mem: seq<Byte>, first: nat, firstLen: nat, second: nat, secondLen: nat, ghost stream: seq<Byte>)
      returns (sent: nat, ghost q: seq<Packet>)
      requires Valid() && Remaining(mem, first, firstLen, second, secondLen, stream)
      modifies this, headers
      ensures Valid() && xmit == old(xmit) + q
      ensures sent == PAYLOAD * |q| && sent <= firstLen + secondLen < sent + PAYLOAD
      ensures headerIndex == SlotAt(old(headerIndex), |q|) && udpId == IdAt(old(udpId), |q|)
      ensures Train(q, old(headerIndex), old(udpId), skeleton) && Payloads(q) == stream[..sent]
    {
      var f, fl, s, sl, len := first, firstLen, second, secondLen, firstLen + secondLen;
      sent, q := 0, [];
      ghost var rest := stream;
      while len >= PAYLOAD
        invariant Valid() && sent == PAYLOAD * |q| && len == |rest|
        invariant Payloads(q) + rest == stream && |Payloads(q)| == sent && Remaining(mem, f, fl, s, sl, rest)
        invariant xmit == old(xmit) + q && Train(q, old(headerIndex), old(udpId), skeleton)
        invariant headerIndex == SlotAt(old(headerIndex), |q|) && udpId == IdAt(old(udpId), |q|)
        decreases len
      {
        ghost var p;
        f, fl, s, sl, p := SendOne(mem, f, fl, s, sl, rest);
        TrainGrows(q, p, old(headerIndex), old(udpId), skeleton);
        TakeFront(Payloads(q), rest);
        rest, q := rest[PAYLOAD..], q + [p];
        len := len - PAYLOAD;
        sent := sent + PAYLOAD;
      }
    }
  }

  lemma TakeFront(a: seq<Byte>, rest: seq<Byte>)
    requires |rest| >= PAYLOAD
    ensures a + rest == (a + rest[..PAYLOAD]) + rest[PAYLOAD..]
  {
  }

  // Taking one payload from the front of two segments.
  lemma CutFront(mem: seq<Byte>, first: nat, firstLen: nat, second: nat, secondLen: nat, rest: seq<Byte>)
    requires Remaining(mem, first, firstLen, second, secondLen, rest) && |rest| >= PAYLOAD
    ensures firstLen >= PAYLOAD ==>
              && mem[first..first + PAYLOAD] == rest[..PAYLOAD]
              && mem[first + PAYLOAD..first + firstLen] + mem[second..second + secondLen] == rest[PAYLOAD..]
    ensures firstLen < PAYLOAD ==>
              var sLen := PAYLOAD - firstLen;
              && sLen <= secondLen
              && mem[first..first + firstLen] + mem[second..second + sLen] == rest[..PAYLOAD]
              && mem[second + sLen..second + secondLen] == rest[PAYLOAD..]
  {
  }

  // ---------- Many calls ----------

  // Seven transport packets make one payload, so cutting an incomplete one does not change the number
  // of payloads.
  lemma CutoffHarmless(len: nat)
    ensures (len - len % TS_PACKET) / PAYLOAD == len / PAYLOAD && len % TS_PACKET <= len
  {
    var p, t := len / PAYLOAD, len % PAYLOAD;
    assert len == TS_PACKET * (7 * p) + t;
    assert len % TS_PACKET == t % TS_PACKET by { SameRemainder(t, 7 * p); }
  }

  lemma SameRemainder(t: nat, k: nat)
    ensures (TS_PACKET * k + t) % TS_PACKET == t % TS_PACKET
  {
    var d := t / TS_PACKET;
    assert TS_PACKET * k + t == TS_PACKET * (k + d) + t % TS_PACKET;
  }

  // A train behind a train is one train.
  lemma {:induction false} TrainJoins(p: seq<Packet>, q: seq<Packet>, slot: nat, id: nat, skeleton: seq<Byte>)
    requires |skeleton| == SKELETON && Train(p, slot, id, skeleton)
    requires Train(q, SlotAt(slot, |p|), IdAt(id, |p|), skeleton)
    ensures Train(p + q, slot, id, skeleton) && Payloads(p + q) == Payloads(p) + Payloads(q)
    decreases |q|
  {
    if |q| == 0 {
      assert p + q == p;
    } else {
      var t, x := q[..|q| - 1], q[|q| - 1];
      TrainLast(q, SlotAt(slot, |p|), IdAt(id, |p|), skeleton);
      TrainJoins(p, t, slot, id, skeleton);
      JoinLast(p, t, x, slot, id, skeleton);
    }
  }

  lemma TrainLast(q: seq<Packet>, slot: nat, id: nat, skeleton: seq<Byte>)
    requires |skeleton| == SKELETON && 0 < |q| && Train(q, slot, id, skeleton)
    ensures var i := |q| - 1;
            && Train(q[..i], slot, id, skeleton) && GoodPacket(q[i], SlotAt(slot, i), IdAt(id, i), skeleton)
            && q == q[..i] + [q[i]] && Payloads(q) == Payloads(q[..i]) + q[i].payload
  {
  }

  lemma Assoc<T>(a: seq<T>, b: seq<T>, c: seq<T>)
    ensures a + (b + c) == (a + b) + c
  {
  }

  lemma JoinLast(p: seq<Packet>, t: seq<Packet>, x: Packet, slot: nat, id: nat, skeleton: seq<Byte>)
    requires |skeleton| == SKELETON && Train(p + t, slot, id, skeleton) && Payloads(p + t) == Payloads(p) + Payloads(t)
    requires GoodPacket(x, SlotAt(SlotAt(slot, |p|), |t|), IdAt(IdAt(id, |p|), |t|), skeleton)
    ensures Train(p + (t + [x]), slot, id, skeleton)
    ensures Payloads(p + (t + [x])) == Payloads(p) + (Payloads(t) + x.payload)
  {
    FurtherOn(slot, id, |p|, |t|);
    TrainGrows(p + t, x, slot, id, skeleton);
    Assoc(p, t, [x]);
    Assoc(Payloads(p), Payloads(t), x.payload);
  }

  lemma Regroup(sent: seq<Byte>, pending: seq<Byte>, arrived: seq<Byte>, more: seq<Byte>, rest: seq<Byte>)
    requires more + rest == pending + arrived
    ensures (sent + more) + rest == (sent + pending) + arrived
  {
    Assoc(sent, more, rest);
    Assoc(sent, pending, arrived);
  }

  lemma {:induction false} FurtherOn(slot: nat, id: nat, a: nat, b: nat)
    ensures SlotAt(SlotAt(slot, a), b) == SlotAt(slot, a + b) && IdAt(IdAt(id, a), b) == IdAt(id, a + b)
    decreases b
  {
    if b > 0 { FurtherOn(slot, id, a, b - 1); }
  }

  // Slots and identifications of a train, written with remainders.
  lemma {:induction false} SlotIs(slot: nat, i: nat)
    requires slot < UDP_HEADERS
    ensures SlotAt(slot, i) == (slot + i) % UDP_HEADERS
    decreases i
  {
    if i > 0 {
      SlotIs(slot, i - 1);
      AroundIs(SlotAt(slot, i - 1), 0);
      StepOf32(slot + i - 1);
    }
  }

  lemma {:induction false} IdIs(id: nat, i: nat)
    requires id < TWO_16
    ensures IdAt(id, i) == (id + i) % TWO_16
    decreases i
  {
    if i > 0 {
      IdIs(id, i - 1);
      AroundIs(0, IdAt(id, i - 1));
      StepOf65536(id + i - 1);
    }
  }

  // What packet i of a train is, in numbers.
  lemma {:induction false} PacketIs(q: seq<Packet>, slot: nat, id: nat, skeleton: seq<Byte>, i: nat)
    requires |skeleton| == SKELETON && Train(q, slot, id, skeleton) && slot < UDP_HEADERS && id < TWO_16 && i < |q|
    ensures q[i].slot == (slot + i) % 32 && |q[i].header| == 42
    ensures var h := q[i].header;
            && h[18] as int * 256 + h[19] as int == (id + i) % 65536
            && BytesSum(h[14..34]) > 0 && BytesSum(h[14..34]) % 65535 == 0
    ensures PAYLOAD * i + PAYLOAD <= |Payloads(q)| && q[i].payload == Payloads(q)[PAYLOAD * i..PAYLOAD * i + PAYLOAD]
    decreases |q|
  {
    var t, p := q[..|q| - 1], q[|q| - 1];
    TrainLength(t, slot, id, skeleton);
    TrainLength(q, slot, id, skeleton);
    if i < |t| {
      PacketIs(t, slot, id, skeleton, i);
      EarlierSlice(Payloads(t), p.payload, PAYLOAD * i);
    } else {
      SlotIs(slot, i);
      IdIs(id, i);
      ChecksumIs(p.header[14..34]);
      LastSlice(Payloads(t), p.payload);
    }
  }

  lemma EarlierSlice(a: seq<Byte>, b: seq<Byte>, n: nat)
    requires n + PAYLOAD <= |a|
    ensures (a + b)[n..n + PAYLOAD] == a[n..n + PAYLOAD]
  {
  }

  lemma LastSlice(a: seq<Byte>, b: seq<Byte>)
    requires |b| == PAYLOAD
    ensures (a + b)[|a|..|a| + PAYLOAD] == b
  {
  }

  lemma StepOf32(x: nat)
    ensures (x % UDP_HEADERS + 1) % UDP_HEADERS == (x + 1) % UDP_HEADERS
  {
  }

  lemma StepOf65536(x: nat)
    ensures (x % TWO_16 + 1) % TWO_16 == (x + 1) % TWO_16
  {
  }

  lemma WholeOf(n: nat, rest: nat, len: nat)
    requires len == PAYLOAD * n + rest && rest < PAYLOAD
    ensures n == len / PAYLOAD
  {
  }

  function Concat(arrivals: seq<seq<Byte>>): seq<Byte>
    decreases |arrivals|
  {
    if |arrivals| == 0 then [] else Concat(arrivals[..|arrivals| - 1]) + arrivals[|arrivals| - 1]
  }
}
