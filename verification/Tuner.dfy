// The synthesizer arithmetic of the two tuners (fp/dbox2_fp_napi.c).
//
// All C arithmetic is unsigned and 32 bits wide, so every sum and product is cut with Cut. The bits
// that the source joins with | lie in different places of the byte and are added here.

module Tuner {
  import opened Integers

  const EREMOTEIO := 121
  const EINVAL := 22
  const EOPNOTSUPP := 95

  // unsigned_round_div
  function UnsignedRoundDiv(n: Word, d: Word): Word
    requires d > 0
  {
    Cut(n + d / 2) / d
  }

  // x is n / d rounded to the nearest whole number, halves up.
  predicate Nearest(x: int, n: int, d: int) {
    x * d - d / 2 <= n < x * d - d / 2 + d
  }

  predicate Within(x: int, y: int, e: int) { -e <= x - y <= e }

  // The division rounds to nearest exactly when the sum n + d / 2 does not wrap.
  lemma RoundDivIsNearest(n: Word, d: Word)
    requires d > 0
    ensures Nearest(UnsignedRoundDiv(n, d), n, d) <==> n + d / 2 < 0x1_0000_0000
  {
    var s, x := Cut(n + d / 2), UnsignedRoundDiv(n, d);
    assert x * d <= s < x * d + d;
  }

  // ---------- SP5668, the satellite tuner ----------

  const RATIOS: seq<Word> := [2000000, 1000000, 500000, 250000, 125000, 62500, 31250, 15625]
  const MAX_KHZ := 3815467          // the guard of the source
  const TRUE_MAX_KHZ := 3815217     // above this, n + d / 2 wraps for the ratio in use
  const RATIO_EIGHT_KHZ := 3815460  // from here on, it wraps for the finest ratio

  // What the four bytes tell the chip.
  datatype Setting = Setting(port: nat, chargePump: nat, refDiv: nat, prescaler: nat, div: nat)

  function Decode5668(b: seq<Byte>): Setting
    requires |b| == 4
  {
    var b1: int, b2: int := b[1], b[2];
    Setting(b[0], b1 / 0x20, b1 / 4 % 8, b1 / 2 % 2, b1 % 2 * 0x1_0000 + b2 * 0x100 + b[3])
  }

  // The frequency the chip locks to: the prescaler divides by two.
  function Locked(s: Setting): nat
    requires s.refDiv < 8
  {
    (if s.prescaler == 1 then 2 else 1) * RATIOS[s.refDiv] * s.div
  }

  function Wanted(khz: nat): nat { (khz + 479500) * 1000 }

  // The quotient for the k-th ratio, without wrap-around.
  function Quotient(n: nat, k: nat): nat
    requires k < 8
  {
    (n + RATIOS[k] / 2) / RATIOS[k]
  }

  // Ratio sel is the finest one whose quotient fits 14 bits.
  predicate Finest(n: nat, sel: nat) {
    && sel < 8
    && Quotient(n, sel) <= 0x3fff
    && forall k {:trigger Quotient(n, k)} :: sel < k < 8 ==> Quotient(n, k) > 0x3fff
  }

  // The chip locks as near to n as the finest fitting ratio allows, and the fields are in range.
  ghost predicate Tuned(n: nat, s: Setting) {
    exists sel: nat :: Finest(n, sel) && TunedAt(n, s, sel)
  }

  predicate TunedAt(n: nat, s: Setting, sel: nat)
    requires sel < 8
  {
    && s.refDiv < 8 && s.refDiv == sel + s.prescaler && s.prescaler == (if n >= 2000000000 then 1 else 0)
    && s.div == Quotient(n, sel)
    && Locked(s) == RATIOS[sel] * s.div
    && Within(Locked(s), n, RATIOS[sel] / 2)
  }

  // 0x20 | x. The ratio can reach eight, and then its top bit meets the charge pump bit.
  function Or20(x: nat): nat { if x / 0x20 % 2 == 1 then x else x + 0x20 }

  // The bytes for divider div, ratio sel and prescaler pe, decoded again.
  lemma EncodeDecode(sel: nat, pe: nat, div: nat, b: seq<Byte>)
    requires pe < 2 && sel + pe <= 8 && div < 0x2_0000
    requires |b| == 4 && b[0] == 1 && b[1] == Or20((sel + pe) * 4) + pe * 2 + div / 0x1_0000 % 2
    requires b[2] == div / 0x100 % 0x100 && b[3] == div % 0x100
    ensures Decode5668(b) == Setting(1, 1, (sel + pe) % 8, pe, div)
  {
    var r, hi := (sel + pe) % 8, div / 0x1_0000;
    SecondByte(r, pe, hi, 0x20 + r * 4 + pe * 2 + hi);
    DividerBytes(div);
  }

  lemma SecondByte(r: nat, pe: nat, hi: nat, b: nat)
    requires r < 8 && pe < 2 && hi < 2 && b == 0x20 + r * 4 + pe * 2 + hi
    ensures b / 0x20 == 1 && b / 4 % 8 == r && b / 2 % 2 == pe && b % 2 == hi
  {
  }

  lemma DividerBytes(div: nat)
    ensures div == div / 0x1_0000 * 0x1_0000 + div / 0x100 % 0x100 * 0x100 + div % 0x100
  {
    assert div / 0x100 / 0x100 == div / 0x1_0000;
  }

  // The prescaler halves the ratio that is programmed, so both factors cancel.
  lemma RatiosHalve(k: nat)
    requires k < 7
    ensures RATIOS[k] == 2 * RATIOS[k + 1]
  {
  }

  // Where the loop of the source stops: the first ratio from the fine end that fits.
  predicate Stops(n: Word, sel: nat) {
    && sel < 8
    && UnsignedRoundDiv(n, RATIOS[sel]) <= 0x3fff
    && forall k {:trigger RATIOS[k]} :: sel < k < 8 ==> UnsignedRoundDiv(n, RATIOS[k]) > 0x3fff
  }

  // Half a million always fits, so the search never gets past the third ratio.
  lemma StopsLate(n: Word, sel: nat)
    requires Stops(n, sel)
    ensures sel >= 2
  {
    assert RATIOS[2] == 500000 && UnsignedRoundDiv(n, RATIOS[2]) <= 0x3fff;
  }

  lemma SearchIsFinest(khz: nat, sel: nat)
    requires khz <= TRUE_MAX_KHZ && Stops(Wanted(khz), sel)
    ensures Finest(Wanted(khz), sel) && Quotient(Wanted(khz), sel) == UnsignedRoundDiv(Wanted(khz), RATIOS[sel])
    ensures Wanted(khz) + RATIOS[sel] / 2 < 0x1_0000_0000
    ensures Wanted(khz) >= 2000000000 ==> sel <= 6
  {
    var n := Wanted(khz);
    StopsLate(n, sel);
    forall k: nat | sel <= k < 8 ensures Quotient(n, k) == UnsignedRoundDiv(n, RATIOS[k]) {
      assert RATIOS[k] <= 500000;
    }
  }

  // Between the two bounds the search stops on a sum that has wrapped, and the divider is zero.
  lemma SearchWraps(khz: nat, sel: nat)
    requires TRUE_MAX_KHZ < khz <= MAX_KHZ && Stops(Wanted(khz), sel)
    ensures UnsignedRoundDiv(Wanted(khz), RATIOS[sel]) == 0
  {
    var n := Wanted(khz);
    StopsLate(n, sel);
    RoundDivIsNearest(n, RATIOS[sel]);
    assert sel == 2 || RATIOS[sel] <= 250000;
  }

  // The programmed ratio reaches eight, whose top bit falls on the charge pump bit, exactly when the
  // sum for the finest ratio wraps.
  lemma RatioEight(khz: nat, sel: nat, pe: nat)
    requires khz <= MAX_KHZ && Stops(Wanted(khz), sel)
    requires pe == if Wanted(khz) >= 2000000000 then 1 else 0
    ensures sel + pe == 8 <==> khz >= RATIO_EIGHT_KHZ
  {
    var n := Wanted(khz);
    assert RATIOS[7] == 15625;
    RoundDivIsNearest(n, 15625);
    if sel == 7 && n >= 2000000000 { assert n + 7812 >= 0x1_0000_0000; }
    if n + 7812 >= 0x1_0000_0000 { assert UnsignedRoundDiv(n, RATIOS[7]) == 0; }
  }

  // The bytes of sp5668_set_tv_freq tune the chip exactly below the true bound.
  lemma TunedExactly(khz: nat, sel: nat, s: Setting)
    requires khz <= MAX_KHZ && Stops(Wanted(khz), sel)
    requires var pe := if Wanted(khz) >= 2000000000 then 1 else 0;
             s == Setting(1, 1, (sel + pe) % 8, pe, UnsignedRoundDiv(Wanted(khz), RATIOS[sel]))
    ensures Tuned(Wanted(khz), s) <==> khz <= TRUE_MAX_KHZ
    ensures khz > TRUE_MAX_KHZ ==> s.div == 0
  {
    var n := Wanted(khz);
    if khz <= TRUE_MAX_KHZ {
      SearchIsFinest(khz, sel);
      RoundDivIsNearest(n, RATIOS[sel]);
      if s.prescaler == 1 { RatiosHalve(sel); }
      assert Finest(n, sel) && TunedAt(n, s, sel);
    } else {
      SearchWraps(khz, sel);
      forall k: nat | k < 8 ensures !TunedAt(n, s, k) {
        assert Locked(s) == 0;
        assert RATIOS[k] <= 2000000;
      }
    }
  }

  // sp5668_set_tv_freq; khz is the frequency the frontend asks for, ok says if the bus accepts the
  // write, sent is what went out.
  method Sp5668SetTvFreq(khz: Word, ok: bool) returns (rc: int, sent: seq<Byte>)
    ensures rc == -EINVAL <==> khz > MAX_KHZ
    ensures khz > MAX_KHZ ==> sent == []
    ensures khz <= MAX_KHZ ==> rc == if ok then -EOPNOTSUPP else -EREMOTEIO
    ensures khz <= MAX_KHZ ==> |sent| == 4 && Decode5668(sent).port == 1 && Decode5668(sent).chargePump == 1
    ensures khz <= MAX_KHZ ==> (Tuned(Wanted(khz), Decode5668(sent)) <==> khz <= TRUE_MAX_KHZ)
    ensures TRUE_MAX_KHZ < khz <= MAX_KHZ ==> Decode5668(sent).div == 0
  {
    var freq := Cut(Cut(khz + 479500) * 1000);
    sent := [];
    if khz > MAX_KHZ {
      return -EINVAL, sent;
    }
    assert freq == Wanted(khz);
    var pe := if freq >= 2000000000 then 1 else 0;
    var sel, div := Search(freq);
    sent := [1, Or20((sel + pe) * 4) + pe * 2 + div / 0x1_0000 % 2, div / 0x100 % 0x100, div % 0x100];
    EncodeDecode(sel, pe, div, sent);
    TunedExactly(khz, sel, Decode5668(sent));
    rc := if ok then -EOPNOTSUPP else -EREMOTEIO;
  }

  // The search for the finest fitting ratio; it never runs below the first one.
  method Search(freq: Word) returns (sel: nat, div: Word)
    ensures Stops(freq, sel) && div == UnsignedRoundDiv(freq, RATIOS[sel])
  {
    var k := 7;
    div := 0;
    while k >= 0
      invariant 0 <= k <= 7
      invariant forall j {:trigger RATIOS[j]} :: k < j < 8 ==> UnsignedRoundDiv(freq, RATIOS[j]) > 0x3fff
    {
      assert k == 0 ==> UnsignedRoundDiv(freq, RATIOS[k]) <= 0x3fff;
      div := UnsignedRoundDiv(freq, RATIOS[k]);
      if div <= 0x3fff {
        return k, div;
      }
      k := k - 1;
    }
    assert false;
  }

  // ---------- SP5659, the cable tuner ----------

  const INTERMEDIATE := 36125000
  const STEP := 62500

  // Divider in 17 bits, split over three bytes; the rest of the third byte is fixed.
  function Divider5659(b: seq<Byte>): nat
    requires |b| == 4
  {
    var b0: int, b2: int := b[0], b[2];
    b2 / 0x20 % 4 * 0x8000 + b0 % 0x80 * 0x100 + b[1]
  }

  // The band switch has one band per bit; bounds in Hz.
  predicate InBand(b: Byte, freq: nat) {
    || (b == 2 && freq < 174000000)
    || (b == 1 && 174000000 <= freq < 455000000)
    || (b == 4 && 455000000 <= freq)
  }

  lemma SplitDivider(div: nat, b: seq<Byte>)
    requires div < 0x2_0000 && |b| == 4
    requires b[0] == div / 0x100 % 0x80 && b[1] == div % 0x100 && b[2] == 0x85 + div / 0x8000 % 4 * 0x20
    ensures Divider5659(b) == div
  {
    var hi := div / 0x8000;
    assert div == hi * 0x8000 + div / 0x100 % 0x80 * 0x100 + div % 0x100;
    assert b[2] / 0x20 == 4 + hi;
  }

  // sp5659_set_tv_freq: the chip locks within half a step of the frequency plus the intermediate
  // frequency exactly while the rounded sum fits 32 bits.
  method Sp5659SetTvFreq(freq: Word, ok: bool) returns (rc: int, sent: seq<Byte>)
    ensures rc == if ok then -EOPNOTSUPP else -EREMOTEIO
    ensures |sent| == 4 && sent[0] < 0x80 && sent[2] % 0x20 == 5 && sent[2] >= 0x80 && InBand(sent[3], freq)
    ensures Within(Divider5659(sent) * STEP, freq + INTERMEDIATE, STEP / 2)
       <==> freq + INTERMEDIATE + STEP / 2 < 0x1_0000_0000
  {
    var n := Cut(freq + INTERMEDIATE);
    var div := UnsignedRoundDiv(n, STEP);
    RoundDivIsNearest(n, STEP);
    sent := [div / 0x100 % 0x80, div % 0x100, 0x85 + div / 0x8000 % 4 * 0x20,
             if freq < 174000000 then 2 else if freq < 455000000 then 1 else 4];
    SplitDivider(div, sent);
    rc := if ok then -EOPNOTSUPP else -EREMOTEIO;
  }
}
