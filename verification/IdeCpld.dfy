// The CPLD FIFO protocol behind the IDE data register (ide/main.c).
//
// The CPLD is a step machine that runs on its own between any two bus accesses of the driver:
// while reading is enabled it fetches 16-bit words from the drive into a FIFO of four words,
// while writing is enabled it drains that FIFO to the drive.  The driver only sees the level
// code and 32-bit FIFO accesses.

module IdeCpld {
  import opened Integers

  type IdeWord = bv16

  // A 32-bit bus word; the high half is the older 16-bit word (the CPU is big-endian).
  datatype DWord = DWord(hi: IdeWord, lo: IdeWord)

  const CTRL_WRITING: bv32 := 0x20
  const CTRL_ENABLE: bv32 := 0x40
  const CTRL_REPEAT: bv32 := 0x80
  const FIFO_WORDS := 4
  const MAX_WAIT_FOR_FIFO_EMPTY := 1000

  // ---------- The chip ----------

  // The three mode bits of the control word.
  datatype Mode = Mode(enable: bool, writing: bool, repeat: bool)

  function Decode(ctrl: bv32): Mode {
    Mode(ctrl & CTRL_ENABLE != 0, ctrl & CTRL_WRITING != 0, ctrl & CTRL_REPEAT != 0)
  }

  datatype Chip = Chip(
    mode: Mode,             // decoded from the last control write
    armed: bool,            // a single access granted by the last control write
    fifo: seq<IdeWord>,
    fetched: nat,           // words taken from the drive so far
    delivered: seq<IdeWord>,   // words handed to the drive so far
    faults: nat             // FIFO accesses without data or without room
  )

  const IDLE := Mode(false, false, false)
  const READ_ONE := Mode(true, false, false)
  const READ_REPEAT := Mode(true, false, true)
  const WRITE_REPEAT := Mode(true, true, true)
  const WRITE_STOPPED := Mode(false, true, false)

  predicate Active(c: Chip) { c.mode.enable && (c.mode.repeat || c.armed) }

  // One autonomous step: fetch one word if reading and not full, drain one if writing and not empty.
  function Step(c: Chip, drive: nat -> IdeWord): Chip {
    if !Active(c) then c
    else if c.mode.writing then
      if |c.fifo| == 0 then c
      else c.(fifo := c.fifo[1..], delivered := c.delivered + [c.fifo[0]], armed := false)
    else
      if |c.fifo| >= FIFO_WORDS then c
      else c.(fifo := c.fifo + [drive(c.fetched)], fetched := c.fetched + 1, armed := false)
  }

  function Steps(c: Chip, drive: nat -> IdeWord, n: nat): Chip
    decreases n
  {
    if n == 0 then c else Steps(Step(c, drive), drive, n - 1)
  }

  // q holds the words the drive yields from position from on.
  ghost predicate Window(q: seq<IdeWord>, drive: nat -> IdeWord, from: nat) {
    forall i :: 0 <= i < |q| ==> q[i] == drive(from + i)
  }

  // A buffer that read b0 before now holds k drive words, and is otherwise unchanged.
  ghost predicate Stored(b: seq<IdeWord>, b0: seq<IdeWord>, drive: nat -> IdeWord, from: nat, k: nat) {
    && |b| == |b0|
    && (forall i :: 0 <= i < k && i < |b| ==> b[i] == drive(from + i))
    && (forall i :: k <= i < |b| ==> b[i] == b0[i])
  }

  lemma {:induction false} IdleSteps(c: Chip, drive: nat -> IdeWord, n: nat)
    requires !Active(c)
    ensures Steps(c, drive, n) == c
    decreases n
  {
    if n > 0 { IdleSteps(c, drive, n - 1); }
  }

  // Auto-repeat reading: the FIFO stays a window of consecutive drive words and grows up to four.
  lemma {:induction false} ReadingSteps(c: Chip, drive: nat -> IdeWord, from: nat, n: nat)
    requires c.mode == READ_REPEAT && |c.fifo| <= FIFO_WORDS
    requires from + |c.fifo| == c.fetched && Window(c.fifo, drive, from)
    ensures var r := Steps(c, drive, n);
            && |r.fifo| == Min(|c.fifo| + n, FIFO_WORDS)
            && from + |r.fifo| == r.fetched && Window(r.fifo, drive, from)
            && (r.mode, r.delivered, r.faults) == (c.mode, c.delivered, c.faults)
    decreases n
  {
    if n > 0 { ReadingSteps(Step(c, drive), drive, from, n - 1); }
  }

  // Auto-repeat writing: words move from the FIFO to the drive, none lost, none reordered.
  lemma {:induction false} WritingSteps(c: Chip, drive: nat -> IdeWord, n: nat)
    requires c.mode == WRITE_REPEAT
    ensures var r := Steps(c, drive, n);
            && r.delivered + r.fifo == c.delivered + c.fifo
            && |r.fifo| == |c.fifo| - Min(n, |c.fifo|)
            && (r.mode, r.fetched, r.faults) == (c.mode, c.fetched, c.faults)
    decreases n
  {
    if n > 0 {
      var c' := Step(c, drive);
      assert |c.fifo| > 0 ==> c.fifo == [c.fifo[0]] + c'.fifo;
      assert c'.delivered + c'.fifo == c.delivered + c.fifo;
      WritingSteps(c', drive, n - 1);
    }
  }

  // A single-shot read fetches exactly one word, however long the chip runs.
  lemma {:induction false} SingleStep(c: Chip, drive: nat -> IdeWord, n: nat)
    requires c.mode == READ_ONE && c.armed && c.fifo == []
    ensures Steps(c, drive, n)
         == if n == 0 then c else c.(fifo := [drive(c.fetched)], fetched := c.fetched + 1, armed := false)
  {
    if n > 0 { IdleSteps(Step(c, drive), drive, n - 1); }
  }

  // The control words the driver writes, for a data port that leaves the three mode bits clear.
  lemma ControlWords(port: bv32)
    requires port & 0xE0 == 0
    ensures Decode(port) == IDLE
    ensures Decode(port | CTRL_ENABLE) == READ_ONE
    ensures Decode(port | CTRL_ENABLE | CTRL_REPEAT) == READ_REPEAT
    ensures Decode(port | CTRL_WRITING | CTRL_ENABLE | CTRL_REPEAT) == WRITE_REPEAT
    ensures Decode(port | CTRL_WRITING) == WRITE_STOPPED
  {
  }

  // ---------- Amounts ----------

  // Words that one insw call takes from the drive.
  function Moved(count: nat): nat {
    if count < 4 then count else (count + 3) / 4 * 4
  }

  // count -= 4 on 32 bits, and the loop counter of outsw after n rounds.
  function Minus4(x: nat): nat { if x >= 4 then x - 4 else x + TWO_32 - 4 }

  function OutswCounter(count: nat, n: nat): nat
    decreases n
  {
    if n == 0 then count else Minus4(OutswCounter(count, n - 1))
  }

  // A count that is not a multiple of four is never counted down to zero.
  lemma {:induction false} OutswCounterNeverZero(count: nat, n: nat)
    requires count < TWO_32
    ensures OutswCounter(count, n) < TWO_32 && OutswCounter(count, n) % 4 == count % 4
    ensures count % 4 != 0 ==> OutswCounter(count, n) != 0
    decreases n
  {
    if n > 0 { OutswCounterNeverZero(count, n - 1); }
  }

  // The first n words at a source address.
  function Source(src: nat -> IdeWord, n: nat): (q: seq<IdeWord>)
    ensures |q| == n
  {
    seq(n, i requires 0 <= i < n => src(i))
  }

  lemma SourceNext(src: nat -> IdeWord, k: nat)
    ensures Source(src, k + 4) == Source(src, k) + [src(k), src(k + 1)] + [src(k + 2), src(k + 3)]
  {
  }

  // Chip steps before the first n bus accesses from t on.
  function PaceSum(pace: nat -> nat, t: nat, n: nat): nat
    decreases n
  {
    if n == 0 then 0 else PaceSum(pace, t, n - 1) + pace(t + n - 1)
  }

  lemma {:induction false} PaceSumGrows(pace: nat -> nat, t: nat, n: nat, m: nat)
    requires n <= m
    ensures PaceSum(pace, t, n) <= PaceSum(pace, t, m)
    decreases m
  {
    if n < m { PaceSumGrows(pace, t, n, m - 1); }
  }

  // A chip that sleeps through 999 polls and then drains everything: the wait reports a problem
  // although it ends with an empty FIFO.
  lemma {:induction false} LateChip(pace: nat -> nat, t: nat, words: nat, polls: nat)
    requires polls < MAX_WAIT_FOR_FIFO_EMPTY && 0 < words <= pace(t + MAX_WAIT_FOR_FIFO_EMPTY - 1)
    requires forall i :: t <= i < t + MAX_WAIT_FOR_FIFO_EMPTY - 1 ==> pace(i) == 0
    ensures PaceSum(pace, t, polls) == 0
    ensures polls == MAX_WAIT_FOR_FIFO_EMPTY - 1 ==> PaceSum(pace, t, polls) < words <= PaceSum(pace, t, polls + 1)
    decreases polls
  {
    if polls > 0 { LateChip(pace, t, words, polls - 1); }
  }

  // ---------- The driver ----------

  class Ide {
    const drive: nat -> IdeWord          // the words the drive will yield
    const pace: nat -> nat            // chip steps taken before each bus access: any interleaving
    ghost const wake: nat -> nat      // fairness witness: an access at or after t before which the chip runs
    var chip: Chip
    var now: nat                      // bus accesses so far

    ghost predicate Fair() {
      forall t :: wake(t) >= t && pace(wake(t)) > 0
    }

    constructor (drive: nat -> IdeWord, pace: nat -> nat, ghost wake: nat -> nat)
      ensures this.drive == drive && this.pace == pace && this.wake == wake
      ensures chip == Chip(IDLE, false, [], 0, [], 0) && now == 0
    {
      this.drive, this.pace, this.wake := drive, pace, wake;
      chip, now := Chip(IDLE, false, [], 0, [], 0), 0;
    }

    // The chip runs up to the next bus access.
    method Tick()
      modifies this
      ensures now == old(now) + 1
      ensures chip == Steps(old(chip), drive, pace(old(now)))
    {
      var n := pace(now);
      while n > 0
        invariant Steps(chip, drive, n) == Steps(old(chip), drive, pace(old(now)))
        invariant now == old(now)
      {
        chip := Step(chip, drive);
        n := n - 1;
      }
      now := now + 1;
    }

    method WriteCtrl(value: bv32)
      modifies this
      ensures now == old(now) + 1
      ensures chip == Steps(old(chip), drive, pace(old(now))).(mode := Decode(value), armed := Decode(value).enable)
    {
      Tick();
      chip := chip.(mode := Decode(value), armed := Decode(value).enable);
    }

    // Level bits: one per word held, so 0 means empty and 0xF means full.
    method FifoLevel() returns (level: nat)
      modifies this
      ensures now == old(now) + 1
      ensures chip == Steps(old(chip), drive, pace(old(now)))
      ensures level == 0 <==> chip.fifo == []
      ensures level == 0xF <==> |chip.fifo| == FIFO_WORDS
    {
      Tick();
      var n := |chip.fifo|;
      level := if n == 0 then 0 else if n == 1 then 1 else if n == 2 then 3 else if n == 4 then 0xF else 7;
    }

    // A 32-bit read takes two words; a lone word arrives in the low half.
    method ReadFifo() returns (d: DWord)
      modifies this
      ensures now == old(now) + 1
      ensures var c := Steps(old(chip), drive, pace(old(now)));
              && (|c.fifo| >= 2 ==> d == DWord(c.fifo[0], c.fifo[1]) && chip == c.(fifo := c.fifo[2..]))
              && (|c.fifo| == 1 ==> d.lo == c.fifo[0] && chip == c.(fifo := []))
              && (|c.fifo| == 0 ==> chip == c.(faults := c.faults + 1))
    {
      Tick();
      if |chip.fifo| >= 2 {
        d := DWord(chip.fifo[0], chip.fifo[1]);
        chip := chip.(fifo := chip.fifo[2..]);
      } else if |chip.fifo| == 1 {
        d := DWord(0, chip.fifo[0]);
        chip := chip.(fifo := []);
      } else {
        d := DWord(0, 0);
        chip := chip.(faults := chip.faults + 1);
      }
    }

    method WriteFifo(d: DWord)
      modifies this
      ensures now == old(now) + 1
      ensures var c := Steps(old(chip), drive, pace(old(now)));
              chip == if |c.fifo| + 2 <= FIFO_WORDS then c.(fifo := c.fifo + [d.hi, d.lo])
                      else c.(faults := c.faults + 1)
    {
      Tick();
      if |chip.fifo| + 2 <= FIFO_WORDS {
        chip := chip.(fifo := chip.fifo + [d.hi, d.lo]);
      } else {
        chip := chip.(faults := chip.faults + 1);
      }
    }

    // Auto-repeat reading is on, and the FIFO holds the drive words that follow the first k after f0.
    ghost predicate Fetching(f0: nat, k: nat)
      reads this
    {
      && chip.mode == READ_REPEAT
      && |chip.fifo| <= FIFO_WORDS && chip.fetched == f0 + k + |chip.fifo|
      && Window(chip.fifo, drive, f0 + k)
    }

    // Poll until four words are there.
    method WaitFull(ghost f0: nat, ghost k: nat)
      requires Fair() && Fetching(f0, k)
      modifies this
      ensures Fetching(f0, k) && |chip.fifo| == FIFO_WORDS
      ensures (chip.delivered, chip.faults) == old((chip.delivered, chip.faults))
    {
      ghost var u := wake(now);
      while true
        invariant Fetching(f0, k) && u >= now && pace(u) > 0
        invariant (chip.delivered, chip.faults) == old((chip.delivered, chip.faults))
        decreases FIFO_WORDS - |chip.fifo|, u - now
      {
        ReadingSteps(chip, drive, f0 + k, pace(now));
        var level := FifoLevel();
        if level == 0xF { break; }
        if u < now { u := wake(now); }
      }
    }

    // One 32-bit read while the chip keeps fetching.
    method ReadPair(ghost f0: nat, ghost k: nat) returns (d: DWord)
      requires Fetching(f0, k) && |chip.fifo| >= 2
      modifies this
      ensures Fetching(f0, k + 2) && |chip.fifo| >= old(|chip.fifo|) - 2
      ensures d == DWord(drive(f0 + k), drive(f0 + k + 1))
      ensures (chip.delivered, chip.faults) == old((chip.delivered, chip.faults))
    {
      ReadingSteps(chip, drive, f0 + k, pace(now));
      d := ReadFifo();
    }

    // Two 32-bit reads behind a full FIFO store the next four words of the drive.
    method TakeFour(dest: array<IdeWord>, k: nat, ghost f0: nat)
      requires Fetching(f0, k) && |chip.fifo| == FIFO_WORDS && k + 4 <= dest.Length
      modifies this, dest
      ensures Fetching(f0, k + 4)
      ensures (chip.delivered, chip.faults) == old((chip.delivered, chip.faults))
      ensures forall i :: k <= i < k + 4 ==> dest[i] == drive(f0 + i)
      ensures forall i :: 0 <= i < dest.Length && !(k <= i < k + 4) ==> dest[i] == old(dest[i])
    {
      var a := ReadPair(f0, k);
      var b := ReadPair(f0, k + 2);
      dest[k], dest[k + 1] := a.hi, a.lo;
      dest[k + 2], dest[k + 3] := b.hi, b.lo;
    }

    // Grant one access.
    method StartOne(port: bv32)
      requires port & 0xE0 == 0 && !Active(chip)
      modifies this
      ensures chip == old(chip).(mode := READ_ONE, armed := true)
    {
      ControlWords(port);
      IdleSteps(chip, drive, pace(now));
      WriteCtrl(port);
      IdleSteps(chip, drive, pace(now));
      WriteCtrl(port | CTRL_ENABLE);
    }

    // inw: one word, single-shot.
    method Inw(port: bv32) returns (val: IdeWord)
      requires port & 0xE0 == 0
      requires Fair() && !Active(chip) && chip.fifo == []
      modifies this
      ensures val == drive(old(chip.fetched)) && chip.fetched == old(chip.fetched) + 1
      ensures !Active(chip) && chip.fifo == []
      ensures (chip.delivered, chip.faults) == old((chip.delivered, chip.faults))
    {
      IdleSteps(chip, drive, pace(now));
      var rest := FifoLevel();
      assert rest == 0;     // no problem to report
      StartOne(port);
      ghost var c := chip;
      ghost var c' := c.(fifo := [drive(c.fetched)], fetched := c.fetched + 1, armed := false);
      ghost var u := wake(now);
      SingleStep(chip, drive, pace(now));
      var level := FifoLevel();
      while level == 0
        invariant chip == c || chip == c'
        invariant level == 0 <==> chip == c
        invariant chip == c ==> u >= now && pace(u) > 0
        decreases level == 0, u - now
      {
        SingleStep(chip, drive, pace(now));
        level := FifoLevel();
      }
      IdleSteps(chip, drive, pace(now));
      var d := ReadFifo();
      val := d.lo;
    }

    // insw with fewer than four words: one single-shot read per word.
    method ShortInsw(port: bv32, dest: array<IdeWord>, count: nat)
      requires port & 0xE0 == 0 && count <= dest.Length
      requires Fair() && !Active(chip) && chip.fifo == []
      modifies this, dest
      ensures chip.fetched == old(chip.fetched) + count && !Active(chip) && chip.fifo == []
      ensures (chip.delivered, chip.faults) == old((chip.delivered, chip.faults))
      ensures Stored(dest[..], old(dest[..]), drive, old(chip.fetched), count)
    {
      var k := 0;
      while k < count
        invariant k <= count
        invariant chip.fetched == old(chip.fetched) + k && !Active(chip) && chip.fifo == []
        invariant (chip.delivered, chip.faults) == old((chip.delivered, chip.faults))
        invariant Stored(dest[..], old(dest[..]), drive, old(chip.fetched), k)
      {
        var w := Inw(port);
        dest[k] := w;
        k := k + 1;
      }
    }

    // insw: fill dest with words from the drive.  The last four are taken only after auto repeat
    // has been switched off, so the drive loses exactly the words that were stored.
    method Insw(port: bv32, dest: array<IdeWord>, count: nat)
      requires port & 0xE0 == 0 && count < TWO_32 && Moved(count) <= dest.Length
      requires Fair() && !Active(chip) && chip.fifo == []
      modifies this, dest
      ensures chip.fetched == old(chip.fetched) + Moved(count)
      ensures Stored(dest[..], old(dest[..]), drive, old(chip.fetched), Moved(count))
      ensures !Active(chip) && chip.fifo == []
      ensures (chip.delivered, chip.faults) == old((chip.delivered, chip.faults))
      ensures chip.fetched == old(chip.fetched) + count <==> count < 4 || count % 4 == 0
    {
      if count < 4 {
        ShortInsw(port, dest, count);
        return;
      }
      ghost var f0 := chip.fetched;
      StartReading(port);
      var k := ReadBulk(dest, count, f0);
      WaitFull(f0, k);
      StopAndTakeFour(port, dest, k, f0);
    }

    // The two counting loops of insw; they leave one to four words to be read.
    method ReadBulk(dest: array<IdeWord>, count: nat, ghost f0: nat) returns (k: nat)
      requires 4 <= count && Moved(count) <= dest.Length
      requires Fair() && Fetching(f0, 0)
      modifies this, dest
      ensures k + 4 == Moved(count) && Fetching(f0, k)
      ensures (chip.delivered, chip.faults) == old((chip.delivered, chip.faults))
      ensures Stored(dest[..], old(dest[..]), drive, f0, k)
    {
      var left := count;
      k := 0;
      while left > 16
        invariant 4 <= left && k + left == count && k % 4 == 0
        invariant Fetching(f0, k)
        invariant (chip.delivered, chip.faults) == old((chip.delivered, chip.faults))
        invariant Stored(dest[..], old(dest[..]), drive, f0, k)
      {
        ReadFour(dest, k, f0, old(dest[..]));
        ReadFour(dest, k + 4, f0, old(dest[..]));
        left, k := left - 8, k + 8;
      }
      while left > 4
        invariant 1 <= left && k + left == count && k % 4 == 0
        invariant Fetching(f0, k)
        invariant (chip.delivered, chip.faults) == old((chip.delivered, chip.faults))
        invariant Stored(dest[..], old(dest[..]), drive, f0, k)
      {
        ReadFour(dest, k, f0, old(dest[..]));
        left, k := left - 4, k + 4;
      }
    }

    // Wait for four words and store them behind the first k.
    method ReadFour(dest: array<IdeWord>, k: nat, ghost f0: nat, ghost b0: seq<IdeWord>)
      requires k + 4 <= dest.Length && Fair() && Fetching(f0, k)
      requires Stored(dest[..], b0, drive, f0, k)
      modifies this, dest
      ensures Fetching(f0, k + 4)
      ensures (chip.delivered, chip.faults) == old((chip.delivered, chip.faults))
      ensures Stored(dest[..], b0, drive, f0, k + 4)
    {
      WaitFull(f0, k);
      TakeFour(dest, k, f0);
    }

    method StartReading(port: bv32)
      requires port & 0xE0 == 0
      requires !Active(chip) && chip.fifo == []
      modifies this
      ensures Fetching(old(chip.fetched), 0)
      ensures (chip.delivered, chip.faults) == old((chip.delivered, chip.faults))
    {
      ControlWords(port);
      IdleSteps(chip, drive, pace(now));
      WriteCtrl(port);
      IdleSteps(chip, drive, pace(now));
      WriteCtrl(port | CTRL_ENABLE | CTRL_REPEAT);
    }

    // The tail of insw: switch off behind a full FIFO, then read the four words that are left.
    method StopAndTakeFour(port: bv32, dest: array<IdeWord>, k: nat, ghost f0: nat)
      requires port & 0xE0 == 0
      requires Fetching(f0, k) && |chip.fifo| == FIFO_WORDS && k + 4 <= dest.Length
      modifies this, dest
      ensures chip.fetched == f0 + k + 4 && !Active(chip) && chip.fifo == []
      ensures (chip.delivered, chip.faults) == old((chip.delivered, chip.faults))
      ensures forall i :: k <= i < k + 4 ==> dest[i] == drive(f0 + i)
      ensures forall i :: 0 <= i < dest.Length && !(k <= i < k + 4) ==> dest[i] == old(dest[i])
    {
      StopReading(port, f0, k);
      var a := ReadRest(f0, k);
      var b := ReadRest(f0, k + 2);
      dest[k], dest[k + 1] := a.hi, a.lo;
      dest[k + 2], dest[k + 3] := b.hi, b.lo;
    }

    // Auto-repeat reading is off, and the FIFO keeps the words that follow the first k after f0.
    ghost predicate Holding(f0: nat, k: nat)
      reads this
    {
      !Active(chip) && chip.fetched == f0 + k + |chip.fifo| && Window(chip.fifo, drive, f0 + k)
    }

    method StopReading(port: bv32, ghost f0: nat, ghost k: nat)
      requires port & 0xE0 == 0
      requires Fetching(f0, k) && |chip.fifo| == FIFO_WORDS
      modifies this
      ensures Holding(f0, k) && |chip.fifo| == FIFO_WORDS
      ensures (chip.delivered, chip.faults) == old((chip.delivered, chip.faults))
    {
      ControlWords(port);
      ReadingSteps(chip, drive, f0 + k, pace(now));
      WriteCtrl(port);
    }

    method ReadRest(ghost f0: nat, ghost k: nat) returns (d: DWord)
      requires Holding(f0, k) && |chip.fifo| >= 2
      modifies this
      ensures Holding(f0, k + 2) && |chip.fifo| == old(|chip.fifo|) - 2
      ensures d == DWord(drive(f0 + k), drive(f0 + k + 1))
      ensures (chip.delivered, chip.faults) == old((chip.delivered, chip.faults))
    {
      IdleSteps(chip, drive, pace(now));
      d := ReadFifo();
    }

    // Auto-repeat writing is on, and everything pushed so far is either delivered or in the FIFO.
    ghost predicate Draining(pushed: seq<IdeWord>)
      reads this
    {
      && chip.mode == WRITE_REPEAT
      && chip.delivered + chip.fifo == pushed
    }

    // Poll until the FIFO is empty, without a bound.
    method WaitEmpty(ghost pushed: seq<IdeWord>)
      requires Fair() && Draining(pushed)
      modifies this
      ensures Draining(pushed) && chip.fifo == []
      ensures (chip.fetched, chip.faults) == old((chip.fetched, chip.faults))
    {
      ghost var u := wake(now);
      while true
        invariant Draining(pushed) && u >= now && pace(u) > 0
        invariant (chip.fetched, chip.faults) == old((chip.fetched, chip.faults))
        decreases |chip.fifo|, u - now
      {
        WritingSteps(chip, drive, pace(now));
        var level := FifoLevel();
        if level == 0 { break; }
        if u < now { u := wake(now); }
      }
    }

    // The bounded wait.  It reports a problem exactly when the first 999 polls leave the FIFO
    // non-empty, even if the last poll then sees it empty.
    method WaitForFifoEmpty(ghost pushed: seq<IdeWord>) returns (problem: bool)
      requires Draining(pushed)
      modifies this
      ensures Draining(pushed)
      ensures problem <==> PaceSum(pace, old(now), MAX_WAIT_FOR_FIFO_EMPTY - 1) < |old(chip.fifo)|
      ensures chip.fifo == [] <==> |old(chip.fifo)| <= PaceSum(pace, old(now), MAX_WAIT_FOR_FIFO_EMPTY)
      ensures now <= old(now) + MAX_WAIT_FOR_FIFO_EMPTY
      ensures (chip.fetched, chip.faults) == old((chip.fetched, chip.faults))
    {
      ghost var t := now;
      ghost var n0 := |chip.fifo|;
      ghost var polls := 1;
      var cnt := MAX_WAIT_FOR_FIFO_EMPTY - 1;
      var level := PollDraining(pushed, t, n0, 0);
      while level != 0 && cnt > 0
        invariant 0 <= cnt && polls + cnt == MAX_WAIT_FOR_FIFO_EMPTY && polls >= 1 && now == t + polls
        invariant Draining(pushed) && |chip.fifo| == Left(n0, PaceSum(pace, t, polls))
        invariant n0 > PaceSum(pace, t, polls - 1) || polls == 1
        invariant level == 0 <==> chip.fifo == []
        invariant (chip.fetched, chip.faults) == old((chip.fetched, chip.faults))
        decreases cnt
      {
        cnt := cnt - 1;
        level := PollDraining(pushed, t, n0, polls);
        polls := polls + 1;
      }
      problem := cnt <= 0;
      PaceSumGrows(pace, t, polls, MAX_WAIT_FOR_FIFO_EMPTY);
      if cnt > 0 { PaceSumGrows(pace, t, polls, MAX_WAIT_FOR_FIFO_EMPTY - 1); }
    }

    // One poll while the chip drains a FIFO that held n0 words at time t.
    method PollDraining(ghost pushed: seq<IdeWord>, ghost t: nat, ghost n0: nat, ghost polls: nat) returns (level: nat)
      requires Draining(pushed) && now == t + polls && |chip.fifo| == Left(n0, PaceSum(pace, t, polls))
      modifies this
      ensures Draining(pushed) && now == t + polls + 1 && |chip.fifo| == Left(n0, PaceSum(pace, t, polls + 1))
      ensures level == 0 <==> chip.fifo == []
      ensures (chip.fetched, chip.faults) == old((chip.fetched, chip.faults))
    {
      WritingSteps(chip, drive, pace(now));
      level := FifoLevel();
    }

    function Left(n: nat, drained: nat): nat { if drained < n then n - drained else 0 }

    method PushPair(d: DWord, ghost pushed: seq<IdeWord>)
      requires Draining(pushed) && |chip.fifo| <= 2
      modifies this
      ensures Draining(pushed + [d.hi, d.lo]) && |chip.fifo| <= old(|chip.fifo|) + 2
      ensures (chip.fetched, chip.faults) == old((chip.fetched, chip.faults))
    {
      WritingSteps(chip, drive, pace(now));
      WriteFifo(d);
      assert pushed + [d.hi, d.lo] == chip.delivered + chip.fifo;
    }

    // Push four words into an empty FIFO with two 32-bit writes.
    method PushFour(src: nat -> IdeWord, k: nat, ghost pushed: seq<IdeWord>)
      requires Draining(pushed) && chip.fifo == []
      modifies this
      ensures Draining(pushed + [src(k), src(k + 1)] + [src(k + 2), src(k + 3)])
      ensures (chip.fetched, chip.faults) == old((chip.fetched, chip.faults))
    {
      PushPair(DWord(src(k), src(k + 1)), pushed);
      PushPair(DWord(src(k + 2), src(k + 3)), pushed + [src(k), src(k + 1)]);
    }

    method StartWriting(port: bv32)
      requires port & 0xE0 == 0
      requires !Active(chip) && chip.fifo == []
      modifies this
      ensures Draining(old(chip.delivered)) && chip.fifo == []
      ensures (chip.fetched, chip.faults) == old((chip.fetched, chip.faults))
    {
      ControlWords(port);
      IdleSteps(chip, drive, pace(now));
      WriteCtrl(port | CTRL_WRITING | CTRL_ENABLE | CTRL_REPEAT);
      assert chip.delivered + [] == chip.delivered;
    }

    // One round of outsw.
    method PushNext(src: nat -> IdeWord, k: nat, ghost d0: seq<IdeWord>)
      requires Fair() && Draining(d0 + Source(src, k))
      modifies this
      ensures Draining(d0 + Source(src, k + 4))
      ensures (chip.fetched, chip.faults) == old((chip.fetched, chip.faults))
    {
      ghost var p := d0 + Source(src, k);
      SourceNext(src, k);
      assert p + [src(k), src(k + 1)] + [src(k + 2), src(k + 3)] == d0 + Source(src, k + 4);
      WaitEmpty(p);
      PushFour(src, k, p);
    }

    // The push loop of outsw, watched for at most limit rounds: it ends within them exactly if the
    // count is a multiple of four that is not too large.
    method PushLoop(src: nat -> IdeWord, count: nat, limit: nat, ghost d0: seq<IdeWord>)
      returns (rounds: nat, left: nat)
      requires count < TWO_32 && Fair() && Draining(d0)
      modifies this
      ensures rounds <= limit && left == OutswCounter(count, rounds) && (left == 0 || rounds == limit)
      ensures left == 0 <==> count % 4 == 0 && count <= 4 * limit
      ensures left == 0 ==> 4 * rounds == count
      ensures Draining(d0 + Source(src, 4 * rounds))
      ensures (chip.fetched, chip.faults) == old((chip.fetched, chip.faults))
    {
      left, rounds := count, 0;
      assert d0 + Source(src, 0) == d0;
      while left > 0 && rounds < limit
        invariant rounds <= limit && left == OutswCounter(count, rounds)
        invariant count % 4 == 0 ==> left == count - 4 * rounds
        invariant Draining(d0 + Source(src, 4 * rounds))
        invariant (chip.fetched, chip.faults) == old((chip.fetched, chip.faults))
        decreases limit - rounds
      {
        OutswCounterNeverZero(count, rounds);
        PushNext(src, 4 * rounds, d0);
        left, rounds := Minus4(left), rounds + 1;
      }
      OutswCounterNeverZero(count, rounds);
    }

    // outsw for every count: if its loop ends, the drive receives the source words in order, none is
    // pushed without room, and the branch for a rest of two words is not taken; otherwise it is
    // still pushing after any number of rounds.
    method Outsw(port: bv32, src: nat -> IdeWord, count: nat, limit: nat) returns (ended: bool, problem: bool)
      requires port & 0xE0 == 0 && count < TWO_32
      requires Fair() && !Active(chip) && chip.fifo == []
      modifies this
      ensures ended <==> count % 4 == 0 && count <= 4 * limit
      ensures ended ==> chip.delivered + chip.fifo == old(chip.delivered) + Source(src, count)
      ensures ended && !problem ==> chip.fifo == []
      ensures ended ==> !Active(chip)
      ensures !ended ==> Draining(old(chip.delivered) + Source(src, 4 * limit))
      ensures (chip.fetched, chip.faults) == old((chip.fetched, chip.faults))
    {
      ghost var d0 := chip.delivered;
      StartWriting(port);
      var rounds, left := PushLoop(src, count, limit, d0);
      ended, problem := left == 0, false;
      if ended {
        problem := FinishWriting(port, d0 + Source(src, count));
      }
    }

    // The wait and the stop behind the loop.
    method FinishWriting(port: bv32, ghost pushed: seq<IdeWord>) returns (problem: bool)
      requires port & 0xE0 == 0 && Draining(pushed)
      modifies this
      ensures chip.delivered + chip.fifo == pushed && !Active(chip)
      ensures !problem ==> chip.fifo == []
      ensures problem <==> PaceSum(pace, old(now), MAX_WAIT_FOR_FIFO_EMPTY - 1) < |old(chip.fifo)|
      ensures (chip.fetched, chip.faults) == old((chip.fetched, chip.faults))
    {
      PaceSumGrows(pace, now, MAX_WAIT_FOR_FIFO_EMPTY - 1, MAX_WAIT_FOR_FIFO_EMPTY);
      problem := WaitForFifoEmpty(pushed);
      StopWriting(port, pushed);
    }

    method StopWriting(port: bv32, ghost pushed: seq<IdeWord>)
      requires port & 0xE0 == 0 && Draining(pushed)
      modifies this
      ensures !Active(chip) && chip.delivered + chip.fifo == pushed
      ensures old(chip.fifo) == [] ==> chip.fifo == []
      ensures (chip.fetched, chip.faults) == old((chip.fetched, chip.faults))
    {
      ControlWords(port);
      WritingSteps(chip, drive, pace(now));
      WriteCtrl(port | CTRL_WRITING);
    }
  }
}
