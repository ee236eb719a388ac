// The remote-control key machine (fp/dbox2_fp_rc.c).
//
// Scan codes of the old and of the new remote arrive as interrupts; a press is ended by a break
// code (old remote only), by another key, or by a timer that both remotes share.  The timer may
// also fire while a handler runs: between its test of the timer and the deletion, and just before
// that test.

module RcKeys {
  import opened Integers

  datatype Option<T> = None | Some(value: T)

  datatype Key =
    | KEY_0 | KEY_1 | KEY_2 | KEY_3 | KEY_4 | KEY_5 | KEY_6 | KEY_7
    | KEY_8 | KEY_9 | KEY_RIGHT | KEY_LEFT | KEY_UP | KEY_DOWN | KEY_OK | KEY_MUTE
    | KEY_POWER | KEY_GREEN | KEY_YELLOW | KEY_RED | KEY_BLUE | KEY_VOLUMEUP | KEY_VOLUMEDOWN | KEY_HELP
    | KEY_SETUP | KEY_TOPLEFT | KEY_TOPRIGHT | KEY_BOTTOMLEFT | KEY_BOTTOMRIGHT | KEY_HOME | KEY_PAGEDOWN | KEY_PAGEUP

  datatype RcKey = RcKey(code: Key, valueNew: nat, valueOld: nat)

  const RC_KEY_MAP: seq<RcKey> := [
    RcKey(KEY_0, 0x00, 0x00), RcKey(KEY_1, 0x01, 0x01), RcKey(KEY_2, 0x02, 0x02),
    RcKey(KEY_3, 0x03, 0x03), RcKey(KEY_4, 0x04, 0x04), RcKey(KEY_5, 0x05, 0x05),
    RcKey(KEY_6, 0x06, 0x06), RcKey(KEY_7, 0x07, 0x07), RcKey(KEY_8, 0x08, 0x08),
    RcKey(KEY_9, 0x09, 0x09), RcKey(KEY_RIGHT, 0x0A, 0x2E), RcKey(KEY_LEFT, 0x0B, 0x2F),
    RcKey(KEY_UP, 0x0C, 0x0E), RcKey(KEY_DOWN, 0x0D, 0x0F), RcKey(KEY_OK, 0x0E, 0x30),
    RcKey(KEY_MUTE, 0x0F, 0x28), RcKey(KEY_POWER, 0x10, 0x0C), RcKey(KEY_GREEN, 0x11, 0x55),
    RcKey(KEY_YELLOW, 0x12, 0x52), RcKey(KEY_RED, 0x13, 0x2D), RcKey(KEY_BLUE, 0x14, 0x3B),
    RcKey(KEY_VOLUMEUP, 0x15, 0x16), RcKey(KEY_VOLUMEDOWN, 0x16, 0x17), RcKey(KEY_HELP, 0x17, 0x82),
    RcKey(KEY_SETUP, 0x18, 0x27), RcKey(KEY_TOPLEFT, 0x1B, 0xFF), RcKey(KEY_TOPRIGHT, 0x1C, 0xFB),
    RcKey(KEY_BOTTOMLEFT, 0x1D, 0xFD), RcKey(KEY_BOTTOMRIGHT, 0x1E, 0xFC), RcKey(KEY_HOME, 0x1F, 0x20),
    RcKey(KEY_PAGEDOWN, 0x19, 0x53), RcKey(KEY_PAGEUP, 0x1A, 0x54)
  ]

  const BREAK_CODE := 0x5CFE
  const NO_TOGGLE := 0xFF

  // First row for a code of the old remote, from row i on.
  function FindOld(v: nat, i: nat): (r: Option<nat>)
    requires i <= |RC_KEY_MAP|
    ensures r.Some? ==> i <= r.value < |RC_KEY_MAP| && RC_KEY_MAP[r.value].valueOld == v
    decreases |RC_KEY_MAP| - i
  {
    if i == |RC_KEY_MAP| then None else if RC_KEY_MAP[i].valueOld == v then Some(i) else FindOld(v, i + 1)
  }

  // The row for a code of the new remote.
  function RowNew(v: nat): nat {
    if v <= 0x18 then v else if v <= 0x1A then v + 5 else v - 2
  }

  // Every five-bit code of the new remote has exactly one row.
  lemma RowNewUnique(v: nat, i: nat)
    requires v < 0x20 && i < |RC_KEY_MAP|
    ensures RowNew(v) < |RC_KEY_MAP|
    ensures RC_KEY_MAP[i].valueNew == v <==> i == RowNew(v)
  {
  }

  // ---------- Traces ----------

  datatype Kind = Released | Pressed | AutoRepeat
  datatype Event = Event(key: Key, kind: Kind)

  datatype Status = Idle | Held(key: Key) | Broken

  // A well-formed trace is a sequence of presses, each followed by repeats of the same key and
  // its release; the last press may still be open.
  function Scan(trace: seq<Event>): Status
    decreases |trace|
  {
    if |trace| == 0 then Idle else After(Scan(trace[..|trace| - 1]), trace[|trace| - 1])
  }

  function After(s: Status, e: Event): Status {
    if s == Idle && e.kind == Pressed then Held(e.key)
    else if s == Held(e.key) && e.kind == AutoRepeat then s
    else if s == Held(e.key) && e.kind == Released then Idle
    else Broken
  }

  lemma ScanSnoc(trace: seq<Event>, e: Event)
    ensures Scan(trace + [e]) == After(Scan(trace), e)
  {
    assert (trace + [e])[..|trace|] == trace;
  }

  // ---------- The machine ----------

  // The shared timer: idle, or pending with the key data of one remote.
  datatype Timer = Off | ForOld | ForNew

  datatype State = State(
    oldLast: Option<nat>,        // row of the key held on the old remote
    newLast: Option<nat>,
    toggle: nat,                 // toggle bits of the new remote, or NO_TOGGLE
    timer: Timer,                // whose key it will release
    down: set<Key>,              // pressed-key bits of the input core
    trace: seq<Event>,
    oldRcCode: nat               // the last code seen by the filter for Philips boxes
  )

  const INITIAL_STATE := State(None, None, NO_TOGGLE, Off, {}, [], 0)

  predicate Rows(s: State) {
    (s.oldLast.Some? ==> s.oldLast.value < |RC_KEY_MAP|) && (s.newLast.Some? ==> s.newLast.value < |RC_KEY_MAP|)
  }

  // input_event
  function Emit(s: State, key: Key, kind: Kind): State {
    s.(trace := s.trace + [Event(key, kind)],
       down := if kind == Pressed then s.down + {key} else if kind == Released then s.down - {key} else s.down)
  }

  // The timer fires if it is pending: dbox2_fp_rc_keyup on the data it was armed with.
  function Fire(s: State): (r: State)
    requires Rows(s)
    ensures Rows(r) && r.timer == Off
  {
    if s.timer == Off then s
    else if s.timer == ForOld then
      var t := s.(timer := Off);
      if s.oldLast == None || RC_KEY_MAP[s.oldLast.value].code !in s.down then t
      else Emit(t, RC_KEY_MAP[s.oldLast.value].code, Released).(oldLast := None)
    else
      var t := s.(timer := Off);
      if s.newLast == None || RC_KEY_MAP[s.newLast.value].code !in s.down then t
      else Emit(t.(toggle := NO_TOGGLE), RC_KEY_MAP[s.newLast.value].code, Released).(newLast := None)
  }

  function MaybeFire(s: State, fires: bool): (r: State)
    requires Rows(s)
    ensures Rows(r)
  {
    if fires then Fire(s) else s
  }

  // if (timer_pending) del_timer_sync: the timer may fire before the test, or between test and deletion.
  function Delete(s: State, before: bool, between: bool): (r: State)
    requires Rows(s)
    ensures Rows(r) && r.timer == Off
  {
    MaybeFire(MaybeFire(s, before), between).(timer := Off)
  }

  // When the timer fires while a handler runs.
  datatype Race = Race(a: bool, b: bool, c: bool, d: bool)

  predicate EndsOld(s: State, rc: Halfword)
    requires Rows(s)
  {
    rc == BREAK_CODE || (s.oldLast.Some? && rc % 0x100 != RC_KEY_MAP[s.oldLast.value].valueOld)
  }

  // dbox2_fp_old_rc_queue_handler
  function OldStep(s: State, rc: Halfword, race: Race): (r: State)
    requires Rows(s)
    ensures Rows(r)
  {
    var t := if EndsOld(s, rc) then ReleaseOld(Delete(s, race.a, race.b)) else s;
    var row := FindOld(rc % 0x100, 0);
    if rc == BREAK_CODE || row == None then t else PressOld(Delete(t, race.c, race.d), row.value)
  }

  function ReleaseOld(s: State): (r: State)
    requires Rows(s)
    ensures Rows(r)
  {
    if s.oldLast == None then s else Emit(s, RC_KEY_MAP[s.oldLast.value].code, Released).(oldLast := None)
  }

  function PressOld(s: State, row: nat): (r: State)
    requires Rows(s) && row < |RC_KEY_MAP|
    ensures Rows(r)
  {
    var key := RC_KEY_MAP[row].code;
    var t := if s.oldLast.Some? && RC_KEY_MAP[s.oldLast.value].code == key then Emit(s, key, AutoRepeat)
             else Emit(s, key, Pressed).(oldLast := Some(row));
    t.(timer := ForOld)
  }

  // dbox2_fp_new_rc_queue_handler, behind the filter: row and toggle bits of the code.
  function NewKey(s: State, row: nat, toggle: nat, race: Race): (r: State)
    requires Rows(s) && row < |RC_KEY_MAP|
    ensures Rows(r)
  {
    var key := RC_KEY_MAP[row].code;
    var p := MaybeFire(s, race.a);
    var t := if p.timer == Off then p else ReleaseNew(Delete(p, false, race.b), key, toggle);
    var u := if t.toggle != NO_TOGGLE && t.toggle == toggle then Emit(t, key, AutoRepeat) else Emit(t, key, Pressed);
    u.(newLast := Some(row), toggle := toggle, timer := ForNew)
  }

  function ReleaseNew(s: State, key: Key, toggle: nat): (r: State)
    requires Rows(s)
    ensures Rows(r) && r.timer == s.timer
  {
    if s.newLast.Some? && (RC_KEY_MAP[s.newLast.value].code != key || s.toggle != toggle) && s.toggle != NO_TOGGLE
    then Emit(s, RC_KEY_MAP[s.newLast.value].code, Released).(toggle := NO_TOGGLE)
    else s
  }

  // The filter drops the first occurrence of a changed code.
  predicate Filtered(s: State, philipsPatch: bool, rc: Halfword) { philipsPatch && rc % 0x20 != s.oldRcCode }

  function NewStep(s: State, philipsPatch: bool, rc: Halfword, race: Race): (r: State)
    requires Rows(s)
    ensures Rows(r)
  {
    if Filtered(s, philipsPatch, rc) then s.(oldRcCode := rc % 0x20)
    else
      RowNewUnique(rc % 0x20, 0);
      NewKey(s, RowNew(rc % 0x20), rc / 0x40 % 4, race)
  }

  // ---------- The invariant ----------

  // A press is open exactly when the timer is pending, for the remote the timer belongs to.
  ghost predicate Good(s: State) {
    && Rows(s)
    && (s.timer != ForOld ==> s.oldLast == None)
    && (s.timer != ForNew ==> s.newLast == None && s.toggle == NO_TOGGLE)
    && (s.timer == Off ==> s.down == {} && Scan(s.trace) == Idle)
    && (s.timer == ForOld ==>
          && s.oldLast.Some?
          && FindOld(RC_KEY_MAP[s.oldLast.value].valueOld, 0) == s.oldLast
          && HoldsKey(s, RC_KEY_MAP[s.oldLast.value].code))
    && (s.timer == ForNew ==>
          && s.newLast.Some? && s.toggle < 4
          && HoldsKey(s, RC_KEY_MAP[s.newLast.value].code))
  }

  ghost predicate HoldsKey(s: State, key: Key) { s.down == {key} && Scan(s.trace) == Held(key) }

  // The handler deletes a timer that was armed for a key of the other remote.
  predicate OldClash(s: State, rc: Halfword, race: Race) {
    s.timer == ForNew
    && (if rc == BREAK_CODE then !race.a && !race.b else FindOld(rc % 0x100, 0).Some? && !race.c && !race.d)
  }

  predicate NewClash(s: State, philipsPatch: bool, rc: Halfword, race: Race) {
    s.timer == ForOld && !Filtered(s, philipsPatch, rc) && !race.a && !race.b
  }

  lemma FireGood(s: State)
    requires Good(s)
    ensures Good(Fire(s)) && Fire(s).timer == Off
    ensures Fire(s).oldRcCode == s.oldRcCode
  {
    if s.timer == ForOld {
      ScanSnoc(s.trace, Event(RC_KEY_MAP[s.oldLast.value].code, Released));
    } else if s.timer == ForNew {
      ScanSnoc(s.trace, Event(RC_KEY_MAP[s.newLast.value].code, Released));
    }
  }

  lemma PressOldGood(s: State, row: nat)
    requires Good(s) && s.timer == Off && row < |RC_KEY_MAP|
    requires FindOld(RC_KEY_MAP[row].valueOld, 0) == Some(row)
    ensures Good(PressOld(s, row))
  {
    ScanSnoc(s.trace, Event(RC_KEY_MAP[row].code, Pressed));
  }

  // A code of the old remote keeps the invariant unless it takes away the timer of the new one.
  lemma OldStepGood(s: State, rc: Halfword, race: Race)
    requires Good(s)
    ensures Good(OldStep(s, rc, race)) <==> !OldClash(s, rc, race)
  {
    var row := FindOld(rc % 0x100, 0);
    FireGood(s);
    if s.timer == Off {
      if rc != BREAK_CODE && row.Some? { PressOldGood(s, row.value); }
    } else if s.timer == ForOld {
      OldStepOwn(s, rc, race);
    } else {
      OldStepForeign(s, rc, race);
    }
  }

  lemma OldStepOwn(s: State, rc: Halfword, race: Race)
    requires Good(s) && s.timer == ForOld
    ensures Good(OldStep(s, rc, race))
  {
    if EndsOld(s, rc) {
      OldReleased(s, race.a, race.b);
      OldPresses(ReleaseOld(Delete(s, race.a, race.b)), rc, race.c, race.d);
    } else {
      OldRepeats(s, race.c, race.d);
    }
  }

  // The table scan after the release.
  lemma OldPresses(t: State, rc: Halfword, before: bool, between: bool)
    requires Good(t) && t.timer == Off
    ensures var row := FindOld(rc % 0x100, 0); row.Some? ==> Good(PressOld(Delete(t, before, between), row.value))
  {
    var row := FindOld(rc % 0x100, 0);
    if row.Some? { PressOldGood(t, row.value); }
  }

  lemma OldReleased(s: State, before: bool, between: bool)
    requires Good(s) && s.timer == ForOld
    ensures var t := ReleaseOld(Delete(s, before, between)); Good(t) && t.timer == Off
  {
    FireGood(s);
    ScanSnoc(s.trace, Event(RC_KEY_MAP[s.oldLast.value].code, Released));
  }

  lemma OldRepeats(s: State, before: bool, between: bool)
    requires Good(s) && s.timer == ForOld
    ensures Good(PressOld(Delete(s, before, between), s.oldLast.value))
  {
    FireGood(s);
    if before || between {
      PressOldGood(Fire(s), s.oldLast.value);
    } else {
      ScanSnoc(s.trace, Event(RC_KEY_MAP[s.oldLast.value].code, AutoRepeat));
    }
  }

  lemma OldStepForeign(s: State, rc: Halfword, race: Race)
    requires Good(s) && s.timer == ForNew
    ensures Good(OldStep(s, rc, race)) <==> !OldClash(s, rc, race)
  {
    var row := FindOld(rc % 0x100, 0);
    FireGood(s);
    if rc != BREAK_CODE && row.Some? {
      if race.c || race.d {
        PressOldGood(Fire(s), row.value);
      } else {
        ScanSnoc(s.trace, Event(RC_KEY_MAP[row.value].code, Pressed));
      }
    }
  }

  lemma PressNewGood(s: State, row: nat, toggle: nat, race: Race)
    requires Good(s) && s.timer == Off && row < |RC_KEY_MAP| && toggle < 4
    ensures Good(NewKey(s, row, toggle, race))
  {
    ScanSnoc(s.trace, Event(RC_KEY_MAP[row].code, Pressed));
  }

  // A code of the new remote keeps the invariant unless it takes away the timer of the old one.
  lemma NewStepGood(s: State, philipsPatch: bool, rc: Halfword, race: Race)
    requires Good(s)
    ensures Good(NewStep(s, philipsPatch, rc, race)) <==> !NewClash(s, philipsPatch, rc, race)
  {
    if !Filtered(s, philipsPatch, rc) {
      RowNewUnique(rc % 0x20, 0);
      NewKeyGood(s, RowNew(rc % 0x20), rc / 0x40 % 4, race);
    }
  }

  lemma NewKeyGood(s: State, row: nat, toggle: nat, race: Race)
    requires Good(s) && row < |RC_KEY_MAP| && toggle < 4
    ensures Good(NewKey(s, row, toggle, race)) <==> !(s.timer == ForOld && !race.a && !race.b)
  {
    var key := RC_KEY_MAP[row].code;
    FireGood(s);
    if s.timer == Off {
      PressNewGood(s, row, toggle, race);
    } else if race.a || race.b {
      PressNewGood(Fire(s), row, toggle, race);
    } else if s.timer == ForOld {
      ScanSnoc(s.trace, Event(key, Pressed));
    } else {
      NewKeyHeld(s, row, toggle, race);
    }
  }

  // The next code of the new remote while a key of it is held: a repeat, or release and press.
  lemma NewKeyHeld(s: State, row: nat, toggle: nat, race: Race)
    requires Good(s) && s.timer == ForNew && row < |RC_KEY_MAP| && toggle < 4 && !race.a && !race.b
    ensures Good(NewKey(s, row, toggle, race))
  {
    var key, held := RC_KEY_MAP[row].code, RC_KEY_MAP[s.newLast.value].code;
    if held == key && s.toggle == toggle {
      ScanSnoc(s.trace, Event(key, AutoRepeat));
    } else {
      ScanSnoc(s.trace, Event(held, Released));
      ScanSnoc(s.trace + [Event(held, Released)], Event(key, Pressed));
    }
  }

  // ---------- What the handlers emit ----------

  // A code of the new remote: five bits for the key, bits 6 and 7 toggle with each press.  fired says
  // that the timer expired inside the handler.
  lemma NewEmits(s: State, philipsPatch: bool, rc: Halfword, race: Race, i: nat)
    requires Good(s) && i < |RC_KEY_MAP| && RC_KEY_MAP[i].valueNew == rc % 0x20
    ensures var k, r, fired := RC_KEY_MAP[i].code, NewStep(s, philipsPatch, rc, race), race.a || race.b;
            if philipsPatch && rc % 0x20 != s.oldRcCode then
              r == s.(oldRcCode := rc % 0x20)
            else
              && r.newLast == Some(i) && r.toggle == rc / 0x40 % 4 && r.timer == ForNew && r.oldRcCode == s.oldRcCode
              && (s.timer == Off ==> r.trace == s.trace + [Event(k, Pressed)])
              && (s.timer == ForNew ==>
                    var h := RC_KEY_MAP[s.newLast.value].code;
                    r.trace == if !fired && h == k && s.toggle == rc / 0x40 % 4 then s.trace + [Event(k, AutoRepeat)]
                               else s.trace + [Event(h, Released), Event(k, Pressed)])
              && (s.timer == ForOld ==>
                    var h := RC_KEY_MAP[s.oldLast.value].code;
                    r.trace == if fired then s.trace + [Event(h, Released), Event(k, Pressed)]
                               else s.trace + [Event(k, Pressed)])
  {
    RowNewUnique(rc % 0x20, i);
  }

  // The row of a code of the old remote.
  function RowOld(v: nat): nat {
    if v == 0x00 then 0 else if v == 0x01 then 1 else if v == 0x02 then 2 else if v == 0x03 then 3 else
    if v == 0x04 then 4 else if v == 0x05 then 5 else if v == 0x06 then 6 else if v == 0x07 then 7 else
    if v == 0x08 then 8 else if v == 0x09 then 9 else if v == 0x2E then 10 else if v == 0x2F then 11 else
    if v == 0x0E then 12 else if v == 0x0F then 13 else if v == 0x30 then 14 else if v == 0x28 then 15 else
    if v == 0x0C then 16 else if v == 0x55 then 17 else if v == 0x52 then 18 else if v == 0x2D then 19 else
    if v == 0x3B then 20 else if v == 0x16 then 21 else if v == 0x17 then 22 else if v == 0x82 then 23 else
    if v == 0x27 then 24 else if v == 0xFF then 25 else if v == 0xFB then 26 else if v == 0xFD then 27 else
    if v == 0xFC then 28 else if v == 0x20 then 29 else if v == 0x53 then 30 else if v == 0x54 then 31 else
    32
  }

  lemma RowOldIs(i: nat)
    requires i < |RC_KEY_MAP|
    ensures RowOld(RC_KEY_MAP[i].valueOld) == i
  {
  }

  // No two rows of the old remote have one code.
  lemma RowOldUnique(i: nat, j: nat)
    requires i < |RC_KEY_MAP| && j < |RC_KEY_MAP| && RC_KEY_MAP[i].valueOld == RC_KEY_MAP[j].valueOld
    ensures i == j
  {
    RowOldIs(i);
    RowOldIs(j);
  }

  lemma FindOldIs(i: nat)
    requires i < |RC_KEY_MAP|
    ensures FindOld(RC_KEY_MAP[i].valueOld, 0) == Some(i)
  {
    FoundFrom(i, 0);
  }

  lemma {:induction false} FoundFrom(i: nat, j: nat)
    requires j <= i < |RC_KEY_MAP|
    ensures FindOld(RC_KEY_MAP[i].valueOld, j) == Some(i)
    decreases i - j
  {
    if j < i {
      if RC_KEY_MAP[j].valueOld == RC_KEY_MAP[i].valueOld { RowOldUnique(i, j); }
      FoundFrom(i, j + 1);
    }
  }

  lemma {:induction false} NoRow(v: nat, j: nat)
    requires j <= |RC_KEY_MAP| && forall i :: 0 <= i < |RC_KEY_MAP| ==> RC_KEY_MAP[i].valueOld != v
    ensures FindOld(v, j) == None
    decreases |RC_KEY_MAP| - j
  {
    if j < |RC_KEY_MAP| { NoRow(v, j + 1); }
  }

  // The break code of the old remote ends the press, whether or not the timer got there first; it takes
  // the timer of the new remote without a release.
  lemma BreakEmits(s: State, race: Race)
    requires Good(s)
    ensures var r := OldStep(s, 0x5CFE, race);
            && r.oldLast == None && r.timer == Off
            && (s.timer == Off ==> r.trace == s.trace)
            && (s.timer == ForOld ==> r.trace == s.trace + [Event(RC_KEY_MAP[s.oldLast.value].code, Released)])
            && (s.timer == ForNew ==>
                  r.trace == if race.a || race.b then s.trace + [Event(RC_KEY_MAP[s.newLast.value].code, Released)]
                             else s.trace)
  {
  }

  // A key of the old remote.
  lemma OldEmits(s: State, rc: Halfword, race: Race, i: nat)
    requires Good(s) && rc != 0x5CFE && i < |RC_KEY_MAP| && RC_KEY_MAP[i].valueOld == rc % 0x100
    ensures var k, r, fired := RC_KEY_MAP[i].code, OldStep(s, rc, race), race.c || race.d;
            && r.oldLast == Some(i) && r.timer == ForOld
            && (s.timer == Off ==> r.trace == s.trace + [Event(k, Pressed)])
            && (s.timer == ForOld ==>
                  var h := RC_KEY_MAP[s.oldLast.value];
                  r.trace == if !fired && h.valueOld == rc % 0x100 then s.trace + [Event(k, AutoRepeat)]
                             else s.trace + [Event(h.code, Released), Event(k, Pressed)])
            && (s.timer == ForNew ==>
                  var h := RC_KEY_MAP[s.newLast.value].code;
                  r.trace == if fired then s.trace + [Event(h, Released), Event(k, Pressed)]
                             else s.trace + [Event(k, Pressed)])
  {
    FindOldIs(i);
    if s.timer == ForOld { OwnKeyEmits(s, rc, race, i); }
  }

  lemma OwnKeyEmits(s: State, rc: Halfword, race: Race, i: nat)
    requires Good(s) && s.timer == ForOld && rc != 0x5CFE && i < |RC_KEY_MAP| && RC_KEY_MAP[i].valueOld == rc % 0x100
    requires FindOld(rc % 0x100, 0) == Some(i)
    ensures var k, r, h := RC_KEY_MAP[i].code, OldStep(s, rc, race), RC_KEY_MAP[s.oldLast.value];
            && r.oldLast == Some(i) && r.timer == ForOld
            && r.trace == if !race.c && !race.d && h.valueOld == rc % 0x100 then s.trace + [Event(k, AutoRepeat)]
                          else s.trace + [Event(h.code, Released), Event(k, Pressed)]
  {
    if EndsOld(s, rc) { OtherKeyEmits(s, rc, race, i); }
  }

  lemma OtherKeyEmits(s: State, rc: Halfword, race: Race, i: nat)
    requires Good(s) && s.timer == ForOld && rc != 0x5CFE && EndsOld(s, rc)
    requires i < |RC_KEY_MAP| && FindOld(rc % 0x100, 0) == Some(i)
    ensures var k, r, h := RC_KEY_MAP[i].code, OldStep(s, rc, race), RC_KEY_MAP[s.oldLast.value].code;
            && r.oldLast == Some(i) && r.timer == ForOld
            && r.trace == s.trace + [Event(h, Released), Event(k, Pressed)]
  {
  }

  // A code without a row only ends another press.
  lemma UnknownEmits(s: State, rc: Halfword, race: Race)
    requires Good(s) && rc != 0x5CFE && forall i :: 0 <= i < |RC_KEY_MAP| ==> RC_KEY_MAP[i].valueOld != rc % 0x100
    ensures var r := OldStep(s, rc, race);
            if s.timer == ForOld then
              && r.trace == s.trace + [Event(RC_KEY_MAP[s.oldLast.value].code, Released)]
              && r.oldLast == None && r.timer == Off
            else r == s
  {
    NoRow(rc % 0x100, 0);
  }

  // The expiry releases the held key.
  lemma FireEmits(s: State)
    requires Good(s)
    ensures Fire(s).timer == Off
    ensures s.timer == Off ==> Fire(s) == s
    ensures s.timer == ForOld ==> Fire(s).trace == s.trace + [Event(RC_KEY_MAP[s.oldLast.value].code, Released)]
    ensures s.timer == ForNew ==> Fire(s).trace == s.trace + [Event(RC_KEY_MAP[s.newLast.value].code, Released)]
  {
  }

  // ---------- Runs ----------

  datatype Input = OldCode(rc: Halfword, race: Race) | NewCode(rc: Halfword, race: Race) | Expiry

  function Step(s: State, philipsPatch: bool, i: Input): (r: State)
    requires Rows(s)
    ensures Rows(r)
  {
    match i
    case OldCode(rc, race) => OldStep(s, rc, race)
    case NewCode(rc, race) => NewStep(s, philipsPatch, rc, race)
    case Expiry => Fire(s)
  }

  function Run(s: State, philipsPatch: bool, inputs: seq<Input>): (r: State)
    requires Rows(s)
    ensures Rows(r)
    decreases |inputs|
  {
    if |inputs| == 0 then s
    else Step(Run(s, philipsPatch, inputs[..|inputs| - 1]), philipsPatch, inputs[|inputs| - 1])
  }

  predicate Clash(s: State, philipsPatch: bool, i: Input) {
    match i
    case OldCode(rc, race) => OldClash(s, rc, race)
    case NewCode(rc, race) => NewClash(s, philipsPatch, rc, race)
    case Expiry => false
  }

  lemma StepGood(s: State, philipsPatch: bool, i: Input)
    requires Good(s)
    ensures Good(Step(s, philipsPatch, i)) <==> !Clash(s, philipsPatch, i)
  {
    match i
    case OldCode(rc, race) => OldStepGood(s, rc, race);
    case NewCode(rc, race) => NewStepGood(s, philipsPatch, rc, race);
    case Expiry => FireGood(s);
  }

  // The state after the first n inputs of a run.
  function StateAt(philipsPatch: bool, inputs: seq<Input>, n: nat): (r: State)
    requires n <= |inputs|
    ensures Rows(r)
  {
    Run(INITIAL_STATE, philipsPatch, inputs[..n])
  }

  lemma StateAtNext(philipsPatch: bool, inputs: seq<Input>, n: nat)
    requires n < |inputs|
    ensures StateAt(philipsPatch, inputs, 0) == INITIAL_STATE
    ensures StateAt(philipsPatch, inputs, n + 1) == Step(StateAt(philipsPatch, inputs, n), philipsPatch, inputs[n])
  {
    assert inputs[..0] == [];
    assert inputs[..n + 1][..n] == inputs[..n];
  }

  lemma InitialGood()
    ensures Good(INITIAL_STATE)
  {
  }

  // The states after the first 0, 1, ..., n inputs are all good.
  ghost predicate AlwaysGood(philipsPatch: bool, inputs: seq<Input>, n: nat)
    requires n <= |inputs|
    decreases n
  {
    Good(StateAt(philipsPatch, inputs, n)) && (n == 0 || AlwaysGood(philipsPatch, inputs, n - 1))
  }

  ghost predicate NeverClashes(philipsPatch: bool, inputs: seq<Input>, n: nat)
    requires n <= |inputs|
    decreases n
  {
    n == 0
    || (!Clash(StateAt(philipsPatch, inputs, n - 1), philipsPatch, inputs[n - 1])
        && NeverClashes(philipsPatch, inputs, n - 1))
  }

  // Over every run: all prefixes leave a well-formed trace with a press open exactly while the
  // timer is pending, if and only if no code takes away the timer of the other remote.
  lemma {:induction false} RunGood(philipsPatch: bool, inputs: seq<Input>, n: nat)
    requires n <= |inputs|
    ensures AlwaysGood(philipsPatch, inputs, n) <==> NeverClashes(philipsPatch, inputs, n)
    decreases n
  {
    if n == 0 {
      assert inputs[..0] == [];
      InitialGood();
    } else {
      RunGood(philipsPatch, inputs, n - 1);
      StateAtNext(philipsPatch, inputs, n - 1);
      var s := StateAt(philipsPatch, inputs, n - 1);
      if Good(s) { StepGood(s, philipsPatch, inputs[n - 1]); }
    }
  }

  // What an application sees: a well-formed trace, with a press open exactly while the timer is pending.
  ghost predicate Visible(s: State) {
    Scan(s.trace) != Broken && (Scan(s.trace).Held? <==> s.timer != Off)
  }

  lemma VisibleStep(s: State, philipsPatch: bool, i: Input)
    requires Good(s)
    ensures Visible(Step(s, philipsPatch, i)) <==> !Clash(s, philipsPatch, i)
  {
    StepGood(s, philipsPatch, i);
    if Clash(s, philipsPatch, i) {
      match i
      case OldCode(rc, race) => OldClashShows(s, rc, race);
      case NewCode(rc, race) => NewClashShows(s, philipsPatch, rc, race);
    }
  }

  // A break code leaves the press open without a timer, any other old key breaks the trace.
  lemma OldClashShows(s: State, rc: Halfword, race: Race)
    requires Good(s) && OldClash(s, rc, race)
    ensures rc == BREAK_CODE ==> Scan(OldStep(s, rc, race).trace).Held? && OldStep(s, rc, race).timer == Off
    ensures rc != BREAK_CODE ==> Scan(OldStep(s, rc, race).trace) == Broken
  {
    if rc != BREAK_CODE {
      ScanSnoc(s.trace, Event(RC_KEY_MAP[FindOld(rc % 0x100, 0).value].code, Pressed));
    }
  }

  lemma NewClashShows(s: State, philipsPatch: bool, rc: Halfword, race: Race)
    requires Good(s) && NewClash(s, philipsPatch, rc, race)
    ensures Scan(NewStep(s, philipsPatch, rc, race).trace) == Broken
  {
    RowNewUnique(rc % 0x20, 0);
    ScanSnoc(s.trace, Event(RC_KEY_MAP[RowNew(rc % 0x20)].code, Pressed));
  }

  // The states after the first 0, 1, ..., n inputs are all as they should look.
  ghost predicate AlwaysVisible(philipsPatch: bool, inputs: seq<Input>, n: nat)
    requires n <= |inputs|
    decreases n
  {
    Visible(StateAt(philipsPatch, inputs, n)) && (n == 0 || AlwaysVisible(philipsPatch, inputs, n - 1))
  }

  // A run looks as it should if and only if no code takes away the timer of the other remote.
  lemma {:induction false} RunVisible(philipsPatch: bool, inputs: seq<Input>, n: nat)
    requires n <= |inputs|
    ensures AlwaysVisible(philipsPatch, inputs, n) <==> NeverClashes(philipsPatch, inputs, n)
    decreases n
  {
    if n == 0 {
      assert inputs[..0] == [];
    } else {
      RunVisible(philipsPatch, inputs, n - 1);
      RunGood(philipsPatch, inputs, n - 1);
      if NeverClashes(philipsPatch, inputs, n - 1) { VisibleNext(philipsPatch, inputs, n - 1); }
    }
  }

  lemma VisibleNext(philipsPatch: bool, inputs: seq<Input>, n: nat)
    requires n < |inputs| && Good(StateAt(philipsPatch, inputs, n))
    ensures Visible(StateAt(philipsPatch, inputs, n + 1))
       <==> !Clash(StateAt(philipsPatch, inputs, n), philipsPatch, inputs[n])
  {
    StateAtNext(philipsPatch, inputs, n);
    VisibleStep(StateAt(philipsPatch, inputs, n), philipsPatch, inputs[n]);
  }

  predicate CodeOf(i: Input, remote: Timer) {
    if remote == ForNew then i.NewCode? else i.OldCode?
  }

  // With one remote type in use, no code ever clashes.
  lemma {:induction false} OneRemote(philipsPatch: bool, inputs: seq<Input>, n: nat, other: Timer)
    requires n <= |inputs| && other != Off
    requires forall k :: 0 <= k < |inputs| ==> !CodeOf(inputs[k], other)
    ensures AlwaysGood(philipsPatch, inputs, n) && StateAt(philipsPatch, inputs, n).timer != other
    decreases n
  {
    if n == 0 {
      StartsGood(philipsPatch, inputs);
    } else {
      OneRemote(philipsPatch, inputs, n - 1, other);
      OneRemoteNext(philipsPatch, inputs, n - 1, other);
    }
  }

  lemma StartsGood(philipsPatch: bool, inputs: seq<Input>)
    ensures AlwaysGood(philipsPatch, inputs, 0) && StateAt(philipsPatch, inputs, 0).timer == Off
  {
    assert inputs[..0] == [];
    InitialGood();
  }

  lemma OneRemoteNext(philipsPatch: bool, inputs: seq<Input>, n: nat, other: Timer)
    requires n < |inputs| && other != Off && !CodeOf(inputs[n], other)
    requires AlwaysGood(philipsPatch, inputs, n) && StateAt(philipsPatch, inputs, n).timer != other
    ensures AlwaysGood(philipsPatch, inputs, n + 1) && StateAt(philipsPatch, inputs, n + 1).timer != other
  {
    var s, i := StateAt(philipsPatch, inputs, n), inputs[n];
    StateAtNext(philipsPatch, inputs, n);
    OneRemoteStep(s, philipsPatch, i, other);
  }

  lemma OneRemoteVisible(philipsPatch: bool, inputs: seq<Input>, n: nat, other: Timer)
    requires n <= |inputs| && other != Off
    requires forall k :: 0 <= k < |inputs| ==> !CodeOf(inputs[k], other)
    ensures AlwaysVisible(philipsPatch, inputs, n)
  {
    OneRemote(philipsPatch, inputs, n, other);
    RunGood(philipsPatch, inputs, n);
    RunVisible(philipsPatch, inputs, n);
  }

  lemma OneRemoteStep(s: State, philipsPatch: bool, i: Input, other: Timer)
    requires Good(s) && s.timer != other && other != Off && !CodeOf(i, other)
    ensures Good(Step(s, philipsPatch, i)) && Step(s, philipsPatch, i).timer != other
  {
    StepGood(s, philipsPatch, i);
    NoClash(s, philipsPatch, i, other);
  }

  lemma NoClash(s: State, philipsPatch: bool, i: Input, other: Timer)
    requires Good(s) && s.timer != other && other != Off && !CodeOf(i, other)
    ensures !Clash(s, philipsPatch, i) && Step(s, philipsPatch, i).timer != other
  {
  }

  // With both remotes in use it fails: a key of the old remote while one of the new remote is
  // held, or the other way round, is a press inside an open press.
  lemma MixedRemotesBreak(s: State, rc: Halfword, race: Race)
    requires Good(s)
    ensures s.timer == ForNew && rc != BREAK_CODE && FindOld(rc % 0x100, 0).Some? && !race.c && !race.d ==>
              Scan(OldStep(s, rc, race).trace) == Broken
    ensures s.timer == ForOld && !race.a && !race.b ==> Scan(NewStep(s, false, rc, race).trace) == Broken
  {
    if OldClash(s, rc, race) { OldClashShows(s, rc, race); }
    if NewClash(s, false, rc, race) { NewClashShows(s, false, rc, race); }
  }

  // So every run that starts with a code of the new remote and a key of the old one breaks.
  lemma MixedRunBreaks(rc1: Halfword, rc2: Halfword, calm: Race)
    requires calm == Race(false, false, false, false)
    requires rc2 != BREAK_CODE && FindOld(rc2 % 0x100, 0).Some?
    ensures Scan(OldStep(NewStep(INITIAL_STATE, false, rc1, calm), rc2, calm).trace) == Broken
  {
    InitialGood();
    NewStepGood(INITIAL_STATE, false, rc1, calm);
    MixedRemotesBreak(NewStep(INITIAL_STATE, false, rc1, calm), rc2, calm);
  }

  // ---------- The driver ----------

  class Rc {
    var s: State
    const disableOldRc: bool
    const disableNewRc: bool
    const philipsRcPatch: bool

    constructor (disableOldRc: bool, disableNewRc: bool, philipsRcPatch: bool)
      ensures s == INITIAL_STATE
      ensures this.disableOldRc == disableOldRc && this.disableNewRc == disableNewRc
      ensures this.philipsRcPatch == philipsRcPatch
    {
      this.disableOldRc, this.disableNewRc, this.philipsRcPatch := disableOldRc, disableNewRc, philipsRcPatch;
      s := INITIAL_STATE;
    }

    method InputEvent(key: Key, kind: Kind)
      modifies this
      ensures s == Emit(old(s), key, kind)
    {
      s := Emit(s, key, kind);
    }

    // dbox2_fp_rc_keyup, run by the timer.
    method Keyup(data: Timer)
      requires Rows(s) && data != Off && s.timer == data
      modifies this
      ensures s == Fire(old(s))
    {
      s := s.(timer := Off);
      var last := if data == ForOld then s.oldLast else s.newLast;
      if last == None || RC_KEY_MAP[last.value].code !in s.down { return; }
      if data == ForNew { s := s.(toggle := NO_TOGGLE); }
      InputEvent(RC_KEY_MAP[last.value].code, Released);
      s := if data == ForOld then s.(oldLast := None) else s.(newLast := None);
    }

    // The timer may fire here.
    method Interrupt(fires: bool)
      requires Rows(s)
      modifies this
      ensures s == MaybeFire(old(s), fires)
    {
      if fires && s.timer != Off { Keyup(s.timer); }
    }

    method DelTimer(before: bool, between: bool)
      requires Rows(s)
      modifies this
      ensures s == Delete(old(s), before, between)
    {
      Interrupt(before);
      if s.timer != Off {
        Interrupt(between);
        s := s.(timer := Off);
      }
    }

    method OldQueueHandler(rc: Halfword, race: Race)
      requires Rows(s)
      modifies this
      ensures s == if disableOldRc then old(s) else OldStep(old(s), rc, race)
    {
      if disableOldRc { return; }
      if rc == BREAK_CODE || (s.oldLast.Some? && rc % 0x100 != RC_KEY_MAP[s.oldLast.value].valueOld) {
        EndOldKey(race.a, race.b);
        if rc == BREAK_CODE { return; }
      }
      ScanOldKeys(rc % 0x100, race.c, race.d);
    }

    method EndOldKey(before: bool, between: bool)
      requires Rows(s)
      modifies this
      ensures s == ReleaseOld(Delete(old(s), before, between))
    {
      DelTimer(before, between);
      if s.oldLast.Some? {
        InputEvent(RC_KEY_MAP[s.oldLast.value].code, Released);
        s := s.(oldLast := None);
      }
    }

    method ScanOldKeys(v: nat, before: bool, between: bool)
      requires Rows(s)
      modifies this
      ensures var row := FindOld(v, 0);
              s == if row == None then old(s) else PressOld(Delete(old(s), before, between), row.value)
    {
      var i := 0;
      while i < |RC_KEY_MAP|
        invariant 0 <= i <= |RC_KEY_MAP| && FindOld(v, i) == FindOld(v, 0) && s == old(s)
      {
        if RC_KEY_MAP[i].valueOld == v {
          HandleOldKey(i, before, between);
          return;
        }
        i := i + 1;
      }
    }

    method HandleOldKey(i: nat, before: bool, between: bool)
      requires Rows(s) && i < |RC_KEY_MAP|
      modifies this
      ensures s == PressOld(Delete(old(s), before, between), i)
    {
      DelTimer(before, between);
      if s.oldLast.Some? && RC_KEY_MAP[s.oldLast.value].code == RC_KEY_MAP[i].code {
        InputEvent(RC_KEY_MAP[i].code, AutoRepeat);
      } else {
        InputEvent(RC_KEY_MAP[i].code, Pressed);
        s := s.(oldLast := Some(i));
      }
      s := s.(timer := ForOld);
    }

    // The scan goes on behind a match; no second row matches.
    method NewQueueHandler(rc: Halfword, race: Race)
      requires Rows(s)
      modifies this
      ensures s == if disableNewRc then old(s) else NewStep(old(s), philipsRcPatch, rc, race)
    {
      if disableNewRc { return; }
      if philipsRcPatch && rc % 0x20 != s.oldRcCode {
        s := s.(oldRcCode := rc % 0x20);
        return;
      }
      var i := 0;
      RowNewUnique(rc % 0x20, 0);
      while i < |RC_KEY_MAP|
        invariant 0 <= i <= |RC_KEY_MAP| && Rows(s)
        invariant s == if i <= RowNew(rc % 0x20) then old(s) else NewKey(old(s), RowNew(rc % 0x20), rc / 0x40 % 4, race)
      {
        RowNewUnique(rc % 0x20, i);
        if RC_KEY_MAP[i].valueNew == rc % 0x20 {
          HandleNewKey(i, rc / 0x40 % 4, race);
        }
        i := i + 1;
      }
    }

    method HandleNewKey(i: nat, toggle: nat, race: Race)
      requires Rows(s) && i < |RC_KEY_MAP|
      modifies this
      ensures s == NewKey(old(s), i, toggle, race)
    {
      var key := RC_KEY_MAP[i].code;
      Interrupt(race.a);
      if s.timer != Off {
        DelTimer(false, race.b);
        if s.newLast.Some? && (RC_KEY_MAP[s.newLast.value].code != key || s.toggle != toggle) && s.toggle != NO_TOGGLE {
          InputEvent(RC_KEY_MAP[s.newLast.value].code, Released);
          s := s.(toggle := NO_TOGGLE);
        }
      }
      if s.toggle != NO_TOGGLE && s.toggle == toggle {
        InputEvent(key, AutoRepeat);
      } else {
        InputEvent(key, Pressed);
      }
      s := s.(newLast := Some(i), toggle := toggle, timer := ForNew);
    }
  }
}
