// The video event ring (dvb/drivers/media/dvb/avia/avia_av_napi.c): a ring of eight slots that
// drops the oldest event and raises an overflow flag.  The reader tests the ring without the lock
// and takes an event under it; the producer may run in between.

module VideoEvents {
  import opened Integers
  import opened Rings

  const MAX_VIDEO_EVENT := 8

  datatype Ratio = FORMAT_4_3 | FORMAT_16_9 | FORMAT_221_1
  datatype VideoEvent = SizeChanged(w: Halfword, h: Halfword, ratio: Ratio)

  // What the decoder reports.
  datatype Report = Report(w: Halfword, h: Halfword, aspect: Halfword)

  function EventOf(r: Report): VideoEvent {
    SizeChanged(r.w, r.h, if r.aspect == 3 then FORMAT_16_9 else if r.aspect == 4 then FORMAT_221_1 else FORMAT_4_3)
  }

  function EventsOf(rs: seq<Report>): seq<VideoEvent> {
    seq(|rs|, i requires 0 <= i < |rs| => EventOf(rs[i]))
  }

  // Result of a read: an event, or one of the three error returns.
  datatype Result = Event(e: VideoEvent) | Overflow | WouldBlock | Interrupted

  function Max(a: int, b: int): int { if a < b then b else a }

  class Events {
    const events: array<VideoEvent>
    var eventw: nat
    var eventr: nat
    var overflow: bool
    ghost var added: seq<VideoEvent>    // every event ever added
    ghost var next: nat                 // number of the oldest event that is neither read nor dropped
    ghost var dropped: nat              // events dropped since the last overflow return

    // The ring holds the newest undelivered events, at most seven, and overflow is set exactly
    // when one was dropped since it was last reported.
    ghost predicate Valid()
      reads this, events
    {
      && events.Length == MAX_VIDEO_EVENT && eventw < MAX_VIDEO_EVENT && eventr < MAX_VIDEO_EVENT
      && next <= |added| < next + MAX_VIDEO_EVENT
      && eventw == Slot(eventr, |added| - next, MAX_VIDEO_EVENT)
      && Contents(events[..], eventr, |added| - next) == added[next..]
      && (overflow <==> dropped > 0)
    }

    constructor ()
      ensures Valid() && added == [] && next == 0 && dropped == 0 && fresh(events)
    {
      events := new VideoEvent[MAX_VIDEO_EVENT](_ => SizeChanged(0, 0, FORMAT_4_3));
      eventw, eventr, overflow := 0, 0, false;
      added, next, dropped := [], 0, 0;
    }

    // avia_av_napi_video_add_event
    method AddEvent(r: Report)
      requires Valid()
      modifies this, events
      ensures Valid() && added == old(added) + [EventOf(r)]
      ensures EventOf(r).w == r.w && EventOf(r).h == r.h
      ensures EventOf(r).ratio
           == if r.aspect == 3 then FORMAT_16_9 else if r.aspect == 4 then FORMAT_221_1 else FORMAT_4_3
      ensures next == Max(old(next), |added| - (MAX_VIDEO_EVENT - 1))
      ensures dropped == old(dropped) + (next - old(next))
    {
      StepIs(eventw, MAX_VIDEO_EVENT);
      var wp := (eventw + 1) % MAX_VIDEO_EVENT;
      Steps(eventr, |added| - next, MAX_VIDEO_EVENT);
      if wp == eventr { DropOldest(); }
      Append(EventOf(r), wp);
    }

    method DropOldest()
      requires Valid() && |added| - next == MAX_VIDEO_EVENT - 1
      modifies this
      ensures Valid() && overflow && added == old(added) && eventw == old(eventw)
      ensures next == old(next) + 1 && dropped == old(dropped) + 1
    {
      Steps(eventr, |added| - next, MAX_VIDEO_EVENT);
      ContentsPop(events[..], eventr, |added| - next);
      StepIs(eventr, MAX_VIDEO_EVENT);
      overflow := true;
      eventr := (eventr + 1) % MAX_VIDEO_EVENT;
      next, dropped := next + 1, dropped + 1;
    }

    method Append(e: VideoEvent, wp: nat)
      requires Valid() && |added| - next < MAX_VIDEO_EVENT - 1 && wp == Slot(eventw, 1, MAX_VIDEO_EVENT)
      modifies this, events
      ensures Valid() && added == old(added) + [e] && (next, dropped) == old((next, dropped))
    {
      ghost var b := events[..];
      Steps(eventr, |added| - next, MAX_VIDEO_EVENT);
      ContentsPush(b, eventr, |added| - next, e);
      events[eventw] := e;
      assert events[..] == b[eventw := e];
      eventw := wp;
      added := added + [e];
    }

    // The producer runs while a reader is elsewhere.
    method Produce(rs: seq<Report>)
      requires Valid()
      modifies this, events
      ensures Valid() && added == old(added) + EventsOf(rs)
      ensures next == Max(old(next), |added| - (MAX_VIDEO_EVENT - 1))
      ensures dropped == old(dropped) + (next - old(next))
      ensures rs == [] ==> (eventr, eventw) == old((eventr, eventw)) && events[0] == old(events[0])
    {
      for i := 0 to |rs|
        invariant i == 0 ==> (eventr, eventw) == old((eventr, eventw)) && events[0] == old(events[0])
        invariant Valid() && added == old(added) + EventsOf(rs[..i])
        invariant next == Max(old(next), |added| - (MAX_VIDEO_EVENT - 1))
        invariant dropped == old(dropped) + (next - old(next))
      {
        assert EventsOf(rs[..i + 1]) == EventsOf(rs[..i]) + [EventOf(rs[i])];
        AddEvent(rs[i]);
      }
      assert rs[..|rs|] == rs;
    }

    // avia_av_napi_video_get_event of the only reader.  The producer runs between the test and the
    // reset of the overflow flag, between that test and the test for an empty ring, while the reader
    // sleeps, and between the test for an empty ring and the locked take; the sleep ends with an
    // event or with a signal.
    method GetEvent(nonblock: bool, signal: bool, atReset: seq<Report>, afterTest: seq<Report>,
                    asleep: seq<Report>, beforeTake: seq<Report>)
      returns (r: Result)
      requires Valid() && (!signal ==> asleep != [])
      modifies this, events
      ensures Valid() && old(added) <= added
      ensures r == Overflow <==> old(dropped) > 0
      ensures r == Overflow ==>
                && dropped == 0 && !overflow && added == old(added) + EventsOf(atReset)
                && next == Max(old(next), |added| - (MAX_VIDEO_EVENT - 1))
                && (next > old(next) <==> |old(added)| + |atReset| > old(next) + (MAX_VIDEO_EVENT - 1))
      ensures r == WouldBlock <==> old(dropped) == 0 && old(next) == |old(added)| && afterTest == [] && nonblock
      ensures r == WouldBlock ==> added == old(added) && next == old(next) && dropped == 0
      ensures r == Interrupted <==>
                old(dropped) == 0 && old(next) == |old(added)| && afterTest == [] && !nonblock && signal
      ensures r == Interrupted ==>
                && added == old(added) + EventsOf(asleep)
                && next == Max(old(next), |added| - (MAX_VIDEO_EVENT - 1)) && dropped == next - old(next)
      ensures r.Event? ==>
                var slept := old(next) == |old(added)| && afterTest == [];
                && added == old(added) + EventsOf(afterTest) + (if slept then EventsOf(asleep) else [])
                            + EventsOf(beforeTake)
                && next == Max(old(next), |added| - (MAX_VIDEO_EVENT - 1)) + 1
                && next <= |added| && r.e == added[next - 1] && dropped == next - 1 - old(next)
    {
      if overflow {
        ReportOverflow(atReset);
        return Overflow;
      }
      Produce(afterTest);
      r := WaitAndTake(nonblock, signal, asleep, beforeTake);
    }

    // The part behind the overflow test.
    method WaitAndTake(nonblock: bool, signal: bool, asleep: seq<Report>, beforeTake: seq<Report>) returns (r: Result)
      requires Valid() && (!signal ==> asleep != [])
      modifies this, events
      ensures Valid() && r != Overflow
      ensures r == WouldBlock <==> old(next) == |old(added)| && nonblock
      ensures r == WouldBlock ==> (added, next, dropped) == old((added, next, dropped))
      ensures r == Interrupted <==> old(next) == |old(added)| && !nonblock && signal
      ensures r == Interrupted ==>
                && added == old(added) + EventsOf(asleep)
                && next == Max(old(next), |added| - (MAX_VIDEO_EVENT - 1))
                && dropped == old(dropped) + (next - old(next))
      ensures r.Event? ==>
                && added == old(added) + (if old(next) == |old(added)| then EventsOf(asleep) else [])
                            + EventsOf(beforeTake)
                && next == Max(old(next), |added| - (MAX_VIDEO_EVENT - 1)) + 1
                && next <= |added| && r.e == added[next - 1] && dropped == old(dropped) + (next - 1 - old(next))
    {
      Steps(eventr, |added| - next, MAX_VIDEO_EVENT);
      if eventw == eventr {
        if nonblock { return WouldBlock; }
        Produce(asleep);
        if signal { return Interrupted; }
      }
      Produce(beforeTake);
      var e := Take();
      return Event(e);
    }

    method ReportOverflow(atReset: seq<Report>)
      requires Valid()
      modifies this, events
      ensures Valid() && dropped == 0 && !overflow && added == old(added) + EventsOf(atReset)
      ensures next == Max(old(next), |added| - (MAX_VIDEO_EVENT - 1))
    {
      Produce(atReset);
      overflow := false;
      dropped := 0;
    }

    // On a full ring, every event that arrives between the test and the reset drops another one, and
    // the flag for it is cleared by the return that is already due.
    method ResetHidesDrops(atReset: seq<Report>)
      requires Valid() && overflow && |added| - next == MAX_VIDEO_EVENT - 1
      modifies this, events
      ensures Valid() && !overflow && next == old(next) + |atReset|
    {
      var r := GetEvent(true, false, atReset, [], [Report(0, 0, 0)], []);
      assert r == Overflow;
    }

    // avia_av_napi_video_open of a writer: the pending events are discarded, an overflow is kept.
    method Open(readOnly: bool)
      requires Valid()
      modifies this
      ensures Valid() && (added, dropped, overflow) == old((added, dropped, overflow))
      ensures next == if readOnly then old(next) else |added|
      ensures (eventr, eventw) == if readOnly then old((eventr, eventw)) else (0, 0)
    {
      if !readOnly {
        eventr := 0;
        eventw := 0;
        next := |added|;
      }
    }

    // A writer that opens the device between the test and the take of a reader, and the reports that
    // still arrive before the take.  With any such report the take is right; with none it returns a
    // slot that holds no pending event, and the indices then stand for seven events.
    method OpenBeforeTake(rs: seq<Report>) returns (e: VideoEvent)
      requires Valid()
      modifies this, events
      ensures added == old(added) + EventsOf(rs)
      ensures rs != [] <==> Valid()
      ensures rs != [] ==>
                && next == Max(|old(added)|, |added| - (MAX_VIDEO_EVENT - 1)) + 1
                && next <= |added| && e == added[next - 1]
      ensures rs == [] ==>
                && e == old(events[0]) && next == |added|
                && eventr == 1 && eventw == 0 == Slot(1, MAX_VIDEO_EVENT - 1, MAX_VIDEO_EVENT)
    {
      Open(false);
      Produce(rs);
      if rs != [] {
        e := Take();
      } else {
        e := events[eventr];
        eventr := (eventr + 1) % MAX_VIDEO_EVENT;
      }
    }

    // The locked take of the oldest event.
    method Take() returns (e: VideoEvent)
      requires Valid() && next < |added|
      modifies this
      ensures Valid() && e == old(added)[old(next)] && next == old(next) + 1
      ensures (added, dropped) == old((added, dropped))
    {
      Steps(eventr, |added| - next, MAX_VIDEO_EVENT);
      ContentsPop(events[..], eventr, |added| - next);
      StepIs(eventr, MAX_VIDEO_EVENT);
      e := events[eventr];
      eventr := (eventr + 1) % MAX_VIDEO_EVENT;
      next := next + 1;
    }
  }
}
