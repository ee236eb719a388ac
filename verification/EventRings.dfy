// The global event device (event/event.c): up to five open handles, each with a filter and a ring
// of 32 events.  A writer offers every event to every handle; a full ring drops the newest event.
//
// The device is proved against a map from slots to views; a view is what one reader has seen.

module EventRings {
  import opened Integers
  import opened Rings

  type Msg = bv32

  const EVENTBUFFERSIZE := 32
  const MAX_EVENT_OPEN := 5
  const ALL_EVENTS: bv32 := 0xFFFF_FFFF

  predicate Matches(e: Msg, filter: bv32) { e & filter != 0 }

  // A filter of one bit passes the events that have this bit.
  lemma OneBitFilter(e: Msg, f: bv32)
    requires f != 0 && f & (f - 1) == 0
    ensures Matches(e, f) <==> e & f == f
  {
  }

  // A filter of several bits passes what one of them passes.
  lemma JoinedFilter(e: Msg, f: bv32, g: bv32)
    ensures Matches(e, f | g) <==> Matches(e, f) || Matches(e, g)
  {
    Distributes(e, f, g);
    OrIsZero(e & f, e & g);
  }

  lemma Distributes(e: bv32, f: bv32, g: bv32)
    ensures e & (f | g) == (e & f) | (e & g)
  {
  }

  lemma OrIsZero(a: bv32, b: bv32)
    ensures a | b == 0 <==> a == 0 && b == 0
  {
  }

  // The filter of a new handle passes every event but the empty one, and the empty filter none.
  lemma NewFilter(e: Msg)
    ensures Matches(e, ALL_EVENTS) <==> e != 0
    ensures !Matches(e, 0)
  {
  }

  // ---------- What one handle has seen ----------

  // The filter, the queue, and everything accepted and delivered since the handle was opened.
  datatype View = View(filter: bv32, queue: seq<Msg>, accepted: seq<Msg>, delivered: seq<Msg>)

  const FRESH_VIEW := View(ALL_EVENTS, [], [], [])

  function Offered(v: View, e: Msg): View {
    if |v.queue| < EVENTBUFFERSIZE && Matches(e, v.filter)
    then v.(queue := v.queue + [e], accepted := v.accepted + [e])
    else v
  }

  function OfferedAll(v: View, es: seq<Msg>): View
    decreases |es|
  {
    if |es| == 0 then v else Offered(OfferedAll(v, es[..|es| - 1]), es[|es| - 1])
  }

  // One successful read, or none from an empty queue.
  function Taken(v: View): View {
    if |v.queue| == 0 then v else v.(queue := v.queue[1..], delivered := v.delivered + [v.queue[0]])
  }

  // The events of a batch that pass a filter, in order.
  function Matching(filter: bv32, es: seq<Msg>): (r: seq<Msg>)
    ensures |r| <= |es|
    decreases |es|
  {
    if |es| == 0 then []
    else
      var m := Matching(filter, es[..|es| - 1]);
      if Matches(es[|es| - 1], filter) then m + [es[|es| - 1]] else m
  }

  // The first matching events for which there is room behind n queued ones.
  function Fitting(filter: bv32, n: nat, es: seq<Msg>): seq<Msg>
    requires n <= EVENTBUFFERSIZE
  {
    var m := Matching(filter, es);
    m[..Min(|m|, EVENTBUFFERSIZE - n)]
  }

  // A batch adds exactly these events.
  lemma {:induction false} BatchAccepted(v: View, es: seq<Msg>)
    requires |v.queue| <= EVENTBUFFERSIZE
    ensures var f := Fitting(v.filter, |v.queue|, es);
            OfferedAll(v, es) == v.(queue := v.queue + f, accepted := v.accepted + f)
    decreases |es|
  {
    if |es| > 0 {
      BatchAccepted(v, es[..|es| - 1]);
    }
  }

  // Nothing that matches is lost if and only if it all fits.
  lemma NoLoss(v: View, es: seq<Msg>)
    requires |v.queue| <= EVENTBUFFERSIZE
    ensures OfferedAll(v, es).queue == v.queue + Matching(v.filter, es)
       <==> |v.queue| + |Matching(v.filter, es)| <= EVENTBUFFERSIZE
  {
    BatchAccepted(v, es);
    var m := Matching(v.filter, es);
    if |v.queue| + |m| <= EVENTBUFFERSIZE { assert m[..|m|] == m; }
  }

  // ---------- The device as a machine ----------

  // A read whose copy to user space fails takes nothing.
  datatype Op =
    | Write(es: seq<Msg>) | Read(h: nat, copied: bool) | SetFilter(h: nat, filter: bv32) | Open | Close(h: nat)

  // The first free slot, or MAX_EVENT_OPEN.
  function FirstFree(dev: map<nat, View>, i: nat): (k: nat)
    requires i <= MAX_EVENT_OPEN
    ensures i <= k <= MAX_EVENT_OPEN && (forall j :: i <= j < k ==> j in dev)
    ensures k < MAX_EVENT_OPEN ==> k !in dev
    decreases MAX_EVENT_OPEN - i
  {
    if i == MAX_EVENT_OPEN || i !in dev then i else FirstFree(dev, i + 1)
  }

  function Written(dev: map<nat, View>, es: seq<Msg>): (r: map<nat, View>)
    ensures r.Keys == dev.Keys && |r| == |dev|
  {
    var r := map h | h in dev :: OfferedAll(dev[h], es);
    assert r.Keys == dev.Keys && |r.Keys| == |r| && |dev.Keys| == |dev|;
    r
  }

  function After(dev: map<nat, View>, h: nat, v: View): (r: map<nat, View>)
    requires h in dev
    ensures |r| == |dev|
  {
    assert dev[h := v].Keys == dev.Keys && |dev[h := v].Keys| == |dev[h := v]| && |dev.Keys| == |dev|;
    dev[h := v]
  }

  function Opened(dev: map<nat, View>): map<nat, View> {
    var k := FirstFree(dev, 0);
    if k == MAX_EVENT_OPEN then dev else dev[k := FRESH_VIEW]
  }

  function Without(dev: map<nat, View>, h: nat): (r: map<nat, View>)
    ensures h in dev ==> |r| == |dev| - 1
  {
    assert dev.Keys - {h} == (dev - {h}).Keys;
    assert |dev.Keys| == |dev| && |(dev - {h}).Keys| == |dev - {h}|;
    dev - {h}
  }

  function Step(dev: map<nat, View>, op: Op): map<nat, View> {
    match op
    case Write(es) => Written(dev, es)
    case Read(h, copied) => if h in dev then After(dev, h, if copied then Taken(dev[h]) else dev[h]) else dev
    case SetFilter(h, f) => if h in dev then After(dev, h, dev[h].(filter := f)) else dev
    case Open => Opened(dev)
    case Close(h) => Without(dev, h)
  }

  function Run(dev: map<nat, View>, ops: seq<Op>): map<nat, View>
    decreases |ops|
  {
    if |ops| == 0 then dev else Step(Run(dev, ops[..|ops| - 1]), ops[|ops| - 1])
  }

  // One operation, as far as the reader behind slot h sees it.
  function OwnStep(v: View, op: Op): View {
    match op
    case Write(es) => OfferedAll(v, es)
    case Read(_, copied) => if copied then Taken(v) else v
    case SetFilter(_, f) => v.(filter := f)
    case Open => v
    case Close(_) => v
  }

  // The writes, and the calls on slot h.
  function Own(ops: seq<Op>, h: nat): seq<Op>
    decreases |ops|
  {
    if |ops| == 0 then []
    else
      var o, op := Own(ops[..|ops| - 1], h), ops[|ops| - 1];
      if Concerns(op, h) then o + [op] else o
  }

  function OwnRun(v: View, ops: seq<Op>): View
    decreases |ops|
  {
    if |ops| == 0 then v else OwnStep(OwnRun(v, ops[..|ops| - 1]), ops[|ops| - 1])
  }

  predicate Concerns(op: Op, h: nat) { op.Write? || ((op.Read? || op.SetFilter?) && op.h == h) }

  lemma StepOwn(dev: map<nat, View>, h: nat, op: Op)
    requires h in dev && op != Close(h)
    ensures h in Step(dev, op) && Step(dev, op)[h] == if Concerns(op, h) then OwnStep(dev[h], op) else dev[h]
  {
  }

  lemma OwnLast(v: View, o: seq<Op>, op: Op)
    ensures OwnRun(v, o + [op]) == OwnStep(OwnRun(v, o), op)
  {
    assert (o + [op])[..|o + [op]| - 1] == o;
  }

  // While a handle stays open, its view depends only on the writes and on its own calls: no other
  // reader, filter, open or close affects it.
  lemma {:induction false} Independent(dev: map<nat, View>, ops: seq<Op>, h: nat)
    requires h in dev && forall i :: 0 <= i < |ops| ==> ops[i] != Close(h)
    ensures h in Run(dev, ops) && Run(dev, ops)[h] == OwnRun(dev[h], Own(ops, h))
    decreases |ops|
  {
    if |ops| > 0 {
      var before, op := ops[..|ops| - 1], ops[|ops| - 1];
      Independent(dev, before, h);
      StepOwn(Run(dev, before), h, op);
      OwnLast(dev[h], Own(before, h), op);
    }
  }

  // Over every run a handle is a FIFO of 32: what was accepted is what was delivered, in order,
  // followed by what is still queued.
  ghost predicate Fifo(v: View) {
    |v.queue| <= EVENTBUFFERSIZE && v.accepted == v.delivered + v.queue
  }

  ghost predicate Fifos(dev: map<nat, View>) {
    forall h :: h in dev ==> h < MAX_EVENT_OPEN && Fifo(dev[h])
  }

  lemma WriteFifo(v: View, es: seq<Msg>)
    requires Fifo(v)
    ensures Fifo(OfferedAll(v, es))
  {
    BatchAccepted(v, es);
  }

  lemma TakenFifo(v: View)
    requires Fifo(v)
    ensures Fifo(Taken(v))
  {
    if |v.queue| > 0 { assert v.queue == [v.queue[0]] + v.queue[1..]; }
  }

  lemma StepFifos(dev: map<nat, View>, op: Op)
    requires Fifos(dev)
    ensures Fifos(Step(dev, op))
  {
    if op.Write? {
      forall h | h in dev ensures Fifo(OfferedAll(dev[h], op.es)) { WriteFifo(dev[h], op.es); }
    } else if op.Read? && op.h in dev {
      TakenFifo(dev[op.h]);
    }
  }

  lemma {:induction false} RunFifo(dev: map<nat, View>, ops: seq<Op>)
    requires Fifos(dev)
    ensures Fifos(Run(dev, ops))
    decreases |ops|
  {
    if |ops| > 0 {
      RunFifo(dev, ops[..|ops| - 1]);
      StepFifos(Run(dev, ops[..|ops| - 1]), ops[|ops| - 1]);
    }
  }

  // ---------- The driver ----------

  class Handle {
    var filter: bv32
    const event: array<Msg>
    var free: nat
    var ptr: nat
    var readPtr: nat
    ghost var seen: View

    // event_free counts the empty slots, the two positions are the queue length apart, and the ring
    // holds the queue.
    ghost predicate Valid()
      reads this, event
    {
      && event.Length == EVENTBUFFERSIZE && free <= EVENTBUFFERSIZE
      && ptr < EVENTBUFFERSIZE && readPtr < EVENTBUFFERSIZE
      && ptr == Slot(readPtr, EVENTBUFFERSIZE - free, EVENTBUFFERSIZE)
      && seen.filter == filter && seen.queue == Contents(event[..], readPtr, EVENTBUFFERSIZE - free)
    }

    // event_open: a cleared handle that accepts everything.
    constructor ()
      ensures Valid() && seen == FRESH_VIEW && fresh(event)
    {
      event := new Msg[EVENTBUFFERSIZE](_ => 0);
      ptr, readPtr := 0, 0;
      filter := ALL_EVENTS;
      free := EVENTBUFFERSIZE;
      seen := FRESH_VIEW;
      new;
      assert Contents(event[..], 0, 0) == [];
    }

    // The inner part of event_write_message.
    method Offer(e: Msg)
      requires Valid()
      modifies this, event
      ensures Valid() && seen == Offered(old(seen), e)
    {
      if free > 0 && e & filter != 0 { Push(e); }
    }

    method Push(e: Msg)
      requires Valid() && free > 0
      modifies this, event
      ensures Valid() && seen == old(seen).(queue := old(seen).queue + [e], accepted := old(seen).accepted + [e])
    {
      ghost var b := event[..];
      ContentsPush(b, readPtr, EVENTBUFFERSIZE - free, e);
      Steps(readPtr, EVENTBUFFERSIZE - free, EVENTBUFFERSIZE);
      free := free - 1;
      event[ptr] := e;
      assert event[..] == b[ptr := e];
      ptr := ptr + 1;
      if EVENTBUFFERSIZE == ptr { ptr := 0; }
      seen := seen.(queue := seen.queue + [e], accepted := seen.accepted + [e]);
    }

    // The locked part of event_read; copied is the outcome of the copy to user space.
    method Take(copied: bool) returns (found: bool, e: Msg)
      requires Valid()
      modifies this
      ensures Valid() && seen == if copied then Taken(old(seen)) else old(seen)
      ensures found == (|old(seen).queue| > 0 && copied)
      ensures found ==> e == old(seen).queue[0]
    {
      found, e := false, 0;
      if EVENTBUFFERSIZE != free {
        if copied {
          found := true;
          e := Pop();
        }
      }
    }

    method Pop() returns (e: Msg)
      requires Valid() && free != EVENTBUFFERSIZE
      modifies this
      ensures Valid() && seen == Taken(old(seen)) && |old(seen).queue| > 0 && e == old(seen).queue[0]
    {
      ContentsPop(event[..], readPtr, EVENTBUFFERSIZE - free);
      if free > 0 { Steps(readPtr, EVENTBUFFERSIZE - free, EVENTBUFFERSIZE); }
      e := event[readPtr];
      free := free + 1;
      readPtr := readPtr + 1;
      if EVENTBUFFERSIZE == readPtr { readPtr := 0; }
      seen := Taken(seen);
    }

    // event_ioctl with EVENT_SET_FILTER
    method SetFilter(f: bv32)
      requires Valid()
      modifies this`filter, this`seen
      ensures Valid() && seen == old(seen).(filter := f)
    {
      filter := f;
      seen := seen.(filter := f);
    }
  }

  // Among the five slots, five open handles leave none free.
  lemma {:induction false} SlotsBelow(s: set<nat>, n: nat)
    requires forall i :: i in s ==> i < n
    ensures |s| <= n && (|s| == n <==> forall i :: 0 <= i < n ==> i in s)
    decreases n
  {
    if n > 0 {
      var t := s - {n - 1};
      SlotsBelow(t, n - 1);
      assert n - 1 in s ==> s == t + {n - 1};
      assert n - 1 !in s ==> s == t;
    } else {
      assert s == {};
    }
  }

  class Device {
    var slots: seq<Handle?>
    var openHandle: nat
    ghost var views: map<nat, View>     // what the readers have seen, by slot
    ghost var repr: set<object>         // the handles in the table and their rings

    ghost predicate Sound()
      reads this, repr
    {
      && |slots| == MAX_EVENT_OPEN && this !in repr
      && (forall i :: 0 <= i < |slots| && slots[i] != null ==> Owned(slots[i]))
      && (forall i, j :: 0 <= i < j < |slots| && slots[i] != null && slots[j] != null ==> Apart(slots[i], slots[j]))
    }

    ghost predicate Owned(h: Handle)
      reads this, repr
    {
      h in repr && h.event in repr && h.Valid()
    }

    ghost predicate Apart(h: Handle, k: Handle) { h != k && h.event != k.event }

    // The views are those of the handles in the table.
    ghost predicate Valid()
      reads this, repr
    {
      && Sound() && openHandle == |views|
      && (forall i :: i in views ==> i < |slots|)
      && (forall i :: 0 <= i < |slots| ==> Shown(slots[i], i))
    }

    ghost predicate Shown(h: Handle?, i: nat)
      reads this, repr
      requires h != null ==> h in repr
    {
      if h == null then i !in views else i in views && h.seen == views[i]
    }

    constructor ()
      ensures Valid() && views == map[] && repr == {}
    {
      slots := seq(MAX_EVENT_OPEN, _ => null);
      openHandle, views, repr := 0, map[], {};
    }

    method OfferTo(i: nat, e: Msg)
      requires Sound() && i < |slots|
      modifies repr
      ensures Sound()
      ensures forall j :: 0 <= j < |slots| && slots[j] != null ==>
                slots[j].seen == if j == i then Offered(old(slots[j].seen), e) else old(slots[j].seen)
    {
      if slots[i] != null { slots[i].Offer(e); }
    }

    // One event of event_write_message: offered to every open handle.
    method OfferToAll(e: Msg)
      requires Sound()
      modifies repr
      ensures Sound()
      ensures forall i :: 0 <= i < |slots| && slots[i] != null ==> slots[i].seen == Offered(old(slots[i].seen), e)
    {
      for i := 0 to MAX_EVENT_OPEN
        invariant Sound()
        invariant forall j :: 0 <= j < i && slots[j] != null ==> slots[j].seen == Offered(old(slots[j].seen), e)
        invariant forall j :: i <= j < |slots| && slots[j] != null ==> slots[j].seen == old(slots[j].seen)
      {
        OfferTo(i, e);
      }
    }

    // A batch, for every handle.
    method OfferBatch(es: seq<Msg>)
      requires Sound()
      modifies repr
      ensures Sound()
      ensures forall i :: 0 <= i < |slots| && slots[i] != null ==> slots[i].seen == OfferedAll(old(slots[i].seen), es)
    {
      for s := 0 to |es|
        invariant Sound()
        invariant forall i :: 0 <= i < |slots| && slots[i] != null ==>
                    slots[i].seen == OfferedAll(old(slots[i].seen), es[..s])
      {
        assert es[..s + 1][..s] == es[..s];
        OfferToAll(es[s]);
      }
      assert es[..|es|] == es;
    }

    // event_write_message
    method WriteMessage(es: seq<Msg>)
      requires Valid()
      modifies this`views, repr
      ensures Valid() && views == Written(old(views), es)
    {
      OfferBatch(es);
      views := Written(views, es);
    }

    // event_read of the handle in slot i
    method Read(i: nat, copied: bool) returns (found: bool, e: Msg)
      requires Valid() && i in views
      modifies this`views, slots[i]
      ensures Valid() && views == After(old(views), i, if copied then Taken(old(views)[i]) else old(views)[i])
      ensures found == (|old(views)[i].queue| > 0 && copied)
      ensures found ==> e == old(views)[i].queue[0]
    {
      assert Shown(slots[i], i);
      var h: Handle := slots[i];
      found, e := h.Take(copied);
      assert Owned(h);
      views := After(views, i, h.seen);
    }

    // event_ioctl of the handle in slot i
    method SetFilter(i: nat, f: bv32)
      requires Valid() && i in views
      modifies this`views, slots[i]
      ensures Valid() && views == After(old(views), i, old(views)[i].(filter := f))
    {
      assert Shown(slots[i], i);
      var h: Handle := slots[i];
      h.SetFilter(f);
      views := After(views, i, h.seen);
    }

    // event_open: the first free slot, or a refusal when five handles are open.
    method Open() returns (h: Handle?)
      requires Valid()
      modifies this
      ensures Valid() && views == Opened(old(views)) && fresh(repr - old(repr))
      ensures h == null <==> old(openHandle) == MAX_EVENT_OPEN
    {
      FullIsFull();
      if openHandle == MAX_EVENT_OPEN { return null; }
      var i := FreeSlot(FirstFree(views, 0));
      h := Enter(i);
    }

    // A new handle in a free slot.
    method Enter(i: nat) returns (h: Handle)
      requires Valid() && i < |slots| && i !in views
      modifies this
      ensures Valid() && views == old(views)[i := FRESH_VIEW] && fresh(repr - old(repr))
    {
      h := new Handle();
      Install(i, h);
    }

    method Install(i: nat, h: Handle)
      requires Valid() && i < |slots| && i !in views
      requires h.Valid() && h.seen == FRESH_VIEW && h !in repr && h.event !in repr && (this as object) != h
      modifies this
      ensures Valid() && views == old(views)[i := FRESH_VIEW] && repr == old(repr) + {h, h.event}
    {
      assert Shown(slots[i], i);
      Place(i, h);
      openHandle := openHandle + 1;
      views := views[i := FRESH_VIEW];
    }

    method FreeSlot(ghost k: nat) returns (i: nat)
      requires Valid() && k == FirstFree(views, 0) && k < MAX_EVENT_OPEN
      ensures i == k
    {
      i := 0;
      while slots[i] != null
        invariant 0 <= i <= k
        decreases k - i
      {
        i := i + 1;
      }
    }

    // The counter is five exactly when no slot is free.
    lemma FullIsFull()
      requires Valid()
      ensures openHandle == MAX_EVENT_OPEN <==> FirstFree(views, 0) == MAX_EVENT_OPEN
    {
      SlotsBelow(views.Keys, MAX_EVENT_OPEN);
      assert |views| == |views.Keys|;
    }

    // Enter a new handle.
    method Place(i: nat, h: Handle)
      requires Sound() && i < |slots|
      requires h.Valid() && h !in repr && h.event !in repr
      modifies this`slots, this`repr
      ensures Sound() && repr == old(repr) + {h, h.event} && slots == old(slots)[i := h]
    {
      slots := slots[i := h];
      repr := repr + {h, h.event};
    }

    // event_release of the handle in slot i, which is searched again
    method Release(i: nat)
      requires Valid() && i in views
      modifies this`views, this`openHandle, this`slots
      ensures Valid() && views == Without(old(views), i) && openHandle == old(openHandle) - 1
    {
      var n := Search(i);
      slots := slots[n := null];
      openHandle := openHandle - 1;
      views := Without(views, n);
    }

    method Search(i: nat) returns (n: nat)
      requires Valid() && i in views
      ensures n == i
    {
      var h := slots[i];
      n := 0;
      while slots[n] != h
        invariant 0 <= n <= i
        decreases i - n
      {
        n := n + 1;
      }
      assert n < i ==> Apart(slots[n], slots[i]);
    }

    // One operation; a call on a slot without a handle does not reach the device.
    method Perform(op: Op)
      requires Valid()
      modifies this, repr
      ensures Valid() && views == Step(old(views), op) && fresh(repr - old(repr))
    {
      match op
      case Write(es) => WriteMessage(es);
      case Read(i, copied) => if i < |slots| && slots[i] != null { var _, _ := Read(i, copied); }
      case SetFilter(i, f) => if i < |slots| && slots[i] != null { SetFilter(i, f); }
      case Open => var _ := Open();
      case Close(i) => if i < |slots| && slots[i] != null { Release(i); }
    }
  }

  // Any run on a new device.
  method Session(ops: seq<Op>) returns (d: Device)
    ensures fresh(d) && d.Valid() && d.views == Run(map[], ops) && Fifos(d.views)
  {
    d := new Device();
    for i := 0 to |ops|
      invariant fresh(d) && fresh(d.repr) && d.Valid() && d.views == Run(map[], ops[..i])
    {
      assert ops[..i + 1][..i] == ops[..i];
      d.Perform(ops[i]);
    }
    assert ops[..|ops|] == ops;
    RunFifo(map[], ops);
  }
}
