/** The overwriting ring buffer of the system-call monitor (`snoop.c`), refined to a
    queue that drops its oldest element. */
module SnoopRing {
  import opened Text

  const RING_SIZE: nat := 128
  const CAPACITY: nat := 127
  const BATCH: nat := 8
  const WORD: nat := 0x1_0000_0000

  /** An argument of snoop_record, possibly a null pointer. */
  datatype Arg = Null | Str(s: string)

  datatype Event = Event(func: string, caller: nat, arg1: Arg, arg2: Arg, result: Arg)

  datatype Entry = Entry(func: string, caller: nat, arg1: string, arg2: string, result: string, tick: nat)

  function ClipArg(a: Arg, n: nat): string {
    if a.Null? then "" else Clip(a.s, n)
  }

  /** What the ring stores for the event with the given ordinal, counted from 1. */
  function Stored(ev: Event, ordinal: nat): Entry {
    Entry(Clip(ev.func, 19), ev.caller, ClipArg(ev.arg1, 59), ClipArg(ev.arg2, 39), ClipArg(ev.result, 39),
          Wrap(ordinal))
  }

  /** A text cut to what its field holds. */
  predicate IsCut(text: string, whole: string, most: nat) {
    text <= whole && |text| == if |whole| <= most then |whole| else most
  }

  /** An argument in its field; nothing for a null pointer. */
  predicate ShowsArg(text: string, a: Arg, most: nat) {
    match a
    case Null => text == ""
    case Str(whole) => IsCut(text, whole, most)
  }

  /** The entry has the fields of the event, each as far as it fits. */
  predicate Shows(e: Entry, ev: Event) {
    && e.caller == ev.caller && IsCut(e.func, ev.func, 19)
    && ShowsArg(e.arg1, ev.arg1, 59) && ShowsArg(e.arg2, ev.arg2, 39) && ShowsArg(e.result, ev.result, 39)
  }

  lemma StoredShows(ev: Event, ordinal: nat)
    ensures Shows(Stored(ev, ordinal), ev) && Stored(ev, ordinal).tick == Wrap(ordinal)
  {
  }

  /** Texts that fit are stored unchanged. */
  lemma ShownWhole(e: Entry, ev: Event)
    requires Shows(e, ev)
    ensures |ev.func| <= 19 ==> e.func == ev.func
    ensures ev.arg1.Str? && |ev.arg1.s| <= 59 ==> e.arg1 == ev.arg1.s
    ensures ev.arg2.Str? && |ev.arg2.s| <= 39 ==> e.arg2 == ev.arg2.s
    ensures ev.result.Str? && |ev.result.s| <= 39 ==> e.result == ev.result.s
  {
  }

  /** A ULONG counter. */
  function Wrap(n: nat): nat { n % WORD }

  lemma WrapNext(n: nat)
    ensures Wrap(Wrap(n) + 1) == Wrap(n + 1)
  {
  }

  // ------------------------------------------------------------------- the queue

  /** The monitor as a queue: every event since the start, which of them are still
      buffered (the last `buffered` ones), how many were dropped, and the ordinals of
      those sent. */
  datatype Queue = Queue(active: bool, history: seq<Event>, buffered: nat, drops: nat, sent: seq<nat>)

  const STOPPED: Queue := Queue(false, [], 0, 0, [])

  function Record(q: Queue, ev: Event): Queue {
    if !q.active then q
    else if q.buffered == CAPACITY then q.(history := q.history + [ev], drops := q.drops + 1)
    else q.(history := q.history + [ev], buffered := q.buffered + 1)
  }

  /** The ordinal of the oldest buffered event. */
  function Front(q: Queue): int { |q.history| - q.buffered + 1 }

  function SendOne(q: Queue): Queue {
    if 0 < q.buffered <= |q.history| then q.(buffered := q.buffered - 1, sent := q.sent + [Front(q) as nat]) else q
  }

  function Send(q: Queue, n: nat): Queue
    decreases n
  {
    if n == 0 then q else Send(SendOne(q), n - 1)
  }

  function Drain(q: Queue): Queue { Send(q, BATCH) }

  function Start(q: Queue): Queue {
    if q.active then q else Queue(true, [], 0, 0, [])
  }

  function Stop(q: Queue): Queue { q.(active := false) }

  /** The buffered entries, oldest first. */
  function Contents(q: Queue): (s: seq<Entry>)
    ensures q.buffered <= |q.history| ==> |s| == q.buffered
  {
    if q.buffered <= |q.history| then Entries(q.history, |q.history| - q.buffered) else []
  }

  /** The stored forms of all events from an index on. */
  function Entries(history: seq<Event>, from: nat): (s: seq<Entry>)
    requires from <= |history|
    ensures |s| == |history| - from
    ensures forall k :: 0 <= k < |s| ==> s[k] == Stored(history[from + k], from + k + 1)
    decreases |history| - from
  {
    if from == |history| then [] else [Stored(history[from], from + 1)] + Entries(history, from + 1)
  }

  lemma {:induction false} EntriesSnoc(history: seq<Event>, ev: Event, from: nat)
    requires from <= |history|
    ensures Entries(history + [ev], from) == Entries(history, from) + [Stored(ev, |history| + 1)]
    decreases |history| - from
  {
    hide Stored;
    if from == |history| {
      assert Entries(history + [ev], from + 1) == [];
    } else {
      EntriesSnoc(history, ev, from + 1);
    }
  }

  lemma EntriesRest(history: seq<Event>, from: nat)
    requires from < |history|
    ensures Entries(history, from)[1..] == Entries(history, from + 1)
  {
    hide Stored;
  }

  lemma ContentsAre(q: Queue)
    requires q.buffered <= |q.history|
    ensures Contents(q) == Entries(q.history, |q.history| - q.buffered)
  {
    hide Entries;
  }

  lemma RecordContents(q: Queue, ev: Event)
    requires q.active && q.buffered <= |q.history|
    ensures Contents(Record(q, ev)) ==
            (if q.buffered == CAPACITY then Contents(q)[1..] else Contents(q)) + [Stored(ev, |q.history| + 1)]
  {
    hide *;
    RecordFields(q, ev);
    ContentsAre(q);
    ContentsAre(Record(q, ev));
    var from := |q.history| - q.buffered;
    if q.buffered == CAPACITY {
      EntriesRest(q.history, from);
      EntriesSnoc(q.history, ev, from + 1);
    } else {
      EntriesSnoc(q.history, ev, from);
    }
  }

  lemma SendContents(q: Queue)
    requires 0 < q.buffered <= |q.history|
    ensures SendOne(q).buffered == q.buffered - 1 && Contents(SendOne(q)) == Contents(q)[1..]
  {
    hide Stored;
  }

  lemma {:induction false} SendNothing(q: Queue, n: nat)
    requires q.buffered == 0
    ensures Send(q, n) == q
  {
    if n > 0 { SendNothing(q, n - 1); }
  }

  // -------------------------------------------------------------------- the ring

  /** The ring holds the queue's contents. */
  ghost predicate Buffers(ring: seq<Entry>, head: nat, tail: nat, q: Queue) {
    && |ring| == RING_SIZE && head < RING_SIZE && tail < RING_SIZE
    && q.buffered <= |q.history|
    && Held(ring, head, tail) == Contents(q)
  }

  /** The flag and the counters follow the queue. */
  ghost predicate Counts(active: bool, eventCount: nat, dropCount: nat, q: Queue) {
    active == q.active && eventCount == Wrap(|q.history|) && dropCount == Wrap(q.drops)
  }

  /** Recording, on the ring and on the queue. */
  lemma RecordBuffers(ring: seq<Entry>, head: nat, tail: nat, q: Queue, ev: Event)
    requires Buffers(ring, head, tail, q) && q.active
    ensures var full := Next(head) == tail;
            && full == (q.buffered == CAPACITY)
            && Buffers(ring[head := Stored(ev, |q.history| + 1)], Next(head),
                       if full then Next(tail) else tail, Record(q, ev))
  {
    HeldLength(ring, head, tail);
    RecordContents(q, ev);
    RecordFields(q, ev);
    hide Contents, Held, Stored, Record;
    if Next(head) == tail {
      HeldPop(ring, head, tail);
      HeldPush(ring, head, Next(tail), Stored(ev, |q.history| + 1));
    } else {
      HeldPush(ring, head, tail, Stored(ev, |q.history| + 1));
    }
  }

  lemma RecordCounts(ring: seq<Entry>, head: nat, tail: nat, eventCount: nat, dropCount: nat, q: Queue, ev: Event)
    requires Buffers(ring, head, tail, q) && Counts(true, eventCount, dropCount, q)
    ensures Stored(ev, Wrap(eventCount + 1)) == Stored(ev, |q.history| + 1)
    ensures Counts(true, Wrap(eventCount + 1),
                   if Next(head) == tail then Wrap(dropCount + 1) else dropCount, Record(q, ev))
  {
    HeldLength(ring, head, tail);
    RecordFields(q, ev);
    WrapNext(|q.history|);
    WrapNext(q.drops);
    StoredByCount(ev, |q.history| + 1);
    hide Contents, Held, Stored, Record, Wrap, Next;
  }

  /** The entries between the read and the write index. */
  function Held(ring: seq<Entry>, head: nat, tail: nat): seq<Entry>
    requires |ring| == RING_SIZE && head < RING_SIZE && tail < RING_SIZE
  {
    if tail <= head then ring[tail..head] else ring[tail..] + ring[..head]
  }

  /** The index after i, around the ring. */
  function Next(i: nat): (r: nat)
    ensures r < RING_SIZE
  {
    (i + 1) % RING_SIZE
  }

  lemma HeldLength(ring: seq<Entry>, head: nat, tail: nat)
    requires |ring| == RING_SIZE && head < RING_SIZE && tail < RING_SIZE
    ensures |Held(ring, head, tail)| == if head >= tail then head - tail else RING_SIZE - tail + head
    ensures |Held(ring, head, tail)| <= CAPACITY
    ensures |Held(ring, head, tail)| == CAPACITY <==> Next(head) == tail
    ensures Held(ring, head, tail) == [] <==> head == tail
  {
  }

  lemma PushBelow(ring: seq<Entry>, head: nat, tail: nat, e: Entry)
    requires tail <= head < |ring|
    ensures ring[head := e][tail..head + 1] == ring[tail..head] + [e]
  {
  }

  lemma PushAround(ring: seq<Entry>, head: nat, tail: nat, e: Entry)
    requires head < tail <= |ring|
    ensures ring[head := e][tail..] + ring[head := e][..head + 1] == ring[tail..] + ring[..head] + [e]
  {
  }

  lemma HeldPush(ring: seq<Entry>, head: nat, tail: nat, e: Entry)
    requires |ring| == RING_SIZE && head < RING_SIZE && tail < RING_SIZE && Next(head) != tail
    ensures Held(ring[head := e], Next(head), tail) == Held(ring, head, tail) + [e]
  {
    var after := ring[head := e];
    if tail <= head {
      PushBelow(ring, head, tail, e);
      assert head + 1 == RING_SIZE ==> after[tail..head + 1] == after[tail..] + after[..0];
    } else {
      PushAround(ring, head, tail, e);
      assert head + 1 == tail ==> Next(head) == tail;
    }
  }

  lemma HeldPop(ring: seq<Entry>, head: nat, tail: nat)
    requires |ring| == RING_SIZE && head < RING_SIZE && tail < RING_SIZE && head != tail
    ensures Held(ring, head, tail) != [] && Held(ring, head, tail)[0] == ring[tail]
    ensures Held(ring, head, Next(tail)) == Held(ring, head, tail)[1..]
  {
    if tail < head {
      assert Next(tail) == tail + 1 && |ring[tail..head]| > 0;
      assert ring[tail..head][1..] == ring[tail + 1..head];
    } else if tail + 1 == RING_SIZE {
      assert Next(tail) == 0 && ring[tail..] == [ring[tail]];
      assert ([ring[tail]] + ring[..head])[1..] == ring[..head] == ring[0..head];
    } else {
      assert Next(tail) == tail + 1;
      assert (ring[tail..] + ring[..head])[1..] == ring[tail + 1..] + ring[..head];
    }
  }

  class Monitor {
    const ring: array<Entry>
    var head: nat
    var tail: nat
    var active: bool
    var eventCount: nat
    var dropCount: nat
    ghost var queue: Queue

    ghost predicate Valid()
      reads this, ring
    {
      && Buffers(ring[..], head, tail, queue) && Counts(active, eventCount, dropCount, queue)
    }

    lemma ValidParts()
      requires Valid()
      ensures Buffers(ring[..], head, tail, queue) && Counts(active, eventCount, dropCount, queue)
      ensures active == queue.active && head < RING_SIZE == ring.Length
    {
      hide Contents, Held, Wrap;
    }

    lemma ValidAgain()
      requires Buffers(ring[..], head, tail, queue) && Counts(active, eventCount, dropCount, queue)
      ensures Valid()
    {
    }

    constructor ()
      ensures Valid() && queue == STOPPED && fresh(ring)
    {
      ring := new Entry[RING_SIZE](_ => Entry("", 0, "", "", "", 0));
      head, tail, active, eventCount, dropCount, queue := 0, 0, false, 0, 0, STOPPED;
    }

    /** Makes room when the write index is about to meet the read index. */
    method DropOldest(next: nat)
      modifies `tail, `dropCount
      ensures tail == if next == old(tail) then Next(old(tail)) else old(tail)
      ensures dropCount == if next == old(tail) then Wrap(old(dropCount) + 1) else old(dropCount)
    {
      if next == tail {
        tail := (tail + 1) % RING_SIZE;
        dropCount := Wrap(dropCount + 1);
      }
    }

    /** snoop_record. */
    method SnoopRecord(ev: Event)
      requires Valid()
      modifies this, ring
      ensures Valid() && queue == Record(old(queue), ev)
      ensures old(active) ==> old(head) < ring.Length && Shows(ring[old(head)], ev)
    {
      hide *;
      ValidParts();
      if !active {
        NotRecorded(queue, ev);
        return;
      }
      RecordBuffers(ring[..], head, tail, queue, ev);
      RecordCounts(ring[..], head, tail, eventCount, dropCount, queue, ev);
      var next := Next(head);
      DropOldest(next);
      var e := head;
      head := next;
      eventCount := Wrap(eventCount + 1);
      ring[e] := Stored(ev, eventCount);
      StoredShows(ev, eventCount);
      queue := Record(queue, ev);
      assert ring[..] == old(ring[..])[e := Stored(ev, eventCount)];
      ValidAgain();
    }

    /** snoop_drain: the entries sent, oldest first, at most eight. */
    method SnoopDrain() returns (lines: seq<Entry>)
      requires Valid()
      modifies this`tail, this`queue
      ensures Valid() && queue == Drain(old(queue))
      ensures |lines| == (if old(queue).buffered < BATCH then old(queue).buffered else BATCH)
      ensures lines == Contents(old(queue))[..|lines|]
      ensures ShowFrom(lines, old(queue).history, Front(old(queue)))
    {
      hide Contents, Held, Stored, SendOne;
      lines := [];
      var count := 0;
      ghost var all := Contents(queue);
      while tail != head && count < 8
        decreases BATCH - count
        invariant Valid() && count <= BATCH && count == |lines| <= |all|
        invariant Send(queue, BATCH - count) == Drain(old(queue))
        invariant lines == all[..count] && Contents(queue) == all[count..]
      {
        HeldPop(ring[..], head, tail);
        HeldLength(ring[..], head, tail);
        SendContents(queue);
        SendOneHistory(queue);
        lines := lines + [ring[tail]];
        tail := (tail + 1) % RING_SIZE;
        count := count + 1;
        queue := SendOne(queue);
      }
      HeldLength(ring[..], head, tail);
      if count < BATCH { SendNothing(queue, BATCH - count); }
      DrainedShow(old(queue), |lines|);
    }

    /** snoop_start, without installing the patches. */
    method SnoopStart()
      requires Valid()
      modifies this
      ensures Valid() && queue == Start(old(queue))
    {
      if active { return; }
      head, tail, eventCount, dropCount := 0, 0, 0, 0;
      active := true;
      queue := Start(queue);
    }

    /** snoop_stop, without removing the patches. */
    method SnoopStop()
      requires Valid()
      modifies this`active, this`queue
      ensures Valid() && queue == Stop(old(queue))
    {
      active := false;
      queue := Stop(queue);
    }

    /** The four fields of the SNOOPSTATE line. */
    method SnoopStatus() returns (on: bool, events: nat, drops: nat, buffered: nat)
      requires Valid()
      ensures on == queue.active && events == Wrap(|queue.history|) && drops == Wrap(queue.drops)
      ensures buffered == queue.buffered
    {
      if head >= tail {
        buffered := head - tail;
      } else {
        buffered := RING_SIZE - tail + head;
      }
      HeldLength(ring[..], head, tail);
      on, events, drops := active, eventCount, dropCount;
    }
  }

  /** An entry shows the event of an ordinal, counted from one. */
  predicate ShowsNth(e: Entry, history: seq<Event>, n: int) {
    1 <= n <= |history| && Shows(e, history[n - 1]) && e.tick == Wrap(n)
  }

  lemma EntryShows(q: Queue, k: nat)
    requires k < q.buffered <= |q.history|
    ensures |Contents(q)| == q.buffered && ShowsNth(Contents(q)[k], q.history, Front(q) + k)
  {
    StoredShows(q.history[Front(q) - 1 + k], Front(q) + k);
    hide Stored, Shows, Wrap, Entries;
  }

  /** Entries that show the events from an ordinal on. */
  predicate ShowFrom(entries: seq<Entry>, history: seq<Event>, ordinal: int) {
    forall k :: 0 <= k < |entries| ==> ShowsNth(entries[k], history, ordinal + k)
  }

  /** What is buffered shows the latest events. */
  lemma ContentsShow(q: Queue)
    requires q.buffered <= |q.history|
    ensures |Contents(q)| == q.buffered && ShowFrom(Contents(q), q.history, Front(q))
  {
    ContentsAre(q);
    hide Contents, Entries, Front, ShowsNth;
    var entries := Contents(q);
    forall k | 0 <= k < |entries| ensures ShowsNth(entries[k], q.history, Front(q) + k) {
      EntryShows(q, k);
    }
  }

  lemma DrainedShow(q: Queue, n: nat)
    requires n <= q.buffered <= |q.history|
    ensures |Contents(q)| == q.buffered && ShowFrom(Contents(q)[..n], q.history, Front(q))
  {
    hide *;
    ContentsShow(q);
    SomeShow(Contents(q), q.history, Front(q), n);
  }

  lemma SomeShow(entries: seq<Entry>, history: seq<Event>, ordinal: int, n: nat)
    requires ShowFrom(entries, history, ordinal) && n <= |entries|
    ensures ShowFrom(entries[..n], history, ordinal)
  {
    hide ShowsNth;
    assert forall k :: 0 <= k < n ==> entries[..n][k] == entries[k];
  }

  lemma StoredByCount(ev: Event, n: nat)
    ensures Stored(ev, Wrap(n)) == Stored(ev, n)
  {
  }

  lemma RecordFields(q: Queue, ev: Event)
    requires q.active
    ensures var r := Record(q, ev);
            && r.active && r.history == q.history + [ev]
            && r.buffered == (if q.buffered == CAPACITY then CAPACITY else q.buffered + 1)
            && r.drops == (if q.buffered == CAPACITY then q.drops + 1 else q.drops)
            && (q.buffered == CAPACITY ==> q.buffered > 0)
  {
  }

  lemma NotRecorded(q: Queue, ev: Event)
    requires !q.active
    ensures Record(q, ev) == q
  {
  }

  lemma SendOneHistory(q: Queue)
    ensures SendOne(q).history == q.history && SendOne(q).active == q.active && SendOne(q).drops == q.drops
  {
  }

  // ------------------------------------------------------------------------- runs

  datatype Step = Recording(ev: Event) | Draining | Starting | Stopping

  function Apply(q: Queue, step: Step): Queue {
    match step
    case Recording(ev) => Record(q, ev)
    case Draining => Drain(q)
    case Starting => Start(q)
    case Stopping => Stop(q)
  }

  function Run(q: Queue, steps: seq<Step>): Queue
    decreases |steps|
  {
    if steps == [] then q else Run(Apply(q, steps[0]), steps[1..])
  }

  /** Whether the monitor is on after the steps, and what was recorded since it was started. */
  predicate On(steps: seq<Step>)
    decreases |steps|
  {
    steps != [] &&
    match steps[|steps| - 1]
    case Starting => true
    case Stopping => false
    case _ => On(steps[..|steps| - 1])
  }

  function Since(steps: seq<Step>): seq<Event>
    decreases |steps|
  {
    if steps == [] then []
    else
      var front := steps[..|steps| - 1];
      match steps[|steps| - 1]
      case Starting => if On(front) then Since(front) else []
      case Recording(ev) => if On(front) then Since(front) + [ev] else Since(front)
      case _ => Since(front)
  }

  lemma {:induction false} RunLast(q: Queue, steps: seq<Step>, last: Step)
    ensures Run(q, steps + [last]) == Apply(Run(q, steps), last)
    decreases |steps|
  {
    hide Apply;
    if steps == [] {
      assert steps + [last] == [last] && [last][1..] == [];
      assert Run(Apply(q, last), []) == Apply(q, last);
    } else {
      assert (steps + [last])[1..] == steps[1..] + [last];
      RunLast(Apply(q, steps[0]), steps[1..], last);
    }
  }

  lemma {:induction false} SendHistory(q: Queue, n: nat)
    ensures Send(q, n).history == q.history && Send(q, n).active == q.active
    decreases n
  {
    if n > 0 { SendHistory(SendOne(q), n - 1); }
  }

  /** The queue's history is what was recorded since the last start. */
  lemma {:induction false} HistoryIs(steps: seq<Step>)
    ensures var q := Run(STOPPED, steps); q.active == On(steps) && q.history == Since(steps)
    decreases |steps|
  {
    if steps != [] {
      var front, last := steps[..|steps| - 1], steps[|steps| - 1];
      assert steps == front + [last];
      HistoryIs(front);
      RunLast(STOPPED, front, last);
      SendHistory(Run(STOPPED, front), BATCH);
      hide Run, Send;
    }
  }

  /** Events left out between one ordinal and the next, starting after `last`. */
  function Gaps(ordinals: seq<nat>, last: nat): int
    decreases |ordinals|
  {
    if ordinals == [] then 0 else (ordinals[0] - last - 1) + Gaps(ordinals[1..], ordinals[0])
  }

  predicate Increasing(ordinals: seq<nat>) {
    forall j, k :: 0 <= j < k < |ordinals| ==> ordinals[j] < ordinals[k]
  }

  /** Every event is sent, dropped or buffered; what was sent lies before what is
      buffered, in increasing order. */
  ghost predicate Inv(q: Queue) {
    && q.buffered <= CAPACITY
    && |q.history| == |q.sent| + q.drops + q.buffered
    && Increasing(q.sent)
    && (forall k :: 0 <= k < |q.sent| ==> 1 <= q.sent[k] < Front(q))
  }

  lemma SendOneKeeps(q: Queue)
    requires Inv(q)
    ensures Inv(SendOne(q))
  {
  }

  lemma {:induction false} SendKeeps(q: Queue, n: nat)
    requires Inv(q)
    ensures Inv(Send(q, n))
    decreases n
  {
    if n > 0 {
      SendOneKeeps(q);
      SendKeeps(SendOne(q), n - 1);
    }
  }

  lemma ApplyKeeps(q: Queue, step: Step)
    requires Inv(q)
    ensures Inv(Apply(q, step))
  {
    SendKeeps(q, BATCH);
  }

  lemma {:induction false} RunKeeps(q: Queue, steps: seq<Step>)
    requires Inv(q)
    ensures Inv(Run(q, steps))
    decreases |steps|
  {
    if steps != [] {
      ApplyKeeps(q, steps[0]);
      RunKeeps(Apply(q, steps[0]), steps[1..]);
    }
  }

  lemma {:induction false} GapsSum(ordinals: seq<nat>, last: nat)
    ensures Gaps(ordinals, last) == (if ordinals == [] then last else ordinals[|ordinals| - 1]) - last - |ordinals|
    decreases |ordinals|
  {
    if ordinals != [] { GapsSum(ordinals[1..], ordinals[0]); }
  }

  /** Draining sends the oldest buffered events in order, eight of them or all. */
  lemma DrainSends(q: Queue)
    requires q.buffered <= |q.history|
    ensures var n := if q.buffered < BATCH then q.buffered else BATCH;
            && Drain(q) == q.(buffered := q.buffered - n, sent := q.sent + Ordinals(Front(q), n))
            && Contents(Drain(q)) == Contents(q)[n..]
            && forall j :: 0 <= j < n ==> Contents(q)[j] == Stored(q.history[Front(q) - 1 + j], Front(q) + j)
  {
    var n := if q.buffered < BATCH then q.buffered else BATCH;
    hide Send, Stored, Ordinals, Entries;
    SendsInOrder(q, n, BATCH);
    SameContents(q, n, Drain(q));
    ContentsRest(q, n);
  }

  /** The contents do not depend on what was sent. */
  lemma SameContents(q: Queue, n: nat, r: Queue)
    requires n <= q.buffered <= |q.history| && r.history == q.history && r.buffered == q.buffered - n
    ensures Contents(r) == Contents(q.(buffered := q.buffered - n))
  {
    hide *;
    ContentsAre(r);
    ContentsAre(q.(buffered := q.buffered - n));
  }

  /** n ordinals from one on. */
  function Ordinals(from: nat, n: nat): (r: seq<nat>)
    ensures |r| == n && forall k :: 0 <= k < n ==> r[k] == from + k
    decreases n
  {
    if n == 0 then [] else [from] + Ordinals(from + 1, n - 1)
  }

  lemma SendOneIs(q: Queue)
    requires 0 < q.buffered <= |q.history|
    ensures SendOne(q) == q.(buffered := q.buffered - 1, sent := q.sent + [Front(q) as nat])
    ensures Front(SendOne(q)) == Front(q) + 1
  {
  }

  lemma OneMore(sent: seq<nat>, from: nat, n: nat)
    requires n > 0
    ensures (sent + [from]) + Ordinals(from + 1, n - 1) == sent + Ordinals(from, n)
  {
  }

  lemma {:induction false} SendsInOrder(q: Queue, n: nat, most: nat)
    requires q.buffered <= |q.history| && n == if q.buffered < most then q.buffered else most
    ensures Front(q) >= 0
    ensures Send(q, most) == q.(buffered := q.buffered - n, sent := q.sent + Ordinals(Front(q), n))
    decreases most
  {
    hide SendOne;
    if n == 0 {
      if most > 0 { SendNothing(q, most); }
      assert q.sent + [] == q.sent;
    } else {
      SendOneIs(q);
      OneMore(q.sent, Front(q), n);
      hide Ordinals, Front;
      SendsInOrder(SendOne(q), n - 1, most - 1);
    }
  }

  lemma EntriesFrom(history: seq<Event>, from: nat, n: nat)
    requires from + n <= |history|
    ensures Entries(history, from + n) == Entries(history, from)[n..]
  {
    hide Stored, Entries;
    var a, b := Entries(history, from), Entries(history, from + n);
    forall k | 0 <= k < |b| ensures b[k] == a[n..][k] {
      assert a[n..][k] == a[n + k];
    }
  }

  lemma ContentsRest(q: Queue, n: nat)
    requires n <= q.buffered <= |q.history|
    ensures Contents(q.(buffered := q.buffered - n)) == Contents(q)[n..]
  {
    hide *;
    ContentsAre(q);
    ContentsAre(q.(buffered := q.buffered - n));
    EntriesFrom(q.history, |q.history| - q.buffered, n);
  }

  /** After every run the history is what was recorded while the monitor was on, since it
      was last started; at most 127 entries are buffered, and they show the latest events in
      order, with their ordinals as ticks; events = sent + dropped + buffered; the ordinals
      sent increase, and the gaps before and between them, up to the oldest event still
      buffered, are exactly the drops. */
  lemma EveryRun(steps: seq<Step>)
    ensures var q := Run(STOPPED, steps);
            && q.buffered <= CAPACITY && Front(q) >= 1
            && |q.history| == |q.sent| + q.drops + q.buffered
            && |Contents(q)| == q.buffered
            && q.active == On(steps) && q.history == Since(steps)
            && ShowFrom(Contents(q), q.history, Front(q))
            && Increasing(q.sent)
            && Gaps(q.sent + [Front(q) as nat], 0) == q.drops
  {
    var q := Run(STOPPED, steps);
    HistoryIs(steps);
    hide Run, Gaps, Contents, ShowFrom, On, Since;
    RunKeeps(STOPPED, steps);
    ContentsShow(q);
    GapsSum(q.sent + [Front(q) as nat], 0);
  }

  /** Below 2^32 events the 32-bit ticks of the buffered entries are their ordinals, so
      they increase from each entry to the next by one. */
  lemma TicksAreOrdinals(q: Queue, k: nat)
    requires Inv(q) && |q.history| < WORD && k < q.buffered
    ensures k < |Contents(q)| && Contents(q)[k].tick == Front(q) + k
  {
  }
}
