/** Recordings that interrupt each other and the drain: `snoop_record` (`snoop.c`) reserves
    its slot with interrupts disabled and fills it after they are enabled again, and
    `snoop_drain` reads the read index, sends the entry and advances the index without
    disabling them. Other recordings can come in between anywhere. */
module SnoopNesting {
  import opened SnoopRing

  /** Where `snoop_drain` is in its loop: at the test; with an entry looked up; with its line
      sent; with the read index loaded, to be stored back plus one. `ordinal` is the event
      the entry belonged to, `front` the oldest buffered one when the index was loaded. */
  datatype Reader = Idle | Looked(index: nat, ordinal: nat) | Sent | Loaded(index: nat, front: nat)

  /** The ring and its counters as the code has them; the queue they stand for; the slots of
      the recordings that are under way, by ordinal; for the others, how many events there
      were when they were filled in; and the drain and the lines it sent. */
  datatype State = State(slots: seq<Entry>, head: nat, tail: nat, events: nat, drops: nat,
                         q: Queue, open: map<nat, nat>, at: map<nat, nat>,
                         reader: Reader, lines: seq<Entry>)

  datatype Step = Reserves(ev: Event) | Fills(ordinal: nat) | Looks | Sends | Loads | Stores

  /** The part between Disable and Enable. */
  function Reserve(s: State, ev: Event): State {
    var full := Next(s.head) == s.tail;
    s.(head := Next(s.head), tail := if full then Next(s.tail) else s.tail,
       events := Wrap(s.events + 1), drops := if full then Wrap(s.drops + 1) else s.drops,
       q := Record(s.q, ev), open := s.open[|s.q.history| + 1 := s.head])
  }

  /** The part after Enable. */
  function Fill(s: State, ordinal: nat): State {
    if ordinal in s.open && 1 <= ordinal <= |s.q.history| && s.open[ordinal] < |s.slots| then
      s.(slots := s.slots[s.open[ordinal] := Stored(s.q.history[ordinal - 1], s.events)],
         open := s.open - {ordinal}, at := s.at[ordinal := |s.q.history|])
    else s
  }

  /** The number of entries between the two indices, as snoop_handle_status has it. */
  function Distance(head: nat, tail: nat): nat
    requires tail < RING_SIZE
  {
    if head >= tail then head - tail else RING_SIZE - tail + head
  }

  /** The test of the loop, and the entry it takes. */
  function Look(s: State): State {
    if s.reader.Idle? && s.tail != s.head && Front(s.q) >= 1 then s.(reader := Looked(s.tail, Front(s.q)))
    else s
  }

  /** The line is made from what the slot holds now. */
  function SendLine(s: State): State {
    if s.reader.Looked? && s.reader.index < |s.slots| then
      s.(lines := s.lines + [s.slots[s.reader.index]],
         q := s.q.(sent := s.q.sent + [s.reader.ordinal]), reader := Sent)
    else s
  }

  function Load(s: State): State {
    if s.reader.Sent? && Front(s.q) >= 1 then s.(reader := Loaded(s.tail, Front(s.q))) else s
  }

  /** What is buffered then is what the indices say. */
  function Store(s: State): State {
    if s.reader.Loaded? then
      var tail := Next(s.reader.index);
      s.(tail := tail, q := s.q.(buffered := Distance(s.head, tail)), reader := Idle)
    else s
  }

  function Apply(s: State, step: Step): State {
    match step
    case Reserves(ev) => Reserve(s, ev)
    case Fills(ordinal) => Fill(s, ordinal)
    case Looks => Look(s)
    case Sends => SendLine(s)
    case Loads => Load(s)
    case Stores => Store(s)
  }

  function Run(s: State, steps: seq<Step>): State
    decreases |steps|
  {
    if steps == [] then s else Run(Apply(s, steps[0]), steps[1..])
  }

  /** A monitor that was just started. */
  predicate Fresh(s: State) {
    && |s.slots| == RING_SIZE && s.head == s.tail == s.events == s.drops == 0
    && s.q == Start(STOPPED) && s.open == map[] && s.at == map[] && s.reader == Idle && s.lines == []
  }

  /** An index that goes around the ring. */
  function Around(n: nat): (k: nat)
    ensures k < RING_SIZE
  {
    n % RING_SIZE
  }

  /** The slot of an ordinal. */
  function Place(ordinal: nat): (k: nat)
    requires ordinal >= 1
    ensures k < RING_SIZE
  {
    Around(ordinal - 1)
  }

  /** No recording under way was overtaken by 128 others. */
  predicate Timely(s: State) {
    forall n :: n in s.open ==> |s.q.history| < n + RING_SIZE
  }

  /** The indices and the counters are the queue's. */
  predicate Indices(s: State) {
    && |s.slots| == RING_SIZE && s.q.active && s.q.buffered <= CAPACITY && s.q.buffered <= |s.q.history|
    && s.head == Around(|s.q.history|) && s.tail == Around(|s.q.history| - s.q.buffered)
    && s.events == Wrap(|s.q.history|) && s.drops == Wrap(s.q.drops)
    && (forall n :: n in s.open ==> 1 <= n <= |s.q.history| && s.open[n] == Place(n))
  }

  /** What was sent lies in front of what is buffered, in order. The index a drain works on
      is of an entry that is, or was until it was dropped, the oldest. */
  predicate ReaderOk(s: State) {
    && Increasing(s.q.sent) && Front(s.q) >= 1
    && (!s.reader.Idle? ==> s.q.buffered >= 1)
    && match s.reader
       case Idle => SentBelow(s.q.sent, Front(s.q))
       case Looked(index, ordinal) =>
         && 1 <= ordinal <= Front(s.q) && ordinal <= |s.q.history| && index == Place(ordinal)
         && SentBelow(s.q.sent, ordinal)
       case Sent => SentBelow(s.q.sent, Front(s.q) + 1)
       case Loaded(index, front) =>
         && 1 <= front <= Front(s.q) && index == Place(front) && SentBelow(s.q.sent, front + 1)
         && (front < Front(s.q) ==> s.q.buffered == CAPACITY)
  }

  predicate SentBelow(sent: seq<nat>, n: int) {
    forall k :: 0 <= k < |sent| ==> 1 <= sent[k] < n
  }

  /** An entry as it was filled in: the event's own, with the count of events at that time. */
  predicate Holds(s: State, n: nat)
    requires |s.slots| == RING_SIZE && 1 <= n <= |s.q.history|
  {
    n in s.at && n <= s.at[n] <= |s.q.history| && s.slots[Place(n)] == Stored(s.q.history[n - 1], s.at[n])
  }

  /** Each of the latest 128 recordings is under way or in its slot. */
  predicate Inv(s: State) {
    && Indices(s)
    && forall n :: 1 <= n <= |s.q.history| < n + RING_SIZE && n !in s.open ==> Holds(s, n)
  }

  // ------------------------------------------------------------------- arithmetic

  lemma NextOf(n: nat)
    ensures Next(Around(n)) == Around(n + 1)
  {
  }

  /** Two places are the same only if they are a multiple of 128 apart. */
  lemma PlaceDiffers(m: nat, n: nat)
    requires 1 <= m && 1 <= n && m != n && m < n + RING_SIZE && n < m + RING_SIZE
    ensures Place(m) != Place(n)
  {
  }

  lemma FullIs(n: nat, buffered: nat)
    requires buffered <= CAPACITY && buffered <= n
    ensures Around(n + 1) == Around(n - buffered) <==> buffered == CAPACITY
    ensures Around(n) == Around(n - buffered) <==> buffered == 0
  {
  }

  // ------------------------------------------------------------------ what is kept

  lemma ReserveIndices(s: State, ev: Event)
    requires Indices(s)
    ensures Indices(Reserve(s, ev))
  {
    var n := |s.q.history|;
    NextOf(n);
    NextOf(n - s.q.buffered);
    FullIs(n, s.q.buffered);
    RecordFields(s.q, ev);
    WrapNext(n);
    WrapNext(s.q.drops);
    hide Wrap, Next, Record, Around;
    assert Place(n + 1) == Around(n);
  }

  lemma ReserveKeeps(s: State, ev: Event)
    requires Inv(s)
    ensures Inv(Reserve(s, ev))
  {
    ReserveIndices(s, ev);
    RecordFields(s.q, ev);
    hide Wrap, Next, Record, Stored, Place;
    var r := Reserve(s, ev);
    forall n | 1 <= n <= |r.q.history| < n + RING_SIZE && n !in r.open ensures Holds(r, n) {
      assert n !in s.open && Holds(s, n);
    }
  }

  lemma FillKeeps(s: State, ordinal: nat)
    requires Inv(s) && Timely(s)
    ensures Inv(Fill(s, ordinal))
  {
    var r := Fill(s, ordinal);
    if r != s {
      StoredByCount(s.q.history[ordinal - 1], |s.q.history|);
      hide Wrap, Stored, Place;
      forall n | 1 <= n <= |r.q.history| < n + RING_SIZE && n !in r.open ensures Holds(r, n) {
        if n != ordinal {
          assert Holds(s, n);
          PlaceDiffers(n, ordinal);
        }
      }
    }
  }

  // ---------------------------------------------------------------------- the drain

  lemma AroundDistance(a: nat, b: nat)
    requires b <= a
    ensures Distance(Around(a), Around(b)) == (a - b) % RING_SIZE
  {
  }

  /** An index moved back by less than a turn. */
  lemma AroundBack(a: nat, b: nat)
    requires b <= a
    ensures (a - b) % RING_SIZE <= a - b && Around(a - (a - b) % RING_SIZE) == Around(b)
  {
  }

  lemma SmallRest(n: nat)
    requires n < RING_SIZE
    ensures n % RING_SIZE == n
  {
  }

  /** What the store leaves in the ring, by the number of drops since the load. */
  function LeftBy(buffered: nat, drops: nat): nat
    requires buffered >= 1
  {
    if drops == 0 then buffered - 1 else (drops + 126) % RING_SIZE
  }

  lemma StoreIs(s: State)
    requires Indices(s) && ReaderOk(s) && s.reader.Loaded?
    ensures var left := LeftBy(s.q.buffered, Front(s.q) - s.reader.front);
            && left <= s.q.buffered && left <= |s.q.history| - s.reader.front
            && Store(s) == s.(tail := Around(s.reader.front), q := s.q.(buffered := left), reader := Idle)
            && Around(s.reader.front) == Around(|s.q.history| - left)
  {
    var n, front := |s.q.history|, s.reader.front;
    NextOf(front - 1);
    AroundDistance(n, front);
    AroundBack(n, front);
    if front == Front(s.q) { SmallRest(n - front); }
    hide Around, Next, Distance;
    assert n - front == Front(s.q) - front + s.q.buffered - 1;
  }

  lemma StoreKeepsReader(s: State)
    requires Indices(s) && ReaderOk(s)
    ensures Indices(Store(s)) && ReaderOk(Store(s))
  {
    if s.reader.Loaded? {
      StoreIs(s);
      hide Wrap, Around, Place, Store, LeftBy;
    }
  }

  lemma LookKeepsReader(s: State)
    requires Indices(s) && ReaderOk(s)
    ensures Indices(Look(s)) && ReaderOk(Look(s))
  {
    FullIs(|s.q.history|, s.q.buffered);
    hide Wrap, Around;
  }

  lemma SendKeepsReader(s: State)
    requires Indices(s) && ReaderOk(s)
    ensures Indices(SendLine(s)) && ReaderOk(SendLine(s))
  {
    hide Wrap, Around, Place;
  }

  lemma LoadKeepsReader(s: State)
    requires Indices(s) && ReaderOk(s)
    ensures Indices(Load(s)) && ReaderOk(Load(s))
  {
    hide Wrap, Around;
  }

  lemma ReserveKeepsReader(s: State, ev: Event)
    requires Indices(s) && ReaderOk(s)
    ensures Indices(Reserve(s, ev)) && ReaderOk(Reserve(s, ev))
  {
    ReserveIndices(s, ev);
    RecordFields(s.q, ev);
    RecordSent(s.q, ev);
    hide Wrap, Around, Place, Record, Next;
  }

  lemma RecordSent(q: Queue, ev: Event)
    ensures Record(q, ev).sent == q.sent
  {
  }

  lemma FillKeepsReader(s: State, ordinal: nat)
    requires Indices(s) && ReaderOk(s)
    ensures Indices(Fill(s, ordinal)) && ReaderOk(Fill(s, ordinal))
  {
    hide Wrap, Around, Place, Stored;
  }

  lemma StepKeepsIndices(s: State, step: Step)
    requires Indices(s) && ReaderOk(s)
    ensures Indices(Apply(s, step)) && ReaderOk(Apply(s, step))
  {
    hide Indices, ReaderOk, Reserve, Fill, Look, SendLine, Load, Store;
    match step
    case Reserves(ev) => ReserveKeepsReader(s, ev);
    case Fills(ordinal) => FillKeepsReader(s, ordinal);
    case Looks => LookKeepsReader(s);
    case Sends => SendKeepsReader(s);
    case Loads => LoadKeepsReader(s);
    case Stores => StoreKeepsReader(s);
  }

  lemma {:induction false} RunKeepsIndices(s: State, steps: seq<Step>)
    requires Indices(s) && ReaderOk(s)
    ensures Indices(Run(s, steps)) && ReaderOk(Run(s, steps))
    decreases |steps|
  {
    hide Indices, ReaderOk, Apply;
    if steps != [] {
      StepKeepsIndices(s, steps[0]);
      RunKeepsIndices(Apply(s, steps[0]), steps[1..]);
    }
  }

  // ----------------------------------------------------------------- the accounting

  /** Events = sent + dropped + buffered, the one being drained counted once. */
  predicate Balanced(s: State) {
    |s.q.history| + (if s.reader.Sent? || s.reader.Loaded? then 1 else 0) == |s.q.sent| + s.q.drops + s.q.buffered
  }

  /** A store for which the number of drops since its load is no multiple of 128. */
  predicate Loses(s: State, step: Step) {
    step == Stores && s.reader.Loaded? && (Front(s.q) - s.reader.front) % RING_SIZE != 0
  }

  lemma LeftByOne(buffered: nat, drops: nat)
    requires buffered >= 1 && (drops > 0 ==> buffered == CAPACITY)
    ensures LeftBy(buffered, drops) == buffered - 1 <==> drops % RING_SIZE == 0
  {
  }

  lemma StepBalances(s: State, step: Step)
    requires Indices(s) && ReaderOk(s) && Balanced(s)
    ensures Balanced(Apply(s, step)) <==> !Loses(s, step)
  {
    match step
    case Reserves(ev) =>
      RecordFields(s.q, ev);
      RecordSent(s.q, ev);
      hide Record, Wrap, Around, Next;
    case Stores =>
      if s.reader.Loaded? {
        StoreIs(s);
        LeftByOne(s.q.buffered, Front(s.q) - s.reader.front);
        hide Store, LeftBy, Wrap, Around;
      }
    case _ =>
      hide Wrap, Around, Stored;
  }

  /** No store of the run loses entries. */
  predicate LosesNothing(s: State, steps: seq<Step>)
    decreases |steps|
  {
    steps == [] || (!Loses(s, steps[0]) && LosesNothing(Apply(s, steps[0]), steps[1..]))
  }

  lemma {:induction false} RunBalances(s: State, steps: seq<Step>)
    requires Indices(s) && ReaderOk(s) && Balanced(s) && LosesNothing(s, steps)
    ensures Balanced(Run(s, steps))
    decreases |steps|
  {
    hide Indices, ReaderOk, Apply, Balanced, Loses;
    if steps != [] {
      StepKeepsIndices(s, steps[0]);
      StepBalances(s, steps[0]);
      RunBalances(Apply(s, steps[0]), steps[1..]);
    }
  }

  lemma FreshOk(s: State)
    requires Fresh(s)
    ensures Indices(s) && ReaderOk(s) && Balanced(s) && Inv(s)
  {
  }

  /** The events recorded by some steps, in order. */
  function EventsOf(steps: seq<Step>): seq<Event>
    decreases |steps|
  {
    if steps == [] then [] else EventOf(steps[0]) + EventsOf(steps[1..])
  }

  function EventOf(step: Step): seq<Event> {
    if step.Reserves? then [step.ev] else []
  }

  lemma StepHistory(s: State, step: Step)
    requires s.q.active
    ensures var q := Apply(s, step).q;
            q.active && q.history == s.q.history + EventOf(step)
  {
    if step.Reserves? { RecordFields(s.q, step.ev); }
    hide Record, Stored, Distance, Wrap;
    assert s.q.history + [] == s.q.history;
  }

  lemma {:induction false} HistoryIs(s: State, steps: seq<Step>)
    requires s.q.active
    ensures Run(s, steps).q.history == s.q.history + EventsOf(steps)
    decreases |steps|
  {
    hide *;
    StepUnfolds(s, steps);
    if steps == [] {
      assert s.q.history + [] == s.q.history;
    } else {
      var one, more := EventOf(steps[0]), EventsOf(steps[1..]);
      StepHistory(s, steps[0]);
      HistoryIs(Apply(s, steps[0]), steps[1..]);
      assert (s.q.history + one) + more == s.q.history + (one + more);
    }
  }

  lemma StepUnfolds(s: State, steps: seq<Step>)
    ensures steps == [] ==> Run(s, steps) == s && EventsOf(steps) == []
    ensures steps != [] ==>
              && Run(s, steps) == Run(Apply(s, steps[0]), steps[1..])
              && EventsOf(steps) == EventOf(steps[0]) + EventsOf(steps[1..])
  {
    hide Apply;
  }

  lemma FreshQueue(s: State)
    requires Fresh(s)
    ensures s.q.active && s.q.history == []
  {
  }

  /** Every interleaving: the history is what was recorded, the indices and counters are
      those of a queue whose sent ordinals increase, and as long as no store loses entries,
      every event is sent, dropped or buffered. */
  lemma AnyRun(s: State, steps: seq<Step>)
    requires Fresh(s)
    ensures var r := Run(s, steps);
            && Indices(r) && ReaderOk(r) && Increasing(r.q.sent) && r.q.history == EventsOf(steps)
            && (LosesNothing(s, steps) ==> Balanced(r))
  {
    FreshOk(s);
    RunKeepsIndices(s, steps);
    HistoryIs(s, steps);
    FreshQueue(s);
    assert [] + EventsOf(steps) == EventsOf(steps);
    hide Indices, Run, LosesNothing, Balanced, EventsOf;
    if LosesNothing(s, steps) { RunBalances(s, steps); }
  }

  // ------------------------------------------------------------ one entry of a drain

  function RecordAll(q: Queue, events: seq<Event>): Queue
    decreases |events|
  {
    if events == [] then q else RecordAll(Record(q, events[0]), events[1..])
  }

  /** Nothing but recordings. */
  predicate Recordings(steps: seq<Step>) {
    forall i :: 0 <= i < |steps| ==> steps[i].Reserves? || steps[i].Fills?
  }

  lemma {:induction false} RecordAllFields(q: Queue, events: seq<Event>)
    requires q.active && q.buffered <= CAPACITY
    ensures var r := RecordAll(q, events); var n := q.buffered + |events|;
            && r.active && r.history == q.history + events && r.sent == q.sent
            && r.buffered == (if n <= CAPACITY then n else CAPACITY)
            && r.drops == q.drops + (if n <= CAPACITY then 0 else n - CAPACITY)
    decreases |events|
  {
    if events == [] {
      assert q.history + events == q.history;
    } else {
      RecordFields(q, events[0]);
      RecordSent(q, events[0]);
      hide Record;
      RecordAllFields(Record(q, events[0]), events[1..]);
      assert q.history + [events[0]] + events[1..] == q.history + events;
    }
  }

  lemma RecordAllStep(q: Queue, steps: seq<Step>)
    requires steps != []
    ensures RecordAll(q, EventsOf(steps)) ==
            RecordAll(if steps[0].Reserves? then Record(q, steps[0].ev) else q, EventsOf(steps[1..]))
  {
    hide Record;
    var rest := EventsOf(steps[1..]);
    if steps[0].Reserves? {
      assert ([steps[0].ev] + rest)[1..] == rest;
    } else {
      assert [] + rest == rest;
    }
  }

  /** Recordings leave the drain where it is. */
  lemma {:induction false} RecordingsOnly(s: State, steps: seq<Step>)
    requires Recordings(steps)
    ensures var r := Run(s, steps);
            r.q == RecordAll(s.q, EventsOf(steps)) && r.reader == s.reader && r.lines == s.lines
    decreases |steps|
  {
    hide Record, Stored, RecordAll, EventsOf;
    if steps == [] {
      NoEvents(s.q);
    } else {
      RecordAllStep(s.q, steps);
      RecordingsOnly(Apply(s, steps[0]), steps[1..]);
    }
  }

  lemma NoEvents(q: Queue)
    ensures RecordAll(q, EventsOf([])) == q
  {
  }

  /** One iteration of the drain's loop, with recordings in between. */
  function DrainOne(s: State, xs: seq<Step>, ys: seq<Step>, zs: seq<Step>): State {
    Store(Run(Load(Run(SendLine(Run(Look(s), xs)), ys)), zs))
  }

  lemma LookIs(s: State)
    requires Indices(s) && ReaderOk(s) && s.reader.Idle? && s.tail != s.head
    ensures s.q.active && 1 <= s.q.buffered <= CAPACITY && Front(s.q) >= 1
    ensures Look(s) == s.(reader := Looked(s.tail, Front(s.q)))
  {
    FullIs(|s.q.history|, s.q.buffered);
    hide Wrap, Around;
  }

  lemma SendIs(s: State)
    requires Indices(s) && ReaderOk(s) && s.reader.Looked?
    ensures SendLine(s).q == s.q.(sent := s.q.sent + [s.reader.ordinal]) && SendLine(s).reader == Sent
    ensures s.q.active && s.q.buffered <= CAPACITY
  {
    hide Wrap, Around;
  }

  lemma LoadIs(s: State)
    requires Indices(s) && ReaderOk(s) && s.reader.Sent?
    ensures Front(s.q) >= 1 && Load(s) == s.(reader := Loaded(s.tail, Front(s.q)))
    ensures s.q.active && s.q.buffered <= CAPACITY
  {
    hide Wrap, Around;
  }

  /** The part up to the store. */
  lemma UpToStore(s: State, xs: seq<Step>, ys: seq<Step>, zs: seq<Step>)
    requires Indices(s) && ReaderOk(s) && s.reader.Idle? && s.tail != s.head
    requires Recordings(xs) && Recordings(ys) && Recordings(zs)
    ensures var l := Run(Load(Run(SendLine(Run(Look(s), xs)), ys)), zs);
            var n := |EventsOf(xs)| + |EventsOf(ys)| + |EventsOf(zs)|;
            && s.q.active && 1 <= s.q.buffered <= CAPACITY && Front(s.q) >= 1
            && Indices(l) && ReaderOk(l) && l.reader.Loaded? && l.q.active
            && l.q.history == s.q.history + (EventsOf(xs) + EventsOf(ys) + EventsOf(zs))
            && l.q.sent == s.q.sent + [Front(s.q) as nat]
            && l.q.buffered == (if s.q.buffered + n <= CAPACITY then s.q.buffered + n else CAPACITY)
            && l.q.drops == s.q.drops + (if s.q.buffered + n <= CAPACITY then 0 else s.q.buffered + n - CAPACITY)
            && (l.q.drops == s.q.drops ==> l.reader.front == Front(l.q))
  {
    hide *;
    LookIs(s);
    StepKeepsIndices(s, Looks);
    Applied(s);
    var a := Look(s);
    RecordingsOnly(a, xs);
    RunKeepsIndices(a, xs);
    RecordAllFields(a.q, EventsOf(xs));
    var b := Run(a, xs);
    SendIs(b);
    StepKeepsIndices(b, Sends);
    Applied(b);
    var c := SendLine(b);
    RecordingsOnly(c, ys);
    RunKeepsIndices(c, ys);
    RecordAllFields(c.q, EventsOf(ys));
    var d := Run(c, ys);
    LoadIs(d);
    StepKeepsIndices(d, Loads);
    Applied(d);
    var e := Load(d);
    RecordingsOnly(e, zs);
    RunKeepsIndices(e, zs);
    RecordAllFields(e.q, EventsOf(zs));
    var f := Run(e, zs);
    FrontIs(d.q);
    FrontIs(f.q);
    assert s.q.history + EventsOf(xs) + EventsOf(ys) + EventsOf(zs)
        == s.q.history + (EventsOf(xs) + EventsOf(ys) + EventsOf(zs));
  }

  lemma Applied(s: State)
    ensures Apply(s, Looks) == Look(s) && Apply(s, Sends) == SendLine(s) && Apply(s, Loads) == Load(s)
  {
    hide Look, SendLine, Load;
  }

  lemma FrontIs(q: Queue)
    ensures Front(q) == |q.history| - q.buffered + 1
  {
  }

  /** An iteration sends the oldest entry and is, whatever was recorded meanwhile, sending
      it first and recording then, if and only if nothing was dropped meanwhile. */
  lemma DrainOneIs(s: State, xs: seq<Step>, ys: seq<Step>, zs: seq<Step>)
    requires Indices(s) && ReaderOk(s) && s.reader.Idle? && s.tail != s.head
    requires Recordings(xs) && Recordings(ys) && Recordings(zs)
    ensures var r := DrainOne(s, xs, ys, zs); var events := EventsOf(xs) + EventsOf(ys) + EventsOf(zs);
            && Indices(r) && ReaderOk(r) && r.reader.Idle?
            && r.q.history == s.q.history + events && r.q.sent == s.q.sent + [Front(s.q)]
            && (r.q == RecordAll(SendOne(s.q), events) <==> r.q.drops == s.q.drops)
  {
    var events := EventsOf(xs) + EventsOf(ys) + EventsOf(zs);
    hide Indices, ReaderOk, EventsOf, Run, Look, SendLine, Load, Store, LeftBy, RecordAll;
    UpToStore(s, xs, ys, zs);
    var l := Run(Load(Run(SendLine(Run(Look(s), xs)), ys)), zs);
    StoreIs(l);
    StoreKeepsReader(l);
    SendOneIs(s.q);
    RecordAllFields(SendOne(s.q), events);
    if l.q.drops == s.q.drops { LeftByOne(l.q.buffered, 0); }
  }

  /** Two drops between the load and the store of a drain make the full ring look empty. */
  lemma TwoDropsEmpty(s: State, a: Event, b: Event)
    requires Indices(s) && ReaderOk(s) && s.reader.Loaded?
    requires s.q.buffered == CAPACITY && s.reader.front == Front(s.q)
    ensures var r := Store(Reserve(Reserve(s, a), b));
            && r.head == r.tail && r.q.buffered == 0
            && r.q.history == s.q.history + [a] + [b] && r.q.drops == s.q.drops + 2 && r.q.sent == s.q.sent
  {
    ReserveKeepsReader(s, a);
    var s1 := Reserve(s, a);
    ReserveKeepsReader(s1, b);
    RecordFields(s.q, a);
    RecordFields(s1.q, b);
    RecordSent(s.q, a);
    RecordSent(s1.q, b);
    StoreIs(Reserve(s1, b));
    hide Indices, ReaderOk, Record, Store, Next, Wrap, Around;
  }

  /** So many recordings one after the other. */
  function Recorded(ev: Event, n: nat, ordinal: nat): (steps: seq<Step>)
    ensures Recordings(steps) && |EventsOf(steps)| == n
    decreases n
  {
    if n == 0 then []
    else
      var rest := Recorded(ev, n - 1, ordinal + 1);
      assert EventsOf([Fills(ordinal)] + rest) == [] + EventsOf(rest);
      assert ([Reserves(ev)] + ([Fills(ordinal)] + rest))[1..] == [Fills(ordinal)] + rest;
      [Reserves(ev)] + ([Fills(ordinal)] + rest)
  }

  lemma RunsNothing(s: State, a: Event, b: Event)
    ensures Run(s, []) == s && Run(s, [Reserves(a), Reserves(b)]) == Reserve(Reserve(s, a), b)
  {
    hide Reserve;
    assert [Reserves(a), Reserves(b)][1..] == [Reserves(b)] && [Reserves(b)][1..] == [];
    var last := Reserve(Reserve(s, a), b);
    assert Run(last, []) == last;
    assert Run(Reserve(s, a), [Reserves(b)]) == last;
  }

  lemma FilledRing(s: State, ev: Event) returns (full: State)
    requires Fresh(s)
    ensures full == Run(s, Recorded(ev, CAPACITY, 1)) && Indices(full) && ReaderOk(full) && full.reader.Idle?
    ensures full.tail != full.head && |full.q.history| == full.q.buffered == CAPACITY
    ensures full.q.sent == [] && full.q.drops == 0
  {
    var filling := Recorded(ev, CAPACITY, 1);
    FreshOk(s);
    hide Indices, ReaderOk, Run, EventsOf, Recorded, RecordAll;
    RecordingsOnly(s, filling);
    RunKeepsIndices(s, filling);
    RecordAllFields(s.q, EventsOf(filling));
    full := Run(s, filling);
    FullLooks(full);
  }

  lemma FullLooks(s: State)
    requires Indices(s) && s.q.buffered == CAPACITY
    ensures s.tail != s.head
  {
    FullIs(|s.q.history|, s.q.buffered);
    hide Wrap, Around;
  }

  /** A full ring whose oldest entry is sent without an interruption. */
  lemma SendsOldest(full: State) returns (l: State)
    requires Indices(full) && ReaderOk(full) && full.reader.Idle? && full.tail != full.head
    ensures l == Load(SendLine(Look(full))) && Indices(l) && ReaderOk(l) && l.reader.Loaded?
    ensures l.q == full.q.(sent := full.q.sent + [Front(full.q) as nat]) && l.reader.front == Front(l.q)
    ensures Front(full.q) >= 1
  {
    hide *;
    LookIs(full);
    StepKeepsIndices(full, Looks);
    Applied(full);
    var a := Look(full);
    SendIs(a);
    StepKeepsIndices(a, Sends);
    Applied(a);
    var b := SendLine(a);
    LoadIs(b);
    StepKeepsIndices(b, Loads);
    Applied(b);
    l := Load(b);
  }

  /** It happens: 127 recordings, a drain that has sent the first of them and loaded the
      index, two more recordings, and the store. Of the 129 events one was sent, two
      dropped, and none is left. */
  lemma FullRingIsLost(s: State, ev: Event)
    requires Fresh(s)
    ensures var r := DrainOne(Run(s, Recorded(ev, CAPACITY, 1)), [], [], [Reserves(ev), Reserves(ev)]);
            && r.head == r.tail && r.q.buffered == 0 && |r.q.history| == CAPACITY + 2
            && |r.q.sent| == 1 && r.q.drops == 2
  {
    hide *;
    var full := FilledRing(s, ev);
    var l := SendsOldest(full);
    RunsNothing(Look(full), ev, ev);
    RunsNothing(SendLine(Look(full)), ev, ev);
    RunsNothing(l, ev, ev);
    TwoDropsEmpty(l, ev, ev);
    DrainOneIsStore(full, [Reserves(ev), Reserves(ev)]);
  }

  lemma DrainOneIsStore(s: State, zs: seq<Step>)
    ensures DrainOne(s, [], [], zs) == Store(Run(Load(Run(SendLine(Run(Look(s), [])), [])), zs))
  {
    hide Store, Load, SendLine, Look, Run;
  }

  /** Every state of a run is timely. */
  predicate TimelyRun(s: State, steps: seq<Step>)
    decreases |steps|
  {
    Timely(s) && (steps != [] ==> TimelyRun(Apply(s, steps[0]), steps[1..]))
  }

  lemma SameHolds(s: State, r: State, n: nat)
    requires |s.slots| == RING_SIZE && 1 <= n <= |s.q.history|
    requires r.slots == s.slots && r.q.history == s.q.history && r.at == s.at
    ensures Holds(s, n) <==> Holds(r, n)
  {
    hide Place, Stored;
  }

  /** The drain changes no slot. */
  lemma DrainKeeps(s: State, step: Step)
    requires Inv(s) && ReaderOk(s) && !step.Reserves? && !step.Fills?
    ensures Inv(Apply(s, step))
  {
    StepKeepsIndices(s, step);
    var r := Apply(s, step);
    assert r.slots == s.slots && r.q.history == s.q.history && r.at == s.at && r.open == s.open;
    hide Apply, ReaderOk, Holds, Wrap, Place;
    forall n | 1 <= n <= |r.q.history| < n + RING_SIZE && n !in r.open ensures Holds(r, n) {
      assert Holds(s, n);
      SameHolds(s, r, n);
    }
  }

  lemma StepKeeps(s: State, step: Step)
    requires Inv(s) && ReaderOk(s) && Timely(s)
    ensures Inv(Apply(s, step)) && ReaderOk(Apply(s, step))
  {
    StepKeepsIndices(s, step);
    hide Indices, Holds, ReaderOk, Timely, Reserve, Fill, Look, SendLine, Load, Store;
    match step
    case Reserves(ev) => ReserveKeeps(s, ev);
    case Fills(ordinal) => FillKeeps(s, ordinal);
    case _ => DrainKeeps(s, step);
  }

  lemma {:induction false} RunKeeps(s: State, steps: seq<Step>)
    requires Inv(s) && ReaderOk(s) && TimelyRun(s, steps)
    ensures Inv(Run(s, steps)) && ReaderOk(Run(s, steps))
    decreases |steps|
  {
    hide Inv, ReaderOk, Timely, Apply;
    if steps != [] {
      StepKeeps(s, steps[0]);
      RunKeeps(Apply(s, steps[0]), steps[1..]);
    }
  }

  lemma SameStored(ev: Event, m: nat, n: nat)
    ensures Stored(ev, m) == Stored(ev, n) <==> Wrap(m) == Wrap(n)
  {
    hide Wrap;
  }

  lemma HeldShows(s: State, n: nat)
    requires |s.slots| == RING_SIZE && 1 <= n <= |s.q.history| && Holds(s, n)
    ensures n in s.at && Shows(s.slots[Place(n)], s.q.history[n - 1]) && s.slots[Place(n)].tick == Wrap(s.at[n])
    ensures s.slots[Place(n)] == Stored(s.q.history[n - 1], n) <==> Wrap(s.at[n]) == Wrap(n)
  {
    StoredShows(s.q.history[n - 1], s.at[n]);
    SameStored(s.q.history[n - 1], s.at[n], n);
    hide Stored, Shows, Wrap, Place;
  }

  /** However recordings and drains interleave, as long as no recording is overtaken by 128
      others: each buffered entry that is not under way shows its event. Its tick is the
      count of events when it was filled in, so the entry is the queue's own if and only if
      that is its ordinal, to 32 bits. The line a drain is about to send shows its event, if
      that is not under way and was not overtaken by 128 others. */
  lemma NestedRun(s: State, steps: seq<Step>)
    requires Fresh(s) && TimelyRun(s, steps)
    ensures var r := Run(s, steps);
            && Indices(r) && ReaderOk(r)
            && (forall n :: 1 <= Front(r.q) <= n <= |r.q.history| && n !in r.open ==>
                 && n in r.at && Shows(r.slots[Place(n)], r.q.history[n - 1]) && r.slots[Place(n)].tick == Wrap(r.at[n])
                 && (r.slots[Place(n)] == Stored(r.q.history[n - 1], n) <==> Wrap(r.at[n]) == Wrap(n)))
            && (r.reader.Looked? && r.reader.ordinal !in r.open && |r.q.history| < r.reader.ordinal + RING_SIZE ==>
                 var k, line := r.reader.ordinal, r.slots[r.reader.index];
                 && k in r.at && SendLine(r).lines == r.lines + [line] && SendLine(r).q.sent == r.q.sent + [k]
                 && Shows(line, r.q.history[k - 1]) && line.tick == Wrap(r.at[k]))
  {
    FreshOk(s);
    var r := Run(s, steps);
    hide Run, TimelyRun, Stored, Shows, Wrap, Place, Fresh, Around, Holds;
    RunKeeps(s, steps);
    forall n | 1 <= Front(r.q) <= n <= |r.q.history| && n !in r.open
      ensures n in r.at && Shows(r.slots[Place(n)], r.q.history[n - 1]) && r.slots[Place(n)].tick == Wrap(r.at[n])
              && (r.slots[Place(n)] == Stored(r.q.history[n - 1], n) <==> Wrap(r.at[n]) == Wrap(n))
    {
      HeldShows(r, n);
    }
    if r.reader.Looked? && r.reader.ordinal !in r.open && |r.q.history| < r.reader.ordinal + RING_SIZE {
      HeldShows(r, r.reader.ordinal);
    }
  }

  /** A recording that is not interrupted is one step of the queue. */
  lemma UninterruptedRecord(s: State, ev: Event)
    requires Inv(s)
    ensures var n := |s.q.history| + 1;
            var r := Fill(Reserve(s, ev), n);
            && r.q == Record(s.q, ev) && r.open == s.open - {n}
            && r.slots == s.slots[s.head := Stored(ev, n)]
  {
    var n := |s.q.history| + 1;
    ReserveIndices(s, ev);
    RecordFields(s.q, ev);
    StoredByCount(ev, n);
    hide Wrap, Stored, Next, Record;
    assert s.open[n := s.head] - {n} == s.open - {n};
  }

  /** A recording that is interrupted by one more has that one's tick. */
  lemma InterruptedTick(s: State, a: Event, b: Event)
    requires Fresh(s)
    ensures var r := Run(s, [Reserves(a), Reserves(b), Fills(2), Fills(1)]);
            && r.open == map[] && |r.slots| == RING_SIZE && r.slots[0].tick == r.slots[1].tick == 2
            && r.slots[0] != Stored(a, 1)
  {
    var s1 := Reserve(s, a);
    var s2 := Reserve(s1, b);
    var s3 := Fill(s2, 2);
    var s4 := Fill(s3, 1);
    RunFour(s, Reserves(a), Reserves(b), Fills(2), Fills(1));
    assert s2.events == 2 && s2.open == map[1 := 0, 2 := 1];
    assert s3.open == map[1 := 0];
    assert s4.open == map[];
  }

  lemma RunFour(s: State, a: Step, b: Step, c: Step, d: Step)
    ensures Run(s, [a, b, c, d]) == Apply(Apply(Apply(Apply(s, a), b), c), d)
  {
    hide Apply;
    var s1 := Apply(s, a);
    var s2 := Apply(s1, b);
    var s3 := Apply(s2, c);
    assert [a, b, c, d][1..] == [b, c, d] && [b, c, d][1..] == [c, d] && [c, d][1..] == [d] && [d][1..] == [];
    assert Run(s3, [d]) == Run(Apply(s3, d), []) == Apply(s3, d);
    assert Run(s2, [c, d]) == Run(s3, [d]);
    assert Run(s1, [b, c, d]) == Run(s2, [c, d]);
  }

  // --------------------------------------------------------------- on the shared state

  /** The ring of `snoop.c` and its counters. A method does what runs without another
      recording coming between; what a call of snoop_record or snoop_drain keeps to itself
      from one to the next goes in and out. */
  class Ring {
    const slots: array<Entry>
    var head: nat
    var tail: nat
    var events: nat
    var drops: nat
    ghost var q: Queue
    ghost var open: map<nat, nat>
    ghost var at: map<nat, nat>
    ghost var reader: Reader
    ghost var lines: seq<Entry>

    ghost function View(): State
      reads this, slots
    {
      State(slots[..], head, tail, events, drops, q, open, at, reader, lines)
    }

    constructor ()
      ensures Fresh(View()) && fresh(slots)
    {
      slots := new Entry[RING_SIZE](_ => Entry("", 0, "", "", "", 0));
      head, tail, events, drops := 0, 0, 0, 0;
      q, open, at, reader, lines := SnoopRing.Start(STOPPED), map[], map[], Idle, [];
    }

    /** snoop_record between Disable and Enable. */
    method ReserveSlot(ev: Event) returns (slot: nat)
      modifies this
      ensures View() == Reserve(old(View()), ev) && slot == old(head)
    {
      hide Wrap, Record;
      var next := (head + 1) % RING_SIZE;
      if next == tail {
        tail := (tail + 1) % RING_SIZE;
        drops := Wrap(drops + 1);
      }
      slot := head;
      head := next;
      events := Wrap(events + 1);
      open := open[|q.history| + 1 := slot];
      q := Record(q, ev);
    }

    /** snoop_record after Enable, for the event of that ordinal. */
    method FillSlot(slot: nat, ev: Event, ghost ordinal: nat)
      requires slot < slots.Length && ordinal in open && open[ordinal] == slot
      requires 1 <= ordinal <= |q.history| && q.history[ordinal - 1] == ev
      modifies slots, this`open, this`at
      ensures View() == Fill(old(View()), ordinal)
      ensures Shows(slots[slot], ev) && slots[slot].tick == Wrap(events)
    {
      StoredShows(ev, events);
      hide Stored, Shows, Wrap;
      slots[slot] := Stored(ev, events);
      open := open - {ordinal};
      at := at[ordinal := |q.history|];
    }

    /** The test of snoop_drain's loop and the entry it takes. */
    method TakeEntry() returns (more: bool, index: nat)
      requires ReaderOk(View()) && reader.Idle?
      modifies this`reader
      ensures View() == Look(old(View())) && more == reader.Looked? && (more ==> index == reader.index)
    {
      more, index := tail != head, tail;
      if more { reader := Looked(tail, Front(q)); }
    }

    /** The line of the entry. */
    method SendEntry(index: nat) returns (line: Entry)
      requires reader.Looked? && reader.index == index < slots.Length
      modifies this`reader, this`q, this`lines
      ensures View() == SendLine(old(View())) && lines == old(lines) + [line]
    {
      line := slots[index];
      lines := lines + [line];
      q := q.(sent := q.sent + [reader.ordinal]);
      reader := Sent;
    }

    /** The read index, loaded to be advanced. */
    method LoadTail() returns (index: nat)
      requires ReaderOk(View()) && reader.Sent?
      modifies this`reader
      ensures View() == Load(old(View())) && reader.Loaded? && index == reader.index
    {
      index := tail;
      reader := Loaded(tail, Front(q));
    }

    /** And stored. */
    method StoreTail(index: nat)
      requires reader.Loaded? && reader.index == index
      modifies this`tail, this`reader, this`q
      ensures View() == Store(old(View()))
    {
      tail := (index + 1) % RING_SIZE;
      q := q.(buffered := Distance(head, tail));
      reader := Idle;
    }
  }
}
