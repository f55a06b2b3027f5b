/** The message exchange between one client library (`bridge_client.c`) and the
    daemon (`ipc_manager.c`, `protocol_handler.c`), as a step relation over two
    FIFO ports, the client's message pool and the client's call stack. */
module Messages {

  const POOL_SIZE: nat := 4

  // Codes that `process_daemon_msg` and the pause loop treat in a way of their own.
  const CMD_FORWARD: nat := 20
  const SHUTDOWN: nat := 23
  const HOOK_CALL: nat := 24
  const DEBUG_PAUSE: nat := 27
  const DEBUG_RESUME: nat := 28

  predicate ClientCode(code: nat) { 1 <= code <= 15 }

  predicate DaemonCode(code: nat) { 20 <= code <= 28 }

  /** The codes a handler of the application is run for. */
  predicate HandlerCode(code: nat) { code == CMD_FORWARD || code == HOOK_CALL }

  /** A message is named by where its memory lives: a slot of the client's pool,
      or a message the daemon allocated for one request of its own. */
  datatype MsgId = Pool(slot: nat) | Daemon(serial: nat)

  /** The fields of `struct BridgeMsg` that the exchange depends on. `request` is
      the position of the send in the client's history. */
  datatype Fields = Fields(code: nat, body: nat, request: nat, answered: bool, result: int)

  /** Activations on the client's call stack above the application itself. */
  datatype Frame =
    | Wait(slot: nat, request: nat)      // blocked in send_and_wait
    | Returned(slot: nat, request: nat)  // send_and_wait returned, pool_free not yet called
    | Handling(m: MsgId)                 // a hook or command handler runs, m not yet replied
    | Polling                            // inside ab_poll's loop
    | Paused                             // inside the DEBUG_PAUSE loop

  datatype Stack = App | Push(top: Frame, below: Stack)

  datatype State = State(
    used: seq<bool>,              // msg_pool_used
    memory: map<MsgId, Fields>,
    daemonPort: seq<MsgId>,
    daemonHolds: seq<MsgId>,      // taken from the port by ipc_process, not yet replied
    replyPort: seq<MsgId>,        // the client's port
    returned: multiset<MsgId>,    // replies waiting in the daemon's temporary ports
    stack: Stack,
    live: set<nat>,               // daemon messages allocated and not freed
    waiting: set<nat>,            // those the daemon is still polling for
    nextSerial: nat,
    sent: seq<nat>,               // bodies the client has put on the daemon port, in order
    handled: seq<nat>             // bodies the daemon has dispatched, in order
  )

  datatype Event =
    | ClientSend(code: nat, body: nat)
    | ClientReceive(handlerFound: bool)
    | ClientFree
    | HandlerReturn
    | PollStart
    | PollEnd
    | DaemonGet
    | DaemonReply
    | DaemonPost(code: nat)
    | DaemonCollect(serial: nat)
    | DaemonGiveUp(serial: nat)

  /** The first free slot at or after `i`, or POOL_SIZE. */
  function FirstFree(used: seq<bool>, i: nat): (r: nat)
    requires i <= |used|
    ensures i <= r <= |used|
    ensures r < |used| ==> !used[r]
    ensures forall k :: i <= k < r ==> used[k]
    decreases |used| - i
  {
    if i == |used| || !used[i] then i else FirstFree(used, i + 1)
  }

  /** User code is on top of the stack: it may send, poll or return. */
  predicate UserRuns(stack: Stack) {
    stack.App? || stack.top.Handling?
  }

  /** The top activation reads the client's port. */
  predicate Reads(stack: Stack) {
    stack.Push? && (stack.top.Wait? || stack.top.Polling? || stack.top.Paused?)
  }

  predicate Enabled(s: State, e: Event) {
    match e
    case ClientSend(code, _) => UserRuns(s.stack) && ClientCode(code)
    case ClientReceive(_) => Reads(s.stack) && s.replyPort != [] && s.replyPort[0] in s.memory
    case ClientFree => s.stack.Push? && s.stack.top.Returned?
    case HandlerReturn => s.stack.Push? && s.stack.top.Handling?
    case PollStart => UserRuns(s.stack)
    case PollEnd => s.stack.Push? && s.stack.top.Polling? && s.replyPort == []
    case DaemonGet => s.daemonHolds == [] && s.daemonPort != []
    case DaemonReply => |s.daemonHolds| == 1 && s.daemonHolds[0] in s.memory
    case DaemonPost(code) => DaemonCode(code) && code != SHUTDOWN
    case DaemonCollect(serial) => serial in s.waiting && Daemon(serial) in s.returned
    case DaemonGiveUp(serial) => serial in s.waiting
  }

  /** ReplyMsg: back to the reply port recorded in the message. Pool messages
      carry the client's own port, daemon messages a temporary one. */
  function Reply(s: State, m: MsgId): State {
    match m
    case Pool(_) => s.(replyPort := s.replyPort + [m])
    case Daemon(_) => s.(returned := s.returned + multiset{m})
  }

  /** process_daemon_msg: the dispatch looks only at the type code. */
  function ProcessDaemonMsg(s: State, m: MsgId, handlerFound: bool): State
    requires m in s.memory
  {
    var code := s.memory[m].code;
    if code == CMD_FORWARD || code == HOOK_CALL then
      if handlerFound then s.(stack := Push(Handling(m), s.stack)) else Reply(s, m)
    else if code == DEBUG_PAUSE then
      Reply(s.(stack := Push(Paused, s.stack)), m)
    else
      Reply(s, m)
  }

  /** The wait loop of send_and_wait: its own message ends the wait. */
  function WaitReceive(s: State, m: MsgId, handlerFound: bool): State
    requires s.stack.Push? && s.stack.top.Wait? && m in s.memory
  {
    if m == Pool(s.stack.top.slot) then
      s.(stack := Push(Returned(s.stack.top.slot, s.stack.top.request), s.stack.below))
    else ProcessDaemonMsg(s, m, handlerFound)
  }

  /** The pause loop: DEBUG_RESUME is answered and ends it. */
  function PauseReceive(s: State, m: MsgId, handlerFound: bool): State
    requires s.stack.Push? && m in s.memory
  {
    if s.memory[m].code == DEBUG_RESUME then Reply(s.(stack := s.stack.below), m)
    else ProcessDaemonMsg(s, m, handlerFound)
  }

  /** One GetMsg on the client's port by whichever loop is on top of the stack. */
  function Receive(s: State, handlerFound: bool): State
    requires Enabled(s, ClientReceive(handlerFound))
  {
    var m := s.replyPort[0];
    var rest := s.(replyPort := s.replyPort[1..]);
    if s.stack.top.Wait? then WaitReceive(rest, m, handlerFound)
    else if s.stack.top.Paused? then PauseReceive(rest, m, handlerFound)
    else ProcessDaemonMsg(rest, m, handlerFound)
  }

  /** send_and_wait up to its wait loop. With no free slot it returns NULL. */
  function Send(s: State, code: nat, body: nat): State {
    var slot := FirstFree(s.used, 0);
    if slot == |s.used| then s
    else
      var request := |s.sent|;
      s.(used := s.used[slot := true],
         memory := s.memory[Pool(slot) := Fields(code, body, request, false, 0)],
         daemonPort := s.daemonPort + [Pool(slot)],
         sent := s.sent + [body],
         stack := Push(Wait(slot, request), s.stack))
  }

  /** The result ipc_process leaves in a message: its default branch answers -1. */
  function DispatchResult(code: nat): int { if ClientCode(code) then 0 else -1 }

  /** pool_free by the caller of send_and_wait. */
  function Free(s: State): State
    requires s.stack.Push? && s.stack.top.Returned?
  {
    var slot := s.stack.top.slot;
    s.(used := if slot < |s.used| then s.used[slot := false] else s.used, stack := s.stack.below)
  }

  /** ipc_process takes the oldest message ... */
  function Get(s: State): State
    requires s.daemonPort != []
  {
    s.(daemonHolds := [s.daemonPort[0]], daemonPort := s.daemonPort[1..])
  }

  /** ... dispatches it on its code and replies. */
  function Dispatch(s: State): State
    requires |s.daemonHolds| == 1 && s.daemonHolds[0] in s.memory
  {
    var m := s.daemonHolds[0];
    var f := s.memory[m];
    var done := s.(daemonHolds := [],
                   memory := s.memory[m := f.(answered := true, result := DispatchResult(f.code))],
                   handled := s.handled + [f.body]);
    Reply(done, m)
  }

  function Post(s: State, code: nat): State {
    var m := Daemon(s.nextSerial);
    s.(memory := s.memory[m := Fields(code, 0, 0, false, 0)],
       replyPort := s.replyPort + [m],
       live := s.live + {s.nextSerial},
       waiting := s.waiting + {s.nextSerial},
       nextSerial := s.nextSerial + 1)
  }

  /** The reply is back in the daemon's hands: only now is the memory freed. */
  function Collect(s: State, serial: nat): State {
    s.(returned := s.returned - multiset{Daemon(serial)},
       live := s.live - {serial}, waiting := s.waiting - {serial})
  }

  function Apply(s: State, e: Event): State
    requires Enabled(s, e)
  {
    match e
    case ClientSend(code, body) => Send(s, code, body)
    case ClientReceive(handlerFound) => Receive(s, handlerFound)
    case ClientFree => Free(s)
    case HandlerReturn => Reply(s.(stack := s.stack.below), s.stack.top.m)
    case PollStart => s.(stack := Push(Polling, s.stack))
    case PollEnd => s.(stack := s.stack.below)
    case DaemonGet => Get(s)
    case DaemonReply => Dispatch(s)
    case DaemonPost(code) => Post(s, code)
    case DaemonCollect(serial) => Collect(s, serial)
    case DaemonGiveUp(serial) => s.(waiting := s.waiting - {serial})
  }

  ghost predicate CanRun(s: State, es: seq<Event>)
    decreases |es|
  {
    es == [] || (Enabled(s, es[0]) && CanRun(Apply(s, es[0]), es[1..]))
  }

  function Run(s: State, es: seq<Event>): State
    requires CanRun(s, es)
    decreases |es|
  {
    if es == [] then s else Run(Apply(s, es[0]), es[1..])
  }

  // ---------------------------------------------------------------- invariant

  /** How often `m` is in the hands of a client activation. */
  ghost function Held(stack: Stack, m: MsgId): nat {
    match stack
    case App => 0
    case Push(f, below) =>
      Held(below, m) + if (f.Returned? && m == Pool(f.slot)) || (f.Handling? && m == f.m) then 1 else 0
  }

  /** How often slot `i` belongs to an activation of send_and_wait or its caller. */
  ghost function Slots(stack: Stack, i: nat): nat {
    match stack
    case App => 0
    case Push(f, below) => Slots(below, i) + if (f.Wait? || f.Returned?) && f.slot == i then 1 else 0
  }

  /** How often `m` occurs over all the places a message can be. */
  ghost function Count(s: State, m: MsgId): nat {
    multiset(s.daemonPort)[m] + multiset(s.daemonHolds)[m] + multiset(s.replyPort)[m]
    + s.returned[m] + Held(s.stack, m)
  }

  predicate Allocated(s: State, m: MsgId) {
    match m
    case Pool(slot) => slot < |s.used| && s.used[slot]
    case Daemon(serial) => serial in s.live
  }

  ghost predicate StackOk(stack: Stack, memory: map<MsgId, Fields>, handled: nat) {
    match stack
    case App => true
    case Push(f, below) =>
      && StackOk(below, memory, handled)
      && match f {
           case Wait(slot, request) => Pool(slot) in memory && memory[Pool(slot)].request == request
           case Returned(slot, request) =>
             && Pool(slot) in memory && memory[Pool(slot)].request == request < handled
             && memory[Pool(slot)].answered
           case Handling(m) => m.Daemon?
           case _ => true
         }
  }

  /** Conservation: an allocated message is in exactly one place, any other in none. */
  ghost predicate Conserved(s: State) {
    forall m :: Count(s, m) == if Allocated(s, m) then 1 else 0
  }

  ghost predicate SlotsOwned(s: State) {
    forall i: nat :: Slots(s.stack, i) == if i < |s.used| && s.used[i] then 1 else 0
  }

  ghost predicate MemoryOk(s: State) {
    forall m :: Allocated(s, m) ==>
      && m in s.memory
      && (m.Pool? ==> && ClientCode(s.memory[m].code)
                      && s.memory[m].request < |s.sent|
                      && s.memory[m].body == s.sent[s.memory[m].request])
      && (m.Daemon? ==> DaemonCode(s.memory[m].code) && m.serial < s.nextSerial)
  }

  ghost predicate PortsOk(s: State) {
    && |s.daemonHolds| <= 1
    && (forall m :: m in s.daemonPort || m in s.daemonHolds ==> m.Pool?)
    && (forall m :: m in s.returned ==> m.Daemon?)
    && (forall m :: m in s.replyPort && m.Pool? && m in s.memory ==>
         s.memory[m].answered && s.memory[m].request < |s.handled| && s.memory[m].result == 0)
    && s.waiting <= s.live
  }

  /** The daemon dispatches the client's sends once each, in the order sent. */
  ghost predicate Ordered(s: State) {
    && |s.handled| + |s.daemonHolds| + |s.daemonPort| == |s.sent|
    && s.handled == s.sent[..|s.handled|]
    && (forall m :: m in s.daemonHolds && m in s.memory ==> s.memory[m].request == |s.handled|)
    && (forall k :: 0 <= k < |s.daemonPort| && s.daemonPort[k] in s.memory ==>
         s.memory[s.daemonPort[k]].request == |s.handled| + |s.daemonHolds| + k)
  }

  ghost predicate Inv(s: State) {
    && |s.used| == POOL_SIZE
    && Conserved(s)
    && SlotsOwned(s)
    && MemoryOk(s)
    && PortsOk(s)
    && Ordered(s)
    && StackOk(s.stack, s.memory, |s.handled|)
  }

  const Start := State([false, false, false, false], map[], [], [], [], multiset{}, App, {}, {}, 0, [], [])

  lemma StackMonotone(stack: Stack, memory: map<MsgId, Fields>, memory': map<MsgId, Fields>, h: nat, h': nat)
    requires StackOk(stack, memory, h) && h <= h'
    requires forall i :: Slots(stack, i) > 0 && Pool(i) in memory ==>
               && Pool(i) in memory' && memory'[Pool(i)].request == memory[Pool(i)].request
               && (memory[Pool(i)].answered ==> memory'[Pool(i)].answered)
    ensures StackOk(stack, memory', h')
  {
    if stack.Push? { StackMonotone(stack.below, memory, memory', h, h'); }
  }

  lemma Present(s: State, m: MsgId)
    requires Inv(s)
    requires m in s.daemonPort || m in s.daemonHolds || m in s.replyPort || m in s.returned || Held(s.stack, m) > 0
    ensures Allocated(s, m) && m in s.memory
  {
    assert Count(s, m) >= 1;
  }

  lemma HeadPlaces<T(!new)>(q: seq<T>, x: T)
    requires q != []
    ensures multiset(q)[x] == multiset(q[1..])[x] + if x == q[0] then 1 else 0
  {
    assert q == [q[0]] + q[1..];
  }

  // Conservation, event by event. `Moves` says that the places of messages are
  // unchanged except for one more occurrence of `m`.

  ghost predicate Gains(s: State, t: State, m: MsgId) {
    && s.used == t.used && s.live == t.live
    && forall x :: Count(t, x) == Count(s, x) + if x == m then 1 else 0
  }

  lemma ReplyPlaces(s: State, m: MsgId)
    ensures Gains(s, Reply(s, m), m)
  {
  }

  lemma ProcessPlaces(s: State, m: MsgId, found: bool)
    requires m in s.memory
    ensures Gains(s, ProcessDaemonMsg(s, m, found), m)
  {
    ReplyPlaces(s, m);
    ReplyPlaces(s.(stack := Push(Paused, s.stack)), m);
    PausedPlaces(s);
    HandlingPlaces(s, m);
    hide Reply, Count;
  }

  lemma PausedPlaces(s: State)
    ensures forall x :: Count(s.(stack := Push(Paused, s.stack)), x) == Count(s, x)
  {
  }

  lemma HandlingPlaces(s: State, m: MsgId)
    ensures Gains(s, s.(stack := Push(Handling(m), s.stack)), m)
  {
  }

  lemma WaitReceivePlaces(s: State, m: MsgId, found: bool)
    requires s.stack.Push? && s.stack.top.Wait? && m in s.memory
    ensures Gains(s, WaitReceive(s, m, found), m)
  {
    ProcessPlaces(s, m, found);
  }

  lemma PauseReceivePlaces(s: State, m: MsgId, found: bool)
    requires s.stack.Push? && s.stack.top.Paused? && m in s.memory
    ensures Gains(s, PauseReceive(s, m, found), m)
  {
    ProcessPlaces(s, m, found);
    ReplyPlaces(s.(stack := s.stack.below), m);
  }

  lemma ReceiveConserves(s: State, found: bool)
    requires Conserved(s) && Enabled(s, ClientReceive(found))
    ensures Conserved(Receive(s, found))
  {
    var m := s.replyPort[0];
    var rest := s.(replyPort := s.replyPort[1..]);
    forall x ensures Count(s, x) == Count(rest, x) + if x == m then 1 else 0 { HeadPlaces(s.replyPort, x); }
    if s.stack.top.Wait? { WaitReceivePlaces(rest, m, found); }
    else if s.stack.top.Paused? { PauseReceivePlaces(rest, m, found); }
    else { ProcessPlaces(rest, m, found); }
  }

  lemma SendConserves(s: State, code: nat, body: nat)
    requires Conserved(s)
    ensures Conserved(Send(s, code, body))
  {
    var slot := FirstFree(s.used, 0);
    if slot < |s.used| {
      assert forall x :: Count(Send(s, code, body), x) == Count(s, x) + if x == Pool(slot) then 1 else 0;
    }
  }

  lemma FreeConserves(s: State)
    requires Conserved(s) && Enabled(s, ClientFree)
    ensures Conserved(Free(s))
  {
    var m := Pool(s.stack.top.slot);
    assert Count(s, m) >= 1;
    assert forall x :: Count(s, x) == Count(Free(s), x) + if x == m then 1 else 0;
  }

  lemma HandlerReturnConserves(s: State)
    requires Conserved(s) && Enabled(s, HandlerReturn)
    ensures Conserved(Apply(s, HandlerReturn))
  {
    var popped := s.(stack := s.stack.below);
    assert forall x :: Count(s, x) == Count(popped, x) + if x == s.stack.top.m then 1 else 0;
    ReplyPlaces(popped, s.stack.top.m);
  }

  lemma GetConserves(s: State)
    requires Conserved(s) && Enabled(s, DaemonGet)
    ensures Conserved(Get(s))
  {
    forall x ensures Count(Get(s), x) == Count(s, x) { HeadPlaces(s.daemonPort, x); }
  }

  lemma DispatchKeepsCount(s: State, x: MsgId)
    requires Enabled(s, DaemonReply)
    ensures Count(Dispatch(s), x) == Count(s, x)
  {
    HeadPlaces(s.daemonHolds, x);
    var m := s.daemonHolds[0];
    assert s.daemonHolds == [m];
    hide Held;
    if m.Pool? {
      assert Dispatch(s).replyPort == s.replyPort + [m];
    } else {
      assert Dispatch(s).returned == s.returned + multiset{m};
    }
  }

  lemma DispatchConserves(s: State)
    requires Conserved(s) && Enabled(s, DaemonReply)
    ensures Conserved(Dispatch(s))
  {
    forall x ensures Count(Dispatch(s), x) == Count(s, x) { DispatchKeepsCount(s, x); }
    assert Dispatch(s).used == s.used && Dispatch(s).live == s.live;
    hide Count;
  }

  lemma PostConserves(s: State, code: nat)
    requires Conserved(s) && MemoryOk(s)
    ensures Conserved(Post(s, code))
  {
    assert !Allocated(s, Daemon(s.nextSerial));
    PostPlaces(s, code);
    hide Count;
  }

  lemma PostPlaces(s: State, code: nat)
    ensures forall x :: Count(Post(s, code), x) == Count(s, x) + if x == Daemon(s.nextSerial) then 1 else 0
  {
    hide Held;
  }

  lemma CollectConserves(s: State, serial: nat)
    requires Conserved(s) && Enabled(s, DaemonCollect(serial))
    ensures Conserved(Collect(s, serial))
  {
    assert Count(s, Daemon(serial)) == 1;
    assert forall x :: Count(s, x) == Count(Collect(s, serial), x) + if x == Daemon(serial) then 1 else 0;
  }

  lemma SlotsKeep(s: State, e: Event)
    requires SlotsOwned(s) && Enabled(s, e) && !e.ClientReceive?
    ensures SlotsOwned(Apply(s, e))
  {
    if e.ClientFree? { assert Slots(s.stack, s.stack.top.slot) >= 1; }
  }

  lemma ReceiveKeepsSlots(s: State, found: bool)
    requires SlotsOwned(s) && Enabled(s, ClientReceive(found))
    ensures SlotsOwned(Receive(s, found))
  {
    var m, rest := s.replyPort[0], s.(replyPort := s.replyPort[1..]);
    ProcessSlots(rest, m, found);
    hide ProcessDaemonMsg;
    forall i ensures Slots(Receive(s, found).stack, i) == Slots(s.stack, i) {}
    assert Receive(s, found).used == s.used;
  }

  lemma ProcessSlots(s: State, m: MsgId, found: bool)
    requires m in s.memory
    ensures ProcessDaemonMsg(s, m, found).used == s.used
    ensures forall i :: Slots(ProcessDaemonMsg(s, m, found).stack, i) == Slots(s.stack, i)
  {
  }

  // The remaining parts of the invariant, event by event.

  ghost predicate RestOk(s: State) {
    MemoryOk(s) && PortsOk(s) && Ordered(s) && StackOk(s.stack, s.memory, |s.handled|)
  }

  lemma SendKeepsMemory(s: State, code: nat, body: nat)
    requires Inv(s) && ClientCode(code)
    ensures MemoryOk(Send(s, code, body))
    ensures StackOk(Send(s, code, body).stack, Send(s, code, body).memory, |s.handled|)
  {
    var slot := FirstFree(s.used, 0);
    if slot < |s.used| {
      assert Slots(s.stack, slot) == 0;
      StackMonotone(s.stack, s.memory, Send(s, code, body).memory, |s.handled|, |s.handled|);
    }
  }

  /** A pool message that is not in the client's port is written and queued. */
  lemma QueueKeepsPorts(s: State, t: State, p: MsgId, f: Fields)
    requires PortsOk(s) && p.Pool? && p !in s.replyPort
    requires t.memory == s.memory[p := f] && t.daemonPort == s.daemonPort + [p] && t.daemonHolds == s.daemonHolds
    requires t.replyPort == s.replyPort && t.returned == s.returned && t.handled == s.handled
    requires t.waiting == s.waiting && t.live == s.live
    ensures PortsOk(t)
  {
    forall m | m in t.replyPort && m.Pool? && m in t.memory
      ensures t.memory[m].answered && t.memory[m].request < |t.handled| && t.memory[m].result == 0
    {
      assert m != p && m in s.memory && t.memory[m] == s.memory[m];
    }
  }

  lemma SendKeepsReplies(s: State, code: nat, body: nat)
    requires Inv(s) && ClientCode(code)
    ensures PortsOk(Send(s, code, body))
  {
    var slot := FirstFree(s.used, 0);
    if slot < |s.used| {
      FreeIsNowhere(s, slot);
      var t := Send(s, code, body);
      hide Conserved, SlotsOwned, StackOk, Ordered, MemoryOk, Count, PortsOk;
      QueueKeepsPorts(s, t, Pool(slot), Fields(code, body, |s.sent|, false, 0));
    }
  }

  lemma FreeIsNowhere(s: State, slot: nat)
    requires Conserved(s) && slot < |s.used| && !s.used[slot]
    ensures Pool(slot) !in s.daemonPort && Pool(slot) !in s.daemonHolds && Pool(slot) !in s.replyPort
  {
    assert Count(s, Pool(slot)) == 0;
  }

  lemma SendKeepsOrder(s: State, code: nat, body: nat)
    requires Inv(s) && ClientCode(code)
    ensures Ordered(Send(s, code, body))
  {
    var slot := FirstFree(s.used, 0);
    if slot < |s.used| {
      var t := Send(s, code, body);
      FreeIsNowhere(s, slot);
      hide Conserved, SlotsOwned, StackOk, MemoryOk, Count;
      assert t.handled == t.sent[..|t.handled|];
      assert forall k :: 0 <= k < |s.daemonPort| ==>
               t.daemonPort[k] == s.daemonPort[k] && s.daemonPort[k] in s.daemonPort;
    }
  }

  lemma SendKeepsPorts(s: State, code: nat, body: nat)
    requires Inv(s) && ClientCode(code)
    ensures PortsOk(Send(s, code, body)) && Ordered(Send(s, code, body))
  {
    hide *;
    SendKeepsReplies(s, code, body);
    SendKeepsOrder(s, code, body);
  }

  /** What the invariant says of a message that the client takes from its port. */
  ghost predicate Deliverable(s: State, m: MsgId) {
    && Allocated(s, m) && m in s.memory
    && (m.Pool? ==> && s.memory[m].answered && s.memory[m].request < |s.handled|
                    && s.memory[m].result == 0)
  }

  lemma ReplyKeepsPorts(s: State, m: MsgId)
    requires PortsOk(s) && Deliverable(s, m)
    ensures PortsOk(Reply(s, m))
  {
    if m.Pool? {
      assert forall x :: x in s.replyPort + [m] ==> x in s.replyPort || x == m;
    } else {
      assert forall x :: x in s.returned + multiset{m} ==> x in s.returned || x == m;
    }
  }

  lemma ReplyKeepsRest(s: State, m: MsgId)
    requires RestOk(s) && Deliverable(s, m)
    ensures RestOk(Reply(s, m))
  {
    ReplyKeepsPorts(s, m);
    hide PortsOk, StackOk;
  }

  lemma PushKeepsRest(s: State, f: Frame)
    requires RestOk(s) && (f.Paused? || (f.Handling? && f.m.Daemon?))
    ensures RestOk(s.(stack := Push(f, s.stack)))
  {
    hide MemoryOk, Ordered;
    assert PortsOk(s.(stack := Push(f, s.stack)));
    assert MemoryOk(s.(stack := Push(f, s.stack))) && Ordered(s.(stack := Push(f, s.stack))) by {
      SamePlaces(s, s.(stack := Push(f, s.stack)));
    }
  }

  lemma SamePlaces(s: State, t: State)
    requires t == s.(stack := t.stack) && MemoryOk(s) && Ordered(s)
    ensures MemoryOk(t) && Ordered(t)
  {
    assert forall m :: Allocated(t, m) ==> Allocated(s, m);
  }

  /** Only the daemon's messages have the daemon's codes. */
  lemma CodeTellsOwner(s: State, m: MsgId)
    requires MemoryOk(s) && Allocated(s, m) && m in s.memory && DaemonCode(s.memory[m].code)
    ensures m.Daemon?
  {
  }

  lemma ProcessKeepsRest(s: State, m: MsgId, found: bool)
    requires RestOk(s) && Deliverable(s, m)
    ensures RestOk(ProcessDaemonMsg(s, m, found))
  {
    if DaemonCode(s.memory[m].code) { CodeTellsOwner(s, m); }
    var code := s.memory[m].code;
    assert code == CMD_FORWARD || code == HOOK_CALL ==> m.Daemon?;
    assert Deliverable(s.(stack := Push(Paused, s.stack)), m);
    hide RestOk, Deliverable, Reply, DaemonCode;
    ReplyKeepsRest(s, m);
    PushKeepsRest(s, Paused);
    ReplyKeepsRest(s.(stack := Push(Paused, s.stack)), m);
    if m.Daemon? { PushKeepsRest(s, Handling(m)); }
  }

  lemma WaitReceiveKeepsRest(s: State, m: MsgId, found: bool)
    requires RestOk(s) && Deliverable(s, m) && s.stack.Push? && s.stack.top.Wait?
    ensures RestOk(WaitReceive(s, m, found))
  {
    if m != Pool(s.stack.top.slot) { ProcessKeepsRest(s, m, found); }
  }

  lemma PauseReceiveKeepsRest(s: State, m: MsgId, found: bool)
    requires RestOk(s) && Deliverable(s, m) && s.stack.Push? && s.stack.top.Paused?
    ensures RestOk(PauseReceive(s, m, found))
  {
    if s.memory[m].code != DEBUG_RESUME { ProcessKeepsRest(s, m, found); }
  }

  lemma Delivered(s: State)
    requires Inv(s) && s.replyPort != []
    ensures Deliverable(s, s.replyPort[0])
    ensures RestOk(s.(replyPort := s.replyPort[1..]))
  {
    Present(s, s.replyPort[0]);
  }

  lemma ReceiveKeepsRest(s: State, found: bool)
    requires Inv(s) && Enabled(s, ClientReceive(found))
    ensures RestOk(Receive(s, found))
  {
    var m := s.replyPort[0];
    var rest := s.(replyPort := s.replyPort[1..]);
    Delivered(s);
    if s.stack.top.Wait? { WaitReceiveKeepsRest(rest, m, found); }
    else if s.stack.top.Paused? { PauseReceiveKeepsRest(rest, m, found); }
    else { ProcessKeepsRest(rest, m, found); }
  }

  lemma FreeKeepsRest(s: State)
    requires Inv(s) && Enabled(s, ClientFree)
    ensures RestOk(Free(s))
  {
  }

  lemma HandlerReturnKeepsRest(s: State)
    requires Inv(s) && Enabled(s, HandlerReturn)
    ensures RestOk(Apply(s, HandlerReturn))
  {
    var m := s.stack.top.m;
    var popped := s.(stack := s.stack.below);
    assert m.Daemon?;
    Present(s, m);
    SamePlaces(s, popped);
    assert PortsOk(popped) && StackOk(popped.stack, popped.memory, |popped.handled|);
    assert Deliverable(popped, m);
    hide PortsOk, Ordered, MemoryOk, StackOk, Deliverable, Inv, Reply;
    ReplyKeepsRest(popped, m);
  }

  lemma GetKeepsRest(s: State)
    requires Inv(s) && Enabled(s, DaemonGet)
    ensures RestOk(Get(s))
  {
    Present(s, s.daemonPort[0]);
  }

  lemma DispatchKeepsMemory(s: State)
    requires Inv(s) && Enabled(s, DaemonReply)
    ensures MemoryOk(Dispatch(s)) && StackOk(Dispatch(s).stack, Dispatch(s).memory, |s.handled| + 1)
  {
    StackMonotone(s.stack, s.memory, Dispatch(s).memory, |s.handled|, |s.handled| + 1);
  }

  lemma DispatchKeepsPorts(s: State)
    requires Inv(s) && Enabled(s, DaemonReply)
    ensures PortsOk(Dispatch(s)) && Ordered(Dispatch(s))
  {
    DispatchKeepsReplies(s);
    DispatchKeepsOrder(s);
  }

  lemma DispatchKeepsReplies(s: State)
    requires Inv(s) && Enabled(s, DaemonReply)
    ensures PortsOk(Dispatch(s))
  {
    var m := s.daemonHolds[0];
    Present(s, m);
    assert m.Pool?;
    assert forall x :: x in s.replyPort + [m] ==> x in s.replyPort || x == m;
    hide StackOk, Conserved, SlotsOwned;
  }

  lemma DispatchKeepsOrder(s: State)
    requires Inv(s) && Enabled(s, DaemonReply)
    ensures Ordered(Dispatch(s))
  {
    var m := s.daemonHolds[0];
    Present(s, m);
    NotQueuedTwice(s, m);
    hide StackOk, Conserved, SlotsOwned, Count;
    assert s.sent[..|s.handled| + 1] == s.sent[..|s.handled|] + [s.sent[|s.handled|]];
  }

  lemma NotQueuedTwice(s: State, m: MsgId)
    requires Conserved(s) && m in s.daemonHolds
    ensures m !in s.daemonPort
  {
    assert Count(s, m) <= 1;
  }

  lemma PostKeepsMemory(s: State, code: nat)
    requires Inv(s) && DaemonCode(code)
    ensures MemoryOk(Post(s, code))
  {
    hide StackOk, Conserved, SlotsOwned, PortsOk, Ordered, DaemonCode;
    assert forall m :: Allocated(Post(s, code), m) ==> m == Daemon(s.nextSerial) || Allocated(s, m);
  }

  lemma PostKeepsPorts(s: State, code: nat)
    requires Inv(s) && DaemonCode(code)
    ensures PortsOk(Post(s, code))
  {
    hide StackOk, Conserved, SlotsOwned, MemoryOk, Ordered;
  }

  lemma PostKeepsOrder(s: State, code: nat)
    requires Inv(s) && DaemonCode(code)
    ensures Ordered(Post(s, code))
  {
    hide StackOk, Conserved, SlotsOwned, MemoryOk;
    assert forall k :: 0 <= k < |s.daemonPort| ==> s.daemonPort[k] in s.daemonPort && s.daemonPort[k].Pool?;
  }

  lemma PostKeepsRest(s: State, code: nat)
    requires Inv(s) && DaemonCode(code)
    ensures RestOk(Post(s, code))
  {
    PostKeepsMemory(s, code);
    PostKeepsPorts(s, code);
    PostKeepsOrder(s, code);
    PostKeepsStack(s, code);
    hide StackOk, MemoryOk, PortsOk, Ordered, Inv, Post;
  }

  lemma PostKeepsStack(s: State, code: nat)
    requires StackOk(s.stack, s.memory, |s.handled|)
    ensures var t := Post(s, code); StackOk(t.stack, t.memory, |t.handled|)
  {
    StackMonotone(s.stack, s.memory, Post(s, code).memory, |s.handled|, |s.handled|);
  }

  lemma CollectKeepsRest(s: State, serial: nat)
    requires Inv(s) && Enabled(s, DaemonCollect(serial))
    ensures RestOk(Collect(s, serial))
  {
  }

  predicate Quiet(e: Event) { e.PollStart? || e.PollEnd? || e.DaemonGiveUp? }

  lemma QuietConserves(s: State, e: Event)
    requires Conserved(s) && Enabled(s, e) && Quiet(e)
    ensures Conserved(Apply(s, e))
  {
    assert forall x :: Count(Apply(s, e), x) == Count(s, x);
  }

  lemma QuietKeepsRest(s: State, e: Event)
    requires RestOk(s) && Enabled(s, e) && Quiet(e)
    ensures RestOk(Apply(s, e))
  {
  }

  lemma QuietStepKeepsInv(s: State, e: Event)
    requires Inv(s) && Enabled(s, e) && Quiet(e)
    ensures Inv(Apply(s, e))
  {
    hide Conserved, SlotsOwned, MemoryOk, PortsOk, Ordered, StackOk;
    QuietConserves(s, e);
    SlotsKeep(s, e);
    QuietKeepsRest(s, e);
  }

  lemma ClientStepKeepsInv(s: State, e: Event)
    requires Inv(s) && Enabled(s, e)
    requires e.ClientSend? || e.ClientReceive? || e.ClientFree? || e.HandlerReturn?
    ensures Inv(Apply(s, e))
  {
    hide Conserved, SlotsOwned, MemoryOk, PortsOk, Ordered, StackOk;
    match e
    case ClientSend(code, body) =>
      SlotsKeep(s, e);
      SendConserves(s, code, body);
      SendKeepsMemory(s, code, body);
      SendKeepsPorts(s, code, body);
    case ClientReceive(found) => ReceiveKeepsSlots(s, found); ReceiveConserves(s, found); ReceiveKeepsRest(s, found);
    case ClientFree => SlotsKeep(s, e); FreeConserves(s); FreeKeepsRest(s);
    case HandlerReturn => SlotsKeep(s, e); HandlerReturnConserves(s); HandlerReturnKeepsRest(s);
  }

  lemma DaemonStepKeepsInv(s: State, e: Event)
    requires Inv(s) && Enabled(s, e)
    requires e.DaemonGet? || e.DaemonReply? || e.DaemonPost? || e.DaemonCollect?
    ensures Inv(Apply(s, e))
  {
    hide Conserved, SlotsOwned, MemoryOk, PortsOk, Ordered, StackOk;
    SlotsKeep(s, e);
    match e
    case DaemonGet => GetConserves(s); GetKeepsRest(s);
    case DaemonReply => DispatchConserves(s); DispatchKeepsMemory(s); DispatchKeepsPorts(s);
    case DaemonPost(code) => PostConserves(s, code); PostKeepsRest(s, code);
    case DaemonCollect(serial) => CollectConserves(s, serial); CollectKeepsRest(s, serial);
  }

  lemma StepKeepsInv(s: State, e: Event)
    requires Inv(s) && Enabled(s, e)
    ensures Inv(Apply(s, e))
  {
    hide Inv, Apply;
    match e
    case PollStart => QuietStepKeepsInv(s, e);
    case PollEnd => QuietStepKeepsInv(s, e);
    case DaemonGiveUp(_) => QuietStepKeepsInv(s, e);
    case DaemonGet => DaemonStepKeepsInv(s, e);
    case DaemonReply => DaemonStepKeepsInv(s, e);
    case DaemonPost(_) => DaemonStepKeepsInv(s, e);
    case DaemonCollect(_) => DaemonStepKeepsInv(s, e);
    case _ => ClientStepKeepsInv(s, e);
  }

  lemma {:induction false} RunKeepsInv(s: State, es: seq<Event>)
    requires Inv(s) && CanRun(s, es)
    ensures Inv(Run(s, es))
    decreases |es|
  {
    hide Inv, Apply;
    if es != [] {
      StepKeepsInv(s, es[0]);
      RunKeepsInv(Apply(s, es[0]), es[1..]);
    }
  }

  lemma StartInv()
    ensures Inv(Start)
  {
  }

  // ------------------------------------------------------------ main results

  predicate OnStack(stack: Stack, f: Frame) {
    stack.Push? && (stack.top == f || OnStack(stack.below, f))
  }

  /** In every reachable state an in-use pool message is in exactly one of: the
      daemon port, the daemon's hands, the client's port, or the hands of the
      caller that send_and_wait returned it to; a free slot is in none. */
  lemma InUseMessageHasOnePlace(es: seq<Event>, slot: nat)
    requires CanRun(Start, es) && slot < POOL_SIZE
    ensures var s := Run(Start, es); var m := Pool(slot);
            && |s.used| == POOL_SIZE
            && (s.used[slot] ==>
                 (if m in s.daemonPort then 1 else 0) + (if m in s.daemonHolds then 1 else 0)
                 + (if m in s.replyPort then 1 else 0) + Held(s.stack, m) == 1)
            && (!s.used[slot] ==>
                 m !in s.daemonPort && m !in s.daemonHolds && m !in s.replyPort && Held(s.stack, m) == 0)
  {
    StartInv();
    RunKeepsInv(Start, es);
    var s := Run(Start, es);
    assert Count(s, Pool(slot)) == if s.used[slot] then 1 else 0;
    assert s.returned[Pool(slot)] == 0;
  }

  /** A daemon message that has not been freed, timed out or not, is in exactly
      one of: the client's port, a running handler, its temporary port; a freed
      one is nowhere the client could reach it. */
  lemma DaemonMessageOutlivesTimeout(es: seq<Event>, serial: nat)
    requires CanRun(Start, es)
    ensures var s := Run(Start, es); var m := Daemon(serial);
            && (serial in s.live ==>
                 (if m in s.replyPort then 1 else 0) + Held(s.stack, m) + s.returned[m] == 1)
            && (serial !in s.live ==> m !in s.replyPort && Held(s.stack, m) == 0 && m !in s.returned)
  {
    StartInv();
    RunKeepsInv(Start, es);
    var s := Run(Start, es);
    assert Count(s, Daemon(serial)) == if serial in s.live then 1 else 0;
  }

  lemma WaitOwnsItsSlot(stack: Stack, memory: map<MsgId, Fields>, handled: nat, slot: nat, request: nat)
    requires StackOk(stack, memory, handled)
    ensures Slots(stack, slot) >= Held(stack, Pool(slot)) + if OnStack(stack, Wait(slot, request)) then 1 else 0
  {
  }

  /** Every wait on the stack, however deeply nested, has its message in a queue
      the daemon drains or in the port the client reads. */
  lemma WaiterIsQueued(s: State, slot: nat, request: nat)
    requires Inv(s) && OnStack(s.stack, Wait(slot, request))
    ensures Pool(slot) in s.daemonPort || Pool(slot) in s.daemonHolds || Pool(slot) in s.replyPort
  {
    WaitOwnsItsSlot(s.stack, s.memory, |s.handled|, slot, request);
    assert Count(s, Pool(slot)) == Slots(s.stack, slot) == 1;
    assert s.returned[Pool(slot)] == 0;
  }

  lemma TopWaitIsServed(s: State)
    requires Inv(s) && s.stack.Push? && s.stack.top.Wait?
    ensures Enabled(s, ClientReceive(true)) || Enabled(s, DaemonGet) || Enabled(s, DaemonReply)
  {
    WaiterIsQueued(s, s.stack.top.slot, s.stack.top.request);
    if s.replyPort != [] { Present(s, s.replyPort[0]); }
    else if s.daemonHolds != [] { Present(s, s.daemonHolds[0]); }
  }

  /** A client blocked in send_and_wait is never deadlocked: it can receive, or
      the daemon can take or answer a message. */
  lemma BlockedClientCanBeServed(es: seq<Event>)
    requires CanRun(Start, es) && Run(Start, es).stack.Push? && Run(Start, es).stack.top.Wait?
    ensures var s := Run(Start, es);
            Enabled(s, ClientReceive(true)) || Enabled(s, DaemonGet) || Enabled(s, DaemonReply)
  {
    StartInv();
    RunKeepsInv(Start, es);
    TopWaitIsServed(Run(Start, es));
  }

  /** No branch for the daemon's codes 20 to 28 takes a message with a code from
      1 to 15, whoever reads it. */
  lemma ClientCodeIsReposted(s: State, found: bool)
    requires Enabled(s, ClientReceive(found)) && s.replyPort[0].Pool? && ClientCode(s.memory[s.replyPort[0]].code)
    requires s.stack.top.Wait? ==> s.replyPort[0] != Pool(s.stack.top.slot)
    ensures Receive(s, found) == s.(replyPort := s.replyPort[1..] + [s.replyPort[0]])
  {
  }

  /** An outer reply seen by an inner wait, poll or pause loop goes to the back of
      the client's own port and nothing else changes. */
  lemma OuterReplyIsReposted(s: State, found: bool, slot: nat)
    requires Inv(s) && Enabled(s, ClientReceive(found)) && s.replyPort[0] == Pool(slot)
    requires s.stack.top.Wait? ==> s.stack.top.slot != slot
    ensures Receive(s, found) == s.(replyPort := s.replyPort[1..] + [Pool(slot)])
  {
    Present(s, Pool(slot));
    ClientCodeIsReposted(s, found);
  }

  /** send_and_wait returns its own message, answered by the daemon, carrying the
      body that its own call sent. */
  lemma WaitReturnsItsOwnReply(s: State, found: bool)
    requires Inv(s) && Enabled(s, ClientReceive(found)) && s.stack.top.Wait?
    requires s.replyPort[0] == Pool(s.stack.top.slot)
    ensures var slot, request := s.stack.top.slot, s.stack.top.request;
            var t := Receive(s, found);
            && t.stack == Push(Returned(slot, request), s.stack.below)
            && t.memory == s.memory && Pool(slot) in t.memory
            && t.memory[Pool(slot)].answered && t.memory[Pool(slot)].result == 0
            && request < |t.handled| <= |t.sent|
            && t.memory[Pool(slot)].body == t.handled[request] == t.sent[request]
  {
    Present(s, s.replyPort[0]);
    assert s.handled == s.sent[..|s.handled|];
  }

  /** The daemon dispatches every send exactly once, in the order sent: what it
      has dispatched is a prefix of what was sent, and once both daemon-side
      queues are empty it is all of it. */
  lemma DispatchInSendOrder(es: seq<Event>)
    requires CanRun(Start, es)
    ensures var s := Run(Start, es);
            && s.handled <= s.sent
            && (s.daemonPort == [] && s.daemonHolds == [] ==> s.handled == s.sent)
  {
    StartInv();
    RunKeepsInv(Start, es);
    var s := Run(Start, es);
    if s.daemonPort == [] && s.daemonHolds == [] { assert s.sent[..|s.sent|] == s.sent; }
  }

  /** The bodies of a run's calls of send_and_wait that find a free slot. */
  ghost function BodiesIn(s: State, es: seq<Event>): seq<nat>
    requires CanRun(s, es)
    decreases |es|
  {
    if es == [] then []
    else (if es[0].ClientSend? && false in s.used then [es[0].body] else []) + BodiesIn(Apply(s, es[0]), es[1..])
  }

  /** send_and_wait with a free slot puts one message with the code and the body it was called
      with at the end of the daemon's port and waits for it; without one it does nothing. */
  lemma SendPuts(s: State, code: nat, body: nat)
    ensures false !in s.used ==> Send(s, code, body) == s
    ensures false in s.used ==>
              var t := Send(s, code, body);
              && t.sent == s.sent + [body] && t.stack.Push? && t.stack.top.Wait? && t.stack.below == s.stack
              && var slot := t.stack.top.slot;
              && slot < |s.used| && !s.used[slot] && t.used == s.used[slot := true]
              && t.daemonPort == s.daemonPort + [Pool(slot)] && Pool(slot) in t.memory
              && t.memory[Pool(slot)].code == code && t.memory[Pool(slot)].body == body
              && !t.memory[Pool(slot)].answered
              && t == s.(used := t.used, memory := t.memory, daemonPort := t.daemonPort, sent := t.sent,
                         stack := t.stack)
              && forall m :: m in s.memory && m != Pool(slot) ==> m in t.memory && t.memory[m] == s.memory[m]
  {
    var slot := FirstFree(s.used, 0);
    if slot < |s.used| {
      assert s.used[slot] == false;
    } else {
      assert forall k :: 0 <= k < |s.used| ==> s.used[k];
    }
    hide FirstFree;
  }

  /** ipc_send_to_client puts one message with its code at the end of the client's port. */
  lemma PostPuts(s: State, code: nat)
    ensures var t, m := Post(s, code), Daemon(s.nextSerial);
            && t.replyPort == s.replyPort + [m] && m in t.memory && t.memory[m].code == code
            && s.nextSerial in t.live && s.nextSerial in t.waiting && t.nextSerial == s.nextSerial + 1
            && t == s.(memory := t.memory, replyPort := t.replyPort, live := t.live, waiting := t.waiting,
                       nextSerial := t.nextSerial)
            && forall n :: n in s.memory && n != m ==> n in t.memory && t.memory[n] == s.memory[n]
  {
  }

  lemma OthersSendNothing(s: State, e: Event)
    requires Enabled(s, e) && !e.ClientSend?
    ensures Apply(s, e).sent == s.sent
  {
    hide DaemonCode, ClientCode;
  }

  lemma {:induction false} SentAre(s: State, es: seq<Event>)
    requires CanRun(s, es)
    ensures Run(s, es).sent == s.sent + BodiesIn(s, es)
    decreases |es|
  {
    if es != [] {
      var e := es[0];
      if e.ClientSend? { SendPuts(s, e.code, e.body); } else { OthersSendNothing(s, e); }
      hide Send, Receive, Dispatch, Free, Post, Collect, Get;
      SentAre(Apply(s, e), es[1..]);
    }
  }

  /** What the daemon dispatches are the calls' own bodies: those handled, in order, are the
      first that were sent, and all of them once its port is empty. */
  lemma CallsAreHandled(es: seq<Event>)
    requires CanRun(Start, es)
    ensures var s := Run(Start, es);
            && s.handled <= BodiesIn(Start, es)
            && (s.daemonPort == [] && s.daemonHolds == [] ==> s.handled == BodiesIn(Start, es))
  {
    DispatchInSendOrder(es);
    SentAre(Start, es);
    hide Run, BodiesIn;
    assert Start.sent == [];
  }

  function Waits(stack: Stack): nat {
    match stack
    case App => 0
    case Push(f, below) => Waits(below) + if f.Wait? then 1 else 0
  }

  lemma WaitsBySlot(stack: Stack)
    requires forall i: nat :: i >= POOL_SIZE ==> Slots(stack, i) == 0
    ensures Waits(stack) <= Slots(stack, 0) + Slots(stack, 1) + Slots(stack, 2) + Slots(stack, 3)
  {
    if stack.Push? {
      assert forall i: nat :: Slots(stack.below, i) <= Slots(stack, i);
      if stack.top.Wait? {
        assert Slots(stack, stack.top.slot) > 0;
        assert stack.top.slot < POOL_SIZE;
      }
    }
  }

  /** Waits nest at most as deep as the pool is large. */
  lemma WaitsNestAtMostFour(es: seq<Event>)
    requires CanRun(Start, es)
    ensures Waits(Run(Start, es).stack) <= POOL_SIZE
  {
    StartInv();
    RunKeepsInv(Start, es);
    WaitsBySlot(Run(Start, es).stack);
  }

  /** ab_poll's loop can run: it is on top and no message pauses the client. */
  predicate PollReady(s: State) {
    && s.stack.Push? && s.stack.top.Polling?
    && forall m :: m in s.replyPort ==> m in s.memory && s.memory[m].code != DEBUG_PAUSE
  }

  /** The state after at most `k` iterations of ab_poll's loop, with no arrivals
      and every handler answering at once. */
  function PollAfter(s: State, k: nat): State
    requires PollReady(s)
    decreases k
  {
    if k == 0 || s.replyPort == [] then s else PollAfter(Receive(s, false), k - 1)
  }

  lemma {:induction false} PollKeepsOuterReply(s: State, k: nat, m: MsgId)
    requires PollReady(s) && m in s.replyPort && m.Pool?
    ensures PollAfter(s, k).replyPort != []
    decreases k
  {
    if k > 0 {
      assert m in Receive(s, false).replyPort;
      PollKeepsOuterReply(Receive(s, false), k - 1, m);
    }
  }

  lemma {:induction false} PollEmptiesPort(s: State)
    requires PollReady(s) && forall m :: m in s.replyPort ==> m.Daemon?
    ensures PollAfter(s, |s.replyPort|).replyPort == []
    decreases |s.replyPort|
  {
    if s.replyPort != [] {
      assert s.replyPort[0] in s.replyPort && s.replyPort[0].Daemon?;
      assert Receive(s, false).replyPort == s.replyPort[1..];
      PollEmptiesPort(Receive(s, false));
    }
  }

  /** ab_poll's loop ends exactly when no reply to an outer send_and_wait is in the
      client's port: such a reply is re-posted for ever. It cannot happen when the
      application itself polls, only when a handler running inside a wait does. */
  lemma PollEndsIffNoOuterReply(s: State)
    requires PollReady(s)
    ensures (exists k: nat :: PollAfter(s, k).replyPort == []) <==> (forall m :: m in s.replyPort ==> m.Daemon?)
  {
    if forall m :: m in s.replyPort ==> m.Daemon? {
      PollEmptiesPort(s);
    } else {
      var m :| m in s.replyPort && !m.Daemon?;
      forall k: nat ensures PollAfter(s, k).replyPort != [] { PollKeepsOuterReply(s, k, m); }
    }
  }

  lemma PollByApplicationEnds(s: State)
    requires Inv(s) && PollReady(s) && s.stack.below == App
    ensures exists k: nat :: PollAfter(s, k).replyPort == []
  {
    forall m | m in s.replyPort ensures m.Daemon? {
      if m.Pool? {
        assert Slots(s.stack, m.slot) == 0;
        Present(s, m);
      }
    }
    PollEndsIffNoOuterReply(s);
  }

  // A concrete run: the client sends, the daemon calls a hook before it answers, the
  // hook starts inside the wait, the daemon answers, and the hook polls.

  const SENT := Start.(
    used := [true, false, false, false], memory := map[Pool(0) := Fields(1, 0, 0, false, 0)],
    daemonPort := [Pool(0)], sent := [0], stack := Push(Wait(0, 0), App))

  const POSTED := SENT.(
    memory := SENT.memory[Daemon(0) := Fields(HOOK_CALL, 0, 0, false, 0)],
    replyPort := [Daemon(0)], live := {0}, waiting := {0}, nextSerial := 1)

  const HOOKED := POSTED.(replyPort := [], stack := Push(Handling(Daemon(0)), POSTED.stack))

  const TAKEN := HOOKED.(daemonPort := [], daemonHolds := [Pool(0)])

  const ANSWERED := TAKEN.(
    daemonHolds := [], memory := TAKEN.memory[Pool(0) := Fields(1, 0, 0, true, 0)],
    handled := [0], replyPort := [Pool(0)])

  lemma ClientSends()
    ensures Enabled(Start, ClientSend(1, 0)) && Apply(Start, ClientSend(1, 0)) == SENT
  {
    assert FirstFree(Start.used, 0) == 0;
  }

  lemma DaemonCallsHook()
    ensures Enabled(SENT, DaemonPost(HOOK_CALL)) && Apply(SENT, DaemonPost(HOOK_CALL)) == POSTED
  {
  }

  lemma HookStarts()
    ensures Enabled(POSTED, ClientReceive(true)) && Apply(POSTED, ClientReceive(true)) == HOOKED
  {
  }

  lemma DaemonAnswers()
    ensures Enabled(HOOKED, DaemonGet) && Apply(HOOKED, DaemonGet) == TAKEN
    ensures Enabled(TAKEN, DaemonReply) && Apply(TAKEN, DaemonReply) == ANSWERED
  {
  }

  /** A step in front of a run. */
  lemma RunsOn(s: State, e: Event, es: seq<Event>)
    requires Enabled(s, e) && CanRun(Apply(s, e), es)
    ensures CanRun(s, [e] + es) && Run(s, [e] + es) == Run(Apply(s, e), es)
  {
    hide Apply, Enabled;
    assert ([e] + es)[0] == e && ([e] + es)[1..] == es;
  }

  lemma PostedRuns()
    ensures CanRun(Start, [ClientSend(1, 0)] + [DaemonPost(HOOK_CALL)])
    ensures Run(Start, [ClientSend(1, 0)] + [DaemonPost(HOOK_CALL)]) == POSTED
  {
    ClientSends();
    DaemonCallsHook();
    assert CanRun(POSTED, []) && Run(POSTED, []) == POSTED;
    hide *;
    RunsOn(SENT, DaemonPost(HOOK_CALL), []);
    assert [DaemonPost(HOOK_CALL)] + [] == [DaemonPost(HOOK_CALL)];
    RunsOn(Start, ClientSend(1, 0), [DaemonPost(HOOK_CALL)]);
  }

  lemma PollStarts()
    ensures Enabled(ANSWERED, PollStart)
    ensures var end := Apply(ANSWERED, PollStart);
            PollReady(end) && end.replyPort == [Pool(0)] && CanRun(end, []) && Run(end, []) == end
  {
  }

  /** A poll that never ends is reached. */
  lemma OuterReplyInPollIsReachable()
    ensures var es := [ClientSend(1, 0)] + ([DaemonPost(HOOK_CALL)] + ([ClientReceive(true)]
                      + ([DaemonGet] + ([DaemonReply] + [PollStart]))));
            && CanRun(Start, es)
            && PollReady(Run(Start, es)) && Run(Start, es).replyPort == [Pool(0)]
  {
    hide *;
    ClientSends();
    DaemonCallsHook();
    HookStarts();
    DaemonAnswers();
    PollStarts();
    RunsOn(ANSWERED, PollStart, []);
    assert [PollStart] + [] == [PollStart];
    RunsOn(TAKEN, DaemonReply, [PollStart]);
    RunsOn(HOOKED, DaemonGet, [DaemonReply] + [PollStart]);
    RunsOn(POSTED, ClientReceive(true), [DaemonGet] + ([DaemonReply] + [PollStart]));
    RunsOn(SENT, DaemonPost(HOOK_CALL), [ClientReceive(true)] + ([DaemonGet] + ([DaemonReply] + [PollStart])));
    RunsOn(Start, ClientSend(1, 0),
           [DaemonPost(HOOK_CALL)] + ([ClientReceive(true)] + ([DaemonGet] + ([DaemonReply] + [PollStart]))));
  }
}
