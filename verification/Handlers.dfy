/** Which handler runs for which of the daemon's messages (`process_daemon_msg` in
    `bridge_client.c`), and what becomes of a command that `ipc_send_to_client`
    (`ipc_manager.c`) forwards. */
module Handlers {
  import opened HookCalls
  import opened Messages

  // -------------------------------------------------- a handler runs once, then answers

  /** The event starts the handler of the message. */
  predicate Starts(s: State, e: Event, m: MsgId)
    requires Enabled(s, e)
  {
    e.ClientReceive? && Apply(s, e).stack == Push(Handling(m), s.stack)
  }

  /** The event is the return of the handler of exactly this message. */
  predicate Ends(s: State, e: Event, m: MsgId)
    requires Enabled(s, e)
  {
    e.HandlerReturn? && s.stack.top == Handling(m)
  }

  /** Whenever the message is read, its handler is there. */
  predicate Found(s: State, e: Event, m: MsgId) {
    e.ClientReceive? && s.replyPort != [] && s.replyPort[0] == m ==> e.handlerFound
  }

  ghost predicate AlwaysFound(s: State, es: seq<Event>, m: MsgId)
    requires CanRun(s, es)
    decreases |es|
  {
    es == [] || (Found(s, es[0], m) && AlwaysFound(Apply(s, es[0]), es[1..], m))
  }

  ghost function StartsIn(s: State, es: seq<Event>, m: MsgId): nat
    requires CanRun(s, es)
    decreases |es|
  {
    if es == [] then 0 else (if Starts(s, es[0], m) then 1 else 0) + StartsIn(Apply(s, es[0]), es[1..], m)
  }

  ghost function EndsIn(s: State, es: seq<Event>, m: MsgId): nat
    requires CanRun(s, es)
    decreases |es|
  {
    if es == [] then 0 else (if Ends(s, es[0], m) then 1 else 0) + EndsIn(Apply(s, es[0]), es[1..], m)
  }

  /** Unread in the client's port, its handler running, or answered. */
  datatype Phase = Unread | Running | Answered

  ghost function PhaseOf(s: State, m: MsgId): Phase {
    if m in s.replyPort then Unread else if Held(s.stack, m) > 0 then Running else Answered
  }

  /** A message of the daemon for which a handler is run, allocated or freed already. */
  predicate Handled(s: State, m: MsgId) {
    m.Daemon? && m.serial < s.nextSerial && m in s.memory && HandlerCode(s.memory[m].code)
  }

  lemma PhaseIsPlace(s: State, m: MsgId)
    requires Inv(s) && Handled(s, m)
    ensures PhaseOf(s, m) == Unread ==> Held(s.stack, m) == 0 && m !in s.returned
    ensures PhaseOf(s, m) == Running ==> Held(s.stack, m) == 1 && m !in s.returned && m !in s.replyPort
    ensures PhaseOf(s, m) == Answered ==> (m in s.returned <==> m.serial in s.live)
  {
    assert Count(s, m) == if Allocated(s, m) then 1 else 0;
  }

  lemma KeepsHandled(s: State, e: Event, m: MsgId)
    requires Inv(s) && Enabled(s, e) && Handled(s, m)
    ensures Handled(Apply(s, e), m)
  {
    KeepsCode(s, e, m);
    hide Apply, Inv;
  }

  /** No step changes the code of a message that is there, but where the daemon allocates one. */
  lemma KeepsCode(s: State, e: Event, m: MsgId)
    requires Inv(s) && Enabled(s, e) && m.Daemon? && m.serial < s.nextSerial && m in s.memory
    ensures var t := Apply(s, e);
            t.nextSerial >= s.nextSerial && m in t.memory && t.memory[m].code == s.memory[m].code
  {
    hide Inv, Receive, Send, Post, Dispatch, Collect, Free, Get, Reply;
    if e.ClientReceive? {
      ReceiveKeepsMemory(s, e.handlerFound);
    } else if e.ClientSend? {
      SendPuts(s, e.code, e.body);
    } else if e.DaemonPost? {
      PostPuts(s, e.code);
    } else if e.DaemonReply? {
      DispatchKeepsCodes(s, m);
    } else {
      OthersKeepMemory(s, e);
    }
  }

  lemma DispatchKeepsCodes(s: State, m: MsgId)
    requires Enabled(s, DaemonReply) && m in s.memory
    ensures var t := Dispatch(s);
            t.nextSerial == s.nextSerial && m in t.memory && t.memory[m].code == s.memory[m].code
  {
  }

  lemma OthersKeepMemory(s: State, e: Event)
    requires Enabled(s, e) && !e.ClientReceive? && !e.ClientSend? && !e.DaemonPost? && !e.DaemonReply?
    ensures Apply(s, e).memory == s.memory && Apply(s, e).nextSerial == s.nextSerial
  {
    hide DaemonCode, ClientCode, UserRuns, Reads;
  }

  lemma ReceiveKeepsMemory(s: State, found: bool)
    requires Enabled(s, ClientReceive(found))
    ensures Receive(s, found).memory == s.memory && Receive(s, found).nextSerial == s.nextSerial
  {
  }

  /** What one step does to the message: it is read and its handler starts, its handler
      returns and it is answered, or it stays where it is. */
  predicate Moves(before: Phase, after: Phase, starts: bool, ends: bool) {
    || (before == after && !starts && !ends)
    || (before == Unread && after == Running && starts && !ends)
    || (before == Running && after == Answered && !starts && ends)
  }

  /** A message is in the client's port once. */
  lemma ReadOnce(s: State, m: MsgId)
    requires Inv(s) && s.replyPort != [] && s.replyPort[0] == m
    ensures m !in s.replyPort[1..]
  {
    var rest := s.replyPort[1..];
    assert Count(s, m) <= 1;
    assert s.replyPort == [m] + rest;
    assert multiset(s.replyPort)[m] == 1 + multiset(rest)[m];
  }

  /** The handler starts on top of whatever read the message. */
  lemma HandlerStarts(s: State, m: MsgId)
    requires Enabled(s, ClientReceive(true)) && Handled(s, m) && s.replyPort[0] == m
    ensures Receive(s, true) == s.(replyPort := s.replyPort[1..], stack := Push(Handling(m), s.stack))
  {
  }

  /** Without one the message is answered at once, and nothing else changes. */
  lemma NoHandlerAnswers(s: State, m: MsgId)
    requires Enabled(s, ClientReceive(false)) && Handled(s, m) && s.replyPort[0] == m
    ensures Receive(s, false) == s.(replyPort := s.replyPort[1..], returned := s.returned + multiset{m})
  {
  }

  /** Any other message of the daemon, but for the two that pause and resume, is answered at
      once by whatever reads it. */
  lemma PlainAnswers(s: State, found: bool)
    requires Enabled(s, ClientReceive(found)) && s.replyPort[0].Daemon?
    requires var code := s.memory[s.replyPort[0]].code;
             !HandlerCode(code) && code != DEBUG_PAUSE && code != DEBUG_RESUME
    ensures Receive(s, found) == s.(replyPort := s.replyPort[1..], returned := s.returned + multiset{s.replyPort[0]})
  {
  }

  /** What reading a message can do to the port and the stack. */
  lemma ReadShape(s: State, found: bool)
    requires Enabled(s, ClientReceive(found))
    ensures var t, x, rest := Receive(s, found), s.replyPort[0], s.replyPort[1..];
            && (t.replyPort == rest || (x.Pool? && t.replyPort == rest + [x]))
            && (t.stack == s.stack || t.stack == Push(Handling(x), s.stack) || t.stack == Push(Paused, s.stack)
                || (s.stack.top.Paused? && t.stack == s.stack.below)
                || (s.stack.top.Wait? && x == Pool(s.stack.top.slot)
                    && t.stack == Push(Returned(s.stack.top.slot, s.stack.top.request), s.stack.below)))
  {
  }

  function Depth(stack: Stack): nat {
    if stack.App? then 0 else 1 + Depth(stack.below)
  }

  lemma NotItself(stack: Stack, f: Frame, g: Frame)
    requires stack.Push?
    ensures stack.below != Push(f, stack) && Push(g, stack.below) != Push(f, stack)
  {
    assert Depth(Push(f, stack)) == 1 + Depth(stack) && Depth(Push(g, stack.below)) == Depth(stack);
  }

  lemma AnotherIsRead(s: State, found: bool, m: MsgId)
    requires Enabled(s, ClientReceive(found)) && m.Daemon? && s.replyPort[0] != m
    ensures var t := Receive(s, found);
            (m in t.replyPort <==> m in s.replyPort) && Held(t.stack, m) == Held(s.stack, m)
            && t.stack != Push(Handling(m), s.stack)
  {
    ReadShape(s, found);
    var x, rest := s.replyPort[0], s.replyPort[1..];
    assert s.replyPort == [x] + rest;
    NotItself(s.stack, Handling(m),
              if s.stack.top.Wait? then Returned(s.stack.top.slot, s.stack.top.request) else Paused);
    hide Receive;
  }

  lemma ReceiveMoves(s: State, found: bool, m: MsgId)
    requires Inv(s) && Enabled(s, ClientReceive(found)) && Handled(s, m) && Found(s, ClientReceive(found), m)
    ensures var e := ClientReceive(found);
            Moves(PhaseOf(s, m), PhaseOf(Apply(s, e), m), Starts(s, e, m), Ends(s, e, m))
  {
    PhaseIsPlace(s, m);
    if s.replyPort[0] == m {
      ReadOnce(s, m);
      hide Inv, Receive, Handled, Enabled;
      HandlerStarts(s, m);
      StartedPhase(s, m);
    } else {
      hide Inv, Receive, Handled, Enabled;
      AnotherIsRead(s, found, m);
    }
  }

  lemma StartedPhase(s: State, m: MsgId)
    requires s.replyPort != [] && s.replyPort[0] == m && m !in s.replyPort[1..] && m.Daemon?
    ensures PhaseOf(s, m) == Unread
    ensures PhaseOf(s.(replyPort := s.replyPort[1..], stack := Push(Handling(m), s.stack)), m) == Running
  {
  }

  lemma ReturnMoves(s: State, m: MsgId)
    requires Inv(s) && Enabled(s, HandlerReturn) && Handled(s, m)
    ensures Moves(PhaseOf(s, m), PhaseOf(Apply(s, HandlerReturn), m),
                  Starts(s, HandlerReturn, m), Ends(s, HandlerReturn, m))
  {
    PhaseIsPlace(s, m);
    assert Held(s.stack, m) == Held(s.stack.below, m) + if s.stack.top == Handling(m) then 1 else 0;
    hide Inv;
  }

  lemma OtherMoves(s: State, e: Event, m: MsgId)
    requires Inv(s) && Enabled(s, e) && Handled(s, m) && !e.ClientReceive? && !e.HandlerReturn?
    ensures PhaseOf(Apply(s, e), m) == PhaseOf(s, m)
  {
    PortGrows(s, e);
    OthersHold(s, e, m);
    hide Inv, Apply, Held, Enabled;
  }

  lemma OthersHold(s: State, e: Event, m: MsgId)
    requires Enabled(s, e) && m.Daemon? && !e.ClientReceive? && !e.HandlerReturn?
    ensures Held(Apply(s, e).stack, m) == Held(s.stack, m)
  {
    hide DaemonCode, ClientCode, Receive;
  }

  lemma StepMoves(s: State, e: Event, m: MsgId)
    requires Inv(s) && Enabled(s, e) && Handled(s, m) && Found(s, e, m)
    ensures Moves(PhaseOf(s, m), PhaseOf(Apply(s, e), m), Starts(s, e, m), Ends(s, e, m))
  {
    if e.ClientReceive? {
      ReceiveMoves(s, e.handlerFound, m);
    } else if e.HandlerReturn? {
      ReturnMoves(s, m);
    } else {
      OtherMoves(s, e, m);
    }
    hide Inv, PhaseOf, Handled;
  }

  /** The handler of a message that the client always has is started exactly once and returns
      exactly once between the post and the answer: over every run, what has started and
      ended is where the message is. */
  lemma {:induction false} HandlerRunsOnce(s: State, es: seq<Event>, m: MsgId)
    requires Inv(s) && CanRun(s, es) && Handled(s, m) && AlwaysFound(s, es, m)
    ensures var from, to := PhaseOf(s, m), PhaseOf(Run(s, es), m);
            && StartsIn(s, es, m) == (if from == Unread && to != Unread then 1 else 0)
            && EndsIn(s, es, m) == (if from != Answered && to == Answered then 1 else 0)
            && (from == Running ==> to != Unread) && (from == Answered ==> to == Answered)
            && Inv(Run(s, es)) && Handled(Run(s, es), m)
    decreases |es|
  {
    hide Inv, PhaseOf, Handled, Starts, Ends, Found, Enabled, Apply;
    if es != [] {
      StepMoves(s, es[0], m);
      StepKeepsInv(s, es[0]);
      KeepsHandled(s, es[0], m);
      HandlerRunsOnce(Apply(s, es[0]), es[1..], m);
    }
  }

  /** From the start: a command or hook call is posted, and whatever runs then, the message is
      in its temporary port, or freed, only after its handler was started once and returned
      once; in the client's port, only before it was started; and in between exactly its
      activation is on the stack. */
  lemma AnsweredAfterReturn(before: seq<Event>, code: nat, es: seq<Event>)
    requires CanRun(Start, before) && HandlerCode(code)
    requires var s := Post(Run(Start, before), code); var m := Daemon(Run(Start, before).nextSerial);
             CanRun(s, es) && AlwaysFound(s, es, m)
    ensures var s := Post(Run(Start, before), code); var n := Run(Start, before).nextSerial; var m := Daemon(n);
            var t := Run(s, es);
            && (m in t.returned || n !in t.live ==> StartsIn(s, es, m) == 1 && EndsIn(s, es, m) == 1)
            && (m in t.replyPort ==> StartsIn(s, es, m) == 0 && EndsIn(s, es, m) == 0)
            && (OnStack(t.stack, Handling(m)) ==> StartsIn(s, es, m) == 1 && EndsIn(s, es, m) == 0)
            && (StartsIn(s, es, m) > EndsIn(s, es, m) ==> OnStack(t.stack, Handling(m)))
  {
    var r := Run(Start, before);
    var s, m := Post(r, code), Daemon(r.nextSerial);
    StartInv();
    RunKeepsInv(Start, before);
    PostedIsHandled(r, code);
    HandlerRunsOnce(s, es, m);
    var t := Run(s, es);
    PhaseIsPlace(t, m);
    HeldIsOnStack(t.stack, m);
    PlaceIsPhase(t, m);
    hide Inv, Post, Handled, CanRun, Run;
  }

  lemma PlaceIsPhase(t: State, m: MsgId)
    requires Inv(t) && m.Daemon?
    ensures m in t.returned || m.serial !in t.live ==> PhaseOf(t, m) == Answered
  {
    assert Count(t, m) == if Allocated(t, m) then 1 else 0;
  }

  lemma PostedIsHandled(s: State, code: nat)
    requires Inv(s) && HandlerCode(code)
    ensures var t, m := Post(s, code), Daemon(s.nextSerial); Inv(t) && Handled(t, m) && PhaseOf(t, m) == Unread
  {
    hide *;
    MayPost(s, code);
    StepKeepsInv(s, DaemonPost(code));
    PostedPhase(s, code);
  }

  lemma MayPost(s: State, code: nat)
    requires HandlerCode(code)
    ensures Enabled(s, DaemonPost(code)) && Apply(s, DaemonPost(code)) == Post(s, code)
  {
    hide Post;
  }

  lemma PostedPhase(s: State, code: nat)
    requires HandlerCode(code)
    ensures var t, m := Post(s, code), Daemon(s.nextSerial); Handled(t, m) && PhaseOf(t, m) == Unread
  {
  }

  lemma HeldIsOnStack(stack: Stack, m: MsgId)
    requires m.Daemon?
    ensures Held(stack, m) > 0 <==> OnStack(stack, Handling(m))
  {
  }

  // -------------------------------------------------------------- the order of reading

  function SerialOf(m: MsgId): seq<nat> {
    if m.Daemon? then [m.serial] else []
  }

  /** The daemon's messages in a port, by serial. */
  function Serials(port: seq<MsgId>): seq<nat> {
    if port == [] then [] else SerialOf(port[0]) + Serials(port[1..])
  }

  /** The daemon's message that a step takes from the port, if it does. */
  function ReadBy(s: State, e: Event): seq<nat> {
    if e.ClientReceive? && s.replyPort != [] then SerialOf(s.replyPort[0]) else []
  }

  /** The daemon's messages that a run reads, in the order of reading. */
  ghost function ReadIn(s: State, es: seq<Event>): seq<nat>
    requires CanRun(s, es)
    decreases |es|
  {
    if es == [] then [] else ReadBy(s, es[0]) + ReadIn(Apply(s, es[0]), es[1..])
  }

  lemma {:induction false} SerialsAppend(a: seq<MsgId>, b: seq<MsgId>)
    ensures Serials(a + b) == Serials(a) + Serials(b)
    decreases |a|
  {
    hide SerialOf;
    if a == [] {
      assert a + b == b;
    } else {
      assert (a + b)[1..] == a[1..] + b && (a + b)[0] == a[0];
      SerialsAppend(a[1..], b);
    }
  }

  lemma SerialsOne(m: MsgId)
    ensures Serials([m]) == SerialOf(m) && (m.Pool? ==> SerialOf(m) == [])
  {
    assert Serials([m][1..]) == [];
  }

  /** What a step appends to the serials posted so far. */
  function PostedBy(s: State, e: Event): seq<nat> {
    if e.DaemonPost? then [s.nextSerial] else []
  }

  lemma ReceiveKeepsOrder(s: State, found: bool)
    requires Enabled(s, ClientReceive(found))
    ensures SerialOf(s.replyPort[0]) + Serials(Receive(s, found).replyPort) == Serials(s.replyPort)
    ensures Receive(s, found).nextSerial == s.nextSerial
  {
    ReadShape(s, found);
    assert Receive(s, found).nextSerial == s.nextSerial;
    hide Receive, Serials, Enabled;
    var x, rest := s.replyPort[0], s.replyPort[1..];
    assert s.replyPort == [x] + rest;
    SerialsAppend([x], rest);
    SerialsAppend(rest, [x]);
    SerialsOne(x);
    assert x.Pool? ==> Serials(rest) + [] == Serials(rest);
  }

  /** The port stays or gets one message at its end: the daemon's, or a reply. */
  lemma PortGrows(s: State, e: Event)
    requires Enabled(s, e) && !e.ClientReceive?
    ensures var t, n := Apply(s, e), |s.replyPort|;
            && (t.replyPort == s.replyPort
                || (|t.replyPort| == n + 1 && t.replyPort == s.replyPort + [t.replyPort[n]]
                    && t.replyPort[n] == if e.DaemonPost? then Daemon(s.nextSerial) else Pool(t.replyPort[n].slot)))
            && (e.DaemonPost? ==> t.replyPort != s.replyPort)
            && t.nextSerial == s.nextSerial + |PostedBy(s, e)|
  {
    hide DaemonCode, ClientCode;
  }

  lemma OthersKeepOrder(s: State, e: Event)
    requires Enabled(s, e) && !e.ClientReceive?
    ensures Serials(Apply(s, e).replyPort) == Serials(s.replyPort) + PostedBy(s, e)
  {
    PortGrows(s, e);
    var t := Apply(s, e);
    hide Serials, Apply, Enabled;
    assert Serials(s.replyPort) + [] == Serials(s.replyPort);
    if t.replyPort != s.replyPort {
      var m := t.replyPort[|s.replyPort|];
      SerialsAppend(s.replyPort, [m]);
      SerialsOne(m);
    }
  }

  function From(serial: nat, n: nat): seq<nat>
    decreases n
  {
    if n == 0 then [] else [serial] + From(serial + 1, n - 1)
  }

  /** One step, in the same terms. */
  lemma StepReads(s: State, e: Event)
    requires Enabled(s, e)
    ensures var t := Apply(s, e);
            && ReadBy(s, e) + Serials(t.replyPort) == Serials(s.replyPort) + PostedBy(s, e)
            && t.nextSerial == s.nextSerial + |PostedBy(s, e)|
  {
    if e.ClientReceive? {
      ReceiveKeepsOrder(s, e.handlerFound);
      assert s.replyPort != [];
      assert Serials(s.replyPort) + [] == Serials(s.replyPort);
    } else {
      PortGrows(s, e);
      OthersKeepOrder(s, e);
    }
    hide Serials, Receive, Enabled;
  }

  /** The daemon's messages are read in the order they were posted, each once, whatever runs:
      those read and those still in the port are all there were. */
  lemma {:induction false} ReadsInOrder(s: State, es: seq<Event>)
    requires CanRun(s, es)
    ensures var t := Run(s, es);
            && t.nextSerial >= s.nextSerial
            && ReadIn(s, es) + Serials(t.replyPort) ==
               Serials(s.replyPort) + From(s.nextSerial, t.nextSerial - s.nextSerial)
    decreases |es|
  {
    hide Serials, Enabled, Apply;
    if es != [] {
      var e := es[0];
      var s' := Apply(s, e);
      StepReads(s, e);
      ReadsInOrder(s', es[1..]);
      hide PostedBy, ReadBy, From;
      var first, more := ReadBy(s, e), From(s'.nextSerial, Run(s, es).nextSerial - s'.nextSerial);
      Regroup(first, ReadIn(s', es[1..]), Serials(Run(s, es).replyPort));
      Regroup(first, Serials(s'.replyPort), more);
      Regroup(Serials(s.replyPort), PostedBy(s, e), more);
      FromStarts(s, e, Run(s, es).nextSerial);
    }
  }

  lemma Regroup(a: seq<nat>, b: seq<nat>, c: seq<nat>)
    ensures (a + b) + c == a + (b + c)
  {
  }

  lemma FromStarts(s: State, e: Event, to: nat)
    requires s.nextSerial + |PostedBy(s, e)| <= to
    ensures var n := s.nextSerial + |PostedBy(s, e)|;
            PostedBy(s, e) + From(n, to - n) == From(s.nextSerial, to - s.nextSerial)
  {
  }

  lemma {:induction false} FromIs(serial: nat, n: nat)
    ensures From(serial, n) == seq(n, i => serial + i)
    decreases n
  {
    if n > 0 { FromIs(serial + 1, n - 1); }
  }

  /** From the start: what has been read are the first serials, in order. */
  lemma ReadInPostOrder(es: seq<Event>)
    requires CanRun(Start, es)
    ensures var t := Run(Start, es);
            ReadIn(Start, es) + Serials(t.replyPort) == seq(t.nextSerial, i => i)
  {
    ReadsInOrder(Start, es);
    FromIs(0, Run(Start, es).nextSerial);
    hide Serials, From;
  }

  // ------------------------------------------------------------------------ pausing

  /** The activations below some point of the stack. */
  predicate Contains(stack: Stack, base: Stack) {
    stack == base || (stack.Push? && Contains(stack.below, base))
  }

  /** Reading a DEBUG_PAUSE answers it and pauses whatever read it. */
  lemma PauseStarts(s: State, found: bool)
    requires Enabled(s, ClientReceive(found)) && s.replyPort[0].Daemon? && s.memory[s.replyPort[0]].code == DEBUG_PAUSE
    ensures var m := s.replyPort[0];
            Receive(s, found) == s.(replyPort := s.replyPort[1..], returned := s.returned + multiset{m},
                                    stack := Push(Paused, s.stack))
  {
  }

  /** A DEBUG_RESUME read by another loop is only answered. */
  lemma StrayResume(s: State, found: bool)
    requires Enabled(s, ClientReceive(found)) && s.replyPort[0].Daemon? && s.memory[s.replyPort[0]].code == DEBUG_RESUME
    requires !s.stack.top.Paused?
    ensures var m := s.replyPort[0];
            Receive(s, found) == s.(replyPort := s.replyPort[1..], returned := s.returned + multiset{m})
  {
  }

  /** The event ends exactly the pause on top: it reads a DEBUG_RESUME, answers it, and the
      activation below goes on. */
  predicate Resumes(s: State, e: Event, below: Stack)
    requires Enabled(s, e)
  {
    && e.ClientReceive? && s.stack == Push(Paused, below) && s.memory[s.replyPort[0]].code == DEBUG_RESUME
    && Apply(s, e).stack == below
  }

  lemma StackGrows(s: State, e: Event, base: Stack)
    requires Enabled(s, e) && Contains(s.stack, base) && s.stack != base
    ensures Contains(Apply(s, e).stack, base)
  {
    if e.ClientReceive? {
      ReadShape(s, e.handlerFound);
      hide Receive;
    } else {
      hide DaemonCode, ClientCode, Receive;
    }
  }

  lemma OnlyResumeEnds(s: State, e: Event, below: Stack)
    requires Enabled(s, e) && s.stack == Push(Paused, below)
    ensures Contains(Apply(s, e).stack, s.stack) || Resumes(s, e, below)
  {
    hide DaemonCode, ClientCode;
  }

  ghost predicate ResumedIn(s: State, es: seq<Event>, below: Stack)
    requires CanRun(s, es)
    decreases |es|
  {
    es != [] && (Resumes(s, es[0], below) || ResumedIn(Apply(s, es[0]), es[1..], below))
  }

  /** Over every run a pause is left only by a DEBUG_RESUME that is read while it is on top,
      whatever is handled or paused above it in between. */
  lemma {:induction false} PauseLastsUntilResume(s: State, es: seq<Event>, below: Stack)
    requires CanRun(s, es) && Contains(s.stack, Push(Paused, below))
    ensures Contains(Run(s, es).stack, Push(Paused, below)) || ResumedIn(s, es, below)
    decreases |es|
  {
    hide Enabled, Apply;
    if es != [] {
      var e := es[0];
      if s.stack == Push(Paused, below) {
        OnlyResumeEnds(s, e, below);
      } else {
        StackGrows(s, e, Push(Paused, below));
      }
      if Contains(Apply(s, e).stack, Push(Paused, below)) {
        PauseLastsUntilResume(Apply(s, e), es[1..], below);
      }
    }
  }

  // ------------------------------------------------------------- forwarded commands

  /** The loop of ipc_send_to_client: unlike that of handle_callhook it does not dispatch
      what the client sends while it waits. True when the reply arrives in time. */
  function SendToClient(s: State, serial: nat, script: seq<Item>, retries: nat): (State, bool)
    decreases retries
  {
    if retries == 0 then (s.(waiting := s.waiting - {serial}), false)
    else if Daemon(serial) in s.returned then (Collect(s, serial), true)
    else
      var (t, rest) := ClientTurn(s, script);
      SendToClient(t, serial, rest, retries - 1)
  }

  /** A handler waits for its send, and nobody dispatches it. */
  ghost predicate Stuck(s: State, serial: nat) {
    && Inv(s) && s.stack.Push? && s.stack.top.Wait? && OnlyReplies(s)
    && Pool(s.stack.top.slot) !in s.replyPort && Daemon(serial) !in s.returned
  }

  lemma RotatesOnly(s: State, k: nat, serial: nat)
    requires Stuck(s, serial)
    ensures Stuck(Spin(s, k), serial) && Spin(s, k).stack == s.stack
    decreases k
  {
    hide Stuck, Receive, Enabled;
    if k > 0 && Enabled(s, ClientReceive(true)) {
      StuckStays(s, serial);
      RotatesOnly(Receive(s, true), k - 1, serial);
    }
  }

  lemma StuckStays(s: State, serial: nat)
    requires Stuck(s, serial) && Enabled(s, ClientReceive(true))
    ensures Stuck(Receive(s, true), serial) && Receive(s, true).stack == s.stack
  {
    OtherRotates(s);
    StepKeepsInv(s, ClientReceive(true));
    hide Inv, Receive, Enabled;
  }

  lemma SendStep(s: State, serial: nat, script: seq<Item>, retries: nat)
    requires retries > 0
    ensures Daemon(serial) in s.returned ==> SendToClient(s, serial, script, retries) == (Collect(s, serial), true)
    ensures Daemon(serial) !in s.returned ==>
              SendToClient(s, serial, script, retries)
              == SendToClient(ClientTurn(s, script).0, serial, ClientTurn(s, script).1, retries - 1)
  {
    hide ClientTurn;
  }

  lemma SendEnds(s: State, serial: nat, script: seq<Item>)
    ensures SendToClient(s, serial, script, 0) == (s.(waiting := s.waiting - {serial}), false)
  {
  }

  lemma StuckTurn(s: State, serial: nat, script: seq<Item>)
    requires Stuck(s, serial)
    ensures Stuck(ClientTurn(s, script).0, serial)
  {
    RotatesOnly(s, |s.replyPort|, serial);
    hide Spin, Inv, OnlyReplies;
  }

  lemma StuckMeans(s: State, serial: nat, script: seq<Item>)
    requires Stuck(s, serial)
    ensures Daemon(serial) !in s.returned && !SendToClient(s, serial, script, 0).1
  {
    hide Inv, OnlyReplies;
  }

  lemma {:induction false} StuckTimesOut(s: State, serial: nat, script: seq<Item>, retries: nat)
    requires Stuck(s, serial)
    ensures !SendToClient(s, serial, script, retries).1
    decreases retries
  {
    hide *;
    StuckMeans(s, serial, script);
    if retries > 0 {
      SendStep(s, serial, script, retries);
      StuckTurn(s, serial, script);
      StuckTimesOut(ClientTurn(s, script).0, serial, ClientTurn(s, script).1, retries - 1);
    }
  }

  /** A handler that sends nothing, or finds no free slot, returns at once. */
  lemma {:induction false} TurnReturns(s: State, script: seq<Item>)
    requires s.stack.Push? && s.stack.top.Handling? && (script == [] || !HasFreeSlot(s))
    ensures HandlerTurn(s, script) == (Apply(s, HandlerReturn), [])
    decreases |script|
  {
    if script != [] { TurnReturns(s, script[1..]); }
  }

  lemma TurnSends(s: State, script: seq<Item>)
    requires s.stack.Push? && s.stack.top.Handling? && script != [] && HasFreeSlot(s)
    ensures HandlerTurn(s, script).0 == Send(s, script[0].code, script[0].body)
  {
  }

  lemma SentPlace(s: State, code: nat, body: nat)
    requires Inv(s) && HasFreeSlot(s)
    ensures var t, slot := Send(s, code, body), FirstFree(s.used, 0);
            && t.stack == Push(Wait(slot, |s.sent|), s.stack) && Pool(slot) in t.daemonPort
            && t.replyPort == s.replyPort && t.returned == s.returned && slot < |t.used| && t.used[slot]
  {
    hide Conserved, SlotsOwned, MemoryOk, PortsOk, Ordered, StackOk;
  }

  lemma QueuedIsNotReplied(s: State, slot: nat)
    requires Inv(s) && Pool(slot) in s.daemonPort
    ensures Pool(slot) !in s.replyPort
  {
    assert Count(s, Pool(slot)) <= 1;
  }

  lemma HandledIsNotReturned(s: State, serial: nat)
    requires Inv(s) && s.stack.Push? && s.stack.top == Handling(Daemon(serial))
    ensures Daemon(serial) !in s.returned
  {
    assert Count(s, Daemon(serial)) <= 1 && Held(s.stack, Daemon(serial)) >= 1;
  }

  lemma RepliesArePool(s: State)
    requires OnlyReplies(s)
    ensures forall m :: m in s.replyPort ==> m.Pool?
  {
  }

  lemma StuckIs(s: State, serial: nat)
    requires Inv(s) && s.stack.Push? && s.stack.top.Wait? && OnlyReplies(s)
    requires Pool(s.stack.top.slot) !in s.replyPort && Daemon(serial) !in s.returned
    ensures Stuck(s, serial)
  {
    hide Inv, OnlyReplies;
  }

  lemma SenderIsStuck(s: State, serial: nat, code: nat, body: nat)
    requires Inv(s) && OnlyReplies(s) && s.stack.Push? && s.stack.top == Handling(Daemon(serial))
    requires HasFreeSlot(s) && ClientCode(code)
    ensures Stuck(Send(s, code, body), serial)
  {
    hide *;
    MaySend(s, code, body);
    StepKeepsInv(s, ClientSend(code, body));
    var t := Send(s, code, body);
    SentPlace(s, code, body);
    QueuedIsNotReplied(t, FirstFree(s.used, 0));
    HandledIsNotReturned(s, serial);
    RepliesArePool(s);
    PoolRepliesOnly(t);
    StuckIs(t, serial);
  }

  lemma MaySend(s: State, code: nat, body: nat)
    requires s.stack.Push? && s.stack.top.Handling? && ClientCode(code)
    ensures Enabled(s, ClientSend(code, body)) && Apply(s, ClientSend(code, body)) == Send(s, code, body)
  {
    hide Send;
  }

  lemma PickedUpState(s: State, ahead: nat, serial: nat)
    requires Inv(s) && Posted(s, ahead, serial) && OnlyOneCall(s, ahead)
    ensures var t := Spin(s, |s.replyPort|);
            && Inv(t) && OnlyReplies(t) && t.stack == Push(Handling(Daemon(serial)), s.stack) && t.used == s.used
            && t.waiting == s.waiting
  {
    HookIsPickedUp(s, ahead, serial, |s.replyPort|);
    SpinKeepsInv(s, |s.replyPort|);
    OthersStay(s, ahead, serial);
    hide Spin, PickedUp, Inv;
    PoolRepliesOnly(Spin(s, |s.replyPort|));
  }

  lemma PickedUpTurn(s: State, t: State, serial: nat, below: Stack, script: seq<Item>)
    requires t == Spin(s, |s.replyPort|) && t.stack == Push(Handling(Daemon(serial)), below)
    ensures ClientTurn(s, script) == HandlerTurn(t, script)
  {
    hide Spin, HandlerTurn;
  }

  lemma ReturnedNow(t: State, serial: nat, below: Stack)
    requires Inv(t) && t.stack == Push(Handling(Daemon(serial)), below)
    ensures var u := Apply(t, HandlerReturn);
            && Inv(u) && Daemon(serial) in u.returned && u.stack == below && u.waiting == t.waiting
  {
    StepKeepsInv(t, HandlerReturn);
    hide Inv;
  }

  lemma CollectedNow(u: State, serial: nat)
    requires Inv(u) && Daemon(serial) in u.returned && serial in u.waiting
    ensures var c := Collect(u, serial); Inv(c) && serial !in c.live && c.stack == u.stack
  {
    hide *;
    MayCollect(u, serial);
    StepKeepsInv(u, DaemonCollect(serial));
  }

  lemma MayCollect(u: State, serial: nat)
    requires Daemon(serial) in u.returned && serial in u.waiting
    ensures Enabled(u, DaemonCollect(serial)) && Apply(u, DaemonCollect(serial)) == Collect(u, serial)
    ensures serial !in Collect(u, serial).live && Collect(u, serial).stack == u.stack
  {
  }

  /** A forwarded command, read by a client that waits, polls or is paused, is answered in
      time if and only if its handler sends nothing to the daemon, or finds no free slot to
      send with: however long the daemon waits, it dispatches nothing meanwhile. */
  lemma ForwardIsAnsweredIff(s: State, ahead: nat, serial: nat, script: seq<Item>, retries: nat)
    requires Inv(s) && Posted(s, ahead, serial) && OnlyOneCall(s, ahead)
    requires serial in s.waiting && ValidScript(script) && retries >= 2
    ensures var (t, replied) := SendToClient(s, serial, script, retries);
            && (replied <==> script == [] || !HasFreeSlot(s))
            && (replied ==> Inv(t) && serial !in t.live && t.stack == s.stack)
  {
    hide *;
    PostedIsNotReturned(s, ahead, serial);
    PickedUpState(s, ahead, serial);
    var t := Spin(s, |s.replyPort|);
    PickedUpTurn(s, t, serial, s.stack, script);
    SendStep(s, serial, script, retries);
    SameSlots(s, t);
    MayReturn(t);
    if script == [] || !HasFreeSlot(s) {
      TurnReturns(t, script);
      ReturnedNow(t, serial, s.stack);
      var u := Apply(t, HandlerReturn);
      SendStep(u, serial, [], retries - 1);
      CollectedNow(u, serial);
    } else {
      FirstItem(script);
      TurnSends(t, script);
      SenderIsStuck(t, serial, script[0].code, script[0].body);
      StuckTimesOut(ClientTurn(s, script).0, serial, ClientTurn(s, script).1, retries - 1);
    }
  }

  lemma MayReturn(s: State)
    requires s.stack.Push? && s.stack.top.Handling?
    ensures Enabled(s, HandlerReturn)
  {
  }

  lemma SameSlots(s: State, t: State)
    requires t.used == s.used
    ensures HasFreeSlot(s) <==> HasFreeSlot(t)
  {
  }

  lemma FirstItem(script: seq<Item>)
    requires ValidScript(script) && script != []
    ensures ClientCode(script[0].code)
  {
  }

  const POLLING := Start.(stack := Push(Polling, App))

  const FORWARDED := POLLING.(
    memory := map[Daemon(0) := Fields(CMD_FORWARD, 0, 0, false, 0)],
    replyPort := [Daemon(0)], live := {0}, waiting := {0}, nextSerial := 1)

  lemma PollsAndForwards()
    ensures Enabled(Start, PollStart) && Apply(Start, PollStart) == POLLING
    ensures Enabled(POLLING, DaemonPost(CMD_FORWARD)) && Apply(POLLING, DaemonPost(CMD_FORWARD)) == FORWARDED
    ensures CanRun(FORWARDED, []) && Run(FORWARDED, []) == FORWARDED
    ensures Posted(FORWARDED, 0, 0) && OnlyOneCall(FORWARDED, 0) && 0 in FORWARDED.waiting && HasFreeSlot(FORWARDED)
  {
  }

  /** It happens: an idle client polls, and a command is forwarded whose handler answers with
      a message of its own, as ab_cmd_respond does. The daemon waits in vain. */
  lemma ForwardTimesOut(item: Item, retries: nat)
    requires ClientCode(item.code) && retries >= 2
    ensures var es := [PollStart] + [DaemonPost(CMD_FORWARD)];
            CanRun(Start, es) && !SendToClient(Run(Start, es), 0, [item], retries).1
  {
    PollsAndForwards();
    StartInv();
    assert ValidScript([item]);
    hide *;
    RunsOn(POLLING, DaemonPost(CMD_FORWARD), []);
    assert [DaemonPost(CMD_FORWARD)] + [] == [DaemonPost(CMD_FORWARD)];
    RunsOn(Start, PollStart, [DaemonPost(CMD_FORWARD)]);
    var es := [PollStart] + [DaemonPost(CMD_FORWARD)];
    RunKeepsInv(Start, es);
    ForwardIsAnsweredIff(Run(Start, es), 0, 0, [item], retries);
  }
}
