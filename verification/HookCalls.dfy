/** A hook call made by the daemon (`handle_callhook`) while the hook itself sends
    messages to the daemon: the daemon keeps draining its port between polls, so
    the two sides cannot block each other. */
module HookCalls {
  import opened Messages

  // ------------------------------------------------------- one daemon poll

  /** ipc_process: take, dispatch and reply until the port is empty. */
  function Drain(s: State): State
    decreases |s.daemonPort|
  {
    if s.daemonPort == [] || s.daemonHolds != [] || s.daemonPort[0] !in s.memory then s
    else Drain(Dispatch(Get(s)))
  }

  /** Draining answers every queued message into the client's port, in order. */
  lemma {:induction false} DrainAnswersAll(s: State)
    requires s.daemonHolds == [] && forall m :: m in s.daemonPort ==> m in s.memory && m.Pool?
    ensures var t := Drain(s);
            t == s.(daemonPort := [], replyPort := s.replyPort + s.daemonPort,
                    memory := t.memory, handled := t.handled)
    decreases |s.daemonPort|
  {
    if s.daemonPort == [] {
      assert s.replyPort + s.daemonPort == s.replyPort;
    } else {
      var t := Dispatch(Get(s));
      DrainAnswersAll(t);
      assert s.replyPort + s.daemonPort == t.replyPort + t.daemonPort;
    }
  }

  lemma PortInMemory(s: State)
    requires Inv(s)
    ensures forall m :: m in s.daemonPort ==> m in s.memory && m.Pool?
  {
    forall m | m in s.daemonPort ensures m in s.memory { Present(s, m); }
  }

  lemma {:induction false} DrainKeepsInv(s: State)
    requires Inv(s) && s.daemonHolds == []
    ensures Inv(Drain(s))
    decreases |s.daemonPort|
  {
    if s.daemonPort != [] {
      PortInMemory(s);
      DispatchKeepsInv(s);
      hide Inv, Dispatch, Get;
      DrainKeepsInv(Dispatch(Get(s)));
    }
  }

  lemma DispatchKeepsInv(s: State)
    requires Inv(s) && s.daemonHolds == [] && s.daemonPort != [] && s.daemonPort[0] in s.memory
    ensures Inv(Dispatch(Get(s))) && Dispatch(Get(s)).daemonHolds == []
    ensures |Dispatch(Get(s)).daemonPort| < |s.daemonPort|
  {
    hide Inv;
    StepKeepsInv(s, DaemonGet);
    StepKeepsInv(Get(s), DaemonReply);
  }

  // ---------------------------------------------------- the client's turn

  /** The loop that reads the client's port, for at most `k` messages: it stops when
      its wait is over or a handler starts. */
  function Spin(s: State, k: nat): State
    decreases k
  {
    if k == 0 || !Enabled(s, ClientReceive(true)) then s
    else Spin(Receive(s, true), k - 1)
  }

  /** Only outer replies and the waiter's own are in the client's port. */
  predicate OnlyReplies(s: State) {
    forall m :: m in s.replyPort ==> m in s.memory && m.Pool? && ClientCode(s.memory[m].code)
  }

  /** The wait is over: the waiter has its own message, and the others stay. */
  predicate Spun(s: State, t: State)
    requires s.stack.Push? && s.stack.top.Wait?
  {
    && t == s.(stack := Push(Returned(s.stack.top.slot, s.stack.top.request), s.stack.below),
               replyPort := t.replyPort)
    && multiset(s.replyPort) == multiset(t.replyPort) + multiset{Pool(s.stack.top.slot)}
  }

  lemma OwnIsTaken(s: State)
    requires s.stack.Push? && s.stack.top.Wait? && OnlyReplies(s)
    requires s.replyPort != [] && s.replyPort[0] == Pool(s.stack.top.slot)
    ensures Enabled(s, ClientReceive(true)) && Spun(s, Receive(s, true))
    ensures !Enabled(Receive(s, true), ClientReceive(true))
  {
    assert s.replyPort == [s.replyPort[0]] + s.replyPort[1..];
  }

  lemma OtherRotates(s: State)
    requires s.stack.Push? && s.stack.top.Wait? && OnlyReplies(s)
    requires s.replyPort != [] && s.replyPort[0] != Pool(s.stack.top.slot)
    ensures Enabled(s, ClientReceive(true)) && OnlyReplies(Receive(s, true))
    ensures Receive(s, true) == s.(replyPort := s.replyPort[1..] + [s.replyPort[0]])
    ensures multiset(Receive(s, true).replyPort) == multiset(s.replyPort)
  {
    assert s.replyPort == [s.replyPort[0]] + s.replyPort[1..];
    assert s.replyPort[0] in s.memory;
    ClientCodeIsReposted(s, true);
    hide Receive;
  }

  lemma SpinUnfolds(s: State, k: nat)
    ensures k > 0 && Enabled(s, ClientReceive(true)) ==> Spin(s, k) == Spin(Receive(s, true), k - 1)
    ensures !Enabled(s, ClientReceive(true)) ==> Spin(s, k) == s
  {
    hide Enabled, Receive;
  }

  lemma RotatedSpun(s: State, r: State, t: State)
    requires s.stack.Push? && s.stack.top.Wait? && r == s.(replyPort := r.replyPort)
    requires multiset(r.replyPort) == multiset(s.replyPort) && Spun(r, t)
    ensures Spun(s, t)
  {
  }

  /** Spinning hands the waiter its own message and only rotates the others. */
  lemma {:induction false} SpinReturns(s: State, at: nat, k: nat)
    requires s.stack.Push? && s.stack.top.Wait? && OnlyReplies(s)
    requires at < |s.replyPort| && at < k && s.replyPort[at] == Pool(s.stack.top.slot)
    ensures Spun(s, Spin(s, k))
    decreases k
  {
    hide *;
    SpinUnfolds(s, k);
    if s.replyPort[0] == Pool(s.stack.top.slot) {
      OwnIsTaken(s);
      SpinUnfolds(Receive(s, true), k - 1);
    } else {
      OtherRotates(s);
      var r := Receive(s, true);
      assert r.replyPort[at - 1] == s.replyPort[at];
      SpinReturns(r, at - 1, k - 1);
      RotatedSpun(s, r, Spin(r, k - 1));
    }
  }

  lemma {:induction false} SpinKeepsInv(s: State, k: nat)
    requires Inv(s)
    ensures Inv(Spin(s, k))
    decreases k
  {
    hide Inv, Receive;
    if k > 0 && Enabled(s, ClientReceive(true)) {
      StepKeepsInv(s, ClientReceive(true));
      SpinKeepsInv(Receive(s, true), k - 1);
    }
  }

  /** A message the running hook sends with send_simple. */
  datatype Item = Item(code: nat, body: nat)

  predicate ValidScript(script: seq<Item>) {
    forall k :: 0 <= k < |script| ==> ClientCode(script[k].code)
  }

  function Bodies(script: seq<Item>): (bodies: seq<nat>)
    ensures |bodies| == |script|
  {
    if script == [] then [] else [script[0].body] + Bodies(script[1..])
  }

  predicate HasFreeSlot(s: State) { FirstFree(s.used, 0) < |s.used| }

  /** The hook runs until it has to wait for a reply or returns. A send that finds
      no free slot fails at once and the hook goes on. */
  function HandlerTurn(s: State, script: seq<Item>): (State, seq<Item>) {
    if !s.stack.Push? || !s.stack.top.Handling? then (s, script)
    else if script == [] then (Apply(s, HandlerReturn), [])
    else if !HasFreeSlot(s) then HandlerTurn(s, script[1..])
    else (Send(s, script[0].code, script[0].body), script[1..])
  }

  /** The client runs between two daemon polls for as long as it can. */
  function ClientTurn(s: State, script: seq<Item>): (State, seq<Item>) {
    var t := Spin(s, |s.replyPort|);
    HandlerTurn(if t.stack.Push? && t.stack.top.Returned? then Free(t) else t, script)
  }

  /** One iteration of handle_callhook's loop: ipc_process, then the client runs
      during the delay. */
  function Poll(s: State, script: seq<Item>): (State, seq<Item>) {
    ClientTurn(Drain(s), script)
  }

  /** handle_callhook's loop: true when the reply arrives before the retries run
      out. Only then is the message freed. */
  function CallHook(s: State, serial: nat, script: seq<Item>, retries: nat): (State, bool)
    decreases retries
  {
    if retries == 0 then (s.(waiting := s.waiting - {serial}), false)
    else if Daemon(serial) in s.returned then (Collect(s, serial), true)
    else
      var (t, rest) := Poll(s, script);
      CallHook(t, serial, rest, retries - 1)
  }

  // ---------------------------------------------------------- the hook's life

  ghost predicate Common(s: State, serial: nat) {
    Inv(s) && s.daemonHolds == [] && OnlyReplies(s) && serial in s.waiting
  }

  /** The hook's own activation is on top. The calls it interrupted may still have
      messages in the daemon's port. */
  ghost predicate HookRuns(s: State, serial: nat, below: Stack) {
    Common(s, serial) && s.stack == Push(Handling(Daemon(serial)), below)
  }

  /** The same with the daemon's port drained. */
  ghost predicate HookRunsAlone(s: State, serial: nat, below: Stack) {
    HookRuns(s, serial, below) && s.daemonPort == []
  }

  /** The hook waits for a message the daemon has not taken yet. */
  ghost predicate HookWaits(s: State, serial: nat, below: Stack) {
    && Common(s, serial) && s.stack.Push? && s.stack.top.Wait? && s.daemonPort == [Pool(s.stack.top.slot)]
    && s.stack.below == Push(Handling(Daemon(serial)), below)
  }

  /** The hook has returned and its message is back in the temporary port. */
  ghost predicate HookDone(s: State, serial: nat, below: Stack) {
    Common(s, serial) && s.daemonPort == [] && s.stack == below && Daemon(serial) in s.returned
  }

  /** A waiting hook gets its reply from one drain of the daemon's port. */
  lemma WaitingHookIsAnswered(s: State, serial: nat, below: Stack)
    requires HookWaits(s, serial, below)
    ensures var d := Drain(s);
            && Common(d, serial) && d.stack == s.stack && d.daemonPort == [] && d.sent == s.sent
            && d.replyPort == s.replyPort + [Pool(s.stack.top.slot)]
  {
    PortInMemory(s);
    DrainAnswersAll(s);
    DrainKeepsInv(s);
    var d := Drain(s);
    forall m | m in d.replyPort ensures m in d.memory && m.Pool? && ClientCode(d.memory[m].code) { Present(d, m); }
  }

  lemma SpunReplies(s: State, t: State)
    requires s.stack.Push? && s.stack.top.Wait? && Spun(s, t) && OnlyReplies(s)
    ensures OnlyReplies(t) && OnlyReplies(Free(t))
  {
    forall m | m in t.replyPort ensures m in s.replyPort {
      assert m in multiset(t.replyPort);
      assert m in multiset(s.replyPort);
    }
  }

  lemma FreeLeavesSlot(t: State)
    requires Inv(t) && t.stack.Push? && t.stack.top.Returned?
    ensures HasFreeSlot(Free(t))
  {
    assert t.used[t.stack.top.slot] by { assert Slots(t.stack, t.stack.top.slot) >= 1; }
    assert !Free(t).used[t.stack.top.slot];
    hide Inv;
  }

  lemma FreeKeepsInv(t: State)
    requires Inv(t) && t.stack.Push? && t.stack.top.Returned?
    ensures Inv(Free(t))
  {
    hide Inv, Free;
    StepKeepsInv(t, ClientFree);
  }

  /** The fields a spin and the free after it leave alone. */
  lemma SpunFields(s: State, t: State)
    requires s.stack.Push? && s.stack.top.Wait? && Spun(s, t)
    ensures t.stack.Push? && t.stack.top.Returned? && t.stack.below == s.stack.below
    ensures var f := Free(t);
            && f.stack == s.stack.below && f.daemonPort == s.daemonPort && f.daemonHolds == s.daemonHolds
            && f.waiting == s.waiting && f.sent == s.sent
  {
  }

  lemma AnsweredHookResumes(s: State, serial: nat, below: Stack)
    requires Common(s, serial) && s.stack.Push? && s.stack.top.Wait? && s.daemonPort == []
    requires s.replyPort != [] && s.replyPort[|s.replyPort| - 1] == Pool(s.stack.top.slot)
    requires s.stack.below == Push(Handling(Daemon(serial)), below)
    ensures var t := Spin(s, |s.replyPort|);
            && t.stack.Push? && t.stack.top.Returned?
            && HookRunsAlone(Free(t), serial, below) && HasFreeSlot(Free(t)) && Free(t).sent == s.sent
  {
    hide Inv, OnlyReplies, Spin, Spun, Free, HasFreeSlot;
    var t := Spin(s, |s.replyPort|);
    SpinReturns(s, |s.replyPort| - 1, |s.replyPort|);
    SpinKeepsInv(s, |s.replyPort|);
    SpunFields(s, t);
    SpunReplies(s, t);
    FreeKeepsInv(t);
    FreeLeavesSlot(t);
  }

  /** What one turn of a running hook leads to. */
  ghost predicate Advanced(t: State, rest: seq<Item>, serial: nat, below: Stack,
                           sent: seq<nat>, script: seq<Item>, free: bool) {
    if script == [] || !free then HookDone(t, serial, below) && rest == [] && t.sent == sent
    else HookWaits(t, serial, below) && rest == script[1..] && t.sent == sent + [script[0].body]
  }

  lemma {:induction false} HandlerTurnAdvances(s: State, serial: nat, below: Stack, script: seq<Item>)
    requires HookRunsAlone(s, serial, below) && ValidScript(script)
    ensures var (t, rest) := HandlerTurn(s, script);
            Advanced(t, rest, serial, below, s.sent, script, HasFreeSlot(s))
    decreases |script|
  {
    if script == [] {
      HookReturns(s, serial, below);
    } else if !HasFreeSlot(s) {
      HandlerTurnAdvances(s, serial, below, script[1..]);
    } else {
      HookSends(s, serial, below, script[0].code, script[0].body);
      hide Send, HookWaits;
    }
  }

  lemma HookReturns(s: State, serial: nat, below: Stack)
    requires HookRunsAlone(s, serial, below)
    ensures HookDone(Apply(s, HandlerReturn), serial, below) && Apply(s, HandlerReturn).sent == s.sent
  {
    StepKeepsInv(s, HandlerReturn);
    hide Inv;
  }

  lemma HookSends(s: State, serial: nat, below: Stack, code: nat, body: nat)
    requires HookRunsAlone(s, serial, below) && HasFreeSlot(s) && ClientCode(code)
    ensures HookWaits(Send(s, code, body), serial, below) && Send(s, code, body).sent == s.sent + [body]
  {
    StepKeepsInv(s, ClientSend(code, body));
    hide Inv;
  }

  lemma WaitingPollAdvances(s: State, serial: nat, below: Stack, script: seq<Item>)
    requires HookWaits(s, serial, below) && ValidScript(script)
    ensures var (t, rest) := Poll(s, script); Advanced(t, rest, serial, below, s.sent, script, true)
  {
    WaitingHookIsAnswered(s, serial, below);
    hide Common, Drain, Spin, HandlerTurn;
    AnsweredHookResumes(Drain(s), serial, below);
    HandlerTurnAdvances(Free(Spin(Drain(s), |Drain(s).replyPort|)), serial, below, script);
  }

  /** One drain answers what the interrupted calls have sent and leaves the hook alone. */
  lemma RunningHookIsDrained(s: State, serial: nat, below: Stack)
    requires HookRuns(s, serial, below)
    ensures HookRunsAlone(Drain(s), serial, below) && Drain(s).sent == s.sent && Drain(s).used == s.used
  {
    PortInMemory(s);
    DrainAnswersAll(s);
    DrainKeepsInv(s);
    var d := Drain(s);
    forall m | m in d.replyPort ensures m in d.memory && m.Pool? && ClientCode(d.memory[m].code) { Present(d, m); }
  }

  lemma RunningPollAdvances(s: State, serial: nat, below: Stack, script: seq<Item>)
    requires HookRuns(s, serial, below) && ValidScript(script)
    ensures var (t, rest) := Poll(s, script);
            Advanced(t, rest, serial, below, s.sent, script, HasFreeSlot(s))
  {
    RunningHookIsDrained(s, serial, below);
    hide Drain;
    var d := Drain(s);
    assert Spin(d, |d.replyPort|) == d;
    HandlerTurnAdvances(d, serial, below, script);
  }

  lemma NotReturnedYet(s: State, serial: nat, below: Stack)
    requires HookRuns(s, serial, below) || HookWaits(s, serial, below)
    ensures Daemon(serial) !in s.returned
  {
    assert Count(s, Daemon(serial)) <= 1;
    assert Held(s.stack, Daemon(serial)) >= 1;
  }

  /** What the daemon and the interrupted calls find once the reply is collected. */
  ghost predicate Completed(t: State, serial: nat, below: Stack, sent: seq<nat>) {
    && Inv(t) && t.stack == below && serial !in t.live
    && t.sent == sent && t.daemonPort == [] && t.daemonHolds == []
  }

  lemma DoneIsCollected(s: State, serial: nat, below: Stack, retries: nat)
    requires HookDone(s, serial, below) && retries >= 1
    ensures CallHook(s, serial, [], retries) == (Collect(s, serial), true)
    ensures Completed(Collect(s, serial), serial, below, s.sent)
  {
    StepKeepsInv(s, DaemonCollect(serial));
  }

  lemma {:induction false} WaitingHookCompletes(s: State, serial: nat, below: Stack, script: seq<Item>, retries: nat)
    requires HookWaits(s, serial, below) && ValidScript(script) && retries >= |script| + 2
    ensures var (t, replied) := CallHook(s, serial, script, retries);
            replied && Completed(t, serial, below, s.sent + Bodies(script))
    decreases |script|
  {
    hide *;
    NotReturnedYet(s, serial, below);
    WaitingPollAdvances(s, serial, below, script);
    var (t, rest) := Poll(s, script);
    AdvancedParts(t, rest, serial, below, s.sent, script, true);
    CallHookStep(s, serial, script, retries);
    if script == [] {
      DoneIsCollected(t, serial, below, retries - 1);
      assert s.sent + [] == s.sent;
    } else {
      WaitingHookCompletes(t, serial, below, rest, retries - 1);
    }
  }

  lemma CallHookStep(s: State, serial: nat, script: seq<Item>, retries: nat)
    requires Daemon(serial) !in s.returned && retries > 0
    ensures CallHook(s, serial, script, retries) == CallHook(Poll(s, script).0, serial, Poll(s, script).1, retries - 1)
  {
  }

  /** After a first poll that has let the hook run, the rest of the loop completes it. */
  lemma AdvancedHookCompletes(s: State, serial: nat, below: Stack, script: seq<Item>, retries: nat, free: bool)
    requires Daemon(serial) !in s.returned && ValidScript(script) && retries >= |script| + 2
    requires var (t, rest) := Poll(s, script); Advanced(t, rest, serial, below, s.sent, script, free)
    ensures var (t, replied) := CallHook(s, serial, script, retries);
            replied && Completed(t, serial, below, s.sent + if free then Bodies(script) else [])
  {
    hide *;
    CallHookStep(s, serial, script, retries);
    var (t, rest) := Poll(s, script);
    AdvancedParts(t, rest, serial, below, s.sent, script, free);
    if script == [] || !free {
      DoneIsCollected(t, serial, below, retries - 1);
      assert s.sent + [] == s.sent;
    } else {
      WaitingHookCompletes(t, serial, below, rest, retries - 1);
    }
  }

  lemma AdvancedParts(t: State, rest: seq<Item>, serial: nat, below: Stack,
                      sent: seq<nat>, script: seq<Item>, free: bool)
    requires Advanced(t, rest, serial, below, sent, script, free) && ValidScript(script)
    ensures script == [] || !free ==> HookDone(t, serial, below) && rest == [] && t.sent == sent
    ensures script == [] ==> Bodies(script) == []
    ensures script != [] && free ==>
              HookWaits(t, serial, below) && rest == script[1..] && ValidScript(rest)
              && t.sent + Bodies(rest) == sent + Bodies(script)
  {
    hide HookDone, HookWaits;
    if script != [] { BodiesFront(script, sent); }
    hide Bodies, ValidScript;
  }

  lemma BodiesFront(script: seq<Item>, sent: seq<nat>)
    requires script != []
    ensures (sent + [script[0].body]) + Bodies(script[1..]) == sent + Bodies(script)
    ensures ValidScript(script) ==> ValidScript(script[1..])
  {
  }

  lemma RunningHookCompletes(s: State, serial: nat, below: Stack, script: seq<Item>, retries: nat)
    requires HookRuns(s, serial, below) && ValidScript(script) && retries >= |script| + 2
    ensures var (t, replied) := CallHook(s, serial, script, retries);
            replied && Completed(t, serial, below, s.sent + if HasFreeSlot(s) then Bodies(script) else [])
  {
    hide *;
    NotReturnedYet(s, serial, below);
    RunningPollAdvances(s, serial, below, script);
    AdvancedHookCompletes(s, serial, below, script, retries, HasFreeSlot(s));
  }

  lemma SettledState(s: State, t: State, below: Stack)
    requires Inv(s) && s.stack.Push? && s.stack.top.Handling? && s.stack.below == below
    requires Inv(t) && t.stack == below && t.daemonPort == [] && t.daemonHolds == []
    ensures s.used == t.used && t.handled == t.sent
  {
    forall i: nat | i < POOL_SIZE ensures s.used[i] == t.used[i] {
      assert Slots(s.stack, i) == Slots(t.stack, i);
    }
    assert t.sent[..|t.sent|] == t.sent;
  }

  /** A hook that makes N sends is answered within N + 2 iterations of the
      daemon's loop, whatever calls it is nested in; its sends are dispatched once
      each in order (or all fail at once when the pool is full), and the
      interrupted calls find their stack and slots as they were. */
  lemma HookCompletes(s: State, serial: nat, below: Stack, script: seq<Item>, retries: nat)
    requires HookRuns(s, serial, below) && ValidScript(script) && retries >= |script| + 2
    ensures var (t, replied) := CallHook(s, serial, script, retries);
            && replied
            && Completed(t, serial, below, s.sent + if HasFreeSlot(s) then Bodies(script) else [])
            && t.used == s.used && t.handled == t.sent
  {
    RunningHookCompletes(s, serial, below, script, retries);
    hide CallHook;
    SettledState(s, CallHook(s, serial, script, retries).0, below);
  }

  lemma DrainFreesNothing(s: State)
    ensures Drain(s).live == s.live
    decreases |s.daemonPort|
  {
    if s.daemonPort != [] && s.daemonHolds == [] && s.daemonPort[0] in s.memory { DrainFreesNothing(Dispatch(Get(s))); }
  }

  lemma SpinFreesNothing(s: State, k: nat)
    ensures Spin(s, k).live == s.live
    decreases k
  {
    if k > 0 && Enabled(s, ClientReceive(true)) {
      SpinFreesNothing(Receive(s, true), k - 1);
    }
  }

  lemma HandlerTurnFreesNothing(s: State, script: seq<Item>)
    ensures HandlerTurn(s, script).0.live == s.live
  {
  }

  /** On a timeout no message has been freed, whatever the client was doing. */
  lemma {:induction false} TimeoutFreesNothing(s: State, serial: nat, script: seq<Item>, retries: nat)
    requires !CallHook(s, serial, script, retries).1
    ensures CallHook(s, serial, script, retries).0.live == s.live
    decreases retries
  {
    if retries > 0 {
      var d := Drain(s);
      var t := Spin(d, |d.replyPort|);
      DrainFreesNothing(s);
      SpinFreesNothing(d, |d.replyPort|);
      HandlerTurnFreesNothing(if t.stack.Push? && t.stack.top.Returned? then Free(t) else t, script);
      TimeoutFreesNothing(Poll(s, script).0, serial, Poll(s, script).1, retries - 1);
    }
  }

  function Rotate(q: seq<MsgId>, k: nat): seq<MsgId>
    requires k <= |q|
  {
    q[k..] + q[..k]
  }

  lemma RotateOnce(q: seq<MsgId>, k: nat)
    requires 0 < k < |q|
    ensures (q[1..] + [q[0]])[k - 1] == q[k]
    ensures Rotate(q[1..] + [q[0]], k - 1) == Rotate(q, k)
  {
  }

  /** The hook call or forwarded command of a serial is in the client's port behind `ahead` replies to other
      calls, and the top activation reads the port. */
  predicate Posted(s: State, ahead: nat, serial: nat) {
    && Reads(s.stack) && ahead < |s.replyPort| && s.replyPort[ahead] == Daemon(serial)
    && Daemon(serial) in s.memory && HandlerCode(s.memory[Daemon(serial)].code)
    && forall k :: 0 <= k < ahead ==>
         s.replyPort[k].Pool? && (s.stack.top.Wait? ==> s.replyPort[k] != Pool(s.stack.top.slot))
  }

  /** The state when the hook has just been picked up. */
  function PickedUp(s: State, ahead: nat, serial: nat): State
    requires ahead < |s.replyPort|
  {
    s.(replyPort := Rotate(s.replyPort, ahead)[1..], stack := Push(Handling(Daemon(serial)), s.stack))
  }

  lemma {:induction false} SpinPicksUp(s: State, ahead: nat, serial: nat, k: nat)
    requires Posted(s, ahead, serial) && k > ahead
    requires forall j :: 0 <= j < ahead ==> s.replyPort[j] in s.memory && ClientCode(s.memory[s.replyPort[j]].code)
    ensures Spin(s, k) == PickedUp(s, ahead, serial)
    decreases ahead
  {
    if ahead == 0 {
      assert Rotate(s.replyPort, 0) == s.replyPort;
      assert Spin(Receive(s, true), k - 1) == Receive(s, true);
    } else {
      ClientCodeIsReposted(s, true);
      RotateOnce(s.replyPort, ahead);
      var t := Receive(s, true);
      assert t == s.(replyPort := s.replyPort[1..] + [s.replyPort[0]]);
      hide Receive;
      SpinPicksUp(t, ahead - 1, serial, k - 1);
    }
  }

  /** Before it runs, a posted hook call is picked up by whichever loop reads the
      client's port, after at most the outer replies queued ahead of it, which
      are rotated to the back. */
  lemma HookIsPickedUp(s: State, ahead: nat, serial: nat, k: nat)
    requires Inv(s) && Posted(s, ahead, serial) && k > ahead
    ensures Spin(s, k) == PickedUp(s, ahead, serial)
  {
    forall j | 0 <= j < ahead ensures s.replyPort[j] in s.memory && ClientCode(s.memory[s.replyPort[j]].code) {
      Present(s, s.replyPort[j]);
    }
    hide Inv;
    SpinPicksUp(s, ahead, serial, k);
  }

  // --------------------------------------------- from the post to the answer

  /** No other message of the daemon is in the client's port. */
  predicate OnlyOneCall(s: State, ahead: nat) {
    forall k :: 0 <= k < |s.replyPort| && k != ahead ==> s.replyPort[k].Pool?
  }

  lemma DrainKeepsPosted(s: State, ahead: nat, serial: nat)
    requires Inv(s) && s.daemonHolds == [] && Posted(s, ahead, serial) && OnlyOneCall(s, ahead)
    ensures var d := Drain(s);
            && Inv(d) && d.daemonHolds == [] && d.daemonPort == [] && Posted(d, ahead, serial) && OnlyOneCall(d, ahead)
            && d.stack == s.stack && d.sent == s.sent && d.used == s.used && d.waiting == s.waiting
  {
    Present(s, Daemon(serial));
    PortInMemory(s);
    DrainAnswersAll(s);
    DrainKeepsInv(s);
    Present(Drain(s), Daemon(serial));
    DrainKeepsCode(s, Daemon(serial));
  }

  lemma {:induction false} DrainKeepsCode(s: State, m: MsgId)
    requires m in s.memory
    ensures m in Drain(s).memory && Drain(s).memory[m].code == s.memory[m].code
    decreases |s.daemonPort|
  {
    if s.daemonPort != [] && s.daemonHolds == [] && s.daemonPort[0] in s.memory {
      DrainKeepsCode(Dispatch(Get(s)), m);
    }
  }

  lemma SpinKeepsPicked(d: State, ahead: nat, serial: nat)
    requires Inv(d) && d.daemonHolds == [] && d.daemonPort == [] && Posted(d, ahead, serial) && OnlyOneCall(d, ahead)
    requires serial in d.waiting
    ensures HookRunsAlone(Spin(d, |d.replyPort|), serial, d.stack)
    ensures Spin(d, |d.replyPort|) == PickedUp(d, ahead, serial)
  {
    HookIsPickedUp(d, ahead, serial, |d.replyPort|);
    SpinKeepsInv(d, |d.replyPort|);
    OthersStay(d, ahead, serial);
    hide Spin, PickedUp, Inv;
    PoolRepliesOnly(Spin(d, |d.replyPort|));
  }

  lemma OthersStay(s: State, ahead: nat, serial: nat)
    requires ahead < |s.replyPort| && OnlyOneCall(s, ahead)
    ensures forall m :: m in PickedUp(s, ahead, serial).replyPort ==> m.Pool?
    ensures var t := PickedUp(s, ahead, serial);
            t.stack == Push(Handling(Daemon(serial)), s.stack) && t == s.(replyPort := t.replyPort, stack := t.stack)
  {
  }

  lemma PoolRepliesOnly(s: State)
    requires Inv(s) && forall m :: m in s.replyPort ==> m.Pool?
    ensures OnlyReplies(s)
  {
    forall m | m in s.replyPort ensures m in s.memory && ClientCode(s.memory[m].code) { Present(s, m); }
  }

  lemma PostedPollAdvances(s: State, ahead: nat, serial: nat, script: seq<Item>)
    requires Inv(s) && s.daemonHolds == [] && Posted(s, ahead, serial) && OnlyOneCall(s, ahead)
    requires serial in s.waiting && ValidScript(script)
    ensures var (t, rest) := Poll(s, script);
            Advanced(t, rest, serial, s.stack, s.sent, script, HasFreeSlot(s))
  {
    DrainKeepsPosted(s, ahead, serial);
    hide Drain, Inv;
    var d := Drain(s);
    SpinKeepsPicked(d, ahead, serial);
    hide Spin;
    HandlerTurnAdvances(Spin(d, |d.replyPort|), serial, s.stack, script);
  }

  lemma PostedIsNotReturned(s: State, ahead: nat, serial: nat)
    requires Inv(s) && Posted(s, ahead, serial)
    ensures Daemon(serial) !in s.returned
  {
    assert Count(s, Daemon(serial)) <= 1;
    assert Daemon(serial) in s.replyPort;
  }

  lemma SettledWaiter(s: State, t: State)
    requires Inv(s) && Inv(t) && t.stack == s.stack && t.daemonPort == [] && t.daemonHolds == []
    ensures s.used == t.used && t.handled == t.sent
  {
    forall i: nat | i < POOL_SIZE ensures s.used[i] == t.used[i] {
      assert Slots(s.stack, i) == Slots(t.stack, i);
    }
    assert t.sent[..|t.sent|] == t.sent;
  }

  /** From the post to the answer: a hook call in the client's port, behind replies to
      outer calls and with any messages of the client still in the daemon's port, is
      picked up by the waiting, polling or paused client and answered within N + 2
      iterations of the daemon's loop when the hook makes N sends. Everything sent has
      then been dispatched, and the interrupted calls find their stack and slots as
      they were. */
  lemma PostedHookCompletes(s: State, ahead: nat, serial: nat, script: seq<Item>, retries: nat)
    requires Inv(s) && s.daemonHolds == [] && Posted(s, ahead, serial) && OnlyOneCall(s, ahead)
    requires serial in s.waiting && ValidScript(script) && retries >= |script| + 2
    ensures var (t, replied) := CallHook(s, serial, script, retries);
            && replied
            && Completed(t, serial, s.stack, s.sent + if HasFreeSlot(s) then Bodies(script) else [])
            && t.used == s.used && t.handled == t.sent
  {
    PostedIsNotReturned(s, ahead, serial);
    PostedPollAdvances(s, ahead, serial, script);
    hide Inv, Posted, OnlyOneCall, Poll, CallHook, Advanced, HasFreeSlot;
    AdvancedHookCompletes(s, serial, s.stack, script, retries, HasFreeSlot(s));
    SettledWaiter(s, CallHook(s, serial, script, retries).0);
  }

  /** Such a state is reached: the client has just sent, and the daemon, which has not
      looked at its port yet, calls a hook. */
  lemma PostedIsReachable()
    ensures var es := [ClientSend(1, 0)] + [DaemonPost(HOOK_CALL)];
            && CanRun(Start, es)
            && var s := Run(Start, es);
            && Posted(s, 0, 0) && OnlyOneCall(s, 0) && 0 in s.waiting
            && s.daemonPort == [Pool(0)] && s.daemonHolds == []
  {
    PostedRuns();
    hide CanRun, Run;
  }
}
