/** The imperative side of the message exchange: the client's pool, the ports and
    the two dispatch loops as methods over mutable fields, each proved to compute
    the corresponding function of `Messages` and `HookCalls`. */
module Exchange {
  import opened Handlers
  import opened HookCalls
  import opened Messages

  class Bridge {
    const used: array<bool>
    var memory: map<MsgId, Fields>
    var daemonPort: seq<MsgId>
    var daemonHolds: seq<MsgId>
    var replyPort: seq<MsgId>
    var returned: multiset<MsgId>
    var stack: Stack
    var live: set<nat>
    var waiting: set<nat>
    var nextSerial: nat
    var sent: seq<nat>     // history of the exchange, not part of the source's state
    var handled: seq<nat>

    ghost function View(): State
      reads this, used
    {
      State(used[..], memory, daemonPort, daemonHolds, replyPort, returned, stack,
            live, waiting, nextSerial, sent, handled)
    }

    constructor ()
      ensures View() == Start && fresh(used)
    {
      used := new bool[POOL_SIZE](_ => false);
      memory, daemonPort, daemonHolds, replyPort := map[], [], [], [];
      returned, stack := multiset{}, App;
      live, waiting, nextSerial := {}, {}, 0;
      sent, handled := [], [];
      new;
      assert used[..] == [false, false, false, false];
    }

    /** pool_alloc: the lowest free slot, or used.Length for NULL. */
    method PoolAlloc() returns (slot: nat)
      modifies used
      ensures slot == FirstFree(old(used[..]), 0)
      ensures used[..] == if slot < used.Length then old(used[..])[slot := true] else old(used[..])
    {
      slot := 0;
      while slot < used.Length
        invariant slot <= used.Length && used[..] == old(used[..])
        invariant FirstFree(used[..], slot) == FirstFree(old(used[..]), 0)
      {
        if !used[slot] {
          used[slot] := true;
          return;
        }
        slot := slot + 1;
      }
    }

    /** pool_free: find the slot whose message this is. */
    method PoolFree(m: MsgId)
      modifies used
      ensures used[..] == if m.Pool? && m.slot < used.Length then old(used[..])[m.slot := false] else old(used[..])
    {
      var i := 0;
      while i < used.Length
        invariant i <= used.Length && used[..] == old(used[..])
        invariant m.Pool? ==> m.slot >= i
      {
        if Pool(i) == m {
          used[i] := false;
          return;
        }
        i := i + 1;
      }
    }

    /** send_and_wait up to its loop; false when the pool is exhausted. */
    method BeginSend(code: nat, body: nat) returns (ok: bool)
      modifies this, used
      ensures View() == Send(old(View()), code, body)
      ensures ok == HasFreeSlot(old(View()))
    {
      var slot := PoolAlloc();
      ok := slot < used.Length;
      if ok {
        memory := memory[Pool(slot) := Fields(code, body, |sent|, false, 0)];
        daemonPort := daemonPort + [Pool(slot)];
        stack := Push(Wait(slot, |sent|), stack);
        sent := sent + [body];
      }
    }

    /** The caller of send_and_wait is done with its message. */
    method FreeReturned()
      requires stack.Push? && stack.top.Returned?
      modifies this, used
      ensures View() == Free(old(View()))
    {
      PoolFree(Pool(stack.top.slot));
      stack := stack.below;
    }

    method ReplyMsg(m: MsgId)
      modifies this
      ensures View() == Reply(old(View()), m)
    {
      match m
      case Pool(_) => replyPort := replyPort + [m];
      case Daemon(_) => returned := returned + multiset{m};
    }

    method ProcessDaemonMsg(m: MsgId, handlerFound: bool)
      requires m in memory
      modifies this
      ensures View() == Messages.ProcessDaemonMsg(old(View()), m, handlerFound)
    {
      var code := memory[m].code;
      if code == CMD_FORWARD || code == HOOK_CALL {
        if handlerFound {
          stack := Push(Handling(m), stack);
        } else {
          ReplyMsg(m);
        }
      } else if code == DEBUG_PAUSE {
        ReplyMsg(m);
        stack := Push(Paused, stack);
      } else {
        ReplyMsg(m);
      }
    }

    /** One GetMsg by the loop on top of the stack. */
    method ReceiveOne(handlerFound: bool)
      requires Enabled(View(), ClientReceive(handlerFound))
      modifies this
      ensures View() == Receive(old(View()), handlerFound)
    {
      var m := replyPort[0];
      replyPort := replyPort[1..];
      if stack.top.Wait? && m == Pool(stack.top.slot) {
        stack := Push(Returned(stack.top.slot, stack.top.request), stack.below);
      } else if stack.top.Paused? && memory[m].code == DEBUG_RESUME {
        ReplyMsg(m);
        stack := stack.below;
      } else {
        ProcessDaemonMsg(m, handlerFound);
      }
    }

    /** The loop that reads the client's port, as far as the messages in it allow. */
    method WaitLoop()
      modifies this
      ensures View() == Spin(old(View()), |old(replyPort)|)
    {
      var k: nat := |replyPort|;
      while k > 0 && Reads(stack) && replyPort != [] && replyPort[0] in memory
        invariant used[..] == old(used[..])
        invariant Spin(View(), k) == Spin(old(View()), |old(replyPort)|)
      {
        ReceiveOne(true);
        k := k - 1;
      }
    }

    method TakeOldest()
      requires daemonPort != []
      modifies this`daemonHolds, this`daemonPort
      ensures View() == Get(old(View()))
    {
      daemonHolds, daemonPort := [daemonPort[0]], daemonPort[1..];
    }

    method AnswerHeld()
      requires |daemonHolds| == 1 && daemonHolds[0] in memory
      modifies this
      ensures View() == Dispatch(old(View()))
    {
      var m := daemonHolds[0];
      var f := memory[m];
      memory := memory[m := f.(answered := true, result := if ClientCode(f.code) then 0 else -1)];
      handled := handled + [f.body];
      daemonHolds := [];
      ReplyMsg(m);
    }

    method DispatchOldest()
      requires daemonPort != [] && daemonPort[0] in memory
      modifies this
      ensures View() == Dispatch(Get(old(View())))
    {
      TakeOldest();
      hide Dispatch, Get;
      AnswerHeld();
    }

    /** ipc_process: dispatch and answer until the daemon's port is empty. */
    method IpcProcess()
      modifies this
      ensures View() == Drain(old(View()))
    {
      while daemonPort != [] && daemonHolds == [] && daemonPort[0] in memory
        invariant used[..] == old(used[..])
        invariant Drain(View()) == Drain(old(View()))
        decreases |daemonPort|
      {
        DispatchOldest();
      }
    }

    method HandlerRuns(script: seq<Item>) returns (rest: seq<Item>)
      modifies this, used
      ensures (View(), rest) == HandlerTurn(old(View()), script)
    {
      rest := script;
      while stack.Push? && stack.top.Handling?
        invariant HandlerTurn(View(), rest) == HandlerTurn(old(View()), script)
        decreases stack.Push? && stack.top.Handling?, |rest|
      {
        if rest == [] {
          var m := stack.top.m;
          stack := stack.below;
          ReplyMsg(m);
          return;
        }
        var ok := BeginSend(rest[0].code, rest[0].body);
        rest := rest[1..];
        if ok { return; }
      }
    }

    method ClientRuns(script: seq<Item>) returns (rest: seq<Item>)
      modifies this, used
      ensures (View(), rest) == ClientTurn(old(View()), script)
    {
      WaitLoop();
      if stack.Push? && stack.top.Returned? {
        FreeReturned();
      }
      rest := HandlerRuns(script);
    }

    /** Takes the reply out of the temporary port and frees the message. */
    method CollectReply(serial: nat)
      requires Daemon(serial) in returned
      modifies this`returned, this`live, this`waiting
      ensures View() == Collect(old(View()), serial)
    {
      returned := returned - multiset{Daemon(serial)};
      live, waiting := live - {serial}, waiting - {serial};
    }

    /** The polling loop of handle_callhook; the client runs during each Delay. */
    method WaitForHook(serial: nat, script: seq<Item>, limit: nat) returns (replied: bool)
      modifies this, used
      ensures (View(), replied) == CallHook(old(View()), serial, script, limit)
    {
      hide CallHook, Poll, Drain, ClientTurn, Collect;
      var retries, rest := limit, script;
      while retries > 0
        invariant CallHook(View(), serial, rest, retries) == CallHook(old(View()), serial, script, limit)
        decreases retries
      {
        CallHookUnfolds(View(), serial, rest, retries);
        if Daemon(serial) in returned {
          CollectReply(serial);
          return true;
        }
        PollIs(View(), rest);
        IpcProcess();
        rest := ClientRuns(rest);
        retries := retries - 1;
      }
      CallHookUnfolds(View(), serial, rest, 0);
      waiting := waiting - {serial};
      return false;
    }

    /** The polling loop of ipc_send_to_client, which does not dispatch meanwhile. */
    method WaitForClient(serial: nat, script: seq<Item>, limit: nat) returns (replied: bool)
      modifies this, used
      ensures (View(), replied) == SendToClient(old(View()), serial, script, limit)
    {
      hide SendToClient, ClientTurn, Collect;
      var retries, rest := limit, script;
      while retries > 0
        invariant SendToClient(View(), serial, rest, retries) == SendToClient(old(View()), serial, script, limit)
        decreases retries
      {
        SendStep(View(), serial, rest, retries);
        if Daemon(serial) in returned {
          CollectReply(serial);
          return true;
        }
        rest := ClientRuns(rest);
        retries := retries - 1;
      }
      SendEnds(View(), serial, rest);
      waiting := waiting - {serial};
      return false;
    }
  }

  lemma CallHookUnfolds(s: State, serial: nat, script: seq<Item>, retries: nat)
    ensures CallHook(s, serial, script, retries) ==
            if retries == 0 then (s.(waiting := s.waiting - {serial}), false)
            else if Daemon(serial) in s.returned then (Collect(s, serial), true)
            else CallHook(Poll(s, script).0, serial, Poll(s, script).1, retries - 1)
  {
    hide Poll, Collect;
  }

  lemma PollIs(s: State, script: seq<Item>)
    ensures Poll(s, script) == ClientTurn(Drain(s), script)
  {
    hide Drain, ClientTurn;
  }
}
