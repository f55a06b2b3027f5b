/** What the commands of the remote debugger (`debugger.c`) do to the table, to memory and
    to the target, whatever the state they find. */
module Commands {
  import opened Breakpoints
  import opened Debugger

  /** Only code memory, the table and its count differ, and memory only in the word at `a`. */
  ghost predicate OnlyWordAt(s: State, t: State, a: nat) {
    && t == s.(image := t.image, count := t.count, installed := t.installed)
    && t.image.mem.Keys == s.image.mem.Keys
    && forall b :: b in s.image.mem && b != a && b != a + 1 ==> t.image.mem[b] == s.image.mem[b]
  }

  /** All entries but one are as they were. */
  predicate OthersKept(s: State, t: State, i: nat) {
    && |t.image.table| == |s.image.table|
    && forall j :: 0 <= j < |s.image.table| && j != i ==> t.image.table[j] == s.image.table[j]
  }

  ghost predicate HoldsPristine(s: State, a: nat) {
    && a in s.image.mem && a + 1 in s.image.mem && a in s.pristine && a + 1 in s.pristine
    && s.image.mem[a] == s.pristine[a] && s.image.mem[a + 1] == s.pristine[a + 1]
  }

  predicate Listed(s: State, a: nat) {
    exists j :: 0 <= j < |s.image.table| && s.image.table[j].used && s.image.table[j].address == a
  }

  // ------------------------------------------------------------------------ BPCLEAR

  predicate IsNumber(s: State, id: int) { 0 <= id < |s.image.table| && s.image.table[id].used }

  /** The entry BPCLEAR is about: the used one with that number, or else the used one at
      that address. */
  predicate IsHit(s: State, id: int, address: nat, i: nat) {
    && i < |s.image.table| && s.image.table[i].used
    && if IsNumber(s, id) then i == id else s.image.table[i].address == address
  }

  lemma UnpatchedEntry(s: State, i: nat)
    requires Inv(s) && i < |s.image.table| && s.image.table[i].used
    ensures var t, a := Remove(s, i), s.image.table[i].address;
            && OnlyWordAt(s, t, a) && OthersKept(s, t, i) && !t.image.table[i].used && t.count == s.count - 1
            && t.installed == s.installed
  {
    hide ImageOk, UsedCount;
    KeysAreThere(s, i);
  }

  lemma KeysAreThere(s: State, i: nat)
    requires Inv(s) && i < |s.image.table| && s.image.table[i].used
    ensures s.image.table[i].address in s.image.mem && s.image.table[i].address + 1 in s.image.mem
  {
    InvMeans(s);
    hide Inv;
  }

  lemma RemovedWord(s: State, i: nat)
    requires Inv(s) && s.attached && !s.detaching && i < |s.image.table| && s.image.table[i].used
    ensures HoldsPristine(Remove(s, i), s.image.table[i].address)
  {
    UnpatchKeeps(s.image, s.pristine, i);
    var im := Unpatch(s.image, i);
    assert !im.table[i].enabled && im.table[i].used && im.table[i].address == s.image.table[i].address;
    DisabledHoldsPristine(im, s.pristine, i);
    KeysAreThere(s, i);
    InvMeans(s);
    hide Inv, ImageOk;
  }

  lemma RemovedIsUnlisted(s: State, i: nat)
    requires Inv(s) && i < |s.image.table| && s.image.table[i].used
    ensures !Listed(Remove(s, i), s.image.table[i].address)
  {
    UnpatchedEntry(s, i);
    InvMeans(s);
    hide Inv, Remove, OnlyWordAt;
  }

  /** Used entries have different addresses. */
  lemma OnlyAt(s: State, i: nat, j: nat)
    requires Inv(s) && i < |s.image.table| && s.image.table[i].used && j < |s.image.table| && s.image.table[j].used
    requires s.image.table[i].address == s.image.table[j].address
    ensures i == j
  {
    InvMeans(s);
    hide Inv;
  }

  lemma FoundAt(s: State, a: nat, i: nat)
    requires Inv(s) && i < |s.image.table| && s.image.table[i].used && s.image.table[i].address == a
    ensures FindByAddr(s.image.table, a, 0) == i
  {
    OnlyAt(s, i, if FindByAddr(s.image.table, a, 0) < |s.image.table| then FindByAddr(s.image.table, a, 0) else i);
    hide Inv, FindByAddr;
  }

  lemma HitIsUnique(s: State, id: int, address: nat, i: nat)
    requires Inv(s) && s.attached && IsHit(s, id, address, i)
    ensures Execute(s, BpClear(id, address)) == Remove(s, i)
  {
    hide Inv, Remove, FindByAddr;
    if !IsNumber(s, id) { FoundAt(s, address, i); }
  }

  /** BPCLEAR of an entry: it is free, nothing is listed at its address any more, memory
      holds the target's own word there, the count is one lower, and every other entry and
      byte is as it was. */
  lemma ClearsHit(s: State, id: int, address: nat, i: nat)
    requires Inv(s) && s.attached && !s.detaching && IsHit(s, id, address, i)
    ensures var t, a := Execute(s, BpClear(id, address)), s.image.table[i].address;
            && !Listed(t, a) && HoldsPristine(t, a) && t.count == s.count - 1
            && OnlyWordAt(s, t, a) && OthersKept(s, t, i) && !t.image.table[i].used
  {
    hide *;
    HitIsUnique(s, id, address, i);
    HitIsUsed(s, id, address, i);
    UnpatchedEntry(s, i);
    RemovedWord(s, i);
    RemovedIsUnlisted(s, i);
  }

  lemma HitIsUsed(s: State, id: int, address: nat, i: nat)
    requires IsHit(s, id, address, i)
    ensures i < |s.image.table| && s.image.table[i].used
  {
  }

  /** Without one, or without a session, BPCLEAR changes nothing. */
  lemma ClearsNothing(s: State, id: int, address: nat)
    requires !s.attached || forall i :: !IsHit(s, id, address, i)
    ensures Execute(s, BpClear(id, address)) == s
  {
    hide Remove, FindByAddr;
    if s.attached {
      assert 0 <= id ==> !IsHit(s, id, address, id);
      assert !IsHit(s, id, address, FindByAddr(s.image.table, address, 0));
    }
  }

  // -------------------------------------------------------------------------- BPSET

  /** The addresses a breakpoint can be set at. */
  predicate Settable(s: State, a: nat) {
    && s.attached && a in s.image.mem && a + 1 in s.image.mem && a % 2 == 0 && !Listed(s, a)
    && exists j :: 0 <= j < |s.image.table| && !s.image.table[j].used
  }

  lemma SettableMeans(s: State, a: nat)
    requires Settable(s, a)
    ensures FindByAddr(s.image.table, a, 0) == |s.image.table| && FindFree(s.image.table, 0) < |s.image.table|
  {
  }

  /** BPSET: the first free entry is armed there and remembers the target's own word; the
      count is one higher, and every other entry and byte is as it was. */
  lemma SetsBreakpoint(s: State, a: nat) returns (i: nat)
    requires Inv(s) && !s.detaching && Settable(s, a)
    ensures i < |s.image.table| && !s.image.table[i].used && forall j :: 0 <= j < i ==> s.image.table[j].used
    ensures var t := Execute(s, BpSet(a));
            && a in s.pristine && a + 1 in s.pristine && |t.image.table| == |s.image.table|
            && t.image.table[i] == Breakpoint(a, ReadWord(s.pristine, a), true, false, true)
            && a in t.image.mem && a + 1 in t.image.mem && ReadWord(t.image.mem, a) == TRAP15
            && t.count == s.count + 1 && t.installed && OnlyWordAt(s, t, a) && OthersKept(s, t, i)
  {
    i := FindFree(s.image.table, 0);
    SettableMeans(s, a);
    WordIsPristine(s, a);
    hide Inv, FindByAddr, FindFree;
    SetState(s, a);
  }

  lemma WordIsPristine(s: State, a: nat)
    requires Inv(s) && Settable(s, a)
    ensures a in s.pristine && a + 1 in s.pristine && ReadWord(s.image.mem, a) == ReadWord(s.pristine, a)
  {
    UnlistedHoldsPristine(s.image, s.pristine, a);
  }

  lemma SetState(s: State, a: nat)
    requires s.attached && a in s.image.mem && a + 1 in s.image.mem && a % 2 == 0
    requires FindByAddr(s.image.table, a, 0) == |s.image.table| && FindFree(s.image.table, 0) < |s.image.table|
    ensures var t, i := Execute(s, BpSet(a)), FindFree(s.image.table, 0);
            t == s.(image := Image(WriteWord(s.image.mem, a, TRAP15),
                                   s.image.table[i := Breakpoint(a, ReadWord(s.image.mem, a), true, false, true)]),
                    count := s.count + 1, installed := true)
  {
    hide FindByAddr, FindFree, WriteWord, ReadWord;
    var i, e := FindFree(s.image.table, 0), Breakpoint(a, ReadWord(s.image.mem, a), false, false, true);
    assert s.image.table[i := e][i := e.(enabled := true)] == s.image.table[i := e.(enabled := true)];
  }

  /** Anywhere else BPSET is refused. */
  lemma SetsNothing(s: State, a: nat)
    requires !Settable(s, a)
    ensures Execute(s, BpSet(a)) == s
  {
    var table := s.image.table;
    if FindByAddr(table, a, 0) == |table| && FindFree(table, 0) < |table| {
      assert !table[FindFree(table, 0)].used;
      assert !Listed(s, a);
    }
  }

  lemma SettableIsPristine(s: State, a: nat)
    requires Inv(s) && Settable(s, a)
    ensures HoldsPristine(s, a)
  {
    WordIsPristine(s, a);
    hide Inv;
  }

  lemma SameMemory(s: State, t: State, u: State, a: nat)
    requires OnlyWordAt(s, t, a) && OnlyWordAt(t, u, a) && HoldsPristine(s, a) && HoldsPristine(u, a)
    ensures u.image.mem == s.image.mem
  {
    assert u.pristine == s.pristine;
    forall b | b in s.image.mem ensures u.image.mem[b] == s.image.mem[b] {
      if b != a && b != a + 1 { assert t.image.mem[b] == s.image.mem[b]; }
    }
  }

  lemma OthersKeptTwice(s: State, t: State, u: State, i: nat)
    requires OthersKept(s, t, i) && OthersKept(t, u, i)
    ensures OthersKept(s, u, i)
  {
  }

  /** A breakpoint that is set and cleared again, by its number or its address, leaves memory,
      count and all other entries as they were. */
  lemma SetThenClear(s: State, a: nat, id: int, address: nat, k: nat) returns (i: nat)
    requires Inv(s) && !s.detaching && Settable(s, a)
    requires var t := Execute(s, BpSet(a)); IsHit(t, id, address, k) && t.image.table[k].address == a
    ensures i < |s.image.table| && !s.image.table[i].used
    ensures var u := Execute(Execute(s, BpSet(a)), BpClear(id, address));
            && u.image.mem == s.image.mem && u.count == s.count
            && OthersKept(s, u, i) && !u.image.table[i].used
  {
    hide *;
    i := SetsBreakpoint(s, a);
    var t := Execute(s, BpSet(a));
    SetAllowed(s, a);
    CommandKeepsInv(s, BpSet(a));
    HitIsUsed(t, id, address, k);
    OnlyAt(t, k, i);
    StillAttached(s, t, a);
    ClearsHit(t, id, address, i);
    var u := Execute(t, BpClear(id, address));
    SettableIsPristine(s, a);
    SameMemory(s, t, u, a);
    OthersKeptTwice(s, t, u, i);
  }

  lemma SetAllowed(s: State, a: nat)
    requires !s.detaching && Settable(s, a)
    ensures Enabled(s, Daemon(BpSet(a))) && SafeDetach(s, Daemon(BpSet(a))) && s.attached
  {
  }

  lemma StillAttached(s: State, t: State, a: nat)
    requires OnlyWordAt(s, t, a)
    ensures t.attached == s.attached && t.detaching == s.detaching && t.pristine == s.pristine
  {
  }

  // ------------------------------------------------------------- the run controls

  /** A breakpoint that is not temporary lies above the stop. */
  predicate BreakpointAbove(s: State) {
    exists i :: 0 <= i < |s.image.table| && s.image.table[i].used && !s.image.table[i].temporary
                && s.trapPc < s.image.table[i].address < 0xFFFFFFFF
  }

  /** DBGNEXT from a reported stop: with a breakpoint above it the target goes on behind the
      stop with everything armed; with none it traces the one instruction at the stop, which
      is not patched. */
  lemma NextRuns(s: State)
    requires Inv(s) && ReportedStop(s) && AllArmed(s)
    ensures var t := Execute(s, Next); var r := WakeStub(t);
            && Enabled(t, StubWakes) && !t.stopped
            && if BreakpointAbove(s)
               then r.target == Target(s.resumePc, false, false, false) && r.mode == NoStep && AllArmed(r)
               else r.target == Target(s.trapPc, true, false, false) && r.mode == StepSingle && Unpatched(r, s.trapPc)
  {
    NextIs(s);
    if BreakpointAbove(s) {
      hide *;
      ContinueResumes(s);
      ContinueStarts(s);
    } else {
      hide *;
      StepCommandStarts(s);
      PendingWakes(Execute(s, Step), s.trapPc);
    }
  }

  lemma NextIs(s: State)
    ensures Execute(s, Next) == if BreakpointAbove(s) then Execute(s, Continue) else Execute(s, Step)
  {
    hide ContinueCommand, StepCommand;
  }

  lemma ContinueStarts(s: State)
    requires ReportedStop(s)
    ensures !Execute(s, Continue).stopped
  {
  }

  lemma PendingWakes(s: State, a: nat)
    requires StepPending(s, a)
    ensures Enabled(s, StubWakes) && !s.stopped
    ensures var r := WakeStub(s);
            r.target == Target(a, true, false, false) && r.mode == StepSingle && Unpatched(r, a)
  {
  }

  /** DBGBREAK of a running target leaves code, table and PC alone; the target is taken as
      stopped, and the next hit runs on because of the signal. */
  lemma BreakSignals(s: State)
    requires s.attached && !s.stopped
    ensures var t := Execute(s, Break);
            && t.stopped && t.image == s.image && t.count == s.count
            && t.target == Target(s.target.pc, s.target.trace, s.target.parked, true)
            && (forall first, next :: !UnreportedStop(t, first, next)) && !ReportedStop(t)
  {
  }

  /** A new session has no breakpoint and no hit, and leaves memory and the task as they are. */
  lemma AttachStarts(s: State, task: Target, waiting: bool)
    requires !s.attached
    ensures var t := Execute(s, Attach(task, waiting));
            && t.attached && (t.stopped <==> waiting) && !t.trapHit && t.count == 0 && NothingUsed(t)
            && t.image.mem == s.image.mem && t.target == task && |t.image.table| == MAX_BREAKPOINTS
  {
  }

  /** The commands that are refused. */
  lemma Refused(s: State, c: Command)
    requires || (if s.attached then c.Attach? else !c.Attach?)
             || (!s.stopped && (c.Step? || c.Continue? || c.Next?))
             || (s.stopped && c.Break?) || (!s.trapHit && c.Poll?)
    ensures Execute(s, c) == s
  {
    hide Remove, Patch, UnpatchFrom, FinishDetach, Unpatch;
  }
}
