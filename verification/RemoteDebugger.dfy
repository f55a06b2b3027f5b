/** The commands and exception handlers of `debugger.c` over its static state, each
    proved to compute the corresponding function of `Debugger`. */
module RemoteDebugger {
  import opened Breakpoints
  import opened Debugger

  class Session {
    const bpTable: array<Breakpoint>
    var mem: Memory
    ghost var pristine: Memory
    var bpCount: int
    var attached: bool
    var stopped: bool
    var trapInstalled: bool
    var trapHit: bool
    var trapPc: nat
    var resumePc: nat
    var stepMode: StepMode
    var stepRequest: bool
    var detaching: bool
    var target: Target

    ghost function View(): State
      reads this, bpTable
    {
      State(Image(mem, bpTable[..]), pristine, bpCount, attached, stopped, trapInstalled, trapHit,
            trapPc, resumePc, stepMode, stepRequest, detaching, target)
    }

    /** Only code memory and the table change. */
    twostate predicate OnlyImageChanged()
      reads this, bpTable
    {
      View() == old(View()).(image := View().image)
    }

    constructor (ram: Memory, pc: nat)
      ensures View() == Start(ram, pc) && fresh(bpTable)
    {
      bpTable := new Breakpoint[MAX_BREAKPOINTS](_ => Unused);
      mem, pristine, bpCount := ram, ram, 0;
      attached, stopped, trapInstalled, trapHit, stepRequest, detaching := false, false, false, false, false, false;
      trapPc, resumePc, stepMode := 0, 0, NoStep;
      target := Target(pc, false, false, false);
      new;
      assert bpTable[..] == EmptyTable();
    }

    method FindBpByAddr(address: nat) returns (i: nat)
      ensures i == FindByAddr(bpTable[..], address, 0)
    {
      i := 0;
      while i < bpTable.Length
        invariant i <= bpTable.Length
        invariant FindByAddr(bpTable[..], address, i) == FindByAddr(bpTable[..], address, 0)
      {
        if bpTable[i].used && bpTable[i].address == address { return; }
        i := i + 1;
      }
    }

    method FindFreeBp() returns (i: nat)
      ensures i == FindFree(bpTable[..], 0)
    {
      i := 0;
      while i < bpTable.Length
        invariant i <= bpTable.Length
        invariant FindFree(bpTable[..], i) == FindFree(bpTable[..], 0)
      {
        if !bpTable[i].used { return; }
        i := i + 1;
      }
    }

    method PatchBp(i: nat)
      requires i < bpTable.Length
      modifies this`mem, bpTable
      ensures OnlyImageChanged() && View().image == Patch(old(View().image), i)
    {
      if bpTable[i].used && !bpTable[i].enabled {
        mem := WriteWord(mem, bpTable[i].address, TRAP15);
        bpTable[i] := bpTable[i].(enabled := true);
      }
    }

    method UnpatchBp(i: nat)
      requires i < bpTable.Length
      modifies this`mem, bpTable
      ensures OnlyImageChanged() && View().image == Unpatch(old(View().image), i)
    {
      if bpTable[i].used && bpTable[i].enabled {
        mem := WriteWord(mem, bpTable[i].address, bpTable[i].original);
        bpTable[i] := bpTable[i].(enabled := false);
      }
    }

    method UnpatchAll()
      modifies this`mem, bpTable
      ensures OnlyImageChanged() && View().image == UnpatchFrom(old(View().image), 0)
    {
      var i := 0;
      while i < bpTable.Length
        invariant i <= bpTable.Length && OnlyImageChanged()
        invariant UnpatchFrom(View().image, i) == UnpatchFrom(old(View().image), 0)
      {
        if bpTable[i].used && bpTable[i].enabled {
          mem := WriteWord(mem, bpTable[i].address, bpTable[i].original);
          bpTable[i] := bpTable[i].(enabled := false);
        }
        i := i + 1;
      }
    }

    method RepatchAll()
      modifies this`mem, bpTable
      ensures OnlyImageChanged() && View().image == RearmFrom(old(View().image), 0)
    {
      var i := 0;
      while i < bpTable.Length
        invariant i <= bpTable.Length && OnlyImageChanged()
        invariant RearmFrom(View().image, i) == RearmFrom(old(View().image), 0)
      {
        if bpTable[i].used && !bpTable[i].temporary {
          mem := WriteWord(mem, bpTable[i].address, TRAP15);
          bpTable[i] := bpTable[i].(enabled := true);
        }
        i := i + 1;
      }
    }

    method ForgetAll()
      modifies bpTable
      ensures bpTable[..] == ClearUsed(old(bpTable[..]))
    {
      var i := 0;
      while i < bpTable.Length
        invariant i <= bpTable.Length
        invariant forall k :: 0 <= k < i ==> bpTable[k] == old(bpTable[k]).(used := false)
        invariant forall k :: i <= k < bpTable.Length ==> bpTable[k] == old(bpTable[k])
      {
        bpTable[i] := bpTable[i].(used := false);
        i := i + 1;
      }
    }

    /** BPSET; an address outside RAM, an odd one or a full table is refused. */
    method HandleBpSet(address: nat)
      modifies this, bpTable
      ensures View() == SetBp(old(View()), address)
    {
      if !attached || address !in mem || address % 2 == 1 || address + 1 !in mem { return; }
      var i := FindBpByAddr(address);
      if i < bpTable.Length { return; }
      i := FindFreeBp();
      if i == bpTable.Length { return; }
      bpTable[i] := Breakpoint(address, ReadWord(mem, address), false, false, true);
      bpCount := bpCount + 1;
      trapInstalled := true;
      PatchBp(i);
    }

    method RemoveBp(i: nat)
      requires i < bpTable.Length
      modifies this, bpTable
      ensures View() == Remove(old(View()), i)
    {
      UnpatchBp(i);
      bpTable[i] := bpTable[i].(used := false);
      bpCount := bpCount - 1;
    }

    /** BPCLEAR takes an entry number first and an address second. */
    method HandleBpClear(id: int, address: nat)
      modifies this, bpTable
      ensures View() == ClearBp(old(View()), id, address)
    {
      if !attached { return; }
      if 0 <= id < bpTable.Length && bpTable[id].used {
        RemoveBp(id);
        return;
      }
      var i := FindBpByAddr(address);
      if i < bpTable.Length { RemoveBp(i); }
    }

    method HandleClearAll()
      modifies this, bpTable
      ensures View() == ClearAllBps(old(View()))
    {
      if !attached { return; }
      UnpatchAll();
      ForgetAll();
      bpCount := 0;
    }

    method HandleStep()
      modifies this, bpTable
      ensures View() == StepCommand(old(View()))
    {
      if !attached || !stopped { return; }
      var i := FindBpByAddr(trapPc);
      if i < bpTable.Length { UnpatchBp(i); }
      resumePc := trapPc;
      stepRequest := true;
      stopped := false;
      target := target.(signalled := true);
    }

    method HandleContinue()
      modifies this
      ensures View() == ContinueCommand(old(View()))
    {
      if !attached || !stopped { return; }
      stopped := false;
      target := target.(signalled := true);
    }

    /** DBGNEXT looks for the lowest breakpoint above the stop. */
    method HandleNext()
      modifies this, bpTable
      ensures View() == NextCommand(old(View()))
    {
      if !attached || !stopped { return; }
      var best, found, i := 0xFFFFFFFF, false, 0;
      while i < bpTable.Length
        invariant i <= bpTable.Length && (!found ==> best == 0xFFFFFFFF)
        invariant found <==> exists k :: 0 <= k < i && bpTable[k].used && !bpTable[k].temporary
                                         && trapPc < bpTable[k].address < 0xFFFFFFFF
      {
        if bpTable[i].used && !bpTable[i].temporary && bpTable[i].address > trapPc && bpTable[i].address < best {
          best := bpTable[i].address;
          found := true;
        }
        i := i + 1;
      }
      assert forall k :: 0 <= k < bpTable.Length ==> bpTable[..][k] == bpTable[k];
      if found { HandleContinue(); } else { HandleStep(); }
    }

    method ResetTable()
      requires bpTable.Length == MAX_BREAKPOINTS
      modifies bpTable
      ensures bpTable[..] == EmptyTable()
    {
      var i := 0;
      while i < bpTable.Length
        invariant i <= bpTable.Length && forall k :: 0 <= k < i ==> bpTable[k] == Unused
      {
        bpTable[i] := Unused;
        i := i + 1;
      }
    }

    /** DBGBREAK */
    method HandleBreak()
      modifies this
      ensures View() == BreakCommand(old(View()))
    {
      if !attached || stopped { return; }
      target := target.(signalled := true);
      stopped := true;
    }

    /** DBGATTACH; a task in TS_WAIT is taken as stopped. */
    method HandleAttach(task: Target, waiting: bool)
      requires bpTable.Length == MAX_BREAKPOINTS
      modifies this, bpTable
      ensures View() == AttachCommand(old(View()), task, waiting)
    {
      hide EmptyTable;
      if attached { return; }
      target := task;
      attached := true;
      trapHit := false;
      stopped := waiting;
      ResetTable();
      bpCount := 0;
    }

    method DropTemporaries()
      modifies this`bpCount, bpTable
      ensures bpTable[..] == DropTemporary(old(bpTable[..]))
      ensures bpCount == old(bpCount) - TemporaryCount(old(bpTable[..]))
    {
      ghost var entries := bpTable[..];
      var i := 0;
      while i < bpTable.Length
        invariant i <= bpTable.Length
        invariant forall k :: 0 <= k < i ==>
                    bpTable[k] == if entries[k].temporary then entries[k].(used := false) else entries[k]
        invariant forall k :: i <= k < bpTable.Length ==> bpTable[k] == entries[k]
        invariant bpCount - TemporaryCount(entries[i..]) == old(bpCount) - TemporaryCount(entries)
      {
        assert entries[i..][1..] == entries[i + 1..];
        if bpTable[i].used && bpTable[i].temporary {
          bpTable[i] := bpTable[i].(used := false);
          bpCount := bpCount - 1;
        }
        i := i + 1;
      }
      assert entries[i..] == [];
      assert bpTable[..] == DropTemporary(entries);
    }

    method PollTrap()
      modifies this, bpTable
      ensures View() == PollCommand(old(View()))
    {
      hide DropTemporary, TemporaryCount;
      if !attached || !trapHit { return; }
      trapHit := false;
      stopped := true;
      DropTemporaries();
    }

    method FinishDetaching()
      modifies this, bpTable
      ensures View() == FinishDetach(old(View()))
    {
      hide ClearUsed;
      ForgetAll();
      trapInstalled, attached, stopped, trapHit, detaching := false, false, false, false, false;
      bpCount := 0;
    }

    /** DBGDETACH up to its Delay, or to the end if the target is running. */
    method HandleDetach()
      modifies this, bpTable
      ensures View() == DetachCommand(old(View()))
    {
      if !attached { return; }
      if stopped {
        trapHit := false;
        stepRequest := false;
        UnpatchAll();
        target := target.(signalled := true);
        detaching := true;
      } else {
        UnpatchAll();
        FinishDetaching();
      }
    }

    /** Puts the original word back under the hit entry. */
    method RestoreHit(i: nat)
      requires i < bpTable.Length
      modifies this`mem, bpTable
      ensures View() == old(View()).(
                image := Image(WriteWord(old(mem), target.pc, old(bpTable[i]).original),
                               old(bpTable[..])[i := old(bpTable[i]).(enabled := false)]))
    {
      mem := WriteWord(mem, target.pc, bpTable[i].original);
      bpTable[i] := bpTable[i].(enabled := false);
    }

    /** Reports the first hit and asks for one traced instruction. */
    method RecordHit()
      modifies this`trapPc, this`trapHit, this`stepMode, this`target
      ensures View() == old(View()).(mode := StepPastBp, target := old(target).(trace := true), trapHit := true,
                                     trapPc := if old(trapHit) then old(trapPc) else old(target).pc)
    {
      if !trapHit {
        trapPc := target.pc;
        trapHit := true;
      }
      stepMode := StepPastBp;
      target := target.(trace := true);
    }

    method Trap15Handler()
      modifies this, bpTable
      ensures View() == TrapHandler(old(View()))
    {
      hide FindByAddr, WriteWord;
      var i := FindBpByAddr(target.pc);
      if i < bpTable.Length { RestoreHit(i); }
      RecordHit();
    }

    /** Behind a breakpoint: the entries are armed again and the target parks. */
    method ParkPastBreakpoint(next: nat)
      requires stepMode == StepPastBp
      modifies this, bpTable
      ensures View() == TraceHandler(old(View()), next)
    {
      hide RearmFrom;
      RepatchAll();
      stepMode := NoStep;
      resumePc := next;
      target := target.(trace := false, parked := true);
    }

    /** After a single step, which is also reported as a stop. */
    method ParkAfterStep(next: nat)
      requires stepMode == StepSingle
      modifies this, bpTable
      ensures View() == TraceHandler(old(View()), next)
    {
      hide RearmFrom;
      RepatchAll();
      stepMode := NoStep;
      trapPc := next;
      resumePc := next;
      trapHit := true;
      target := target.(trace := false, parked := true);
    }

    /** A trace exception nobody asked for. */
    method GoOn(next: nat)
      requires stepMode == NoStep
      modifies this`target
      ensures View() == TraceHandler(old(View()), next)
    {
      target := target.(trace := false, pc := next);
    }

    method TraceException(next: nat)
      modifies this, bpTable
      ensures View() == TraceHandler(old(View()), next)
    {
      hide TraceHandler;
      match stepMode
      case NoStep => GoOn(next);
      case StepPastBp => ParkPastBreakpoint(next);
      case StepSingle => ParkAfterStep(next);
    }

    /** The pause stub when its Wait returns, through trap14_handler on a step. */
    method PauseStubWakes()
      modifies this
      ensures View() == WakeStub(old(View()))
    {
      target := target.(parked := false, signalled := false, pc := resumePc);
      if stepRequest {
        stepRequest := false;
        stepMode := StepSingle;
        target := target.(trace := true);
      }
    }
  }
}
