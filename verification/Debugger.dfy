/** The remote debugger (`debugger.c`) as a state machine: daemon commands
    interleave with the target's instructions, its TRAP #15, Trace and TRAP #14
    exceptions and the pause stub. Each command and handler is one step, except
    DBGDETACH of a stopped target, which lets the target run during its Delay. */
module Debugger {
  import opened Breakpoints

  datatype StepMode = NoStep | StepPastBp | StepSingle

  /** The target task. `parked` is the pause stub's Wait(CTRL_F), `signalled` a CTRL_F
      that no Wait has taken yet. */
  datatype Target = Target(pc: nat, trace: bool, parked: bool, signalled: bool)

  datatype State = State(
    image: Image,
    pristine: Memory,        // what memory would hold without the debugger
    count: int,              // dbg_bp_count
    attached: bool,
    stopped: bool,
    installed: bool,         // trap_installed
    trapHit: bool,
    trapPc: nat,
    resumePc: nat,
    mode: StepMode,
    stepRequest: bool,
    detaching: bool,         // inside the Delay of DBGDETACH
    target: Target
  )

  datatype Command =
    | Attach(task: Target, waiting: bool)  // the task as it is, and whether it is in TS_WAIT
    | BpSet(address: nat)
    | BpClear(id: int, address: nat)  // the argument read as decimal and as hexadecimal
    | ClearAll
    | Step
    | Continue
    | Next
    | Break
    | Poll
    | Detach

  datatype Event =
    | Daemon(c: Command)
    | DetachEnd
    | Exec(next: nat, writes: Memory)  // one instruction that is not a TRAP #15
    | Trap                             // the target executes a TRAP #15
    | StubWakes                        // Wait(CTRL_F) returns in the pause stub
    | OwnWait                          // or where the target itself waits for it, as ab_poll does

  /** The instruction word the target would fetch, if it is in RAM. */
  predicate AtTrap(mem: Memory, pc: nat) {
    pc in mem && pc + 1 in mem && ReadWord(mem, pc) == TRAP15
  }

  /** A task that can be attached to: the last target as it was left, or another one,
      which is neither traced nor in the pause stub. The stub's Wait lasts until a signal. */
  predicate Attachable(s: State, task: Target, waiting: bool) {
    && (task == s.target || (!task.trace && !task.parked))
    && (task.parked ==> waiting == !task.signalled)
  }

  predicate Enabled(s: State, e: Event) {
    match e
    case Daemon(Attach(task, waiting)) => !s.detaching && (s.attached || Attachable(s, task, waiting))
    case Daemon(_) => !s.detaching
    case DetachEnd => s.detaching
    case Exec(_, writes) =>
      && !s.target.parked && !AtTrap(s.image.mem, s.target.pc)
      && (s.target.trace ==> s.installed)
      && writes.Keys <= s.image.mem.Keys
      && forall a, i :: a in writes && 0 <= i < |s.image.table| && s.image.table[i].used ==>
           !Covers(s.image.table[i], a)
    case Trap =>
      // the target has no TRAP #15 of its own, and fetches from even addresses
      && !s.target.parked && AtTrap(s.image.mem, s.target.pc) && s.installed
      && s.target.pc % 2 == 0 && !AtTrap(s.pristine, s.target.pc)
    case StubWakes => s.target.parked && s.target.signalled && (s.stepRequest ==> s.installed)
    case OwnWait => !s.target.parked && !s.target.trace && s.target.signalled
  }

  // ------------------------------------------------------------- daemon side

  function SetBp(s: State, address: nat): State
  {
    var table := s.image.table;
    // in RAM and even, hence with its second byte in RAM
    if !s.attached || address !in s.image.mem || address % 2 == 1 || address + 1 !in s.image.mem then s
    else if FindByAddr(table, address, 0) < |table| then s
    else
      var i := FindFree(table, 0);
      if i == |table| then s
      else
        var entry := Breakpoint(address, ReadWord(s.image.mem, address), false, false, true);
        s.(image := Patch(s.image.(table := table[i := entry]), i), count := s.count + 1, installed := true)
  }

  /** dbg_unpatch_bp, then forget the entry. */
  function Remove(s: State, i: nat): State
    requires i < |s.image.table|
  {
    var im := Unpatch(s.image, i);
    s.(image := im.(table := im.table[i := im.table[i].(used := false)]), count := s.count - 1)
  }

  function ClearBp(s: State, id: int, address: nat): State {
    var table := s.image.table;
    if !s.attached then s
    else if 0 <= id < |table| && table[id].used then Remove(s, id)
    else
      var i := FindByAddr(table, address, 0);
      if i < |table| then Remove(s, i) else s
  }

  function ClearAllBps(s: State): State {
    if !s.attached then s
    else
      var im := UnpatchFrom(s.image, 0);
      s.(image := im.(table := ClearUsed(im.table)), count := 0)
  }

  function StepCommand(s: State): State {
    if !s.attached || !s.stopped then s
    else
      var i := FindByAddr(s.image.table, s.trapPc, 0);
      s.(image := if i < |s.image.table| then Unpatch(s.image, i) else s.image,
         resumePc := s.trapPc, stepRequest := true, stopped := false,
         target := s.target.(signalled := true))
  }

  function ContinueCommand(s: State): State {
    if !s.attached || !s.stopped then s
    else s.(stopped := false, target := s.target.(signalled := true))
  }

  /** DBGNEXT continues when a breakpoint lies above the stop, else it steps. */
  function NextCommand(s: State): State {
    if exists i :: 0 <= i < |s.image.table| && s.image.table[i].used && !s.image.table[i].temporary
                   && s.trapPc < s.image.table[i].address < 0xFFFFFFFF
    then ContinueCommand(s) else StepCommand(s)
  }

  /** DBGBREAK asks a running target to pause, and takes it as stopped at once. */
  function BreakCommand(s: State): State {
    if !s.attached || s.stopped then s
    else s.(stopped := true, target := s.target.(signalled := true))
  }

  /** DBGATTACH leaves the task as it is, with its signals. */
  function AttachCommand(s: State, task: Target, waiting: bool): State {
    if s.attached then s
    else s.(image := s.image.(table := EmptyTable()), count := 0,
            attached := true, trapHit := false, stopped := waiting, target := task)
  }

  /** dbg_poll: temporary entries would be dropped here. */
  function PollCommand(s: State): State {
    if !s.attached || !s.trapHit then s
    else s.(trapHit := false, stopped := true,
            image := s.image.(table := DropTemporary(s.image.table)),
            count := s.count - TemporaryCount(s.image.table))
  }

  function DropTemporary(table: seq<Breakpoint>): (r: seq<Breakpoint>)
    ensures |r| == |table|
    ensures forall i :: 0 <= i < |table| ==> r[i] == if table[i].temporary then table[i].(used := false) else table[i]
  {
    if table == [] then []
    else [if table[0].temporary then table[0].(used := false) else table[0]] + DropTemporary(table[1..])
  }

  function TemporaryCount(table: seq<Breakpoint>): nat {
    if table == [] then 0
    else TemporaryCount(table[1..]) + if table[0].used && table[0].temporary then 1 else 0
  }

  /** The part of DBGDETACH after the target has been let go. */
  function FinishDetach(s: State): State {
    s.(image := s.image.(table := ClearUsed(s.image.table)), installed := false, attached := false,
       stopped := false, count := 0, trapHit := false, detaching := false)
  }

  function DetachCommand(s: State): State {
    if !s.attached then s
    else if s.stopped then
      s.(trapHit := false, stepRequest := false, image := UnpatchFrom(s.image, 0),
         target := s.target.(signalled := true), detaching := true)
    else FinishDetach(s.(image := UnpatchFrom(s.image, 0)))
  }

  function Execute(s: State, c: Command): State
  {
    match c
    case Attach(task, waiting) => AttachCommand(s, task, waiting)
    case BpSet(address) => SetBp(s, address)
    case BpClear(id, address) => ClearBp(s, id, address)
    case ClearAll => ClearAllBps(s)
    case Step => StepCommand(s)
    case Continue => ContinueCommand(s)
    case Next => NextCommand(s)
    case Break => BreakCommand(s)
    case Poll => PollCommand(s)
    case Detach => DetachCommand(s)
  }

  // ------------------------------------------------------------- target side

  /** trap15_handler: restore the word, remember the first hit, trace one instruction. */
  function TrapHandler(s: State): State {
    var i := FindByAddr(s.image.table, s.target.pc, 0);
    var hit := s.(
      image := if i < |s.image.table|
               then Image(WriteWord(s.image.mem, s.target.pc, s.image.table[i].original),
                          s.image.table[i := s.image.table[i].(enabled := false)])
               else s.image,
      mode := StepPastBp, target := s.target.(trace := true));
    if s.trapHit then hit else hit.(trapPc := s.target.pc, trapHit := true)
  }

  /** trace_handler, with the traced instruction's successor in the frame. */
  function TraceHandler(s: State, next: nat): State {
    var t := s.(target := s.target.(trace := false));
    match s.mode
    case NoStep => t.(target := t.target.(pc := next))
    case StepPastBp =>
      t.(mode := NoStep, resumePc := next, image := RearmFrom(s.image, 0),
         target := t.target.(parked := true))
    case StepSingle =>
      t.(mode := NoStep, trapPc := next, resumePc := next, trapHit := true,
         image := RearmFrom(s.image, 0), target := t.target.(parked := true))
  }

  /** A write by the target changes memory and what memory would be alike. */
  function Written(s: State, writes: Memory): State {
    s.(image := s.image.(mem := s.image.mem + writes), pristine := s.pristine + writes)
  }

  function ExecInstruction(s: State, next: nat, writes: Memory): State {
    var t := Written(s, writes);
    if s.target.trace then TraceHandler(t, next) else t.(target := s.target.(pc := next))
  }

  /** The pause stub after its Wait: continue, or TRAP #14 into trap14_handler. */
  function WakeStub(s: State): State {
    var awake := s.target.(parked := false, signalled := false, pc := s.resumePc);
    if s.stepRequest then s.(stepRequest := false, mode := StepSingle, target := awake.(trace := true))
    else s.(target := awake)
  }

  function Apply(s: State, e: Event): State
    requires Enabled(s, e)
  {
    match e
    case Daemon(c) => Execute(s, c)
    case DetachEnd => FinishDetach(s.(target := s.target.(signalled := true)))
    case Exec(next, writes) => ExecInstruction(s, next, writes)
    case Trap => TrapHandler(s)
    case StubWakes => WakeStub(s)
    case OwnWait => s.(target := s.target.(signalled := false))
  }

  // ---------------------------------------------------------------- invariant

  predicate NoneEnabled(table: seq<Breakpoint>) {
    forall i :: 0 <= i < |table| ==> !table[i].enabled
  }

  ghost predicate Inv(s: State) {
    && ImageOk(s.image, s.pristine)
    && s.count == UsedCount(s.image.table)
    && (s.detaching ==> s.attached && !s.target.trace && !s.stepRequest)
    && (s.detaching || !s.attached ==> NoneEnabled(s.image.table))
    && (s.installed ==> s.attached)
    && (forall i :: 0 <= i < |s.image.table| && s.image.table[i].used ==> s.installed)
    && (s.target.trace ==> !s.target.parked && s.mode != NoStep)
  }

  /** DBGDETACH of a stopped target is not issued in the trap-to-trace window. */
  predicate SafeDetach(s: State, e: Event) {
    e == Daemon(Detach) && s.attached && s.stopped ==> !s.target.trace
  }

  lemma UnpatchCounts(im: Image, i: nat)
    requires i < |im.table|
    ensures UsedCount(Unpatch(im, i).table) == UsedCount(im.table)
  {
    UsedCountUpdate(im.table, i, im.table[i].(enabled := false));
  }

  lemma UnpatchAllKeeps(im: Image, pristine: Memory)
    requires ImageOk(im, pristine)
    ensures var t := UnpatchFrom(im, 0);
            && ImageOk(t, pristine) && NoneEnabled(t.table) && t.mem == pristine
            && SameEntries(im.table, t.table) && UsedCount(t.table) == UsedCount(im.table)
  {
    UnpatchFromKeeps(im, pristine, 0);
    UnpatchFromEntries(im, 0);
    UsedCountSame(im.table, UnpatchFrom(im, 0).table);
    NothingEnabledIsPristine(UnpatchFrom(im, 0), pristine);
  }

  lemma RearmAllKeeps(im: Image, pristine: Memory)
    requires ImageOk(im, pristine)
    ensures var t := RearmFrom(im, 0);
            && ImageOk(t, pristine)
            && SameEntries(im.table, t.table) && UsedCount(t.table) == UsedCount(im.table)
            && forall i :: 0 <= i < |t.table| && t.table[i].used ==> t.table[i].enabled
  {
    RearmFromKeeps(im, pristine, 0);
    RearmFromEntries(im, 0);
    UsedCountSame(im.table, RearmFrom(im, 0).table);
  }

  /** A free entry becomes an armed breakpoint. */
  lemma ArmNewEntry(im: Image, pristine: Memory, i: nat, address: nat)
    requires ImageOk(im, pristine) && i < |im.table| && !im.table[i].used
    requires address in im.mem && address % 2 == 0 && address + 1 in im.mem
    requires FindByAddr(im.table, address, 0) == |im.table|
    ensures var entry := Breakpoint(address, ReadWord(im.mem, address), false, false, true);
            var t := Patch(im.(table := im.table[i := entry]), i);
            && ImageOk(t, pristine) && UsedCount(t.table) == UsedCount(im.table) + 1
            && t.table == im.table[i := entry.(enabled := true)]
  {
    hide ImageOk, UsedCount, FindByAddr;
    var entry := Breakpoint(address, ReadWord(im.mem, address), false, false, true);
    NewEntryKeeps(im, pristine, i, address);
    ArmKeeps(im.(table := im.table[i := entry]), pristine, i);
    UsedCountUpdate(im.table, i, entry.(enabled := true));
    assert im.table[i := entry][i := entry.(enabled := true)] == im.table[i := entry.(enabled := true)];
  }

  lemma SetBpKeeps(s: State, address: nat)
    requires Inv(s) && !s.detaching
    ensures Inv(SetBp(s, address))
  {
    hide ImageOk, UsedCount, Patch, WriteWord;
    var table := s.image.table;
    var i := FindFree(table, 0);
    if s.attached && address in s.image.mem && address % 2 == 0 && address + 1 in s.image.mem
       && FindByAddr(table, address, 0) == |table| && i < |table| {
      ArmNewEntry(s.image, s.pristine, i, address);
    }
  }

  lemma RemoveKeeps(s: State, i: nat)
    requires Inv(s) && s.attached && !s.detaching && i < |s.image.table| && s.image.table[i].used
    ensures Inv(Remove(s, i))
  {
    hide ImageOk, UsedCount;
    UnpatchKeeps(s.image, s.pristine, i);
    UnpatchCounts(s.image, i);
    var im := Unpatch(s.image, i);
    assert !im.table[i].enabled && im.table[i].used;
    RemoveEntryKeeps(im, s.pristine, i);
    UsedCountUpdate(im.table, i, im.table[i].(used := false));
  }

  lemma ClearAllKeeps(s: State)
    requires Inv(s) && !s.detaching
    ensures Inv(ClearAllBps(s))
    ensures s.attached ==> ClearAllBps(s).image.mem == s.pristine
  {
    UnpatchAllKeeps(s.image, s.pristine);
    ClearUsedKeeps(UnpatchFrom(s.image, 0), s.pristine);
    UsedCountCleared(UnpatchFrom(s.image, 0).table);
  }

  lemma StepCommandKeeps(s: State)
    requires Inv(s) && !s.detaching
    ensures Inv(StepCommand(s))
  {
    var i := FindByAddr(s.image.table, s.trapPc, 0);
    if i < |s.image.table| {
      UnpatchKeeps(s.image, s.pristine, i);
      UnpatchCounts(s.image, i);
    }
  }

  lemma AttachKeeps(s: State, task: Target, waiting: bool)
    requires Inv(s) && !s.detaching && (s.attached || Attachable(s, task, waiting))
    ensures Inv(AttachCommand(s, task, waiting))
  {
    if !s.attached {
      EmptyTableKeeps(s.image, s.pristine);
      EmptyTableCount();
      hide ImageOk, UsedCount;
    }
  }

  lemma {:induction false} NothingTemporary(table: seq<Breakpoint>)
    requires forall i :: 0 <= i < |table| && table[i].temporary ==> !table[i].used
    ensures TemporaryCount(table) == 0
    ensures DropTemporary(table) == table
  {
    if table != [] { NothingTemporary(table[1..]); }
  }

  lemma PollKeeps(s: State)
    requires Inv(s) && !s.detaching
    ensures Inv(PollCommand(s))
    ensures PollCommand(s).image == s.image
  {
    NothingTemporary(s.image.table);
  }

  lemma DetachKeeps(s: State)
    requires Inv(s) && !s.detaching && SafeDetach(s, Daemon(Detach))
    ensures Inv(DetachCommand(s))
  {
    UnpatchAllKeeps(s.image, s.pristine);
    ClearUsedKeeps(UnpatchFrom(s.image, 0), s.pristine);
    UsedCountCleared(UnpatchFrom(s.image, 0).table);
  }

  lemma FinishDetachKeeps(s: State)
    requires Inv(s) && s.detaching
    ensures Inv(FinishDetach(s)) && FinishDetach(s).image.mem == s.pristine
  {
    ClearUsedKeeps(s.image, s.pristine);
    UsedCountCleared(s.image.table);
    NothingEnabledIsPristine(s.image, s.pristine);
  }

  lemma ClearBpKeeps(s: State, id: int, address: nat)
    requires Inv(s) && !s.detaching
    ensures Inv(ClearBp(s, id, address))
  {
    hide Inv, Remove;
    if s.attached {
      if 0 <= id < |s.image.table| && s.image.table[id].used {
        RemoveKeeps(s, id);
      } else if FindByAddr(s.image.table, address, 0) < |s.image.table| {
        RemoveKeeps(s, FindByAddr(s.image.table, address, 0));
      }
    }
  }

  lemma ContinueKeeps(s: State)
    requires Inv(s) && !s.detaching
    ensures Inv(ContinueCommand(s))
  {
    hide ImageOk, UsedCount;
  }

  lemma BreakKeeps(s: State)
    requires Inv(s) && !s.detaching
    ensures Inv(BreakCommand(s))
  {
    hide ImageOk, UsedCount;
  }

  lemma CommandKeepsInv(s: State, c: Command)
    requires Inv(s) && Enabled(s, Daemon(c)) && SafeDetach(s, Daemon(c))
    ensures Inv(Execute(s, c))
  {
    hide Inv, Attachable, AttachCommand, SetBp, ClearBp, ClearAllBps, StepCommand, ContinueCommand, BreakCommand,
      PollCommand, DetachCommand;
    match c
    case Attach(task, waiting) => AttachKeeps(s, task, waiting);
    case BpSet(address) => SetBpKeeps(s, address);
    case BpClear(id, address) => ClearBpKeeps(s, id, address);
    case ClearAll => ClearAllKeeps(s);
    case Step => StepCommandKeeps(s);
    case Continue => ContinueKeeps(s);
    case Next =>
      StepCommandKeeps(s);
      ContinueKeeps(s);
    case Break => BreakKeeps(s);
    case Poll => PollKeeps(s);
    case Detach => DetachKeeps(s);
  }

  /** A TRAP #15 met by the target is always one of the enabled entries. */
  lemma TrapIsOurs(s: State)
    requires Inv(s) && Enabled(s, Trap)
    ensures var i := FindByAddr(s.image.table, s.target.pc, 0);
            i < |s.image.table| && s.image.table[i].enabled && s.image.table[i].address == s.target.pc
    ensures TrapHandler(s).image == Unpatch(s.image, FindByAddr(s.image.table, s.target.pc, 0))
  {
    var i := FindByAddr(s.image.table, s.target.pc, 0);
    if i < |s.image.table| {
      if !s.image.table[i].enabled { DisabledHoldsPristine(s.image, s.pristine, i); }
    } else {
      UnlistedHoldsPristine(s.image, s.pristine, s.target.pc);
    }
  }

  lemma TrapKeepsInv(s: State)
    requires Inv(s) && Enabled(s, Trap)
    ensures Inv(TrapHandler(s))
  {
    TrapIsOurs(s);
    var i := FindByAddr(s.image.table, s.target.pc, 0);
    UnpatchKeeps(s.image, s.pristine, i);
    UnpatchCounts(s.image, i);
  }

  lemma TraceKeepsInv(s: State, next: nat)
    requires Inv(s) && s.target.trace && s.installed
    ensures Inv(TraceHandler(s, next))
  {
    hide ImageOk;
    RearmAllKeeps(s.image, s.pristine);
  }

  lemma WritesKeepInv(s: State, next: nat, writes: Memory)
    requires Inv(s) && Enabled(s, Exec(next, writes))
    ensures Inv(Written(s, writes))
  {
    WritesKeep(s.image, s.pristine, writes);
  }

  lemma ExecKeepsInv(s: State, next: nat, writes: Memory)
    requires Inv(s) && Enabled(s, Exec(next, writes))
    ensures Inv(ExecInstruction(s, next, writes))
  {
    WritesKeepInv(s, next, writes);
    hide ImageOk;
    if s.target.trace { TraceKeepsInv(Written(s, writes), next); }
  }

  lemma StepKeepsInv(s: State, e: Event)
    requires Inv(s) && Enabled(s, e) && SafeDetach(s, e)
    ensures Inv(Apply(s, e))
  {
    match e
    case Daemon(c) => CommandKeepsInv(s, c);
    case DetachEnd => FinishDetachKeeps(s);
    case Exec(next, writes) => ExecKeepsInv(s, next, writes);
    case Trap => TrapKeepsInv(s);
    case StubWakes =>
    case OwnWait =>
  }

  ghost predicate SafeRun(s: State, es: seq<Event>)
    decreases |es|
  {
    es == []
    || (Enabled(s, es[0]) && SafeDetach(s, es[0]) && SafeRun(Apply(s, es[0]), es[1..]))
  }

  ghost function Run(s: State, es: seq<Event>): State
    requires SafeRun(s, es)
    decreases |es|
  {
    if es == [] then s else Run(Apply(s, es[0]), es[1..])
  }

  lemma {:induction false} RunKeepsInv(s: State, es: seq<Event>)
    requires Inv(s) && SafeRun(s, es)
    ensures Inv(Run(s, es))
    decreases |es|
  {
    if es != [] {
      StepKeepsInv(s, es[0]);
      hide ImageOk, Apply;
      RunKeepsInv(Apply(s, es[0]), es[1..]);
    }
  }

  /** The debugger at rest over some RAM. */
  function Start(ram: Memory, pc: nat): State {
    State(Image(ram, EmptyTable()), ram, 0, false, false, false, false, 0, 0, NoStep,
          false, false, Target(pc, false, false, false))
  }

  /** Patch integrity over every interleaving of daemon commands and target steps. */
  lemma PatchIntegrity(ram: Memory, pc: nat, es: seq<Event>)
    requires EvenRegions(ram) && SafeRun(Start(ram, pc), es)
    ensures var s := Run(Start(ram, pc), es); var table := s.image.table;
            && |table| == MAX_BREAKPOINTS
            // used entries: distinct even addresses, none temporary, counted
            && (forall i :: 0 <= i < |table| && table[i].used ==> table[i].address % 2 == 0 && !table[i].temporary)
            && (forall i, j :: 0 <= i < j < |table| && table[i].used && table[j].used ==>
                 table[i].address != table[j].address)
            && s.count == UsedCount(table)
            // enabled entries hold TRAP #15, disabled ones the pristine word
            && (forall i :: 0 <= i < |table| && table[i].used ==>
                 && table[i].address in s.image.mem && table[i].address + 1 in s.image.mem
                 && table[i].address in s.pristine && table[i].address + 1 in s.pristine
                 && ReadWord(s.image.mem, table[i].address)
                    == if table[i].enabled then TRAP15 else ReadWord(s.pristine, table[i].address))
            // and the saved words give back the pristine image
            && Restored(s.image.mem, table, 0) == s.pristine
  {
    StartKeepsInv(ram, pc);
    hide Run, SafeRun, Start;
    RunKeepsInv(Start(ram, pc), es);
    InvMeans(Run(Start(ram, pc), es));
  }

  lemma StartKeepsInv(ram: Memory, pc: nat)
    requires EvenRegions(ram)
    ensures Inv(Start(ram, pc))
  {
    EmptyTableCount();
    EmptyImageOk(ram);
    hide ImageOk, EmptyTable, UsedCount;
  }

  lemma EmptyImageOk(ram: Memory)
    requires EvenRegions(ram)
    ensures ImageOk(Image(ram, EmptyTable()), ram)
  {
    hide EvenRegions;
  }

  /** What the invariant says of the table, memory and the target's own memory. */
  lemma InvMeans(s: State)
    requires Inv(s)
    ensures var table := s.image.table;
            && |table| == MAX_BREAKPOINTS
            && (forall i :: 0 <= i < |table| && table[i].used ==> table[i].address % 2 == 0 && !table[i].temporary)
            && (forall i, j :: 0 <= i < j < |table| && table[i].used && table[j].used ==>
                 table[i].address != table[j].address)
            && s.count == UsedCount(table)
            && (forall i :: 0 <= i < |table| && table[i].used ==>
                 && table[i].address in s.image.mem && table[i].address + 1 in s.image.mem
                 && table[i].address in s.pristine && table[i].address + 1 in s.pristine
                 && ReadWord(s.image.mem, table[i].address)
                    == if table[i].enabled then TRAP15 else ReadWord(s.pristine, table[i].address))
            && Restored(s.image.mem, table, 0) == s.pristine
  {
    RestoredIsPristine(s.image, s.pristine);
    forall i | 0 <= i < |s.image.table| && s.image.table[i].used
      ensures s.image.table[i].address in s.image.mem && s.image.table[i].address + 1 in s.image.mem
      ensures ReadWord(s.image.mem, s.image.table[i].address)
              == if s.image.table[i].enabled then TRAP15 else ReadWord(s.pristine, s.image.table[i].address)
    {
      if !s.image.table[i].enabled { DisabledHoldsPristine(s.image, s.pristine, i); }
    }
    hide Restored, ReadWord, UsedCount, ElsewherePristine;
  }

  /** CLEARALL leaves memory pristine at any time, even between trap and trace. */
  lemma ClearAllLeavesPristine(s: State)
    requires Inv(s) && s.attached && !s.detaching
    ensures var t := Execute(s, ClearAll);
            t.image.mem == t.pristine == s.pristine && t.count == 0 && UsedCount(t.image.table) == 0
  {
    ClearAllKeeps(s);
  }

  // ------------------------------------------------------------- detaching

  /** The target alone runs, as it does during the Delay of DBGDETACH. */
  ghost predicate TargetRuns(s: State, es: seq<Event>)
    decreases |es|
  {
    es == [] || (!es[0].Daemon? && !es[0].DetachEnd? && Enabled(s, es[0])
                 && TargetRuns(Apply(s, es[0]), es[1..]))
  }

  ghost function AfterTarget(s: State, es: seq<Event>): State
    requires TargetRuns(s, es)
    decreases |es|
  {
    if es == [] then s else AfterTarget(Apply(s, es[0]), es[1..])
  }

  /** Whatever the target does during the Delay, DBGDETACH ends on pristine memory. */
  ghost predicate DetachRestores(s: State) {
    forall es {:trigger TargetRuns(DetachCommand(s), es)} :: TargetRuns(DetachCommand(s), es) ==>
      var t := FinishDetach(AfterTarget(DetachCommand(s), es)); t.image.mem == t.pristine
  }

  ghost predicate NothingUsed(s: State) {
    forall i :: 0 <= i < |s.image.table| ==> !s.image.table[i].used
  }

  lemma {:induction false} SafeDelay(s: State, es: seq<Event>)
    requires Inv(s) && s.detaching && TargetRuns(s, es)
    ensures var t := FinishDetach(AfterTarget(s, es)); t.image.mem == t.pristine
    decreases |es|
  {
    if es == [] {
      FinishDetachKeeps(s);
    } else {
      StepKeepsInv(s, es[0]);
      SafeDelay(Apply(s, es[0]), es[1..]);
    }
  }

  lemma {:induction false} RearmNothing(im: Image, i: nat)
    requires i <= |im.table| && forall j :: 0 <= j < |im.table| ==> !im.table[j].used
    ensures RearmFrom(im, i) == im
    decreases |im.table| - i
  {
    if i < |im.table| { RearmNothing(im, i + 1); }
  }

  lemma EmptyTableExec(s: State, next: nat, writes: Memory)
    requires NothingUsed(s) && s.image.mem == s.pristine
    ensures var t := ExecInstruction(s, next, writes); NothingUsed(t) && t.image.mem == t.pristine
  {
    var w := Written(s, writes);
    assert w.image.table == s.image.table && w.image.mem == w.pristine;
    RearmNothing(w.image, 0);
    hide *;
    ExecImage(s, next, writes);
    SameTable(s, ExecInstruction(s, next, writes));
  }

  lemma TraceImage(s: State, next: nat)
    ensures var t := TraceHandler(s, next);
            t.pristine == s.pristine && t.image == if s.mode == NoStep then s.image else RearmFrom(s.image, 0)
  {
    hide RearmFrom;
    match s.mode
    case NoStep =>
    case StepPastBp =>
    case StepSingle =>
  }

  lemma ExecImage(s: State, next: nat, writes: Memory)
    ensures var t, w := ExecInstruction(s, next, writes), Written(s, writes);
            && t.pristine == w.pristine
            && t.image == if s.target.trace && s.mode != NoStep then RearmFrom(w.image, 0) else w.image
  {
    TraceImage(Written(s, writes), next);
    assert Written(s, writes).mode == s.mode;
    hide TraceHandler, RearmFrom, Written;
  }

  lemma SameTable(s: State, t: State)
    requires NothingUsed(s) && t.image.table == s.image.table
    ensures NothingUsed(t)
  {
  }

  lemma EmptyTableStep(s: State, e: Event)
    requires NothingUsed(s) && s.image.mem == s.pristine && Enabled(s, e) && (e.Exec? || e.StubWakes? || e.OwnWait?)
    ensures NothingUsed(Apply(s, e)) && Apply(s, e).image.mem == Apply(s, e).pristine
  {
    hide ExecInstruction, Enabled;
    if e.Exec? { EmptyTableExec(s, e.next, e.writes); }
  }

  lemma {:induction false} EmptyTableDelay(s: State, es: seq<Event>)
    requires NothingUsed(s) && s.image.mem == s.pristine && TargetRuns(s, es)
    ensures var t := FinishDetach(AfterTarget(s, es)); t.image.mem == t.pristine
    decreases |es|
  {
    if es != [] {
      assert !Enabled(s, Trap);
      EmptyTableStep(s, es[0]);
      hide Apply;
      EmptyTableDelay(Apply(s, es[0]), es[1..]);
    }
  }

  /** The target's own code has no TRAP #15 at its PC or under a breakpoint. */
  ghost predicate NoOwnTraps(s: State) {
    && !AtTrap(s.pristine, s.target.pc)
    && forall i :: 0 <= i < |s.image.table| && s.image.table[i].used ==> s.image.table[i].original != TRAP15
  }

  lemma RearmedIsNotPristine(im: Image, pristine: Memory, i: nat)
    requires ImageOk(im, pristine) && i < |im.table| && im.table[i].used && im.table[i].original != TRAP15
    ensures RearmFrom(im, 0).mem != pristine
  {
    RearmAllKeeps(im, pristine);
    var r := RearmFrom(im, 0);
    assert SameEntry(im.table[i], r.table[i]);
    assert ReadWord(r.mem, r.table[i].address) == TRAP15;
  }

  /** A traced instruction that writes nothing only re-arms the table. */
  lemma TracedInstructionRearms(s: State, next: nat)
    requires s.target.trace && s.mode != NoStep
    ensures ExecInstruction(s, next, map[]).image == RearmFrom(s.image, 0)
    ensures ExecInstruction(s, next, map[]).pristine == s.pristine
  {
    assert s.image.mem + map[] == s.image.mem && s.pristine + map[] == s.pristine;
  }

  lemma DetachedRuns(s: State)
    requires Inv(s) && s.attached && s.stopped && !s.detaching && NoOwnTraps(s) && s.target.trace && !NothingUsed(s)
    ensures var d := DetachCommand(s);
            && Enabled(d, Exec(s.target.pc, map[])) && d.target.trace && d.mode != NoStep
            && ImageOk(d.image, d.pristine) && SameEntries(s.image.table, d.image.table)
            && d.pristine == s.pristine
  {
    assert s.installed;
    UnpatchAllKeeps(s.image, s.pristine);
    hide ImageOk, UnpatchFrom, SameEntries;
  }

  lemma OneEvent(s: State, e: Event)
    requires !e.Daemon? && !e.DetachEnd? && Enabled(s, e)
    ensures TargetRuns(s, [e]) && AfterTarget(s, [e]) == Apply(s, e)
  {
    hide Enabled, Apply;
    assert [e][1..] == [];
    assert TargetRuns(Apply(s, e), []) && AfterTarget(Apply(s, e), []) == Apply(s, e);
  }

  /** In the trap-to-trace window one traced instruction re-arms the table behind
      DBGDETACH's back. */
  lemma WindowDetachFails(s: State, i: nat)
    requires Inv(s) && s.attached && s.stopped && !s.detaching && NoOwnTraps(s)
    requires s.target.trace && i < |s.image.table| && s.image.table[i].used
    ensures var d := DetachCommand(s); var es := [Exec(s.target.pc, map[])];
            && TargetRuns(d, es)
            && FinishDetach(AfterTarget(d, es)).image.mem != FinishDetach(AfterTarget(d, es)).pristine
  {
    var d, e := DetachCommand(s), Exec(s.target.pc, map[]);
    assert !NothingUsed(s) && s.image.table[i].original != TRAP15;
    DetachedRuns(s);
    assert SameEntry(s.image.table[i], d.image.table[i]);
    hide Inv, ImageOk, DetachCommand, RearmFrom, ExecInstruction, Enabled, TargetRuns, AfterTarget, ClearUsed;
    OneEvent(d, e);
    TracedInstructionRearms(d, s.target.pc);
    RearmedIsNotPristine(d.image, s.pristine, i);
  }

  /** DBGDETACH of a stopped target leaves memory pristine on every schedule if and
      only if it is not issued between a trap and its trace exception (or there is
      nothing to re-arm). */
  lemma DetachRestoresIff(s: State)
    requires Inv(s) && s.attached && s.stopped && !s.detaching && NoOwnTraps(s)
    ensures DetachRestores(s) <==> !s.target.trace || NothingUsed(s)
  {
    hide *;
    if !s.target.trace {
      SafeDetachRestores(s);
    } else if NothingUsed(s) {
      EmptyDetachRestores(s);
    } else {
      var i := SomeUsed(s);
      WindowDetachFails(s, i);
      FailsOnce(s, [Exec(s.target.pc, map[])]);
    }
  }

  lemma SafeDetachRestores(s: State)
    requires Inv(s) && s.attached && s.stopped && !s.detaching && !s.target.trace
    ensures DetachRestores(s)
  {
    var d := DetachCommand(s);
    StepKeepsInv(s, Daemon(Detach));
    hide Inv;
    forall es | TargetRuns(d, es)
      ensures var t := FinishDetach(AfterTarget(d, es)); t.image.mem == t.pristine
    {
      SafeDelay(d, es);
    }
  }

  lemma EmptyDetachRestores(s: State)
    requires Inv(s) && s.attached && s.stopped && !s.detaching && NothingUsed(s)
    ensures DetachRestores(s)
  {
    var d := DetachCommand(s);
    UnpatchAllKeeps(s.image, s.pristine);
    forall i | 0 <= i < |d.image.table| ensures !d.image.table[i].used {
      assert SameEntry(s.image.table[i], d.image.table[i]);
    }
    hide Inv, UnpatchFrom, ImageOk;
    forall es | TargetRuns(d, es)
      ensures var t := FinishDetach(AfterTarget(d, es)); t.image.mem == t.pristine
    {
      EmptyTableDelay(d, es);
    }
  }

  lemma SomeUsed(s: State) returns (i: nat)
    requires !NothingUsed(s)
    ensures i < |s.image.table| && s.image.table[i].used
  {
    i :| i < |s.image.table| && s.image.table[i].used;
  }

  lemma FailsOnce(s: State, es: seq<Event>)
    requires var d := DetachCommand(s);
             && TargetRuns(d, es)
             && FinishDetach(AfterTarget(d, es)).image.mem != FinishDetach(AfterTarget(d, es)).pristine
    ensures !DetachRestores(s)
  {
    hide DetachCommand, TargetRuns, FinishDetach, AfterTarget;
  }

  // A concrete run into the window: attach, set a breakpoint on the next instruction,
  // trap on it, and report the stop before the traced instruction has run.

  const NOP := Word(0x4E, 0x71)

  const RAM: Memory := map[0 := 0x4E, 1 := 0x71]

  function BreakAtZero(enabled: bool): (table: seq<Breakpoint>)
    ensures |table| == MAX_BREAKPOINTS
  {
    EmptyTable()[0 := Breakpoint(0, NOP, enabled, false, true)]
  }

  const ATTACH := Attach(Target(0, false, false, false), false)

  const ATTACHED := Start(RAM, 0).(attached := true)

  const ARMED := ATTACHED.(
    image := Image(map[0 := 0x4E, 1 := 0x4F], BreakAtZero(true)), count := 1, installed := true)

  const TRAPPED := ARMED.(
    image := Image(RAM, BreakAtZero(false)), mode := StepPastBp, trapHit := true,
    target := Target(0, true, false, false))

  const REPORTED := TRAPPED.(trapHit := false, stopped := true)

  lemma Attaches()
    ensures Execute(Start(RAM, 0), ATTACH) == ATTACHED
  {
    hide EmptyTable;
  }

  lemma Arms()
    ensures Execute(ATTACHED, BpSet(0)) == ARMED
  {
    var table := EmptyTable();
    assert FindByAddr(table, 0, 0) == |table|;
    assert FindFree(table, 0) == 0;
    var entry := Breakpoint(0, NOP, false, false, true);
    assert table[0 := entry][0 := entry.(enabled := true)] == BreakAtZero(true);
    assert WriteWord(RAM, 0, TRAP15) == map[0 := 0x4E, 1 := 0x4F];
    assert ReadWord(RAM, 0) == NOP;
    hide EmptyTable, BreakAtZero, FindByAddr, FindFree, WriteWord, ReadWord;
    var im := Image(RAM, table[0 := entry]);
    assert Patch(im, 0) == Image(WriteWord(RAM, 0, TRAP15), table[0 := entry][0 := entry.(enabled := true)]);
  }

  lemma Traps()
    ensures Enabled(ARMED, Trap) && TrapHandler(ARMED) == TRAPPED
  {
    assert FindByAddr(BreakAtZero(true), 0, 0) == 0;
    assert BreakAtZero(true)[0 := Breakpoint(0, NOP, false, false, true)] == BreakAtZero(false);
    assert WriteWord(ARMED.image.mem, 0, NOP) == RAM;
    hide EmptyTable;
  }

  lemma TrappedIs()
    ensures TRAPPED.attached && TRAPPED.trapHit && TRAPPED.image.table == BreakAtZero(false)
    ensures REPORTED == TRAPPED.(trapHit := false, stopped := true)
    ensures forall i :: 0 <= i < |BreakAtZero(false)| ==> !BreakAtZero(false)[i].temporary
  {
  }

  lemma PollsOnly(s: State)
    requires s.attached && s.trapHit
    requires DropTemporary(s.image.table) == s.image.table && TemporaryCount(s.image.table) == 0
    ensures Execute(s, Poll) == s.(trapHit := false, stopped := true)
  {
    hide DropTemporary, TemporaryCount;
  }

  lemma Reports()
    ensures Execute(TRAPPED, Poll) == REPORTED
  {
    hide *;
    TrappedIs();
    NothingTemporary(BreakAtZero(false));
    PollsOnly(TRAPPED);
  }

  /** A step in front of a run. */
  lemma RunsOn(s: State, e: Event, es: seq<Event>)
    requires Enabled(s, e) && SafeDetach(s, e) && SafeRun(Apply(s, e), es)
    ensures SafeRun(s, [e] + es) && Run(s, [e] + es) == Run(Apply(s, e), es)
  {
    hide Enabled, Apply, SafeDetach;
    assert ([e] + es)[0] == e && ([e] + es)[1..] == es;
  }

  /** The window is reached, with a breakpoint set and the stop reported. */
  lemma WindowIsReachable()
    ensures var es := [Daemon(ATTACH)] + ([Daemon(BpSet(0))] + ([Trap] + [Daemon(Poll)]));
            && SafeRun(Start(RAM, 0), es)
            && var s := Run(Start(RAM, 0), es);
            && s.attached && s.stopped && !s.detaching && s.target.trace
            && s.image.table != [] && s.image.table[0].used
            && NoOwnTraps(s)
  {
    Attaches();
    Arms();
    Traps();
    Reports();
    assert SafeRun(REPORTED, []) && Run(REPORTED, []) == REPORTED;
    hide Execute, TrapHandler, FindByAddr, FindFree, SafeRun, Run;
    RunsOn(TRAPPED, Daemon(Poll), []);
    assert [Daemon(Poll)] + [] == [Daemon(Poll)];
    RunsOn(ARMED, Trap, [Daemon(Poll)]);
    RunsOn(ATTACHED, Daemon(BpSet(0)), [Trap] + [Daemon(Poll)]);
    RunsOn(Start(RAM, 0), Daemon(ATTACH), [Daemon(BpSet(0))] + ([Trap] + [Daemon(Poll)]));
  }

  /** DBGDETACH of a running target is a single step and always restores memory. */
  lemma DetachRunningRestores(s: State)
    requires Inv(s) && s.attached && !s.stopped && !s.detaching
    ensures var t := DetachCommand(s);
            t.image.mem == t.pristine && !t.attached && !t.installed && t.count == 0 && NothingUsed(t)
  {
    UnpatchAllKeeps(s.image, s.pristine);
  }

  // ----------------------------------------------- stops and single steps

  /** The target waits in the pause stub and the stop has been reported. */
  predicate ReportedStop(s: State) {
    && s.attached && s.installed && s.stopped && !s.trapHit && !s.detaching && !s.stepRequest
    && s.mode == NoStep && s.target.parked && !s.target.signalled && !s.target.trace
  }

  /** The target is in the pause stub behind an instruction that was traced. */
  predicate HitStop(s: State, trapPc: nat, resumePc: nat) {
    && s.attached && s.installed && s.trapHit && !s.detaching
    && s.mode == NoStep && s.target.parked && !s.target.trace
    && s.trapPc == trapPc && s.resumePc == resumePc
  }

  /** It waits there: nothing is left over that would let it go on by itself. */
  predicate UnreportedStop(s: State, trapPc: nat, resumePc: nat) {
    HitStop(s, trapPc, resumePc) && !s.stepRequest && !s.target.signalled
  }

  ghost predicate AllArmed(s: State) {
    forall i :: 0 <= i < |s.image.table| && s.image.table[i].used ==>
      && s.image.table[i].enabled
      && AtTrap(s.image.mem, s.image.table[i].address)
  }

  /** No entry is patched at `a`, so memory there is the target's own. */
  predicate Unpatched(s: State, a: nat) {
    forall i :: 0 <= i < |s.image.table| && s.image.table[i].enabled ==> s.image.table[i].address != a
  }

  /** A step has been requested and the stub has not woken yet. */
  predicate StepPending(s: State, a: nat) {
    && s.attached && s.installed && !s.stopped && !s.trapHit && !s.detaching && s.stepRequest
    && s.mode == NoStep && s.target.parked && s.target.signalled && !s.target.trace
    && s.trapPc == a && s.resumePc == a && Unpatched(s, a)
  }

  /** The stub has gone through TRAP #14: the instruction at `a` is traced next. */
  predicate StepTracing(s: State, a: nat) {
    && s.attached && s.installed && !s.stopped && !s.trapHit && !s.detaching && !s.stepRequest
    && s.mode == StepSingle && !s.target.parked && !s.target.signalled && s.target.trace
    && s.target.pc == a && s.trapPc == a && Unpatched(s, a)
  }

  /** BPSET would put a breakpoint at `a`: the address can be used, none is there yet and
      an entry is free. */
  predicate Plants(s: State, a: nat) {
    && s.attached && a in s.image.mem && a % 2 == 0 && a + 1 in s.image.mem
    && FindByAddr(s.image.table, a, 0) == |s.image.table| && FindFree(s.image.table, 0) < |s.image.table|
  }

  /** Commands that may arrive while a step at `a` is in progress: anything but leaving
      or breaking the target, and planting a breakpoint on the very instruction. */
  predicate Benign(s: State, c: Command, a: nat) {
    c != Detach && c != Break && (c == BpSet(a) ==> !Plants(s, a))
  }

  predicate AllBenign(s: State, cs: seq<Command>, a: nat)
    decreases |cs|
  {
    cs == [] || (Benign(s, cs[0], a) && AllBenign(Execute(s, cs[0]), cs[1..], a))
  }

  function ExecuteAll(s: State, cs: seq<Command>): State
    decreases |cs|
  {
    if cs == [] then s else ExecuteAll(Execute(s, cs[0]), cs[1..])
  }

  /** Commands other than the run controls only change the image and the count. */
  predicate SameControl(s: State, t: State) {
    t == s.(image := t.image, count := t.count)
  }

  lemma SetBpElsewhere(s: State, a: nat, address: nat)
    requires Unpatched(s, a) && (address == a ==> !Plants(s, a)) && s.installed
    ensures SameControl(s, SetBp(s, address)) && Unpatched(SetBp(s, address), a)
  {
  }

  lemma PlantedTrap(s: State, a: nat)
    requires Inv(s) && Plants(s, a)
    ensures var t := Execute(s, BpSet(a));
            && ReadWord(t.image.mem, a) == TRAP15 && a in t.image.mem && a + 1 in t.image.mem && a % 2 == 0
            && t.installed && t.pristine == s.pristine && t.target == s.target && t.mode == s.mode
  {
    hide Inv, FindByAddr, FindFree;
  }

  /** At a TRAP #15 of the debugger's the target can only trap. */
  lemma OnlyTraps(s: State)
    requires !s.target.parked && s.installed && AtTrap(s.image.mem, s.target.pc)
    requires s.target.pc % 2 == 0 && !AtTrap(s.pristine, s.target.pc)
    ensures Enabled(s, Trap) && forall next, writes :: !Enabled(s, Exec(next, writes))
  {
    hide AtTrap;
  }

  lemma TracingIs(s: State, a: nat)
    requires StepTracing(s, a)
    ensures s.target.trace && !s.target.parked && s.target.pc == a
  {
  }

  lemma TrapAt(mem: Memory, a: nat)
    requires a in mem && a + 1 in mem && ReadWord(mem, a) == TRAP15
    ensures AtTrap(mem, a)
  {
  }

  /** What the handler does apart from code and table. */
  lemma TrapHandlerControls(s: State)
    ensures var t := TrapHandler(s);
            && t == s.(image := t.image, mode := StepPastBp, target := s.target.(trace := true), trapHit := true,
                       trapPc := if s.trapHit then s.trapPc else s.target.pc)
  {
    hide FindByAddr, WriteWord;
  }

  /** A planted breakpoint breaks the step: the next exception is its TRAP #15, and no
      instruction can run before it. */
  lemma PlantingBreaksStep(s: State, a: nat)
    requires Inv(s) && StepTracing(s, a) && Plants(s, a) && !AtTrap(s.pristine, a)
    ensures var t := Execute(s, BpSet(a));
            && Enabled(t, Trap) && t.target.trace
            && (forall next, writes :: !Enabled(t, Exec(next, writes)))
            && TrapHandler(t).mode == StepPastBp
  {
    hide *;
    PlantedTrap(s, a);
    TracingIs(s, a);
    var t := Execute(s, BpSet(a));
    TrapAt(t.image.mem, a);
    OnlyTraps(t);
    TrapHandlerControls(t);
  }

  lemma RemoveElsewhere(s: State, a: nat, i: nat)
    requires Unpatched(s, a) && i < |s.image.table|
    ensures SameControl(s, Remove(s, i)) && Unpatched(Remove(s, i), a)
  {
  }

  lemma ClearBpElsewhere(s: State, a: nat, id: int, address: nat)
    requires Unpatched(s, a)
    ensures SameControl(s, ClearBp(s, id, address)) && Unpatched(ClearBp(s, id, address), a)
  {
    hide Remove, Unpatched;
    var table := s.image.table;
    if 0 <= id < |table| { RemoveElsewhere(s, a, id); }
    if FindByAddr(table, address, 0) < |table| { RemoveElsewhere(s, a, FindByAddr(table, address, 0)); }
  }

  lemma ClearAllElsewhere(s: State, a: nat)
    requires Inv(s) && Unpatched(s, a)
    ensures SameControl(s, ClearAllBps(s)) && Unpatched(ClearAllBps(s), a)
  {
    UnpatchAllKeeps(s.image, s.pristine);
  }

  /** The same before the stub has woken: it wakes into the TRAP #15. */
  lemma PlantingBreaksPendingStep(s: State, a: nat)
    requires Inv(s) && StepPending(s, a) && Plants(s, a) && !AtTrap(s.pristine, a)
    ensures var t := WakeStub(Execute(s, BpSet(a)));
            && Enabled(Execute(s, BpSet(a)), StubWakes)
            && Enabled(t, Trap) && t.target.trace
            && (forall next, writes :: !Enabled(t, Exec(next, writes)))
  {
    assert ReadWord(Execute(s, BpSet(a)).image.mem, a) == TRAP15;
  }

  lemma StepInProgressSurvives(s: State, a: nat, c: Command)
    requires Inv(s) && Benign(s, c, a) && (StepPending(s, a) || StepTracing(s, a))
    ensures SameControl(s, Execute(s, c)) && Unpatched(Execute(s, c), a)
  {
    hide ImageOk, SetBp, ClearBp, ClearAllBps;
    match c
    case BpSet(address) => SetBpElsewhere(s, a, address);
    case BpClear(id, address) => ClearBpElsewhere(s, a, id, address);
    case ClearAll => ClearAllElsewhere(s, a);
    case _ =>
  }

  lemma {:induction false} StepInProgressSurvivesAll(s: State, a: nat, cs: seq<Command>)
    requires Inv(s) && (StepPending(s, a) || StepTracing(s, a)) && AllBenign(s, cs, a)
    ensures var t := ExecuteAll(s, cs);
            && Inv(t) && t.pristine == s.pristine
            && (StepPending(s, a) ==> StepPending(t, a)) && (StepTracing(s, a) ==> StepTracing(t, a))
    decreases |cs|
  {
    if cs != [] {
      CommandKeepsInv(s, cs[0]);
      StepInProgressSurvives(s, a, cs[0]);
      hide Inv, Execute;
      StepInProgressSurvivesAll(Execute(s, cs[0]), a, cs[1..]);
    }
  }

  /** Used entries have different addresses, so only the first at an address is there. */
  lemma OnlyEntryAt(s: State, a: nat)
    requires Inv(s)
    ensures var i := FindByAddr(s.image.table, a, 0);
            forall j :: 0 <= j < |s.image.table| && j != i && s.image.table[j].used ==> s.image.table[j].address != a
  {
    var i := FindByAddr(s.image.table, a, 0);
    if i < |s.image.table| {
      forall j | 0 <= j < |s.image.table| && j != i && s.image.table[j].used ensures s.image.table[j].address != a {
        EntriesDisjoint(s.image.table, s.pristine, i, j);
      }
    }
  }

  lemma StepImage(s: State)
    requires s.attached && s.stopped
    ensures var i := FindByAddr(s.image.table, s.trapPc, 0);
            Execute(s, Step).image == if i < |s.image.table| then Unpatch(s.image, i) else s.image
  {
    hide FindByAddr, Unpatch;
  }

  lemma EnabledIsUsed(s: State)
    requires Inv(s)
    ensures forall j :: 0 <= j < |s.image.table| && s.image.table[j].enabled ==> s.image.table[j].used
  {
    hide UsedCount, Armed, ElsewherePristine;
  }

  lemma StepUnpatches(s: State)
    requires Inv(s) && s.attached && s.stopped
    ensures Unpatched(Execute(s, Step), s.trapPc)
  {
    hide Inv, FindByAddr, Unpatch, Execute;
    var i := FindByAddr(s.image.table, s.trapPc, 0);
    OnlyEntryAt(s, s.trapPc);
    EnabledIsUsed(s);
    StepImage(s);
    if i < |s.image.table| { UnpatchClears(s.image, i, s.trapPc); }
  }

  lemma UnpatchClears(im: Image, i: nat, a: nat)
    requires i < |im.table| && (im.table[i].enabled ==> im.table[i].used)
    requires forall j :: 0 <= j < |im.table| && j != i && im.table[j].enabled ==> im.table[j].address != a
    ensures var t := Unpatch(im, i).table;
            |t| == |im.table| && forall j :: 0 <= j < |t| && t[j].enabled ==> t[j].address != a
  {
    hide WriteWord;
  }

  lemma StepCommandStarts(s: State)
    requires Inv(s) && ReportedStop(s)
    ensures StepPending(Execute(s, Step), s.trapPc) && Execute(s, Step).pristine == s.pristine
  {
    StepUnpatches(s);
    hide Inv, FindByAddr, Unpatch, Unpatched;
  }

  /** The word about to be traced is the target's own, so the next exception is a
      Trace and not a TRAP #15. */
  lemma TracedWordIsPristine(s: State, a: nat)
    requires Inv(s) && StepTracing(s, a) && a % 2 == 0
    ensures a in s.image.mem ==>
              a + 1 in s.image.mem && a in s.pristine && a + 1 in s.pristine
              && ReadWord(s.image.mem, a) == ReadWord(s.pristine, a)
    ensures !Enabled(s, Trap) && !Enabled(s, StubWakes)
  {
    if a in s.image.mem { UnlistedHoldsPristine(s.image, s.pristine, a); }
  }

  lemma TracedStepStops(s: State, a: nat, next: nat, writes: Memory)
    requires Inv(s) && StepTracing(s, a) && Enabled(s, Exec(next, writes))
    ensures var t := Apply(s, Exec(next, writes));
            Inv(t) && UnreportedStop(t, next, next) && AllArmed(t) && !t.stopped
  {
    StepKeepsInv(s, Exec(next, writes));
    WritesKeepInv(s, next, writes);
    RearmAllKeeps(Written(s, writes).image, Written(s, writes).pristine);
  }

  /** dbg_poll turns a stop in the stub into a reported one. */
  lemma PollReportsStop(s: State, trapPc: nat, resumePc: nat)
    requires Inv(s) && UnreportedStop(s, trapPc, resumePc)
    ensures var t := Execute(s, Poll);
            && Inv(t) && ReportedStop(t) && t.trapPc == trapPc && t.resumePc == resumePc
            && t.image == s.image && t.pristine == s.pristine
  {
    PollKeeps(s);
  }

  /** Before the stub wakes it can only wake, and then the instruction is traced. */
  lemma PendingOnlyWakes(s: State, a: nat)
    requires StepPending(s, a)
    ensures Enabled(s, StubWakes) && !Enabled(s, Trap) && forall next, writes :: !Enabled(s, Exec(next, writes))
    ensures StepTracing(WakeStub(s), a) && WakeStub(s).pristine == s.pristine && Apply(s, StubWakes) == WakeStub(s)
  {
  }

  lemma TracingRuns(s: State, a: nat)
    requires StepTracing(s, a) && !Enabled(s, Trap) && a % 2 == 0 && !AtTrap(s.pristine, a)
    ensures s.target.pc == a && s.target.trace && s.mode == StepSingle
    ensures Enabled(s, Exec(a, map[]))
  {
  }

  lemma StepAllowed(s: State)
    requires ReportedStop(s)
    ensures Enabled(s, Daemon(Step)) && SafeDetach(s, Daemon(Step))
  {
  }

  /** DBGSTEP from a reported stop, with other commands arriving before the stub
      wakes (`cs`) and before the instruction runs (`ds`): the stub can only wake,
      then the target can only execute the original instruction at the stop, and
      that single instruction ends the step with every breakpoint armed again. */
  lemma StepExecutesOneInstruction(s: State, cs: seq<Command>, ds: seq<Command>)
    requires Inv(s) && ReportedStop(s) && s.trapPc % 2 == 0 && !AtTrap(s.pristine, s.trapPc)
    requires AllBenign(Execute(s, Step), cs, s.trapPc)
    requires AllBenign(WakeStub(ExecuteAll(Execute(s, Step), cs)), ds, s.trapPc)
    ensures var a := s.trapPc;
            var asleep := ExecuteAll(Execute(s, Step), cs);
            && Enabled(asleep, StubWakes) && !Enabled(asleep, Trap)
            && (forall next, writes :: !Enabled(asleep, Exec(next, writes)))
            && var tracing := ExecuteAll(WakeStub(asleep), ds);
            && tracing.target.pc == a && tracing.target.trace && tracing.mode == StepSingle
            && (a in tracing.image.mem && a in s.pristine && a + 1 in s.pristine ==>
                 a + 1 in tracing.image.mem && ReadWord(tracing.image.mem, a) == ReadWord(s.pristine, a))
            && Enabled(tracing, Exec(a, map[])) && !Enabled(tracing, Trap) && !Enabled(tracing, StubWakes)
            && forall next, writes :: Enabled(tracing, Exec(next, writes)) ==>
                 var t := Apply(tracing, Exec(next, writes));
                 Inv(t) && UnreportedStop(t, next, next) && AllArmed(t) && ReportedStop(Execute(t, Poll))
  {
    hide *;
    var a := s.trapPc;
    StepAllowed(s);
    StepCommandStarts(s);
    CommandKeepsInv(s, Step);
    StepInProgressSurvivesAll(Execute(s, Step), a, cs);
    var asleep := ExecuteAll(Execute(s, Step), cs);
    PendingOnlyWakes(asleep, a);
    NotDaemon(asleep, StubWakes);
    StepKeepsInv(asleep, StubWakes);
    StepInProgressSurvivesAll(WakeStub(asleep), a, ds);
    var tracing := ExecuteAll(WakeStub(asleep), ds);
    TracedWordIsPristine(tracing, a);
    TracingRuns(tracing, a);
    forall next, writes | Enabled(tracing, Exec(next, writes))
      ensures var t := Apply(tracing, Exec(next, writes));
              Inv(t) && UnreportedStop(t, next, next) && AllArmed(t) && ReportedStop(Execute(t, Poll))
    {
      TracedStepStops(tracing, a, next, writes);
      PollReportsStop(Apply(tracing, Exec(next, writes)), next, next);
    }
  }

  /** The handler runs only for an attached target that is not being detached. */
  lemma TrapMeets(s: State)
    requires Inv(s) && Enabled(s, Trap)
    ensures s.attached && s.installed && !s.detaching && !s.target.parked
  {
    TrapIsOurs(s);
    hide ImageOk, UsedCount, FindByAddr, AtTrap, TrapHandler;
  }

  lemma HitWordIsPristine(s: State)
    requires Inv(s) && Enabled(s, Trap)
    ensures var a := s.target.pc; var mem := TrapHandler(s).image.mem;
            && a in mem && a + 1 in mem && a in s.pristine && a + 1 in s.pristine
            && ReadWord(mem, a) == ReadWord(s.pristine, a)
  {
    TrapIsOurs(s);
    TrapKeepsInv(s);
    DisabledHoldsPristine(TrapHandler(s).image, s.pristine, FindByAddr(s.image.table, s.target.pc, 0));
  }

  /** The traced instruction behind a breakpoint parks the target. */
  lemma TracedHitParks(s: State, next: nat, writes: Memory)
    requires s.target.trace && s.mode == StepPastBp && Enabled(s, Exec(next, writes))
    ensures var t, w := Apply(s, Exec(next, writes)), Written(s, writes);
            && t.image == RearmFrom(w.image, 0)
            && t == s.(image := t.image, pristine := w.pristine, mode := NoStep, resumePc := next,
                       target := s.target.(trace := false, parked := true))
  {
    hide RearmFrom, Enabled;
  }

  lemma RearmArms(s: State, t: State)
    requires Inv(s) && t.image == RearmFrom(s.image, 0)
    ensures AllArmed(t)
  {
    RearmAllKeeps(s.image, s.pristine);
  }

  /** The state behind a breakpoint, field by field. */
  lemma HitThenTraced(s: State, next: nat, writes: Memory)
    requires Inv(s) && Enabled(s, Trap) && Enabled(TrapHandler(s), Exec(next, writes))
    ensures var t := Apply(TrapHandler(s), Exec(next, writes));
            && Inv(t) && AllArmed(t)
            && t == s.(image := t.image, pristine := t.pristine, mode := NoStep, resumePc := next, trapHit := true,
                       trapPc := if s.trapHit then s.trapPc else s.target.pc,
                       target := s.target.(trace := false, parked := true))
  {
    hide *;
    TrapHandlerControls(s);
    TrapKeepsInv(s);
    var hit := TrapHandler(s);
    TracedHitParks(hit, next, writes);
    WritesKeepInv(hit, next, writes);
    RearmArms(Written(hit, writes), Apply(hit, Exec(next, writes)));
    NotDaemon(hit, Exec(next, writes));
    StepKeepsInv(hit, Exec(next, writes));
  }

  lemma NotDaemon(s: State, e: Event)
    requires !e.Daemon?
    ensures SafeDetach(s, e)
  {
  }

  lemma HitStops(s: State, t: State, first: nat, next: nat)
    requires s.attached && s.installed && !s.detaching
    requires t == s.(image := t.image, pristine := t.pristine, mode := NoStep, resumePc := next, trapHit := true,
                     trapPc := first, target := s.target.(trace := false, parked := true))
    ensures HitStop(t, first, next)
    ensures Enabled(t, StubWakes) <==> s.target.signalled
    ensures UnreportedStop(t, first, next) <==> !s.target.signalled && !s.stepRequest
  {
  }

  /** A running target that reaches an enabled breakpoint executes the original
      instruction once and gets into the stub behind it, with `trapPc` at the breakpoint
      (the first one, if an earlier hit was not polled), `resumePc` behind the instruction
      and every breakpoint armed. It stays there if and only if no CTRL_F is pending. */
  lemma BreakpointHitStops(s: State, next: nat, writes: Memory)
    requires Inv(s) && Enabled(s, Trap) && Enabled(TrapHandler(s), Exec(next, writes))
    ensures var hit := TrapHandler(s); var a := s.target.pc; var first := if s.trapHit then s.trapPc else a;
            && hit.target.pc == a && hit.target.trace && hit.mode == StepPastBp
            && a in hit.image.mem && a + 1 in hit.image.mem && a in s.pristine && a + 1 in s.pristine
            && ReadWord(hit.image.mem, a) == ReadWord(s.pristine, a)
            && var t := Apply(hit, Exec(next, writes));
            && Inv(t) && HitStop(t, first, next) && AllArmed(t)
            && (Enabled(t, StubWakes) <==> s.target.signalled)
            && (UnreportedStop(t, first, next) <==> !s.target.signalled && !s.stepRequest)
            && (!s.target.signalled && !s.stepRequest ==> ReportedStop(Execute(t, Poll)))
  {
    hide *;
    TrapMeets(s);
    TrapHandlerControls(s);
    HitWordIsPristine(s);
    HitThenTraced(s, next, writes);
    var first := if s.trapHit then s.trapPc else s.target.pc;
    var t := Apply(TrapHandler(s), Exec(next, writes));
    HitStops(s, t, first, next);
    if UnreportedStop(t, first, next) { PollReportsStop(t, first, next); }
  }

  /** The stub of a hit that a pending CTRL_F lets through, and the poll behind it. */
  lemma WakesAndReports(t: State, first: nat, next: nat)
    requires HitStop(t, first, next) && !t.stepRequest
    ensures var r := Execute(WakeStub(t), Poll);
            && WakeStub(t).target == r.target == Target(next, false, false, false)
            && WakeStub(t).mode == NoStep && r.stopped
  {
    hide DropTemporary, TemporaryCount;
  }

  /** With a CTRL_F pending the stub goes straight on, and the poll then reports a target
      that is running as stopped. */
  lemma PendingSignalRunsOn(s: State, next: nat, writes: Memory)
    requires Inv(s) && Enabled(s, Trap) && Enabled(TrapHandler(s), Exec(next, writes))
    requires s.target.signalled && !s.stepRequest
    ensures var t := Apply(TrapHandler(s), Exec(next, writes)); var r := Execute(WakeStub(t), Poll);
            && Enabled(t, StubWakes)
            && WakeStub(t).target == r.target == Target(next, false, false, false)
            && WakeStub(t).mode == NoStep && r.stopped
  {
    hide *;
    TrapMeets(s);
    HitThenTraced(s, next, writes);
    var first := if s.trapHit then s.trapPc else s.target.pc;
    var t := Apply(TrapHandler(s), Exec(next, writes));
    HitStops(s, t, first, next);
    WakesAndReports(t, first, next);
  }

  /** DBGDETACH of a stopped target that wakes during the Delay leaves its second CTRL_F
      pending, and attaching again does not take it away. */
  lemma SignalOutlivesDetach(s: State)
    requires Inv(s) && ReportedStop(s)
    ensures var d := Execute(s, Detach);
            && Enabled(d, StubWakes)
            && var e := Apply(WakeStub(d), DetachEnd);
            && Enabled(WakeStub(d), DetachEnd)
            && e.target == Target(s.resumePc, false, false, true)
            && !e.attached && !e.detaching && !e.stepRequest && !e.installed && e.count == 0 && NothingUsed(e)
            && e.image.mem == e.pristine == s.pristine
            && Enabled(e, Daemon(Attach(e.target, false)))
            && Execute(e, Attach(e.target, false)).target.signalled
  {
    UnpatchAllKeeps(s.image, s.pristine);
    hide Inv, UnpatchFrom, ClearUsed, EmptyTable;
  }

  /** Some safe run leads from `s` to `t`. */
  ghost predicate Reaches(s: State, t: State) {
    exists es :: SafeRun(s, es) && Run(s, es) == t
  }

  lemma {:induction false} RunsInto(s: State, es: seq<Event>, e: Event)
    requires SafeRun(s, es) && Enabled(Run(s, es), e) && SafeDetach(Run(s, es), e)
    ensures SafeRun(s, es + [e]) && Run(s, es + [e]) == Apply(Run(s, es), e)
    decreases |es|
  {
    hide Enabled, Apply, SafeDetach;
    if es == [] {
      assert es + [e] == [e] && [e][1..] == [];
      assert SafeRun(Apply(s, e), []);
    } else {
      assert (es + [e])[1..] == es[1..] + [e];
      RunsInto(Apply(s, es[0]), es[1..], e);
    }
  }

  lemma ReachesNext(s: State, t: State, e: Event)
    requires Reaches(s, t) && Enabled(t, e) && SafeDetach(t, e)
    ensures Reaches(s, Apply(t, e))
  {
    var es :| SafeRun(s, es) && Run(s, es) == t;
    hide Enabled, Apply, SafeDetach, SafeRun, Run;
    RunsInto(s, es, e);
  }

  lemma ReachesItself(s: State)
    ensures Reaches(s, s)
  {
    assert SafeRun(s, []) && Run(s, []) == s;
  }

  lemma CommandIsStep(s: State, c: Command)
    ensures Enabled(s, Daemon(c)) ==> Apply(s, Daemon(c)) == Execute(s, c)
    ensures c.BpSet? || c.Poll? ==> (Enabled(s, Daemon(c)) <==> !s.detaching)
    ensures !c.Detach? ==> SafeDetach(s, Daemon(c))
  {
    hide Execute;
  }

  lemma ReachesByCommand(start: State, s: State, c: Command)
    requires Inv(s) && Reaches(start, s) && !c.Detach? && Enabled(s, Daemon(c))
    ensures Inv(Execute(s, c)) && Reaches(start, Execute(s, c))
  {
    hide *;
    CommandIsStep(s, c);
    CommandKeepsInv(s, c);
    ReachesNext(start, s, Daemon(c));
  }

  lemma ArmedFacts()
    ensures EvenRegions(RAM) && Enabled(Start(RAM, 0), Daemon(ATTACH)) && ATTACH.Attach?
    ensures !ATTACHED.detaching
    ensures ARMED.target == Target(0, false, false, false) && !ARMED.trapHit && !ARMED.stepRequest
    ensures ARMED.pristine == RAM && Apply(ARMED, Trap) == TrapHandler(ARMED)
    ensures Enabled(TRAPPED, Exec(2, map[])) && RAM + map[] == RAM
  {
    Traps();
    hide EmptyTable, TrapHandler, AttachCommand;
  }

  lemma ArmedIsReached()
    ensures Inv(ARMED) && Reaches(Start(RAM, 0), ARMED)
  {
    hide *;
    var start := Start(RAM, 0);
    ArmedFacts();
    Attaches();
    Arms();
    StartKeepsInv(RAM, 0);
    ReachesItself(start);
    ReachesByCommand(start, start, ATTACH);
    CommandIsStep(ATTACHED, BpSet(0));
    ReachesByCommand(start, ATTACHED, BpSet(0));
  }

  lemma StopFacts(s: State, next: nat)
    requires UnreportedStop(s, 0, next)
    ensures !s.detaching
  {
  }

  /** A hit at 0 and its stop reported. */
  lemma FirstSession() returns (s: State)
    ensures Reaches(Start(RAM, 0), s) && Inv(s) && ReportedStop(s) && s.resumePc == 2 && s.pristine == RAM
  {
    hide *;
    var start := Start(RAM, 0);
    ArmedFacts();
    ArmedIsReached();
    Traps();
    NotDaemon(ARMED, Trap);
    NotDaemon(TRAPPED, Exec(2, map[]));
    ReachesNext(start, ARMED, Trap);
    ReachesNext(start, TRAPPED, Exec(2, map[]));
    BreakpointHitStops(ARMED, 2, map[]);
    var hit := Apply(TRAPPED, Exec(2, map[]));
    TracedHitParks(TRAPPED, 2, map[]);
    TrapHandlerControls(ARMED);
    WrittenNothing(TRAPPED);
    StopFacts(hit, 2);
    CommandIsStep(hit, Poll);
    ReachesByCommand(start, hit, Poll);
    PollReportsStop(hit, 0, 2);
    s := Execute(hit, Poll);
  }

  lemma WrittenNothing(s: State)
    ensures Written(s, map[]) == s
  {
    assert s.image.mem + map[] == s.image.mem && s.pristine + map[] == s.pristine;
  }

  lemma ReportedMeans(s: State)
    requires ReportedStop(s)
    ensures Enabled(s, Daemon(Detach)) && SafeDetach(s, Daemon(Detach))
  {
  }

  lemma WakingIsStep(s: State)
    requires Enabled(s, StubWakes)
    ensures Apply(s, StubWakes) == WakeStub(s)
  {
  }

  lemma AttachesAgain(e: State)
    requires !e.attached && !e.detaching
    ensures var t := Execute(e, Attach(e.target, false));
            && t.image == Image(e.image.mem, EmptyTable()) && t.pristine == e.pristine && t.target == e.target
            && t.attached && !t.detaching && t.stepRequest == e.stepRequest
  {
    hide EmptyTable;
  }

  lemma SetsAtZero(s: State)
    requires s.image == Image(RAM, EmptyTable()) && s.attached
    ensures var t := SetBp(s, 0);
            && t.image.mem == WriteWord(RAM, 0, TRAP15) && t.installed
            && t == s.(image := t.image, count := t.count, installed := true)
  {
    assert FindByAddr(EmptyTable(), 0, 0) == |EmptyTable()|;
    assert FindFree(EmptyTable(), 0) == 0;
    hide EmptyTable, FindByAddr, FindFree, WriteWord;
  }

  lemma TrapAtZero()
    ensures AtTrap(WriteWord(RAM, 0, TRAP15), 0) && !AtTrap(RAM, 0)
  {
  }

  lemma BreakAtItsPc(s: State)
    requires s.image == Image(RAM, EmptyTable()) && s.pristine == RAM && s.attached
    requires s.target == Target(0, false, false, true)
    ensures var t := Execute(s, BpSet(0));
            Enabled(t, Trap) && t.target.signalled && t.stepRequest == s.stepRequest
  {
    SetsAtZero(s);
    TrapAtZero();
    hide EmptyTable, SetBp, WriteWord, AtTrap;
  }

  /** The stub wakes during the Delay of DBGDETACH, and the same task is attached to. */
  lemma DetachesAndAttaches(start: State, s: State) returns (t: State)
    requires Reaches(start, s) && Inv(s) && ReportedStop(s)
    ensures Reaches(start, t) && t.image == Image(s.pristine, EmptyTable()) && t.pristine == s.pristine
    ensures t.target == Target(s.resumePc, false, false, true) && t.attached && !t.detaching && !t.stepRequest
  {
    hide *;
    SignalOutlivesDetach(s);
    ReportedMeans(s);
    var d := Execute(s, Detach);
    CommandIsStep(s, Detach);
    ReachesNext(start, s, Daemon(Detach));
    NotDaemon(d, StubWakes);
    ReachesNext(start, d, StubWakes);
    WakingIsStep(d);
    NotDaemon(WakeStub(d), DetachEnd);
    ReachesNext(start, WakeStub(d), DetachEnd);
    var e := Apply(WakeStub(d), DetachEnd);
    CommandIsStep(e, Attach(e.target, false));
    ReachesNext(start, e, Daemon(Attach(e.target, false)));
    AttachesAgain(e);
    t := Execute(e, Attach(e.target, false));
  }

  /** The CTRL_F that DBGDETACH leaves pending is reached: in the next session the target
      is about to hit a breakpoint with it. */
  lemma PendingSignalIsReachable()
    ensures exists s :: Reaches(Start(RAM, 0), s) && Enabled(s, Trap) && s.target.signalled && !s.stepRequest
  {
    hide *;
    var start := Start(RAM, 0);
    var s := FirstSession();
    var a := DetachesAndAttaches(start, s);
    RunsToZero(a);
    var x := Apply(a, Exec(0, map[]));
    ReachesNext(start, a, Exec(0, map[]));
    BreakAtItsPc(x);
    CommandIsStep(x, BpSet(0));
    ReachesNext(start, x, Daemon(BpSet(0)));
  }

  lemma RunsToZero(s: State)
    requires s.image == Image(RAM, EmptyTable()) && s.pristine == RAM && s.target == Target(2, false, false, true)
    ensures Enabled(s, Exec(0, map[])) && SafeDetach(s, Exec(0, map[]))
    ensures Apply(s, Exec(0, map[])) == s.(target := Target(0, false, false, true))
  {
    WrittenNothing(s);
    hide EmptyTable, Written;
  }

  /** DBGCONT resumes behind the breakpoint with every entry still armed. */
  lemma ContinueResumes(s: State)
    requires Inv(s) && ReportedStop(s) && AllArmed(s)
    ensures var t := Execute(s, Continue);
            && Enabled(t, StubWakes)
            && var r := WakeStub(t);
            r.target == Target(s.resumePc, false, false, false) && r.mode == NoStep && AllArmed(r) && !r.stopped
  {
  }
}
