/** Registering variables, hooks and memory regions: the client's calls
    (`bridge_client.c`), the messages they send, and what the daemon makes of them
    (`ipc_manager.c`, `client_registry.c`). */
module Registry {
  import opened Tables
  import opened Agreement
  import opened Text

  const MAX_VARS: nat := 32
  const MAX_HOOKS: nat := 16
  const MAX_REGIONS: nat := 8
  const MAX_DATA: nat := 256
  const DESC_MAX: nat := 63

  /** A LONG and a ULONG. */
  type Long = x: int | -0x8000_0000 <= x < 0x8000_0000

  type Ulong = x: int | 0 <= x < 0x1_0000_0000

  datatype Region = Region(addr: Ulong, size: Ulong, desc: string)

  // ----------------------------------------------------------------- message texts

  function LowerHexDigit(d: nat): (c: char)
    requires d < 16
  {
    if d < 10 then ('0' as int + d) as char else ('a' as int + d - 10) as char
  }

  /** A number in so many hexadecimal digits, as %08lx prints a ULONG in eight. */
  function Hex(n: nat, width: nat): (s: string)
    ensures |s| == width
  {
    if width == 0 then [] else Hex(n / 16, width - 1) + [LowerHexDigit(n % 16)]
  }

  /** The number that hexadecimal digits spell on from those read so far. */
  function HexPrefix(s: string, acc: nat): nat {
    if s == [] || HexValue(s[0]) < 0 then acc else HexPrefix(s[1..], 16 * acc + HexValue(s[0]))
  }

  function DecPrefix(s: string, acc: nat): nat {
    if s == [] || !IsDigit(s[0]) then acc else DecPrefix(s[1..], 10 * acc + (s[0] as int - '0' as int))
  }

  /** isspace of the C locale. */
  predicate IsBlank(c: char) { c == ' ' || 9 <= c as int <= 13 }

  function SkipBlanks(s: string): string {
    if s != [] && IsBlank(s[0]) then SkipBlanks(s[1..]) else s
  }

  predicate Negative(s: string) { s != [] && s[0] == '-' }

  function AfterSign(s: string): string {
    if s != [] && (s[0] == '-' || s[0] == '+') then s[1..] else s
  }

  /** A 0x in front of a hexadecimal digit is skipped. */
  function AfterPrefix(s: string): string {
    if |s| >= 3 && s[0] == '0' && (s[1] == 'x' || s[1] == 'X') && HexValue(s[2]) >= 0 then s[2..] else s
  }

  /** strtol to base 10: blanks, a sign, digits; out of range it stops at the limit. */
  function StrToL(s: string): Long {
    var t := SkipBlanks(s);
    var n := DecPrefix(AfterSign(t), 0);
    if Negative(t) then (if n > 0x8000_0000 then -0x8000_0000 else 0 - n)
    else if n > 0x7FFF_FFFF then 0x7FFF_FFFF else n
  }

  /** What strtoul makes of a number and its sign. */
  function Bounded(n: nat, negative: bool): Ulong {
    if n > 0xFFFF_FFFF then 0xFFFF_FFFF else if negative && n > 0 then 0x1_0000_0000 - n else n
  }

  /** strtoul to base 16 and to base 10. */
  function HexToUL(s: string): Ulong {
    var t := SkipBlanks(s);
    Bounded(HexPrefix(AfterPrefix(AfterSign(t)), 0), Negative(t))
  }

  function DecToUL(s: string): Ulong {
    var t := SkipBlanks(s);
    Bounded(DecPrefix(AfterSign(t), 0), Negative(t))
  }

  /** strchr for the bar: its first place, or the length. */
  function Bar(s: string): (k: nat)
    ensures k <= |s| && '|' !in s[..k] && (k < |s| ==> s[k] == '|')
  {
    if s == [] || s[0] == '|' then 0 else 1 + Bar(s[1..])
  }

  function VarData(name: string, kind: Long): string { name + ['|'] + PrintSigned(kind) }

  function HookData(name: string, desc: string): string { Clip(name + ['|'] + desc, MAX_DATA - 1) }

  function RegionData(name: string, r: Region): string {
    Clip(name + ['|'] + (Hex(r.addr, 8) + ['|'] + (Print(r.size) + ['|'] + r.desc)), MAX_DATA - 1)
  }

  function ReadVar(data: string): Option<(string, Long)> {
    var k := Bar(data);
    if k == |data| then None else Some((Clip(data[..k], NAME_MAX), StrToL(data[k + 1..])))
  }

  function ReadHook(data: string): Option<(string, string)> {
    var k := Bar(data);
    if k == |data| then None else Some((Clip(data[..k], NAME_MAX), data[k + 1..]))
  }

  function ReadRegion(data: string): Option<(string, Region)> {
    var k := Bar(data);
    if k == |data| then None
    else
      var rest := data[k + 1..];
      var k2 := Bar(rest);
      var rest2 := if k2 < |rest| then rest[k2 + 1..] else "";
      var k3 := Bar(rest2);
      var desc := if k3 < |rest2| then rest2[k3 + 1..] else "";
      Some((Clip(data[..k], NAME_MAX), Region(HexToUL(rest), DecToUL(rest2), desc)))
  }

  // ------------------------------------------------------------ reading what was sent

  lemma {:induction false} BarAfter(s: string, rest: string)
    requires '|' !in s
    ensures Bar(s + ['|'] + rest) == |s|
  {
    if s != [] {
      assert (s + ['|'] + rest)[1..] == s[1..] + ['|'] + rest;
      BarAfter(s[1..], rest);
    }
  }

  lemma TenStep(acc: nat, t: nat, p: nat, d: nat)
    ensures 10 * (acc * t + p) + d == acc * (10 * t) + (p * 10 + d)
  {
  }

  /** Reading on after some digits. */
  lemma {:induction false} DecPrefixOfDigits(s: string, rest: string, acc: nat)
    requires AllDigits(s)
    ensures DecPrefix(s + rest, acc) == DecPrefix(rest, acc * Ten(|s|) + Parse(s))
    decreases |s|
  {
    if s == [] {
      assert s + rest == rest;
    } else {
      var front, last := s[..|s| - 1], s[|s| - 1];
      DecPrefixOfDigits(front, [last] + rest, acc);
      assert s + rest == front + ([last] + rest);
      assert ([last] + rest)[1..] == rest;
      TenStep(acc, Ten(|front|), Parse(front), last as int - '0' as int);
    }
  }

  lemma ReadsNumber(n: nat, rest: string)
    requires rest == [] || !IsDigit(rest[0])
    ensures DecPrefix(Print(n) + rest, 0) == n
  {
    DecPrefixOfDigits(Print(n), rest, 0);
    ParseOfPrint(n);
  }

  lemma NothingToSkip(s: string)
    requires s != [] && !IsBlank(s[0])
    ensures SkipBlanks(s) == s
  {
  }

  lemma ReadsSigned(n: Long)
    ensures StrToL(PrintSigned(n)) == n
  {
    var size: nat := if n < 0 then 0 - n else n;
    var d := Print(size);
    ReadsNumber(size, []);
    assert d + [] == d;
    var s := PrintSigned(n);
    assert s[0] == '-' || IsDigit(s[0]);
    NothingToSkip(s);
    hide DecPrefix, Print;
    if n < 0 { assert s[1..] == d; }
  }

  function Sixteen(k: nat): nat {
    if k == 0 then 1 else 16 * Sixteen(k - 1)
  }

  lemma HexDigitReads(d: nat)
    requires d < 16
    ensures HexValue(LowerHexDigit(d)) == d
  {
  }

  lemma SixteenStep(acc: nat, t: nat, n: nat)
    ensures 16 * (acc * t + n / 16) + n % 16 == acc * (16 * t) + n
  {
  }

  /** Reading on after some hexadecimal digits. */
  lemma {:induction false} HexPrefixOfHex(n: nat, width: nat, rest: string, acc: nat)
    requires n < Sixteen(width)
    ensures HexPrefix(Hex(n, width) + rest, acc) == HexPrefix(rest, acc * Sixteen(width) + n)
    decreases width
  {
    if width == 0 {
      assert [] + rest == rest;
    } else {
      hide LowerHexDigit, HexValue;
      var front, last := Hex(n / 16, width - 1), LowerHexDigit(n % 16);
      HexDigitReads(n % 16);
      HexPrefixOfHex(n / 16, width - 1, [last] + rest, acc);
      assert Hex(n, width) + rest == front + ([last] + rest);
      assert ([last] + rest)[1..] == rest;
      SixteenStep(acc, Sixteen(width - 1), n);
    }
  }

  lemma ReadsAddress(n: Ulong, rest: string)
    requires rest == [] || HexValue(rest[0]) < 0
    ensures HexPrefix(Hex(n, 8) + rest, 0) == n
  {
    hide Hex, Sixteen, HexValue;
    SixteenToEight();
    HexPrefixOfHex(n, 8, rest, 0);
  }

  lemma SixteenToEight()
    ensures Sixteen(8) == 0x1_0000_0000
  {
    assert Sixteen(4) == 0x10000;
  }

  lemma ClipAfter(front: string, rest: string, n: nat)
    requires |front| <= n
    ensures Clip(front + rest, n) == front + Clip(rest, n - |front|)
  {
  }

  lemma ClipTwice(s: string, m: nat, n: nat)
    requires n <= m
    ensures Clip(Clip(s, m), n) == Clip(s, n)
  {
  }

  lemma CutAtBar(s: string, rest: string)
    requires '|' !in s
    ensures var all := s + ['|'] + rest; Bar(all) == |s| && all[..|s|] == s && all[|s| + 1..] == rest
  {
    BarAfter(s, rest);
  }

  /** The daemon reads back what the client wrote, for names of at most 33 characters
      without a bar. */
  lemma VarReads(name: string, kind: Long)
    requires |name| <= NAME_MAX && '|' !in name
    ensures ReadVar(VarData(name, kind)) == Some((name, kind))
  {
    CutAtBar(name, PrintSigned(kind));
    ReadsSigned(kind);
    hide PrintSigned, StrToL, Bar;
  }

  lemma HookReads(name: string, desc: string)
    requires |name| <= NAME_MAX && '|' !in name
    ensures ReadHook(HookData(name, desc)).Some? && ReadHook(HookData(name, desc)).value.0 == name
    ensures Clip(ReadHook(HookData(name, desc)).value.1, DESC_MAX) == Clip(desc, DESC_MAX)
  {
    var left := MAX_DATA - 1 - (|name| + 1);
    ClipAfter(name + ['|'], desc, MAX_DATA - 1);
    CutAtBar(name, Clip(desc, left));
    ClipTwice(desc, left, DESC_MAX);
    hide Bar;
  }

  /** What is left of a description in the message: its buffer ends it. */
  function SentDesc(name: string, r: Region): string {
    Clip(r.desc, if |name| <= NAME_MAX then SentRoom(name, r) else 0)
  }

  function SentRoom(name: string, r: Region): (n: nat)
    requires |name| <= NAME_MAX
    ensures n >= DESC_MAX
  {
    SizeFits(r.size);
    MAX_DATA - 1 - (|name| + |Hex(r.addr, 8)| + |Print(r.size)| + 3)
  }

  lemma RegionReads(name: string, r: Region)
    requires |name| <= NAME_MAX && '|' !in name
    ensures ReadRegion(RegionData(name, r)) == Some((name, r.(desc := SentDesc(name, r))))
    ensures Clip(SentDesc(name, r), DESC_MAX) == Clip(r.desc, DESC_MAX)
  {
    var desc := SentDesc(name, r);
    RegionDataIs(name, r);
    ClipTwice(r.desc, SentRoom(name, r), DESC_MAX);
    hide *;
    RegionTextReads(name, r.addr, r.size, desc);
  }

  lemma RegionTextReads(name: string, addr: Ulong, size: Ulong, desc: string)
    requires |name| <= NAME_MAX && '|' !in name
    ensures ReadRegion(name + ['|'] + (Hex(addr, 8) + ['|'] + (Print(size) + ['|'] + desc))) ==
            Some((name, Region(addr, size, desc)))
  {
    assert Clip(name, NAME_MAX) == name;
    hide *;
    var rest2 := Print(size) + ['|'] + desc;
    var rest := Hex(addr, 8) + ['|'] + rest2;
    NoBars(addr, size);
    CutAtBar(name, rest);
    CutAtBar(Hex(addr, 8), rest2);
    CutAtBar(Print(size), desc);
    ReadCuts(name + ['|'] + rest, name, rest, |Hex(addr, 8)|, rest2, |Print(size)|, desc);
    ReadsAddressField(addr, rest2);
    ReadsNumberField(size, desc);
  }

  lemma ReadsAddressField(n: Ulong, rest: string)
    ensures HexToUL(Hex(n, 8) + ['|'] + rest) == n
  {
    var s := Hex(n, 8) + ['|'] + rest;
    HexStart(n, s);
    ReadsAddress(n, ['|'] + rest);
    hide Hex, HexPrefix, HexValue;
    assert s == Hex(n, 8) + (['|'] + rest);
    PlainNumber(s);
  }

  /** Eight hexadecimal digits start neither with a blank, a sign nor a 0x. */
  lemma HexStart(n: Ulong, s: string)
    requires |s| > 8 && s[..8] == Hex(n, 8)
    ensures !IsBlank(s[0]) && s[0] != '-' && s[0] != '+' && s[1] != 'x' && s[1] != 'X'
  {
    HexDigitsOnly(n, 8);
    assert s[0] == Hex(n, 8)[0] && s[1] == Hex(n, 8)[1];
    hide Hex;
  }

  lemma {:induction false} HexDigitsOnly(n: nat, width: nat)
    ensures forall k :: 0 <= k < width ==> IsDigit(Hex(n, width)[k]) || 'a' <= Hex(n, width)[k] <= 'f'
  {
    if width > 0 { HexDigitsOnly(n / 16, width - 1); }
  }

  /** Nothing is skipped in front of a number that starts with its digits. */
  lemma PlainNumber(s: string)
    requires s != [] && !IsBlank(s[0]) && s[0] != '-' && s[0] != '+'
    ensures SkipBlanks(s) == s && AfterSign(s) == s && !Negative(s)
    ensures |s| > 1 && s[1] != 'x' && s[1] != 'X' ==> AfterPrefix(s) == s
  {
  }

  lemma BarIsNoDigit()
    ensures !IsDigit('|')
  {
  }

  lemma StartsWithDigit(n: nat)
    ensures var c := Print(n)[0]; !IsBlank(c) && c != '-' && c != '+'
  {
  }

  lemma DecToULIs(s: string, n: Ulong)
    requires SkipBlanks(s) == s && AfterSign(s) == s && !Negative(s) && DecPrefix(s, 0) == n
    ensures DecToUL(s) == n
  {
    hide DecPrefix, SkipBlanks;
  }

  lemma ReadsNumberField(n: Ulong, rest: string)
    ensures DecToUL(Print(n) + ['|'] + rest) == n
  {
    hide *;
    var s := Print(n) + ['|'] + rest;
    BarIsNoDigit();
    ReadsNumber(n, ['|'] + rest);
    assert s == Print(n) + (['|'] + rest) && s[0] == Print(n)[0];
    StartsWithDigit(n);
    PlainNumber(s);
    DecToULIs(s, n);
  }

  lemma RegionDataIs(name: string, r: Region)
    requires |name| <= NAME_MAX
    ensures RegionData(name, r) ==
            name + ['|'] + (Hex(r.addr, 8) + ['|'] + (Print(r.size) + ['|'] + SentDesc(name, r)))
  {
    hide Hex, Print, Clip;
    var a, b := Hex(r.addr, 8), Print(r.size);
    var front := name + ['|'] + (a + ['|'] + (b + ['|']));
    var desc := SentDesc(name, r);
    SizeFits(r.size);
    ClipAfter(front, r.desc, MAX_DATA - 1);
    assert name + ['|'] + (a + ['|'] + (b + ['|'] + r.desc)) == front + r.desc;
    assert name + ['|'] + (a + ['|'] + (b + ['|'] + desc)) == front + desc;
  }

  lemma ReadCuts(data: string, name: string, rest: string, k2: nat, rest2: string, k3: nat, desc: string)
    requires Bar(data) == |name| < |data| && data[..|name|] == name && data[|name| + 1..] == rest
    requires Bar(rest) == k2 < |rest| && rest[k2 + 1..] == rest2
    requires Bar(rest2) == k3 < |rest2| && rest2[k3 + 1..] == desc
    ensures ReadRegion(data) == Some((Clip(name, NAME_MAX), Region(HexToUL(rest), DecToUL(rest2), desc)))
  {
    hide Bar, HexToUL, DecToUL, Clip;
  }

  lemma SizeFits(n: Ulong)
    ensures |Print(n)| <= 10
  {
    assert Ten(10) == 10_000_000_000;
    PrintLength(n, 10);
  }

  lemma {:induction false} HexHasNoBar(n: nat, width: nat)
    ensures '|' !in Hex(n, width)
  {
    if width > 0 { HexHasNoBar(n / 16, width - 1); }
  }

  lemma NoBars(addr: Ulong, size: Ulong)
    ensures '|' !in Hex(addr, 8) && '|' !in Print(size)
  {
    HexHasNoBar(addr, 8);
  }

  // ------------------------------------------------------------------ calls and runs

  /** The client's calls; a null target, address or a zero size makes it return at once. */
  datatype Call =
    | RegisterVar(name: string, kind: Long, target: nat)
    | UnregisterVar(name: string)
    | RegisterHook(name: string, desc: string, target: nat)
    | UnregisterHook(name: string)
    | RegisterRegion(name: string, region: Region)
    | UnregisterRegion(name: string)

  datatype Message =
    | VarRegister(data: string) | VarUnregister(data: string)
    | HookRegister(data: string) | HookUnregister(data: string)
    | RegionRegister(data: string) | RegionUnregister(data: string)

  datatype Client = Client(vars: seq<Slot<Long>>, hooks: seq<Slot<string>>, regions: seq<Slot<Region>>)

  datatype Listing = Listing(vars: seq<Entry<Long>>, hooks: seq<Entry<string>>, regions: seq<Entry<Region>>)

  function ShortDesc(r: Region): Region { r.(desc := Clip(r.desc, DESC_MAX)) }

  /** The client's table after a call. */
  function AfterCall(c: Client, call: Call): Client {
    match call
    case RegisterVar(name, kind, target) =>
      if target == 0 then c else c.(vars := ClientRegister(c.vars, name, kind))
    case UnregisterVar(name) => c.(vars := ClientUnregister(c.vars, name))
    case RegisterHook(name, desc, target) =>
      if target == 0 then c else c.(hooks := ClientRegister(c.hooks, name, Clip(desc, DESC_MAX)))
    case UnregisterHook(name) => c.(hooks := ClientUnregister(c.hooks, name))
    case RegisterRegion(name, r) =>
      if r.addr == 0 || r.size == 0 then c else c.(regions := ClientRegister(c.regions, name, ShortDesc(r)))
    case UnregisterRegion(name) => c.(regions := ClientUnregister(c.regions, name))
  }

  /** The message a call sends; a full hook or region table sends none. */
  function Sends(c: Client, call: Call): seq<Message> {
    match call
    case RegisterVar(name, kind, target) => if target == 0 then [] else [VarRegister(VarData(name, kind))]
    case UnregisterVar(name) => [VarUnregister(name)]
    case RegisterHook(name, desc, target) =>
      if target == 0 || Target(c.hooks, name) == |c.hooks| then [] else [HookRegister(HookData(name, desc))]
    case UnregisterHook(name) => [HookUnregister(name)]
    case RegisterRegion(name, r) =>
      if r.addr == 0 || r.size == 0 || Target(c.regions, name) == |c.regions| then []
      else [RegionRegister(RegionData(name, r))]
    case UnregisterRegion(name) => [RegionUnregister(name)]
  }

  /** The daemon's lists after it handled a message. */
  function Handle(l: Listing, m: Message): Listing {
    match m
    case VarRegister(data) =>
      var got := ReadVar(data);
      if got.None? then l else l.(vars := DaemonAdd(l.vars, got.value.0, got.value.1, MAX_VARS))
    case VarUnregister(data) => l.(vars := DaemonRemove(l.vars, data))
    case HookRegister(data) =>
      var got := ReadHook(data);
      if got.None? then l else l.(hooks := DaemonAdd(l.hooks, got.value.0, Clip(got.value.1, DESC_MAX), MAX_HOOKS))
    case HookUnregister(data) => l.(hooks := DaemonRemove(l.hooks, data))
    case RegionRegister(data) =>
      var got := ReadRegion(data);
      if got.None? then l
      else l.(regions := DaemonAdd(l.regions, got.value.0, ShortDesc(got.value.1), MAX_REGIONS))
    case RegionUnregister(data) => l.(regions := DaemonRemove(l.regions, data))
  }

  function HandleAll(l: Listing, queue: seq<Message>): Listing
    decreases |queue|
  {
    if queue == [] then l else HandleAll(Handle(l, queue[0]), queue[1..])
  }

  /** One client and the daemon, with the messages between them in order. */
  datatype Link = Link(client: Client, queue: seq<Message>, lists: Listing)

  datatype Step = Calls(call: Call) | Handles

  function Apply(k: Link, step: Step): Link {
    match step
    case Calls(call) => k.(client := AfterCall(k.client, call), queue := k.queue + Sends(k.client, call))
    case Handles => if k.queue == [] then k else k.(queue := k.queue[1..], lists := Handle(k.lists, k.queue[0]))
  }

  function Run(k: Link, steps: seq<Step>): Link
    decreases |steps|
  {
    if steps == [] then k else Run(Apply(k, steps[0]), steps[1..])
  }

  predicate Sized(c: Client) {
    |c.vars| == MAX_VARS && |c.hooks| == MAX_HOOKS && |c.regions| == MAX_REGIONS
  }

  predicate AllAgree(c: Client, l: Listing) {
    Agree(c.vars, l.vars) && Agree(c.hooks, l.hooks) && Agree(c.regions, l.regions)
  }

  lemma {:induction false} HandleAllAppend(l: Listing, queue: seq<Message>, more: seq<Message>)
    ensures HandleAll(l, queue + more) == HandleAll(HandleAll(l, queue), more)
    decreases |queue|
  {
    hide Handle;
    if queue == [] {
      assert queue + more == more;
    } else {
      assert (queue + more)[1..] == queue[1..] + more;
      HandleAllAppend(Handle(l, queue[0]), queue[1..], more);
    }
  }

  lemma HandleAllOne(l: Listing, m: Message)
    ensures HandleAll(l, [m]) == Handle(l, m)
  {
    hide Handle;
    assert HandleAll(Handle(l, m), [m][1..]) == Handle(l, m);
  }

  lemma HandleNone(l: Listing)
    ensures HandleAll(l, []) == l
  {
  }

  lemma CallKeepsSize(c: Client, call: Call)
    requires Sized(c)
    ensures Sized(AfterCall(c, call))
  {
    hide ClientRegister, ClientUnregister, Clip;
  }

  /** The lists once everything under way has been handled. */
  function Drained(k: Link): Listing { HandleAll(k.lists, k.queue) }

  /** A delivery does not change what the lists will be, and a call adds its message. */
  lemma StepDrains(k: Link, step: Step)
    ensures step.Handles? ==> Apply(k, step).client == k.client && Drained(Apply(k, step)) == Drained(k)
    ensures step.Calls? ==> Apply(k, step).client == AfterCall(k.client, step.call)
                            && Drained(Apply(k, step)) == HandleAll(Drained(k), Sends(k.client, step.call))
  {
    hide Handle, AfterCall, Sends;
    if step.Calls? { HandleAllAppend(k.lists, k.queue, Sends(k.client, step.call)); }
  }

  // ------------------------------------------------------- what the lists never hold

  /** A name as the daemon can read it. */
  predicate CleanName(name: string) { |name| <= NAME_MAX && '|' !in name }

  /** Each name once and clean, and no more than there is room for. */
  predicate TidyList<V>(list: seq<Entry<V>>, capacity: nat) {
    |list| <= capacity && DistinctList(list) && forall k :: 0 <= k < |list| ==> CleanName(list[k].name)
  }

  predicate Tidy(l: Listing) {
    TidyList(l.vars, MAX_VARS) && TidyList(l.hooks, MAX_HOOKS) && TidyList(l.regions, MAX_REGIONS)
  }

  lemma AddKeepsTidy<V>(list: seq<Entry<V>>, name: string, value: V, capacity: nat)
    requires TidyList(list, capacity) && CleanName(name)
    ensures TidyList(DaemonAdd(list, name, value, capacity), capacity)
  {
    var k := FindEntry(list, name);
    if k < |list| {
      SetDistinct(list, k, value);
    } else if |list| < capacity {
      AppendDistinct(list, name, value);
    }
  }

  lemma RemoveKeepsTidy<V>(list: seq<Entry<V>>, name: string, capacity: nat)
    requires TidyList(list, capacity)
    ensures TidyList(DaemonRemove(list, name), capacity)
  {
    var k := FindEntry(list, name);
    if k < |list| { CutDistinct(list, k); }
  }

  lemma CutIsClean(data: string, k: nat)
    requires k <= |data| && '|' !in data[..k]
    ensures CleanName(Clip(data[..k], NAME_MAX))
  {
  }

  lemma HandleKeepsTidy(l: Listing, m: Message)
    requires Tidy(l)
    ensures Tidy(Handle(l, m))
  {
    hide TidyList, DaemonAdd, DaemonRemove, CleanName, Clip, StrToL, HexToUL, DecToUL;
    if !m.VarUnregister? && !m.HookUnregister? && !m.RegionUnregister? { CutIsClean(m.data, Bar(m.data)); }
    match m
    case VarRegister(data) =>
      var got := ReadVar(data);
      if got.Some? { AddKeepsTidy(l.vars, got.value.0, got.value.1, MAX_VARS); }
    case VarUnregister(data) => RemoveKeepsTidy(l.vars, data, MAX_VARS);
    case HookRegister(data) =>
      var got := ReadHook(data);
      if got.Some? { AddKeepsTidy(l.hooks, got.value.0, Clip(got.value.1, DESC_MAX), MAX_HOOKS); }
    case HookUnregister(data) => RemoveKeepsTidy(l.hooks, data, MAX_HOOKS);
    case RegionRegister(data) =>
      var got := ReadRegion(data);
      if got.Some? { AddKeepsTidy(l.regions, got.value.0, ShortDesc(got.value.1), MAX_REGIONS); }
    case RegionUnregister(data) => RemoveKeepsTidy(l.regions, data, MAX_REGIONS);
  }

  lemma {:induction false} HandleAllKeepsTidy(l: Listing, queue: seq<Message>)
    requires Tidy(l)
    ensures Tidy(HandleAll(l, queue))
    decreases |queue|
  {
    hide Tidy, Handle;
    if queue != [] {
      HandleKeepsTidy(l, queue[0]);
      HandleAllKeepsTidy(Handle(l, queue[0]), queue[1..]);
    }
  }

  /** Whatever the clients call, with whatever names, no list ever holds a name twice, a
      name of more than 33 characters or one with a bar, or more entries than it has room
      for. */
  lemma {:induction false} RunKeepsTidy(k: Link, steps: seq<Step>)
    requires Tidy(k.lists)
    ensures Tidy(Run(k, steps).lists)
    decreases |steps|
  {
    hide Tidy, Handle, AfterCall, Sends;
    if steps != [] {
      if steps[0].Handles? && k.queue != [] { HandleKeepsTidy(k.lists, k.queue[0]); }
      RunKeepsTidy(Apply(k, steps[0]), steps[1..]);
    }
  }

  // --------------------------------------------- calls with clean names, and old names

  /** Names of each registry. */
  datatype Names = Names(vars: set<string>, hooks: set<string>, regions: set<string>)

  const NONE: Names := Names({}, {}, {})

  /** The two sides agree but for names that are listed and not kept. */
  predicate AllAgreeBut(c: Client, l: Listing, stale: Names) {
    && AgreeBut(c.vars, l.vars, stale.vars)
    && AgreeBut(c.hooks, l.hooks, stale.hooks)
    && AgreeBut(c.regions, l.regions, stale.regions)
  }

  lemma AllAgreeIsAgreeBut(c: Client, l: Listing, stale: Names)
    requires AllAgreeBut(c, l, stale)
    ensures AllAgree(c, l) <==> stale == NONE
  {
    AgreeIsAgreeBut(c.vars, l.vars, stale.vars);
    AgreeIsAgreeBut(c.hooks, l.hooks, stale.hooks);
    AgreeIsAgreeBut(c.regions, l.regions, stale.regions);
    hide Agree, AgreeBut;
  }

  /** The names a call takes up or gives up; a call that returns at once does neither. */
  function Named(call: Call): Names {
    match call
    case RegisterVar(name, kind, target) => if target == 0 then NONE else NONE.(vars := {name})
    case UnregisterVar(name) => NONE.(vars := {name})
    case RegisterHook(name, desc, target) => if target == 0 then NONE else NONE.(hooks := {name})
    case UnregisterHook(name) => NONE.(hooks := {name})
    case RegisterRegion(name, r) => if r.addr == 0 || r.size == 0 then NONE else NONE.(regions := {name})
    case UnregisterRegion(name) => NONE.(regions := {name})
  }

  function Minus(a: Names, b: Names): Names {
    Names(a.vars - b.vars, a.hooks - b.hooks, a.regions - b.regions)
  }

  /** Names the registries are made for. */
  predicate Proper(call: Call) {
    call.RegisterVar? || call.RegisterHook? || call.RegisterRegion? ==> CleanName(call.name)
  }

  predicate Room<V>(list: seq<Entry<V>>, name: string, capacity: nat) { Has(list, name) || |list| < capacity }

  /** The lists have room for a call's name, or hold nothing the client does not keep. */
  predicate Roomy(l: Listing, call: Call, stale: Names) {
    match call
    case RegisterVar(name, kind, target) => target == 0 || stale.vars == {} || Room(l.vars, name, MAX_VARS)
    case RegisterHook(name, desc, target) => target == 0 || stale.hooks == {} || Room(l.hooks, name, MAX_HOOKS)
    case RegisterRegion(name, r) =>
      r.addr == 0 || r.size == 0 || stale.regions == {} || Room(l.regions, name, MAX_REGIONS)
    case _ => true
  }

  lemma MinusOne(stale: Names, name: string)
    ensures Minus(stale, NONE.(vars := {name})) == stale.(vars := stale.vars - {name})
    ensures Minus(stale, NONE.(hooks := {name})) == stale.(hooks := stale.hooks - {name})
    ensures Minus(stale, NONE.(regions := {name})) == stale.(regions := stale.regions - {name})
    ensures Minus(stale, NONE) == stale
  {
    assert stale.vars - {} == stale.vars && stale.hooks - {} == stale.hooks && stale.regions - {} == stale.regions;
  }

  lemma VarCallTracks(c: Client, l: Listing, stale: Names, call: Call)
    requires Sized(c) && Tidy(l) && AllAgreeBut(c, l, stale) && Proper(call) && Roomy(l, call, stale)
    requires call.RegisterVar? || call.UnregisterVar?
    ensures AllAgreeBut(AfterCall(c, call), HandleAll(l, Sends(c, call)), Minus(stale, Named(call)))
  {
    hide AgreeBut, ClientRegister, ClientUnregister, DaemonAdd, DaemonRemove, ReadVar, VarData, HandleAll, Minus, Has;
    MinusOne(stale, call.name);
    match call
    case RegisterVar(name, kind, target) =>
      if target == 0 {
        HandleNone(l);
      } else {
        HandleAllOne(l, VarRegister(VarData(name, kind)));
        VarReads(name, kind);
        RegisterTracks(c.vars, l.vars, stale.vars, name, kind);
      }
    case UnregisterVar(name) =>
      HandleAllOne(l, VarUnregister(name));
      UnregisterTracks(c.vars, l.vars, stale.vars, name);
  }

  lemma HookCallTracks(c: Client, l: Listing, stale: Names, call: Call)
    requires Sized(c) && Tidy(l) && AllAgreeBut(c, l, stale) && Proper(call) && Roomy(l, call, stale)
    requires call.RegisterHook? || call.UnregisterHook?
    ensures AllAgreeBut(AfterCall(c, call), HandleAll(l, Sends(c, call)), Minus(stale, Named(call)))
  {
    hide AgreeBut, ClientRegister, ClientUnregister, DaemonAdd, DaemonRemove;
    hide ReadHook, HookData, Clip, Target, HandleAll, Minus, Has;
    MinusOne(stale, call.name);
    match call
    case RegisterHook(name, desc, target) =>
      if target == 0 {
        HandleNone(l);
      } else if Target(c.hooks, name) == |c.hooks| {
        HandleNone(l);
        TargetFits(c.hooks, name, Clip(desc, DESC_MAX));
        NothingStale(c.hooks, l.hooks, stale.hooks, name);
      } else {
        HandleAllOne(l, HookRegister(HookData(name, desc)));
        HookReads(name, desc);
        RegisterTracks(c.hooks, l.hooks, stale.hooks, name, Clip(desc, DESC_MAX));
      }
    case UnregisterHook(name) =>
      HandleAllOne(l, HookUnregister(name));
      UnregisterTracks(c.hooks, l.hooks, stale.hooks, name);
  }

  lemma RegionCallTracks(c: Client, l: Listing, stale: Names, call: Call)
    requires Sized(c) && Tidy(l) && AllAgreeBut(c, l, stale) && Proper(call) && Roomy(l, call, stale)
    requires call.RegisterRegion? || call.UnregisterRegion?
    ensures AllAgreeBut(AfterCall(c, call), HandleAll(l, Sends(c, call)), Minus(stale, Named(call)))
  {
    hide AgreeBut, ClientRegister, ClientUnregister, DaemonAdd, DaemonRemove;
    hide ReadRegion, RegionData, Clip, Target, HandleAll, Minus, Has;
    MinusOne(stale, call.name);
    match call
    case RegisterRegion(name, r) =>
      if r.addr == 0 || r.size == 0 {
        HandleNone(l);
      } else if Target(c.regions, name) == |c.regions| {
        HandleNone(l);
        TargetFits(c.regions, name, ShortDesc(r));
        NothingStale(c.regions, l.regions, stale.regions, name);
      } else {
        HandleAllOne(l, RegionRegister(RegionData(name, r)));
        RegionReads(name, r);
        RegisterTracks(c.regions, l.regions, stale.regions, name, ShortDesc(r));
      }
    case UnregisterRegion(name) =>
      HandleAllOne(l, RegionUnregister(name));
      UnregisterTracks(c.regions, l.regions, stale.regions, name);
  }

  /** Next to a full table a list has no room for other names. */
  lemma NothingStale<V>(slots: seq<Slot<V>>, list: seq<Entry<V>>, stale: set<string>, name: string)
    requires AgreeBut(slots, list, stale) && Target(slots, name) == |slots| && |list| <= |slots|
    ensures stale - {name} == stale
  {
    AgreeButParts(slots, list, stale);
    NoSlotFree(slots);
  }

  /** A call with a clean name settles its name and no other. */
  lemma CallTracks(c: Client, l: Listing, stale: Names, call: Call)
    requires Sized(c) && Tidy(l) && AllAgreeBut(c, l, stale) && Proper(call) && Roomy(l, call, stale)
    ensures AllAgreeBut(AfterCall(c, call), HandleAll(l, Sends(c, call)), Minus(stale, Named(call)))
  {
    hide *;
    if call.RegisterVar? || call.UnregisterVar? {
      VarCallTracks(c, l, stale, call);
    } else if call.RegisterHook? || call.UnregisterHook? {
      HookCallTracks(c, l, stale, call);
    } else {
      RegionCallTracks(c, l, stale, call);
    }
  }

  // ------------------------------------------------------------- calls with any name

  /** The message text fits the client's buffer. */
  predicate Fits(call: Call) {
    match call
    case RegisterVar(name, kind, target) => |name| + 12 < MAX_DATA
    case RegisterHook(name, desc, target) => |name| + 1 < MAX_DATA
    case RegisterRegion(name, r) => |name| + 21 < MAX_DATA
    case _ => true
  }

  /** Whether a call keeps the agreement: it returns at once, its name is clean, a full hook
      or region table sends nothing, or what the daemon reads is safe. */
  predicate Safe(c: Client, call: Call) {
    match call
    case RegisterVar(name, kind, target) =>
      target == 0 || CleanName(name)
      || (var got := ReadVar(VarData(name, kind));
          got.Some? && MisreadSafe(c.vars, name, kind, got.value.0, got.value.1))
    case RegisterHook(name, desc, target) =>
      target == 0 || CleanName(name) || Target(c.hooks, name) == |c.hooks|
      || (var got := ReadHook(HookData(name, desc));
          got.Some? && MisreadSafe(c.hooks, name, Clip(desc, DESC_MAX), got.value.0, Clip(got.value.1, DESC_MAX)))
    case RegisterRegion(name, r) =>
      r.addr == 0 || r.size == 0 || CleanName(name) || Target(c.regions, name) == |c.regions|
      || (var got := ReadRegion(RegionData(name, r));
          got.Some? && MisreadSafe(c.regions, name, ShortDesc(r), got.value.0, ShortDesc(got.value.1)))
    case _ => true
  }

  /** Registering any name, when the daemon reads cut and got for it and its value. */
  lemma RegistrationAgrees<V>(slots: seq<Slot<V>>, list: seq<Entry<V>>, name: string, value: V, cut: string, got: V)
    requires Agree(slots, list) && TidyList(list, |slots|)
    requires |cut| <= NAME_MAX && (CleanName(name) ==> cut == name && got == value)
    ensures Agree(ClientRegister(slots, name, value), DaemonAdd(list, cut, got, |slots|)) <==>
            CleanName(name) || MisreadSafe(slots, name, value, cut, got)
  {
    if CleanName(name) {
      hide *;
      ShortName(name);
      RegisterAgrees(slots, list, name, value);
    } else {
      UncleanIsNotKept(slots, list, name);
      hide *;
      MisreadAgrees(slots, list, name, value, cut, got);
    }
  }

  lemma ShortName(name: string)
    requires CleanName(name)
    ensures |name| <= NAME_MAX && '|' !in name
  {
  }

  lemma UncleanIsNotKept<V>(slots: seq<Slot<V>>, list: seq<Entry<V>>, name: string)
    requires Agree(slots, list) && TidyList(list, |slots|) && !CleanName(name)
    ensures FindActive(slots, name) == |slots|
  {
    AgreeBut0(slots, list);
    FoundInBoth(slots, list, {}, name);
    hide Agree, AgreeBut, CleanName, DistinctList;
  }

  /** The first bar of a text that has one in front. */
  lemma BarComes(s: string, rest: string, n: nat)
    requires |s| < n
    ensures Bar(Clip(s + ['|'] + rest, n)) < |Clip(s + ['|'] + rest, n)|
  {
    assert Clip(s + ['|'] + rest, n)[|s|] == '|';
  }

  lemma VarIsRead(name: string, kind: Long)
    ensures var got := ReadVar(VarData(name, kind));
            got.Some? && |got.value.0| <= NAME_MAX && (CleanName(name) ==> got.value == (name, kind))
  {
    if CleanName(name) { VarReads(name, kind); }
    BarComes(name, PrintSigned(kind), |VarData(name, kind)| + 1);
    hide PrintSigned, StrToL, Bar;
  }

  lemma HookIsRead(name: string, desc: string)
    requires |name| + 1 < MAX_DATA
    ensures var got := ReadHook(HookData(name, desc));
            && got.Some? && |got.value.0| <= NAME_MAX
            && (CleanName(name) ==> got.value.0 == name && Clip(got.value.1, DESC_MAX) == Clip(desc, DESC_MAX))
  {
    if CleanName(name) { HookReads(name, desc); }
    BarComes(name, desc, MAX_DATA - 1);
    hide Bar;
  }

  lemma RegionIsRead(name: string, r: Region)
    requires |name| + 1 < MAX_DATA
    ensures var got := ReadRegion(RegionData(name, r));
            && got.Some? && |got.value.0| <= NAME_MAX
            && (CleanName(name) ==> got.value.0 == name && ShortDesc(got.value.1) == ShortDesc(r))
  {
    if CleanName(name) { RegionReads(name, r); }
    BarComes(name, Hex(r.addr, 8) + ['|'] + (Print(r.size) + ['|'] + r.desc), MAX_DATA - 1);
    hide Bar, Hex, Print, HexToUL, DecToUL, SentDesc;
  }

  lemma VarCallAgrees(c: Client, l: Listing, call: Call)
    requires Sized(c) && Tidy(l) && AllAgree(c, l) && call.RegisterVar? && call.target != 0
    ensures AllAgree(AfterCall(c, call), HandleAll(l, Sends(c, call))) <==> Safe(c, call)
  {
    hide Agree, TidyList, ClientRegister, DaemonAdd, ReadVar, VarData, HandleAll, CleanName, MisreadSafe;
    HandleAllOne(l, VarRegister(VarData(call.name, call.kind)));
    VarIsRead(call.name, call.kind);
    var got := ReadVar(VarData(call.name, call.kind)).value;
    RegistrationAgrees(c.vars, l.vars, call.name, call.kind, got.0, got.1);
  }

  lemma HookCallAgrees(c: Client, l: Listing, call: Call)
    requires Sized(c) && Tidy(l) && AllAgree(c, l) && call.RegisterHook? && call.target != 0 && Fits(call)
    ensures AllAgree(AfterCall(c, call), HandleAll(l, Sends(c, call))) <==> Safe(c, call)
  {
    hide Agree, TidyList, ClientRegister, DaemonAdd, ReadHook, HookData, HandleAll, CleanName, MisreadSafe;
    hide Clip, Target;
    TargetFits(c.hooks, call.name, Clip(call.desc, DESC_MAX));
    if Target(c.hooks, call.name) == |c.hooks| {
      HandleNone(l);
    } else {
      HandleAllOne(l, HookRegister(HookData(call.name, call.desc)));
      HookIsRead(call.name, call.desc);
      var got := ReadHook(HookData(call.name, call.desc)).value;
      RegistrationAgrees(c.hooks, l.hooks, call.name, Clip(call.desc, DESC_MAX), got.0, Clip(got.1, DESC_MAX));
    }
  }

  lemma RegionCallAgrees(c: Client, l: Listing, call: Call)
    requires Sized(c) && Tidy(l) && AllAgree(c, l) && call.RegisterRegion?
    requires call.region.addr != 0 && call.region.size != 0 && Fits(call)
    ensures AllAgree(AfterCall(c, call), HandleAll(l, Sends(c, call))) <==> Safe(c, call)
  {
    hide Agree, TidyList, ClientRegister, DaemonAdd, ReadRegion, RegionData, HandleAll, CleanName, MisreadSafe;
    hide ShortDesc, Target;
    TargetFits(c.regions, call.name, ShortDesc(call.region));
    if Target(c.regions, call.name) == |c.regions| {
      HandleNone(l);
    } else {
      HandleAllOne(l, RegionRegister(RegionData(call.name, call.region)));
      RegionIsRead(call.name, call.region);
      var got := ReadRegion(RegionData(call.name, call.region)).value;
      RegistrationAgrees(c.regions, l.regions, call.name, ShortDesc(call.region), got.0, ShortDesc(got.1));
    }
  }

  /** From agreement, a call with any name keeps it if and only if it is safe. */
  lemma CallAgreesIff(c: Client, l: Listing, call: Call)
    requires Sized(c) && Tidy(l) && AllAgree(c, l) && Fits(call)
    ensures AllAgree(AfterCall(c, call), HandleAll(l, Sends(c, call))) <==> Safe(c, call)
  {
    hide *;
    if call.RegisterVar? && call.target != 0 {
      VarCallAgrees(c, l, call);
    } else if call.RegisterHook? && call.target != 0 {
      HookCallAgrees(c, l, call);
    } else if call.RegisterRegion? && call.region.addr != 0 && call.region.size != 0 {
      RegionCallAgrees(c, l, call);
    } else {
      PlainCallAgrees(c, l, call);
    }
  }

  /** Calls that return at once, and the unregister calls. */
  lemma PlainCallAgrees(c: Client, l: Listing, call: Call)
    requires AllAgree(c, l)
    requires call.RegisterVar? || call.RegisterHook? ==> call.target == 0
    requires call.RegisterRegion? ==> call.region.addr == 0 || call.region.size == 0
    ensures Safe(c, call) && AllAgree(AfterCall(c, call), HandleAll(l, Sends(c, call)))
  {
    hide Agree, ClientUnregister, DaemonRemove, HandleAll, MisreadSafe, ReadVar, ReadHook, ReadRegion;
    match call
    case UnregisterVar(name) =>
      HandleAllOne(l, VarUnregister(name));
      UnregisterAgrees(c.vars, l.vars, name);
    case UnregisterHook(name) =>
      HandleAllOne(l, HookUnregister(name));
      UnregisterAgrees(c.hooks, l.hooks, name);
    case UnregisterRegion(name) =>
      HandleAllOne(l, RegionUnregister(name));
      UnregisterAgrees(c.regions, l.regions, name);
    case _ => HandleNone(l);
  }

  // ------------------------------------------------------------------- runs of calls

  /** The two sides agree once everything under way has been handled. */
  predicate Inv(k: Link) {
    Sized(k.client) && Tidy(Drained(k)) && AllAgree(k.client, Drained(k))
  }

  /** Every call of a run is safe when it is made. */
  predicate SafeRun(k: Link, steps: seq<Step>)
    decreases |steps|
  {
    steps == []
    || (&& (steps[0].Calls? ==> Fits(steps[0].call) && Safe(k.client, steps[0].call))
        && SafeRun(Apply(k, steps[0]), steps[1..]))
  }

  lemma TidyAfter(k: Link, step: Step)
    requires Tidy(Drained(k))
    ensures Tidy(Drained(Apply(k, step)))
  {
    hide *;
    StepDrains(k, step);
    if step.Calls? { HandleAllKeepsTidy(Drained(k), Sends(k.client, step.call)); }
  }

  lemma StepAgreesIff(k: Link, step: Step)
    requires Inv(k) && (step.Calls? ==> Fits(step.call))
    ensures Inv(Apply(k, step)) <==> (step.Calls? ==> Safe(k.client, step.call))
  {
    hide AllAgree, Tidy, Drained, HandleAll, Sized, Apply, Fits, Safe, AfterCall, Sends;
    TidyAfter(k, step);
    StepDrains(k, step);
    if step.Calls? {
      CallKeepsSize(k.client, step.call);
      CallAgreesIff(k.client, Drained(k), step.call);
    }
  }

  lemma {:induction false} RunKeeps(k: Link, steps: seq<Step>)
    requires Inv(k) && SafeRun(k, steps)
    ensures Inv(Run(k, steps))
    decreases |steps|
  {
    hide Inv, Apply, Fits, Safe;
    if steps != [] {
      StepAgreesIff(k, steps[0]);
      RunKeeps(Apply(k, steps[0]), steps[1..]);
    }
  }

  lemma {:induction false} RunAppend(k: Link, steps: seq<Step>, last: Step)
    ensures Run(k, steps + [last]) == Apply(Run(k, steps), last)
    decreases |steps|
  {
    hide Apply;
    if steps == [] {
      assert steps + [last] == [last];
      assert Run(Apply(k, last), [last][1..]) == Apply(k, last);
    } else {
      assert (steps + [last])[1..] == steps[1..] + [last];
      RunAppend(Apply(k, steps[0]), steps[1..], last);
    }
  }

  /** A run of safe calls ends in agreement, and one more call, with any name, ends the
      agreement if and only if it is not safe. */
  lemma FirstUnsafeCall(k: Link, steps: seq<Step>, call: Call)
    requires Inv(k) && SafeRun(k, steps) && Fits(call)
    ensures Inv(Run(k, steps))
    ensures Inv(Run(k, steps + [Calls(call)])) <==> Safe(Run(k, steps).client, call)
  {
    hide *;
    RunKeeps(k, steps);
    RunAppend(k, steps, Calls(call));
    StepAgreesIff(Run(k, steps), Calls(call));
  }

  /** No slot is in use. */
  predicate Unused<V>(slots: seq<Slot<V>>) {
    forall k :: 0 <= k < |slots| ==> !slots[k].active
  }

  /** A client with empty tables. */
  predicate Fresh(c: Client) {
    Sized(c) && Unused(c.vars) && Unused(c.hooks) && Unused(c.regions)
  }

  lemma ProperIsSafe(c: Client, call: Call)
    requires Proper(call)
    ensures Fits(call) && Safe(c, call)
  {
    hide ReadVar, ReadHook, ReadRegion, MisreadSafe;
  }

  lemma {:induction false} ProperRunIsSafe(k: Link, steps: seq<Step>)
    requires forall i :: 0 <= i < |steps| && steps[i].Calls? ==> Proper(steps[i].call)
    ensures SafeRun(k, steps)
    decreases |steps|
  {
    hide Proper, Fits, Safe, Apply;
    if steps != [] {
      if steps[0].Calls? { ProperIsSafe(k.client, steps[0].call); }
      ProperRunIsSafe(Apply(k, steps[0]), steps[1..]);
    }
  }

  lemma FreshStart(c: Client)
    requires Fresh(c)
    ensures Inv(Link(c, [], Listing([], [], [])))
  {
    FreshAgree(c.vars);
    FreshAgree(c.hooks);
    FreshAgree(c.regions);
    hide Agree, Unused;
  }

  /** From a fresh registration, after every run of calls and deliveries in any
      interleaving: whenever nothing is under way, the daemon lists exactly what the
      client keeps, each name once. */
  lemma RunsAgree(c: Client, steps: seq<Step>)
    requires Fresh(c)
    requires forall i :: 0 <= i < |steps| && steps[i].Calls? ==> Proper(steps[i].call)
    ensures var k := Run(Link(c, [], Listing([], [], [])), steps);
            && AllAgree(k.client, Drained(k))
            && (k.queue == [] ==> AllAgree(k.client, k.lists))
  {
    hide Run, AllAgree, Handle, Proper, Fresh, Sized, Tidy;
    FreshStart(c);
    ProperRunIsSafe(Link(c, [], Listing([], [], [])), steps);
    RunKeeps(Link(c, [], Listing([], [], [])), steps);
  }

  // ------------------------------------------------------------------ where it ends

  lemma NoBarBefore(s: string)
    ensures forall j :: 0 <= j < Bar(s) ==> s[j] != '|'
  {
    forall j | 0 <= j < Bar(s) ensures s[j] != '|' {
      assert s[j] == s[..Bar(s)][j];
    }
  }

  lemma BarIsFirst(s: string, k: nat)
    requires k < |s| && s[k] == '|' && forall j :: 0 <= j < k ==> s[j] != '|'
    ensures Bar(s) == k
  {
    NoBarBefore(s);
  }

  lemma BarOfFront(s: string, rest: string)
    requires Bar(s) < |s|
    ensures Bar(s + rest) == Bar(s)
  {
    NoBarBefore(s);
    BarIsFirst(s + rest, Bar(s));
  }

  /** With a bar in what the client keeps of a name, no cut name is the kept one. */
  lemma BarIsMisread<V>(slots: seq<Slot<V>>, list: seq<Entry<V>>, name: string, value: V, cut: string, got: V)
    requires Agree(slots, list) && TidyList(list, |slots|)
    requires '|' in Clip(name, NAME_MAX) && '|' !in cut
    ensures !CleanName(name) && Target(slots, name) == FindFree(slots)
    ensures MisreadSafe(slots, name, value, cut, got) <==>
            FindFree(slots) == |slots|
            && (FindActive(slots, cut) < |slots| ==> slots[FindActive(slots, cut)].value == got)
  {
    UncleanIsNotKept(slots, list, name);
    hide Agree, TidyList, FindActive, FindFree;
  }

  /** What the daemon reads as the type, behind the first bar. */
  function TypeRead(name: string, kind: Long): int {
    StrToL(Drop(name, Bar(name) + 1) + ['|'] + PrintSigned(kind))
  }

  function Drop(s: string, n: nat): string { if n <= |s| then s[n..] else [] }

  /** The daemon cuts a name at its first bar. With a bar among the first 33 characters of
      a variable's name the two sides stay in agreement if and only if the table is full and
      what the daemon reads changes nothing: the cut name is not registered, or it is with
      the type that is read. */
  lemma BarInVarName(c: Client, l: Listing, name: string, kind: Long)
    requires Sized(c) && Tidy(l) && AllAgree(c, l)
    requires '|' in Clip(name, NAME_MAX) && |name| + 12 < MAX_DATA
    ensures var call, k := RegisterVar(name, kind, 1), FindActive(c.vars, name[..Bar(name)]);
            AllAgree(AfterCall(c, call), HandleAll(l, Sends(c, call))) <==>
            FindFree(c.vars) == |c.vars| && (k < |c.vars| ==> c.vars[k].value == TypeRead(name, kind))
  {
    hide *;
    EachAgrees(c, l);
    VarFits(name, kind);
    BarComesEarly(name);
    VarReadsCut(name, kind);
    CallAgreesIff(c, l, RegisterVar(name, kind, 1));
    BarIsMisread(c.vars, l.vars, name, kind, name[..Bar(name)], TypeRead(name, kind));
    VarSafe(c, name, kind, name[..Bar(name)], TypeRead(name, kind));
  }

  lemma EachAgrees(c: Client, l: Listing)
    requires Sized(c) && Tidy(l) && AllAgree(c, l)
    ensures Agree(c.vars, l.vars) && TidyList(l.vars, |c.vars|)
    ensures Agree(c.hooks, l.hooks) && TidyList(l.hooks, |c.hooks|)
    ensures Agree(c.regions, l.regions) && TidyList(l.regions, |c.regions|)
  {
    hide Agree, TidyList;
  }

  lemma VarFits(name: string, kind: Long)
    requires |name| + 12 < MAX_DATA
    ensures Fits(RegisterVar(name, kind, 1))
  {
  }

  lemma HookFits(name: string, desc: string)
    requires |name| + 1 < MAX_DATA
    ensures Fits(RegisterHook(name, desc, 1))
  {
  }

  lemma RegionFits(name: string, r: Region)
    requires |name| + 21 < MAX_DATA
    ensures Fits(RegisterRegion(name, r)) && |name| + 1 < MAX_DATA
  {
  }

  lemma BarComesEarly(name: string)
    requires '|' in Clip(name, NAME_MAX)
    ensures Bar(name) < |name| && Bar(name) < NAME_MAX && '|' !in name[..Bar(name)]
  {
    NoBarBefore(name);
    var i :| 0 <= i < |Clip(name, NAME_MAX)| && Clip(name, NAME_MAX)[i] == '|';
    assert name[i] == '|';
  }

  lemma VarSafe(c: Client, name: string, kind: Long, cut: string, got: int)
    requires ReadVar(VarData(name, kind)) == Some((cut, got)) && !CleanName(name)
    ensures Safe(c, RegisterVar(name, kind, 1)) <==> MisreadSafe(c.vars, name, kind, cut, got)
  {
    hide CleanName, ReadVar, VarData, MisreadSafe;
  }

  lemma TypeReadIs(name: string, kind: Long)
    requires Bar(name) < |name|
    ensures TypeRead(name, kind) == StrToL(name[Bar(name) + 1..] + ['|'] + PrintSigned(kind))
  {
    hide Bar, StrToL, PrintSigned;
  }

  lemma VarReadsCut(name: string, kind: Long)
    requires Bar(name) < |name| && Bar(name) <= NAME_MAX
    ensures ReadVar(VarData(name, kind)) == Some((name[..Bar(name)], TypeRead(name, kind)))
  {
    hide *;
    var b, text := Bar(name), PrintSigned(kind);
    TypeReadIs(name, kind);
    var data := VarData(name, kind);
    VarDataIs(name, kind);
    BarOfFront(name, ['|'] + text);
    assert data[..b] == name[..b];
    assert data[b + 1..] == name[b + 1..] + ['|'] + text;
    ReadVarIs(data);
  }

  lemma VarDataIs(name: string, kind: Long)
    ensures VarData(name, kind) == name + (['|'] + PrintSigned(kind))
  {
    hide PrintSigned;
  }

  lemma ReadVarIs(data: string)
    requires Bar(data) < |data| && Bar(data) <= NAME_MAX
    ensures ReadVar(data) == Some((data[..Bar(data)], StrToL(data[Bar(data) + 1..])))
  {
    hide Bar, StrToL;
  }

  /** Hooks and memory regions with such names keep the agreement only in a full table,
      which sends nothing. */
  lemma BarInHookName(c: Client, l: Listing, name: string, desc: string)
    requires Sized(c) && Tidy(l) && AllAgree(c, l)
    requires '|' in Clip(name, NAME_MAX) && |name| + 1 < MAX_DATA
    ensures var call := RegisterHook(name, desc, 1);
            AllAgree(AfterCall(c, call), HandleAll(l, Sends(c, call))) <==> FindFree(c.hooks) == |c.hooks|
  {
    HookFits(name, desc);
    hide *;
    EachAgrees(c, l);
    HookIsRead(name, desc);
    var got := ReadHook(HookData(name, desc)).value;
    HookCutHasNoBar(name, desc);
    BarIsMisread(c.hooks, l.hooks, name, Clip(desc, DESC_MAX), got.0, Clip(got.1, DESC_MAX));
    CallAgreesIff(c, l, RegisterHook(name, desc, 1));
    HookSafe(c, name, desc);
  }

  lemma HookCutHasNoBar(name: string, desc: string)
    requires ReadHook(HookData(name, desc)).Some?
    ensures '|' !in ReadHook(HookData(name, desc)).value.0
  {
    var data := HookData(name, desc);
    CutIsClean(data, Bar(data));
    hide Bar;
  }

  lemma HookSafe(c: Client, name: string, desc: string)
    requires ReadHook(HookData(name, desc)).Some? && !CleanName(name)
    ensures var got := ReadHook(HookData(name, desc)).value;
            Safe(c, RegisterHook(name, desc, 1)) <==>
            Target(c.hooks, name) == |c.hooks|
            || MisreadSafe(c.hooks, name, Clip(desc, DESC_MAX), got.0, Clip(got.1, DESC_MAX))
  {
    hide CleanName, ReadHook, HookData, MisreadSafe, Clip, Target;
  }

  lemma BarInRegionName(c: Client, l: Listing, name: string, r: Region)
    requires Sized(c) && Tidy(l) && AllAgree(c, l)
    requires '|' in Clip(name, NAME_MAX) && |name| + 21 < MAX_DATA
    requires r.addr != 0 && r.size != 0
    ensures var call := RegisterRegion(name, r);
            AllAgree(AfterCall(c, call), HandleAll(l, Sends(c, call))) <==> FindFree(c.regions) == |c.regions|
  {
    RegionFits(name, r);
    hide *;
    EachAgrees(c, l);
    RegionIsRead(name, r);
    var got := ReadRegion(RegionData(name, r)).value;
    RegionCutHasNoBar(name, r);
    BarIsMisread(c.regions, l.regions, name, ShortDesc(r), got.0, ShortDesc(got.1));
    CallAgreesIff(c, l, RegisterRegion(name, r));
    RegionSafe(c, name, r);
  }

  lemma RegionCutHasNoBar(name: string, r: Region)
    requires ReadRegion(RegionData(name, r)).Some?
    ensures '|' !in ReadRegion(RegionData(name, r)).value.0
  {
    var data := RegionData(name, r);
    CutIsClean(data, Bar(data));
    hide Bar, HexToUL, DecToUL;
  }

  lemma RegionSafe(c: Client, name: string, r: Region)
    requires ReadRegion(RegionData(name, r)).Some? && !CleanName(name) && r.addr != 0 && r.size != 0
    ensures var got := ReadRegion(RegionData(name, r)).value;
            Safe(c, RegisterRegion(name, r)) <==>
            Target(c.regions, name) == |c.regions|
            || MisreadSafe(c.regions, name, ShortDesc(r), got.0, ShortDesc(got.1))
  {
    hide CleanName, ReadRegion, RegionData, MisreadSafe, ShortDesc, Target;
  }

  lemma BehindBar(name: string, letters: string, tail: string)
    requires '|' !in letters && name == letters + ['|'] + tail
    ensures Bar(name) == |letters| < |name| && name[Bar(name) + 1..] == tail
  {
    hide *;
    BarAfter(letters, tail);
  }

  lemma ShortBarred(name: string, tail: string)
    requires name == "a" + ['|'] + tail && |tail| < 4
    ensures '|' in Clip(name, NAME_MAX) && |name| + 21 < MAX_DATA && name[..Bar(name)] == "a"
  {
    BehindBar(name, "a", tail);
    assert name[1] == '|' && name[..1] == "a";
    hide Bar;
  }

  lemma FreshAgrees(c: Client)
    requires Fresh(c)
    ensures Sized(c) && Tidy(Listing([], [], [])) && AllAgree(c, Listing([], [], []))
  {
    FreshStart(c);
    HandleNone(Listing([], [], []));
  }

  lemma FreshHasRoom(c: Client)
    requires Fresh(c)
    ensures FindFree(c.vars) < |c.vars| && FindFree(c.hooks) < |c.hooks| && FindFree(c.regions) < |c.regions|
  {
  }

  /** An input: a fresh client registers "a|b". */
  lemma BarNameDiverges(c: Client, call: Call)
    requires Fresh(c)
    requires call in [RegisterVar("a|b", 1, 1), RegisterHook("a|b", "", 1), RegisterRegion("a|b", Region(1, 1, ""))]
    ensures !AllAgree(AfterCall(c, call), HandleAll(Listing([], [], []), Sends(c, call)))
  {
    assert "a|b" == "a" + ['|'] + "b";
    ShortBarred("a|b", "b");
    hide *;
    FreshAgrees(c);
    FreshHasRoom(c);
    match call
    case RegisterVar(name, kind, _) => BarInVarName(c, Listing([], [], []), name, kind);
    case RegisterHook(name, desc, _) => BarInHookName(c, Listing([], [], []), name, desc);
    case RegisterRegion(name, r) => BarInRegionName(c, Listing([], [], []), name, r);
  }

  /** A one behind a blank or a sign, and what follows it. */
  lemma OneRead(front: char, rest: string)
    requires front in [' ', '+', '-'] && rest != [] && !IsDigit(rest[0])
    ensures StrToL([front, '1'] + rest) == if front == '-' then -1 else 1
  {
    var all, digits := [front, '1'] + rest, ['1'] + rest;
    assert all[1..] == digits && digits[1..] == rest;
    NothingToSkip(digits);
    assert DecPrefix(digits, 0) == 1;
    hide DecPrefix;
  }

  lemma TypeBehind(name: string, letters: string, front: char, kind: Long)
    requires '|' !in letters && name == letters + ['|'] + [front, '1'] && front in [' ', '+', '-']
    ensures Bar(name) == |letters| && TypeRead(name, kind) == if front == '-' then -1 else 1
  {
    hide *;
    BehindBar(name, letters, [front, '1']);
    TypeReadIs(name, kind);
    var rest := ['|'] + PrintSigned(kind);
    assert [front, '1'] + ['|'] + PrintSigned(kind) == [front, '1'] + rest;
    BarIsNoDigit();
    OneRead(front, rest);
  }

  /** Behind the bar the type is read as strtol reads: blanks and a sign are taken. */
  lemma BlankBehindBar(kind: Long)
    ensures TypeRead("a| 1", kind) == 1 && TypeRead("a|+1", kind) == 1 && TypeRead("a|-1", kind) == -1
  {
    assert "a| 1" == "a" + ['|'] + [' ', '1'] && "a|+1" == "a" + ['|'] + ['+', '1'];
    assert "a|-1" == "a" + ['|'] + ['-', '1'];
    hide *;
    TypeBehind("a| 1", "a", ' ', kind);
    TypeBehind("a|+1", "a", '+', kind);
    TypeBehind("a|-1", "a", '-', kind);
  }

  /** An input with a full table: "a" is registered with type 0, and "a| 1" is refused by the
      client, while the daemon lists "a" with type 1. */
  lemma BlankDiverges(c: Client, l: Listing, kind: Long)
    requires Sized(c) && Tidy(l) && AllAgree(c, l) && FindFree(c.vars) == |c.vars|
    requires FindActive(c.vars, "a") < |c.vars| && c.vars[FindActive(c.vars, "a")].value == 0
    ensures !AllAgree(AfterCall(c, RegisterVar("a| 1", kind, 1)), HandleAll(l, Sends(c, RegisterVar("a| 1", kind, 1))))
  {
    assert "a| 1" == "a" + ['|'] + " 1";
    ShortBarred("a| 1", " 1");
    hide *;
    BlankBehindBar(kind);
    BarInVarName(c, l, "a| 1", kind);
  }

  lemma FreshMisread(c: Client, name: string, kind: Long, cut: string)
    requires Fresh(c) && Clip(name, NAME_MAX) == cut
    ensures MisreadSafe(c.vars, name, kind, cut, kind)
  {
  }

  lemma LongIsUnclean(name: string)
    requires |name| > NAME_MAX
    ensures !CleanName(name)
  {
  }

  /** And one that agrees: behind 33 characters the bar cuts nothing off, and the blank is
      skipped in front of the type. */
  lemma BlankAgrees(c: Client, letters: string)
    requires Fresh(c) && |letters| == NAME_MAX && '|' !in letters
    ensures var call := RegisterVar(letters + "| 1", 1, 1);
            AllAgree(AfterCall(c, call), HandleAll(Listing([], [], []), Sends(c, call)))
  {
    var name := letters + "| 1";
    assert name == letters + ['|'] + [' ', '1'];
    assert Clip(name, NAME_MAX) == letters == name[..|letters|];
    assert |name| + 12 < MAX_DATA && |letters| < |name|;
    hide *;
    TypeBehind(name, letters, ' ', 1);
    VarReadsCut(name, 1);
    FreshMisread(c, name, 1, letters);
    LongIsUnclean(name);
    VarSafe(c, name, 1, letters, 1);
    VarFits(name, 1);
    FreshAgrees(c);
    CallAgreesIff(c, Listing([], [], []), RegisterVar(name, 1, 1));
  }

  // ------------------------------------------------------- starting again, old lists

  function NamesOf<V>(list: seq<Entry<V>>): set<string> {
    if list == [] then {} else {list[0].name} + NamesOf(list[1..])
  }

  function ListedNames(l: Listing): Names { Names(NamesOf(l.vars), NamesOf(l.hooks), NamesOf(l.regions)) }

  predicate Within(a: Names, b: Names) { a.vars <= b.vars && a.hooks <= b.hooks && a.regions <= b.regions }

  function Plus(a: Names, b: Names): Names {
    Names(a.vars + b.vars, a.hooks + b.hooks, a.regions + b.regions)
  }

  /** The names the calls of a run take up or give up. */
  function NamedIn(steps: seq<Step>): Names {
    if steps == [] then NONE
    else Plus(NamedBy(steps[0]), NamedIn(steps[1..]))
  }

  lemma {:induction false} NamesOfHas<V>(list: seq<Entry<V>>, name: string)
    ensures name in NamesOf(list) <==> Has(list, name)
    decreases |list|
  {
    if list != [] { NamesOfHas(list[1..], name); }
  }

  lemma {:induction false} NamesOfCount<V>(list: seq<Entry<V>>)
    requires DistinctList(list)
    ensures |NamesOf(list)| == |list|
    decreases |list|
  {
    if list != [] {
      NamesOfCount(list[1..]);
      NamesOfHas(list[1..], list[0].name);
      assert forall k :: 0 <= k < |list[1..]| ==> list[1..][k] == list[k + 1];
    }
  }

  /** Next to an empty table every listed name is stale. */
  lemma EmptyAgreesBut<V>(slots: seq<Slot<V>>, list: seq<Entry<V>>)
    requires Unused(slots) && DistinctList(list)
    ensures AgreeBut(slots, list, NamesOf(list))
  {
    UsedNone(slots);
    NamesOfCount(list);
    forall name | name in NamesOf(list) ensures Has(list, name) { NamesOfHas(list, name); }
    forall i | 0 <= i < |list| ensures list[i].name in NamesOf(list) {
      NamesOfHas(list, list[i].name);
      FindEntryIs(list, i);
    }
    hide NamesOf, Used, Has, DistinctList, FindEntry;
    TracksIs(slots, list, NamesOf(list));
    AgreeButIs(slots, list, NamesOf(list));
  }

  /** A set of names with room for all of them in a list. */
  predicate Pooled(l: Listing, pool: Names) {
    && Within(ListedNames(l), pool)
    && |pool.vars| <= MAX_VARS && |pool.hooks| <= MAX_HOOKS && |pool.regions| <= MAX_REGIONS
  }

  lemma Smaller(a: set<string>, b: set<string>, x: string)
    requires a <= b && x in b && x !in a
    ensures |a| < |b|
  {
    assert b == a + (b - a);
    assert x in b - a;
    assert |b| == |a| + |b - a|;
  }

  lemma PoolHasRoom<V>(list: seq<Entry<V>>, pool: set<string>, name: string, capacity: nat)
    requires DistinctList(list) && NamesOf(list) <= pool && name in pool && |pool| <= capacity
    ensures Room(list, name, capacity)
  {
    NamesOfHas(list, name);
    NamesOfCount(list);
    hide NamesOf, DistinctList, FindEntry;
    if !Has(list, name) { Smaller(NamesOf(list), pool, name); }
  }

  lemma TidyIsDistinct(l: Listing)
    requires Tidy(l)
    ensures DistinctList(l.vars) && DistinctList(l.hooks) && DistinctList(l.regions)
  {
    hide DistinctList, CleanName;
  }

  lemma CallHasRoom(l: Listing, call: Call, stale: Names, pool: Names)
    requires Tidy(l) && Pooled(l, pool) && Within(Named(call), pool)
    ensures Roomy(l, call, stale)
  {
    TidyIsDistinct(l);
    hide NamesOf, Room, DistinctList, Tidy;
    match call
    case RegisterVar(name, kind, target) =>
      if target != 0 { PoolHasRoom(l.vars, pool.vars, name, MAX_VARS); }
    case RegisterHook(name, desc, target) =>
      if target != 0 { PoolHasRoom(l.hooks, pool.hooks, name, MAX_HOOKS); }
    case RegisterRegion(name, r) =>
      if r.addr != 0 && r.size != 0 { PoolHasRoom(l.regions, pool.regions, name, MAX_REGIONS); }
    case _ =>
  }

  predicate InPool<V>(list: seq<Entry<V>>, pool: set<string>) {
    forall k :: 0 <= k < |list| ==> list[k].name in pool
  }

  lemma {:induction false} InPoolIs<V>(list: seq<Entry<V>>, pool: set<string>)
    ensures NamesOf(list) <= pool <==> InPool(list, pool)
    decreases |list|
  {
    if list != [] {
      InPoolIs(list[1..], pool);
      assert forall k :: 0 <= k < |list[1..]| ==> list[1..][k] == list[k + 1];
      if InPool(list[1..], pool) && list[0].name in pool {
        assert forall k :: 0 <= k < |list| ==> list[k].name in pool by {
          forall k | 0 <= k < |list| ensures list[k].name in pool {
            if k > 0 { assert list[k] == list[1..][k - 1]; }
          }
        }
      }
    }
  }

  lemma AddKeepsPool<V>(list: seq<Entry<V>>, name: string, value: V, capacity: nat, pool: set<string>)
    requires NamesOf(list) <= pool && name in pool && |name| <= NAME_MAX
    ensures NamesOf(DaemonAdd(list, name, value, capacity)) <= pool
  {
    InPoolIs(list, pool);
    InPoolIs(DaemonAdd(list, name, value, capacity), pool);
    hide NamesOf;
  }

  lemma RemoveKeepsPool<V>(list: seq<Entry<V>>, name: string, pool: set<string>)
    requires NamesOf(list) <= pool
    ensures NamesOf(DaemonRemove(list, name)) <= pool
  {
    InPoolIs(list, pool);
    InPoolIs(DaemonRemove(list, name), pool);
    hide NamesOf;
  }

  lemma VarCallKeepsPool(c: Client, l: Listing, call: Call, pool: Names)
    requires Pooled(l, pool) && Within(Named(call), pool) && Proper(call) && (call.RegisterVar? || call.UnregisterVar?)
    ensures Pooled(HandleAll(l, Sends(c, call)), pool)
  {
    hide NamesOf, DaemonAdd, DaemonRemove, ReadVar, VarData, HandleAll;
    match call
    case RegisterVar(name, kind, target) =>
      if target == 0 {
        HandleNone(l);
      } else {
        HandleAllOne(l, VarRegister(VarData(name, kind)));
        VarReads(name, kind);
        AddKeepsPool(l.vars, name, kind, MAX_VARS, pool.vars);
      }
    case UnregisterVar(name) =>
      HandleAllOne(l, VarUnregister(name));
      RemoveKeepsPool(l.vars, name, pool.vars);
  }

  lemma HookCallKeepsPool(c: Client, l: Listing, call: Call, pool: Names)
    requires Pooled(l, pool) && Within(Named(call), pool) && Proper(call)
    requires call.RegisterHook? || call.UnregisterHook?
    ensures Pooled(HandleAll(l, Sends(c, call)), pool)
  {
    hide NamesOf, DaemonAdd, DaemonRemove, ReadHook, HookData, HandleAll, Clip, Target;
    match call
    case RegisterHook(name, desc, target) =>
      if target == 0 || Target(c.hooks, name) == |c.hooks| {
        HandleNone(l);
      } else {
        HandleAllOne(l, HookRegister(HookData(name, desc)));
        HookReads(name, desc);
        AddKeepsPool(l.hooks, name, Clip(desc, DESC_MAX), MAX_HOOKS, pool.hooks);
      }
    case UnregisterHook(name) =>
      HandleAllOne(l, HookUnregister(name));
      RemoveKeepsPool(l.hooks, name, pool.hooks);
  }

  lemma RegionCallKeepsPool(c: Client, l: Listing, call: Call, pool: Names)
    requires Pooled(l, pool) && Within(Named(call), pool) && Proper(call)
    requires call.RegisterRegion? || call.UnregisterRegion?
    ensures Pooled(HandleAll(l, Sends(c, call)), pool)
  {
    hide NamesOf, DaemonAdd, DaemonRemove, ReadRegion, RegionData, HandleAll, Clip, Target;
    match call
    case RegisterRegion(name, r) =>
      if r.addr == 0 || r.size == 0 || Target(c.regions, name) == |c.regions| {
        HandleNone(l);
      } else {
        HandleAllOne(l, RegionRegister(RegionData(name, r)));
        RegionReads(name, r);
        AddKeepsPool(l.regions, name, ShortDesc(r), MAX_REGIONS, pool.regions);
      }
    case UnregisterRegion(name) =>
      HandleAllOne(l, RegionUnregister(name));
      RemoveKeepsPool(l.regions, name, pool.regions);
  }

  lemma CallKeepsPool(c: Client, l: Listing, call: Call, pool: Names)
    requires Pooled(l, pool) && Within(Named(call), pool) && Proper(call)
    ensures Pooled(HandleAll(l, Sends(c, call)), pool)
  {
    hide *;
    if call.RegisterVar? || call.UnregisterVar? {
      VarCallKeepsPool(c, l, call, pool);
    } else if call.RegisterHook? || call.UnregisterHook? {
      HookCallKeepsPool(c, l, call, pool);
    } else {
      RegionCallKeepsPool(c, l, call, pool);
    }
  }

  /** The sides agree but for some names, and all names fit the lists. */
  predicate Follows(k: Link, stale: Names, pool: Names) {
    && Sized(k.client) && Tidy(Drained(k)) && Pooled(Drained(k), pool)
    && AllAgreeBut(k.client, Drained(k), stale)
  }

  /** Calls with clean names that all fit the lists. */
  predicate Registers(step: Step, pool: Names) {
    step.Calls? ==> Proper(step.call) && Within(Named(step.call), pool)
  }

  function NamedBy(step: Step): Names { if step.Calls? then Named(step.call) else NONE }

  lemma StepFollows(k: Link, step: Step, stale: Names, pool: Names)
    requires Follows(k, stale, pool) && Registers(step, pool)
    ensures Follows(Apply(k, step), Minus(stale, NamedBy(step)), pool)
  {
    StepDrains(k, step);
    TidyAfter(k, step);
    MinusOne(stale, "");
    hide Sized, Tidy, Pooled, AllAgreeBut, Drained, HandleAll, Apply, AfterCall, Sends, Proper, Within, Named, Minus;
    if step.Calls? {
      var l := Drained(k);
      CallHasRoom(l, step.call, stale, pool);
      CallTracks(k.client, l, stale, step.call);
      CallKeepsPool(k.client, l, step.call, pool);
      CallKeepsSize(k.client, step.call);
    }
  }

  lemma SetMinus(x: set<string>, y: set<string>, z: set<string>)
    ensures (x - y) - z == x - (y + z)
    ensures x - y == {} <==> x <= y
  {
    if !(x <= y) {
      var e :| e in x && e !in y;
      assert e in x - y;
    }
  }

  lemma MinusPlus(stale: Names, a: Names, b: Names)
    ensures Minus(Minus(stale, a), b) == Minus(stale, Plus(a, b))
    ensures Minus(stale, a) == NONE <==> Within(stale, a)
  {
    SetMinus(stale.vars, a.vars, b.vars);
    SetMinus(stale.hooks, a.hooks, b.hooks);
    SetMinus(stale.regions, a.regions, b.regions);
  }

  lemma {:induction false} RunFollows(k: Link, steps: seq<Step>, stale: Names, pool: Names)
    requires Follows(k, stale, pool) && forall i :: 0 <= i < |steps| ==> Registers(steps[i], pool)
    ensures Follows(Run(k, steps), Minus(stale, NamedIn(steps)), pool)
    decreases |steps|
  {
    hide Follows, Registers, Apply, Minus, Plus, NamedBy;
    if steps == [] {
      MinusOne(stale, "");
    } else {
      StepFollows(k, steps[0], stale, pool);
      RunFollows(Apply(k, steps[0]), steps[1..], Minus(stale, NamedBy(steps[0])), pool);
      MinusPlus(stale, NamedBy(steps[0]), NamedIn(steps[1..]));
    }
  }

  lemma RestartFollows(c: Client, l: Listing, pool: Names)
    requires Fresh(c) && Tidy(l) && Pooled(l, pool)
    ensures Follows(Link(c, [], l), ListedNames(l), pool)
  {
    TidyIsDistinct(l);
    EmptyAgreesBut(c.vars, l.vars);
    EmptyAgreesBut(c.hooks, l.hooks);
    EmptyAgreesBut(c.regions, l.regions);
    hide AgreeBut, Tidy, Pooled, NamesOf, Unused, DistinctList;
  }

  /** A client with empty tables that meets lists full of old names: after every run of
      calls with clean names that leaves the lists room for all of them, the two sides
      agree if and only if every old name was registered or unregistered again. */
  lemma RestartedRunAgrees(c: Client, l: Listing, steps: seq<Step>, pool: Names)
    requires Fresh(c) && Tidy(l) && Pooled(l, pool)
    requires forall i :: 0 <= i < |steps| ==> Registers(steps[i], pool)
    ensures var k := Run(Link(c, [], l), steps);
            AllAgree(k.client, Drained(k)) <==> Within(ListedNames(l), NamedIn(steps))
  {
    RestartFollows(c, l, pool);
    RunFollows(Link(c, [], l), steps, ListedNames(l), pool);
    MinusPlus(ListedNames(l), NamedIn(steps), NONE);
    var k := Run(Link(c, [], l), steps);
    hide AllAgree, AllAgreeBut, Sized, Tidy, Pooled, Registers, Run, Drained, NamedIn, ListedNames, Minus, Plus, Within;
    AllAgreeIsAgreeBut(k.client, Drained(k), Minus(ListedNames(l), NamedIn(steps)));
  }

  // With or without room, a name that no call names is never settled.

  /** Names that are listed and not kept. */
  predicate OnlyListed<V>(slots: seq<Slot<V>>, list: seq<Entry<V>>, names: set<string>) {
    forall n :: n in names ==> Has(list, n) && FindActive(slots, n) == |slots|
  }

  lemma AddKeepsHas<V>(list: seq<Entry<V>>, name: string, value: V, capacity: nat, n: string)
    requires Has(list, n)
    ensures Has(DaemonAdd(list, name, value, capacity), n)
  {
    var after := DaemonAdd(list, name, value, capacity);
    assert after[FindEntry(list, n)].name == n;
  }

  lemma RemoveKeepsHas<V>(list: seq<Entry<V>>, name: string, n: string)
    requires Has(list, n) && n != name
    ensures Has(DaemonRemove(list, name), n)
  {
    var k, j, after := FindEntry(list, n), FindEntry(list, name), DaemonRemove(list, name);
    if j < |list| { assert after[if k < j then k else k - 1].name == n; }
  }

  lemma NotHeld<V>(slots: seq<Slot<V>>, n: string)
    requires forall k :: 0 <= k < |slots| ==> !Holds(slots[k], n)
    ensures FindActive(slots, n) == |slots|
  {
    FirstActive(slots, n, |slots|);
  }

  lemma RegisterOnlyListed<V>(slots: seq<Slot<V>>, list: seq<Entry<V>>, names: set<string>, name: string, value: V,
                              capacity: nat)
    requires OnlyListed(slots, list, names) && |name| <= NAME_MAX
    ensures OnlyListed(ClientRegister(slots, name, value), DaemonAdd(list, name, value, capacity), names - {name})
  {
    forall n | n in names - {name}
      ensures Has(DaemonAdd(list, name, value, capacity), n)
      ensures FindActive(ClientRegister(slots, name, value), n) == |slots|
    {
      AddKeepsHas(list, name, value, capacity, n);
      assert FindActive(slots, n) == |slots|;
      NotHeld(ClientRegister(slots, name, value), n);
    }
  }

  lemma UnregisterOnlyListed<V>(slots: seq<Slot<V>>, list: seq<Entry<V>>, names: set<string>, name: string)
    requires OnlyListed(slots, list, names)
    ensures OnlyListed(ClientUnregister(slots, name), DaemonRemove(list, name), names - {name})
  {
    forall n | n in names - {name}
      ensures Has(DaemonRemove(list, name), n)
      ensures FindActive(ClientUnregister(slots, name), n) == |slots|
    {
      RemoveKeepsHas(list, name, n);
      assert FindActive(slots, n) == |slots|;
      NotHeld(ClientUnregister(slots, name), n);
    }
  }

  lemma FewerOnlyListed<V>(slots: seq<Slot<V>>, list: seq<Entry<V>>, names: set<string>, name: string)
    requires OnlyListed(slots, list, names)
    ensures OnlyListed(slots, list, names - {name})
  {
    hide FindActive, FindEntry;
  }

  predicate AllOnlyListed(c: Client, l: Listing, names: Names) {
    && OnlyListed(c.vars, l.vars, names.vars) && OnlyListed(c.hooks, l.hooks, names.hooks)
    && OnlyListed(c.regions, l.regions, names.regions)
  }

  lemma VarCallOnlyListed(c: Client, l: Listing, names: Names, call: Call)
    requires AllOnlyListed(c, l, names) && Proper(call) && (call.RegisterVar? || call.UnregisterVar?)
    ensures AllOnlyListed(AfterCall(c, call), HandleAll(l, Sends(c, call)), Minus(names, Named(call)))
  {
    hide OnlyListed, ClientRegister, ClientUnregister, DaemonAdd, DaemonRemove, ReadVar, VarData, HandleAll, Minus;
    MinusOne(names, call.name);
    match call
    case RegisterVar(name, kind, target) =>
      if target == 0 {
        HandleNone(l);
      } else {
        HandleAllOne(l, VarRegister(VarData(name, kind)));
        VarReads(name, kind);
        RegisterOnlyListed(c.vars, l.vars, names.vars, name, kind, MAX_VARS);
      }
    case UnregisterVar(name) =>
      HandleAllOne(l, VarUnregister(name));
      UnregisterOnlyListed(c.vars, l.vars, names.vars, name);
  }

  lemma HookCallOnlyListed(c: Client, l: Listing, names: Names, call: Call)
    requires AllOnlyListed(c, l, names) && Proper(call) && (call.RegisterHook? || call.UnregisterHook?)
    ensures AllOnlyListed(AfterCall(c, call), HandleAll(l, Sends(c, call)), Minus(names, Named(call)))
  {
    hide OnlyListed, ClientRegister, ClientUnregister, DaemonAdd, DaemonRemove, ReadHook, HookData, HandleAll, Minus;
    hide Clip, Target;
    MinusOne(names, call.name);
    match call
    case RegisterHook(name, desc, target) =>
      if target == 0 {
        HandleNone(l);
      } else if Target(c.hooks, name) == |c.hooks| {
        HandleNone(l);
        TargetFits(c.hooks, name, Clip(desc, DESC_MAX));
        FewerOnlyListed(c.hooks, l.hooks, names.hooks, name);
      } else {
        HandleAllOne(l, HookRegister(HookData(name, desc)));
        HookReads(name, desc);
        RegisterOnlyListed(c.hooks, l.hooks, names.hooks, name, Clip(desc, DESC_MAX), MAX_HOOKS);
      }
    case UnregisterHook(name) =>
      HandleAllOne(l, HookUnregister(name));
      UnregisterOnlyListed(c.hooks, l.hooks, names.hooks, name);
  }

  lemma RegionCallOnlyListed(c: Client, l: Listing, names: Names, call: Call)
    requires AllOnlyListed(c, l, names) && Proper(call) && (call.RegisterRegion? || call.UnregisterRegion?)
    ensures AllOnlyListed(AfterCall(c, call), HandleAll(l, Sends(c, call)), Minus(names, Named(call)))
  {
    hide OnlyListed, ClientRegister, ClientUnregister, DaemonAdd, DaemonRemove, ReadRegion, RegionData, HandleAll;
    hide Minus, Clip, Target;
    MinusOne(names, call.name);
    match call
    case RegisterRegion(name, r) =>
      if r.addr == 0 || r.size == 0 {
        HandleNone(l);
      } else if Target(c.regions, name) == |c.regions| {
        HandleNone(l);
        TargetFits(c.regions, name, ShortDesc(r));
        FewerOnlyListed(c.regions, l.regions, names.regions, name);
      } else {
        HandleAllOne(l, RegionRegister(RegionData(name, r)));
        RegionReads(name, r);
        RegisterOnlyListed(c.regions, l.regions, names.regions, name, ShortDesc(r), MAX_REGIONS);
      }
    case UnregisterRegion(name) =>
      HandleAllOne(l, RegionUnregister(name));
      UnregisterOnlyListed(c.regions, l.regions, names.regions, name);
  }

  lemma StepOnlyListed(k: Link, step: Step, names: Names)
    requires AllOnlyListed(k.client, Drained(k), names) && (step.Calls? ==> Proper(step.call))
    ensures AllOnlyListed(Apply(k, step).client, Drained(Apply(k, step)), Minus(names, NamedBy(step)))
  {
    StepDrains(k, step);
    MinusOne(names, "");
    hide AllOnlyListed, Drained, HandleAll, Apply, AfterCall, Sends, Proper, Named, Minus;
    if step.Calls? {
      if step.call.RegisterVar? || step.call.UnregisterVar? {
        VarCallOnlyListed(k.client, Drained(k), names, step.call);
      } else if step.call.RegisterHook? || step.call.UnregisterHook? {
        HookCallOnlyListed(k.client, Drained(k), names, step.call);
      } else {
        RegionCallOnlyListed(k.client, Drained(k), names, step.call);
      }
    }
  }

  lemma {:induction false} RunOnlyListed(k: Link, steps: seq<Step>, names: Names)
    requires AllOnlyListed(k.client, Drained(k), names)
    requires forall i :: 0 <= i < |steps| && steps[i].Calls? ==> Proper(steps[i].call)
    ensures var e := Run(k, steps); AllOnlyListed(e.client, Drained(e), Minus(names, NamedIn(steps)))
    decreases |steps|
  {
    hide AllOnlyListed, Apply, Minus, Plus, NamedBy, Drained, Proper;
    if steps == [] {
      MinusOne(names, "");
    } else {
      StepOnlyListed(k, steps[0], names);
      RunOnlyListed(Apply(k, steps[0]), steps[1..], Minus(names, NamedBy(steps[0])));
      MinusPlus(names, NamedBy(steps[0]), NamedIn(steps[1..]));
    }
  }

  lemma EmptyOnlyLists<V>(slots: seq<Slot<V>>, list: seq<Entry<V>>)
    requires Unused(slots)
    ensures OnlyListed(slots, list, NamesOf(list))
  {
    forall n | n in NamesOf(list) ensures Has(list, n) && FindActive(slots, n) == |slots| {
      NamesOfHas(list, n);
      NotHeld(slots, n);
    }
  }

  lemma OnlyListedDiffers<V>(slots: seq<Slot<V>>, list: seq<Entry<V>>, names: set<string>)
    requires OnlyListed(slots, list, names) && Agree(slots, list)
    ensures names == {}
  {
    AgreeBut0(slots, list);
    if n :| n in names {
      FoundInBoth(slots, list, {}, n);
      hide *;
      assert false by { MustBeHeld(slots, list, names, n); }
    }
  }

  lemma MustBeHeld<V>(slots: seq<Slot<V>>, list: seq<Entry<V>>, names: set<string>, n: string)
    requires OnlyListed(slots, list, names) && n in names
    ensures Has(list, n) && FindActive(slots, n) == |slots|
  {
    hide FindActive, FindEntry;
  }

  /** An old name that no call registers or unregisters keeps the two sides apart, whatever
      else is called. */
  lemma UnnamedStays(c: Client, l: Listing, steps: seq<Step>)
    requires Fresh(c) && forall i :: 0 <= i < |steps| && steps[i].Calls? ==> Proper(steps[i].call)
    ensures var k := Run(Link(c, [], l), steps);
            AllAgree(k.client, Drained(k)) ==> Within(ListedNames(l), NamedIn(steps))
  {
    EmptyOnlyLists(c.vars, l.vars);
    EmptyOnlyLists(c.hooks, l.hooks);
    EmptyOnlyLists(c.regions, l.regions);
    RunOnlyListed(Link(c, [], l), steps, ListedNames(l));
    var k := Run(Link(c, [], l), steps);
    var left := Minus(ListedNames(l), NamedIn(steps));
    hide OnlyListed, Agree, Proper, Run, Drained, NamedIn, NamesOf, Unused, Minus, Within;
    if AllAgree(k.client, Drained(k)) {
      OnlyListedDiffers(k.client.vars, Drained(k).vars, left.vars);
      OnlyListedDiffers(k.client.hooks, Drained(k).hooks, left.hooks);
      OnlyListedDiffers(k.client.regions, Drained(k).regions, left.regions);
      MinusPlus(ListedNames(l), NamedIn(steps), NONE);
    }
  }

  /** Without that room a name can be lost: next to a list that is full of old names the
      client keeps what it registers, and the daemon does not list it. */
  lemma RestartedRegistrationIsLost(c: Client, l: Listing, name: string, kind: Long)
    requires Fresh(c) && Tidy(l) && |l.vars| == MAX_VARS && !Has(l.vars, name) && CleanName(name)
    ensures var call := RegisterVar(name, kind, 1);
            !AllAgree(AfterCall(c, call), HandleAll(l, Sends(c, call)))
  {
    HandleAllOne(l, VarRegister(VarData(name, kind)));
    VarReads(name, kind);
    assert FindFree(c.vars) == 0;
    RegistrationIsLost(c.vars, l.vars, name, kind, MAX_VARS);
    hide Agree, ClientRegister, DaemonAdd, ReadVar, VarData, HandleAll;
  }

  // ------------------------------------------------------------------- at the daemon

  /** What the daemon keeps for one client, and its branch of ipc_process for the
      messages of the registries. */
  class ClientEntry {
    const vars: DaemonList<Long>
    const hooks: DaemonList<string>
    const regions: DaemonList<Region>

    ghost predicate Valid()
      reads vars, hooks, regions
    {
      && vars.Valid() && hooks.Valid() && regions.Valid()
      && vars.entries.Length == MAX_VARS && hooks.entries.Length == MAX_HOOKS && regions.entries.Length == MAX_REGIONS
    }

    ghost function View(): Listing
      requires Valid()
      reads vars, hooks, regions, vars.entries, hooks.entries, regions.entries
    {
      Listing(vars.Contents(), hooks.Contents(), regions.Contents())
    }

    constructor ()
      ensures Valid() && View() == Listing([], [], [])
      ensures fresh(vars) && fresh(hooks) && fresh(regions)
      ensures fresh(vars.entries) && fresh(hooks.entries) && fresh(regions.entries)
    {
      vars := new DaemonList<Long>(MAX_VARS, 0);
      hooks := new DaemonList<string>(MAX_HOOKS, "");
      regions := new DaemonList<Region>(MAX_REGIONS, Region(0, 0, ""));
    }

    method HandleMessage(m: Message)
      requires Valid()
      modifies vars, hooks, regions, vars.entries, hooks.entries, regions.entries
      ensures Valid() && View() == Handle(old(View()), m)
    {
      hide DaemonAdd, DaemonRemove, ReadVar, ReadHook, ReadRegion, Clip;
      match m
      case VarRegister(data) =>
        var got := ReadVar(data);
        if got.Some? { vars.Add(got.value.0, got.value.1); }
      case VarUnregister(data) => vars.Remove(data);
      case HookRegister(data) =>
        var got := ReadHook(data);
        if got.Some? { hooks.Add(got.value.0, Clip(got.value.1, DESC_MAX)); }
      case HookUnregister(data) => hooks.Remove(data);
      case RegionRegister(data) =>
        var got := ReadRegion(data);
        if got.Some? { regions.Add(got.value.0, ShortDesc(got.value.1)); }
      case RegionUnregister(data) => regions.Remove(data);
    }
  }

  // ------------------------------------------------------------------- at the client

  /** The three static tables of the client library and its register and unregister
      calls, with the messages they send. */
  class ClientTables {
    const vars: ClientTable<Long>
    const hooks: ClientTable<string>
    const regions: ClientTable<Region>

    ghost predicate Valid() {
      vars.slots.Length == MAX_VARS && hooks.slots.Length == MAX_HOOKS && regions.slots.Length == MAX_REGIONS
    }

    function View(): Client
      reads vars.slots, hooks.slots, regions.slots
    {
      Client(vars.slots[..], hooks.slots[..], regions.slots[..])
    }

    constructor ()
      ensures Valid() && Sized(View())
      ensures Unused(View().vars) && Unused(View().hooks) && Unused(View().regions)
      ensures fresh(vars.slots) && fresh(hooks.slots) && fresh(regions.slots)
    {
      vars := new ClientTable<Long>(MAX_VARS, 0);
      hooks := new ClientTable<string>(MAX_HOOKS, "");
      regions := new ClientTable<Region>(MAX_REGIONS, Region(0, 0, ""));
    }

    method Perform(call: Call) returns (sent: seq<Message>)
      requires Valid()
      modifies vars.slots, hooks.slots, regions.slots
      ensures View() == AfterCall(old(View()), call)
      ensures sent == Sends(old(View()), call)
    {
      hide ClientRegister, ClientUnregister, Target, Clip, VarData, HookData, RegionData;
      sent := [];
      match call
      case RegisterVar(name, kind, target) =>
        if target == 0 { return; }
        var stored := vars.Register(name, kind);
        sent := [VarRegister(VarData(name, kind))];
      case UnregisterVar(name) =>
        vars.Unregister(name);
        sent := [VarUnregister(name)];
      case RegisterHook(name, desc, target) =>
        if target == 0 { return; }
        TargetFits(hooks.slots[..], name, Clip(desc, DESC_MAX));
        var stored := hooks.Register(name, Clip(desc, DESC_MAX));
        if !stored { return; }
        sent := [HookRegister(HookData(name, desc))];
      case UnregisterHook(name) =>
        hooks.Unregister(name);
        sent := [HookUnregister(name)];
      case RegisterRegion(name, r) =>
        if r.addr == 0 || r.size == 0 { return; }
        TargetFits(regions.slots[..], name, ShortDesc(r));
        var stored := regions.Register(name, ShortDesc(r));
        if !stored { return; }
        sent := [RegionRegister(RegionData(name, r))];
      case UnregisterRegion(name) =>
        regions.Unregister(name);
        sent := [RegionUnregister(name)];
    }
  }

  lemma TargetFits<V>(slots: seq<Slot<V>>, name: string, value: V)
    ensures Target(slots, name) <= |slots|
    ensures Target(slots, name) == |slots| ==> ClientRegister(slots, name, value) == slots
  {
  }
}
