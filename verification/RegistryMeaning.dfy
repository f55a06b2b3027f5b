/** What the two forms of the registries come to: a map from names to values for each, which
    a registration extends or changes at one name and an unregistration cuts. */
module RegistryMeaning {
  import opened Agreement
  import opened Registry
  import opened Tables
  import opened Text

  // ------------------------------------------------------------------- one registry

  /** Every slot in use has a name of the map and its value, and every name has a slot. */
  ghost predicate InMap<V>(slots: seq<Slot<V>>, m: map<string, V>) {
    forall k :: 0 <= k < |slots| && slots[k].active ==> slots[k].name in m && m[slots[k].name] == slots[k].value
  }

  ghost predicate HasSlot<V>(slots: seq<Slot<V>>, name: string) {
    exists k :: 0 <= k < |slots| && slots[k].active && slots[k].name == name
  }

  ghost predicate AllHaveSlots<V>(slots: seq<Slot<V>>, m: map<string, V>) {
    forall n :: n in m ==> HasSlot(slots, n)
  }

  /** The slots in use are the map's names, each once, with their values. */
  ghost predicate IsTable<V>(slots: seq<Slot<V>>, m: map<string, V>) {
    InMap(slots, m) && AllHaveSlots(slots, m) && Distinct(slots) && Used(slots) == |m|
  }

  /** The entries are the map's names, each once, with their values. */
  ghost predicate IsListing<V>(list: seq<Entry<V>>, m: map<string, V>) {
    && (forall k :: 0 <= k < |list| ==> list[k].name in m && m[list[k].name] == list[k].value)
    && (forall i, j :: 0 <= i < j < |list| ==> list[i].name != list[j].name)
    && (forall n :: n in m ==> exists k :: 0 <= k < |list| && list[k].name == n)
    && |list| == |m|
  }

  /** A name has its new value if it had one before or there is room. */
  function Put<V>(m: map<string, V>, name: string, value: V, capacity: nat): map<string, V> {
    if name in m || |m| < capacity then m[name := value] else m
  }

  lemma PutSize<V>(m: map<string, V>, name: string, value: V)
    ensures |m[name := value]| == |m| + if name in m then 0 else 1
  {
    if name in m {
      assert m[name := value].Keys == m.Keys;
    } else {
      assert m[name := value].Keys == m.Keys + {name};
    }
    assert |m| == |m.Keys| && |m[name := value]| == |m[name := value].Keys|;
  }

  lemma CutSize<V>(m: map<string, V>, name: string)
    ensures |m - {name}| == |m| - if name in m then 1 else 0
  {
    if name in m {
      assert (m - {name}).Keys + {name} == m.Keys;
    } else {
      assert m - {name} == m;
    }
  }

  /** A name is found exactly when the map has it. */
  lemma FoundInMap<V>(slots: seq<Slot<V>>, m: map<string, V>, name: string)
    requires IsTable(slots, m)
    ensures FindActive(slots, name) < |slots| <==> name in m
  {
    hide Used;
    if name in m {
      assert HasSlot(slots, name);
      var k :| 0 <= k < |slots| && slots[k].active && slots[k].name == name;
      assert Holds(slots[k], name);
    }
  }

  lemma RoomInMap<V>(slots: seq<Slot<V>>, m: map<string, V>)
    requires IsTable(slots, m)
    ensures |m| <= |slots|
    ensures FindFree(slots) == |slots| <==> |m| == |slots|
  {
    NoSlotFree(slots);
  }

  /** The other slots after a change to one. */
  lemma SlotsStay<V>(slots: seq<Slot<V>>, k: nat, s: Slot<V>, name: string)
    requires k < |slots| && HasSlot(slots, name) && (slots[k].active ==> slots[k].name != name)
    ensures HasSlot(slots[k := s], name)
  {
    var j :| 0 <= j < |slots| && slots[j].active && slots[j].name == name;
    assert slots[k := s][j] == slots[j];
  }

  lemma SlotInMap<V>(slots: seq<Slot<V>>, m: map<string, V>, k: nat, name: string, value: V)
    requires InMap(slots, m) && Distinct(slots) && k < |slots|
    requires name in m ==> slots[k].active && slots[k].name == name
    ensures InMap(slots[k := Slot(true, name, value)], m[name := value])
  {
  }

  lemma SlotDistinct<V>(slots: seq<Slot<V>>, m: map<string, V>, k: nat, name: string, value: V)
    requires InMap(slots, m) && Distinct(slots) && k < |slots|
    requires name in m ==> slots[k].active && slots[k].name == name
    ensures Distinct(slots[k := Slot(true, name, value)])
  {
  }

  lemma SlotsCover<V>(slots: seq<Slot<V>>, m: map<string, V>, k: nat, name: string, value: V)
    requires AllHaveSlots(slots, m) && k < |slots| && (slots[k].active ==> slots[k].name == name)
    ensures AllHaveSlots(slots[k := Slot(true, name, value)], m[name := value])
  {
    hide HasSlot;
    var s, m' := Slot(true, name, value), m[name := value];
    forall n | n in m' ensures HasSlot(slots[k := s], n) {
      if n == name { SlotFilled(slots, k, s); } else { SlotsStay(slots, k, s, n); }
    }
  }

  /** A value put in a slot under its own name, or under a new name in a free one. */
  lemma SlotMeans<V>(slots: seq<Slot<V>>, m: map<string, V>, k: nat, name: string, value: V)
    requires IsTable(slots, m) && k < |slots|
    requires if name in m then slots[k].active && slots[k].name == name else !slots[k].active
    ensures IsTable(slots[k := Slot(true, name, value)], m[name := value])
  {
    UsedUpdate(slots, k, Slot(true, name, value));
    PutSize(m, name, value);
    SlotInMap(slots, m, k, name, value);
    SlotDistinct(slots, m, k, name, value);
    SlotsCover(slots, m, k, name, value);
    hide Used, InMap, AllHaveSlots, Distinct;
  }

  lemma SlotFilled<V>(slots: seq<Slot<V>>, k: nat, s: Slot<V>)
    requires k < |slots| && s.active
    ensures HasSlot(slots[k := s], s.name)
  {
    assert slots[k := s][k].active;
  }

  lemma FreedCovers<V>(slots: seq<Slot<V>>, m: map<string, V>, k: nat)
    requires AllHaveSlots(slots, m) && k < |slots|
    ensures AllHaveSlots(slots[k := slots[k].(active := false)], m - {slots[k].name})
  {
    hide HasSlot;
    var m' := m - {slots[k].name};
    forall n | n in m' ensures HasSlot(slots[k := slots[k].(active := false)], n) {
      SlotsStay(slots, k, slots[k].(active := false), n);
    }
  }

  lemma OtherNames<V>(slots: seq<Slot<V>>, i: nat, j: nat)
    requires Distinct(slots) && i < |slots| && j < |slots| && i != j && slots[i].active && slots[j].active
    ensures slots[i].name != slots[j].name
  {
    if j < i { assert slots[j].name != slots[i].name; }
  }

  lemma FreedInMap<V>(slots: seq<Slot<V>>, m: map<string, V>, k: nat, s: Slot<V>)
    requires InMap(slots, m) && Distinct(slots) && k < |slots| && slots[k].active && !s.active
    ensures InMap(slots[k := s], m - {slots[k].name}) && Distinct(slots[k := s])
  {
    var slots' := slots[k := s];
    forall j | 0 <= j < |slots'| && slots'[j].active ensures slots'[j].name != slots[k].name {
      OtherNames(slots, j, k);
    }
  }

  lemma FreedMeans<V>(slots: seq<Slot<V>>, m: map<string, V>, k: nat)
    requires IsTable(slots, m) && k < |slots| && slots[k].active
    ensures IsTable(slots[k := slots[k].(active := false)], m - {slots[k].name})
  {
    var s := slots[k].(active := false);
    UsedUpdate(slots, k, s);
    CutSize(m, slots[k].name);
    FreedInMap(slots, m, k, s);
    FreedCovers(slots, m, k);
    hide Used, InMap, AllHaveSlots, Distinct;
  }

  lemma RegisterIs<V>(slots: seq<Slot<V>>, name: string, value: V)
    requires |name| <= NAME_MAX
    ensures var k := if FindActive(slots, name) < |slots| then FindActive(slots, name) else FindFree(slots);
            ClientRegister(slots, name, value) == if k < |slots| then slots[k := Slot(true, name, value)] else slots
  {
  }

  /** Registering changes the map at the name and nowhere else, or does nothing when the name
      is new and the table is full. */
  lemma RegisterMeans<V>(slots: seq<Slot<V>>, m: map<string, V>, name: string, value: V)
    requires IsTable(slots, m) && |name| <= NAME_MAX
    ensures IsTable(ClientRegister(slots, name, value), Put(m, name, value, |slots|))
  {
    FoundInMap(slots, m, name);
    RoomInMap(slots, m);
    RegisterIs(slots, name, value);
    hide IsTable, ClientRegister, FindActive, FindFree;
    if FindActive(slots, name) < |slots| {
      SlotMeans(slots, m, FindActive(slots, name), name, value);
    } else if FindFree(slots) < |slots| {
      SlotMeans(slots, m, FindFree(slots), name, value);
    }
  }

  /** Unregistering takes out the name and nothing else. */
  lemma UnregisterMeans<V>(slots: seq<Slot<V>>, m: map<string, V>, name: string)
    requires IsTable(slots, m)
    ensures IsTable(ClientUnregister(slots, name), m - {name})
  {
    FoundInMap(slots, m, name);
    hide IsTable, FindActive;
    if FindActive(slots, name) < |slots| {
      FreedMeans(slots, m, FindActive(slots, name));
    } else {
      assert m - {name} == m;
    }
  }

  /** A list that agrees with the table is the same map. */
  lemma AgreedListing<V>(slots: seq<Slot<V>>, list: seq<Entry<V>>, m: map<string, V>)
    requires Agree(slots, list) && IsTable(slots, m)
    ensures IsListing(list, m)
  {
    hide Used, FindActive, FindEntry;
    forall k | 0 <= k < |list| ensures list[k].name in m && m[list[k].name] == list[k].value {
      assert Keeps(slots, list[k]);
    }
    forall n | n in m ensures exists k :: 0 <= k < |list| && list[k].name == n {
      assert HasSlot(slots, n);
      var j :| 0 <= j < |slots| && slots[j].active && slots[j].name == n;
      assert Lists(list, Entry(slots[j].name, slots[j].value));
    }
  }

  // ------------------------------------------------------- the daemon's list by itself

  /** What a list says of a name, by its entries alone. */
  ghost predicate Says<V>(list: seq<Entry<V>>, name: string, value: V) {
    exists k :: 0 <= k < |list| && list[k] == Entry(name, value)
  }

  /** Whatever is listed, adding a name gives it the value, unless it is new and the list has
      no room, and says nothing else of other names. */
  lemma AddMeans<V>(list: seq<Entry<V>>, name: string, value: V, capacity: nat, n: string, v: V)
    requires DistinctList(list) && |name| <= NAME_MAX
    ensures var after, listed := DaemonAdd(list, name, value, capacity), exists w :: Says(list, name, w);
            Says(after, n, v) <==>
            if n == name && (listed || |list| < capacity) then v == value else Says(list, n, v)
  {
    var after, j := DaemonAdd(list, name, value, capacity), FindEntry(list, name);
    hide FindEntry;
    if j < |list| {
      assert Says(list, name, list[j].value);
      assert after[j] == Entry(name, value);
    } else if |list| < capacity {
      assert after[|list|] == Entry(name, value);
    }
    if k :| 0 <= k < |list| && list[k] == Entry(n, v) && n != name { assert after[k] == list[k]; }
  }

  /** Removing a name leaves what is said of the others. */
  lemma RemoveMeans<V>(list: seq<Entry<V>>, name: string, n: string, v: V)
    requires DistinctList(list)
    ensures Says(DaemonRemove(list, name), n, v) <==> n != name && Says(list, n, v)
  {
    var after, j := DaemonRemove(list, name), FindEntry(list, name);
    hide FindEntry;
    if j < |list| {
      if k :| 0 <= k < |list| && list[k] == Entry(n, v) && n != name {
        assert after[if k < j then k else k - 1] == list[k];
      }
      if k :| 0 <= k < |after| && after[k] == Entry(n, v) {
        assert list[if k < j then k else k + 1] == after[k];
      }
    }
  }

  // ----------------------------------------------------------------- runs of calls

  /** What is registered: each registry as a map. */
  datatype Registered = Registered(vars: map<string, Long>, hooks: map<string, string>, regions: map<string, Region>)

  const NOTHING: Registered := Registered(map[], map[], map[])

  /** What a call means: at most 32 variables, 16 hooks and 8 regions, descriptions of at most
      63 characters. */
  function Means(r: Registered, call: Call): Registered {
    match call
    case RegisterVar(name, kind, target) => if target == 0 then r else r.(vars := Put(r.vars, name, kind, 32))
    case UnregisterVar(name) => r.(vars := r.vars - {name})
    case RegisterHook(name, desc, target) =>
      if target == 0 then r else r.(hooks := Put(r.hooks, name, if |desc| <= 63 then desc else desc[..63], 16))
    case UnregisterHook(name) => r.(hooks := r.hooks - {name})
    case RegisterRegion(name, region) =>
      if region.addr == 0 || region.size == 0 then r
      else
        var desc := if |region.desc| <= 63 then region.desc else region.desc[..63];
        r.(regions := Put(r.regions, name, Region(region.addr, region.size, desc), 8))
    case UnregisterRegion(name) => r.(regions := r.regions - {name})
  }

  /** Deliveries mean nothing. */
  function MeansAll(r: Registered, steps: seq<Step>): Registered
    decreases |steps|
  {
    if steps == [] then r
    else MeansAll(if steps[0].Calls? then Means(r, steps[0].call) else r, steps[1..])
  }

  ghost predicate Kept(c: Client, r: Registered) {
    IsTable(c.vars, r.vars) && IsTable(c.hooks, r.hooks) && IsTable(c.regions, r.regions)
  }

  ghost predicate Listed(l: Listing, r: Registered) {
    IsListing(l.vars, r.vars) && IsListing(l.hooks, r.hooks) && IsListing(l.regions, r.regions)
  }

  lemma CallMeans(c: Client, r: Registered, call: Call)
    requires Sized(c) && Kept(c, r) && Proper(call)
    ensures Kept(AfterCall(c, call), Means(r, call))
  {
    hide IsTable, Put, ClientRegister, ClientUnregister;
    match call
    case RegisterVar(name, kind, target) => RegisterMeans(c.vars, r.vars, name, kind);
    case UnregisterVar(name) => UnregisterMeans(c.vars, r.vars, name);
    case RegisterHook(name, desc, target) => RegisterMeans(c.hooks, r.hooks, name, Clip(desc, DESC_MAX));
    case UnregisterHook(name) => UnregisterMeans(c.hooks, r.hooks, name);
    case RegisterRegion(name, region) => RegisterMeans(c.regions, r.regions, name, ShortDesc(region));
    case UnregisterRegion(name) => UnregisterMeans(c.regions, r.regions, name);
  }

  lemma {:induction false} RunKeepsMeaning(k: Link, r: Registered, steps: seq<Step>)
    requires Sized(k.client) && Kept(k.client, r)
    requires forall i :: 0 <= i < |steps| && steps[i].Calls? ==> Proper(steps[i].call)
    ensures Kept(Run(k, steps).client, MeansAll(r, steps))
    decreases |steps|
  {
    hide Kept, Means, AfterCall, Sends, Handle, Sized, Proper;
    if steps != [] {
      if steps[0].Calls? {
        CallMeans(k.client, r, steps[0].call);
        CallKeepsSize(k.client, steps[0].call);
        RunKeepsMeaning(Apply(k, steps[0]), Means(r, steps[0].call), steps[1..]);
      } else {
        RunKeepsMeaning(Apply(k, steps[0]), r, steps[1..]);
      }
    }
  }

  lemma FreshMeansNothing(c: Client)
    requires Fresh(c)
    ensures Sized(c) && Kept(c, NOTHING)
  {
    UsedNone(c.vars);
    UsedNone(c.hooks);
    UsedNone(c.regions);
  }

  lemma AgreedMeaning(c: Client, l: Listing, r: Registered)
    requires AllAgree(c, l) && Kept(c, r)
    ensures Listed(l, r)
  {
    AgreedListing(c.vars, l.vars, r.vars);
    AgreedListing(c.hooks, l.hooks, r.hooks);
    AgreedListing(c.regions, l.regions, r.regions);
    hide IsTable, IsListing, Agree;
  }

  /** After every run of calls and deliveries from a fresh registration, the client's tables
      hold what the calls mean, and so do the daemon's lists when nothing is under way. */
  lemma RunMeans(c: Client, steps: seq<Step>)
    requires Fresh(c)
    requires forall i :: 0 <= i < |steps| && steps[i].Calls? ==> Proper(steps[i].call)
    ensures var k, r := Run(Link(c, [], Listing([], [], [])), steps), MeansAll(NOTHING, steps);
            Kept(k.client, r) && (k.queue == [] ==> Listed(k.lists, r))
  {
    hide *;
    FreshMeansNothing(c);
    RunStarts(c);
    RunKeepsMeaning(Link(c, [], Listing([], [], [])), NOTHING, steps);
    RunsAgree(c, steps);
    var k := Run(Link(c, [], Listing([], [], [])), steps);
    if k.queue == [] { AgreedMeaning(k.client, k.lists, MeansAll(NOTHING, steps)); }
  }

  lemma RunStarts(c: Client)
    requires Sized(c)
    ensures Sized(Link(c, [], Listing([], [], [])).client)
  {
  }
}
