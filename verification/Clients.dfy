/** The daemon's table of clients (`client_registry.c`): registering, finding and
    unregistering them by id. */
module Clients {
  import opened Agreement
  import opened Tables
  import opened Text
  import Registry

  const MAX_CLIENTS: nat := 16

  datatype Client = Client(active: bool, id: nat, name: string, port: nat, lists: Registry.Listing)

  const NOBODY: Client := Client(false, 0, "", 0, Registry.Listing([], [], []))

  // ------------------------------------------------------------------ as functions

  function FindByName(cs: seq<Client>, name: string): (k: nat)
    ensures k <= |cs|
    ensures k < |cs| ==> cs[k].active && cs[k].name == name
    ensures forall j :: 0 <= j < k ==> !(cs[j].active && cs[j].name == name)
  {
    if cs == [] || (cs[0].active && cs[0].name == name) then 0 else 1 + FindByName(cs[1..], name)
  }

  function FindById(cs: seq<Client>, id: nat): (k: nat)
    ensures k <= |cs|
    ensures k < |cs| ==> cs[k].active && cs[k].id == id
    ensures forall j :: 0 <= j < k ==> !(cs[j].active && cs[j].id == id)
  {
    if cs == [] || (cs[0].active && cs[0].id == id) then 0 else 1 + FindById(cs[1..], id)
  }

  function FreeSlot(cs: seq<Client>): (k: nat)
    ensures k <= |cs|
    ensures k < |cs| ==> !cs[k].active
    ensures forall j :: 0 <= j < k ==> cs[j].active
  {
    if cs == [] || !cs[0].active then 0 else 1 + FreeSlot(cs[1..])
  }

  /** The clients and the next id. */
  datatype Table = Table(cs: seq<Client>, nextId: nat)

  /** A table and the id returned, -1 when it is full. */
  datatype Registered = Registered(table: Table, id: int)

  function Register(t: Table, name: string, port: nat): Registered {
    var k, f := FindByName(t.cs, name), FreeSlot(t.cs);
    if k < |t.cs| then Registered(t.(cs := t.cs[k := t.cs[k].(port := port)]), t.cs[k].id)
    else if f == |t.cs| then Registered(t, -1)
    else
      var c := Client(true, t.nextId, Clip(name, NAME_MAX), port, Registry.Listing([], [], []));
      Registered(Table(t.cs[f := c], t.nextId + 1), t.nextId)
  }

  function Unregister(t: Table, id: nat): Table {
    var k := FindById(t.cs, id);
    if k < |t.cs| then t.(cs := t.cs[k := t.cs[k].(active := false, port := 0)]) else t
  }

  // ----------------------------------------------------------------- in the daemon

  class ClientTable {
    const clients: array<Client>
    var nextId: nat

    function View(): Table
      reads this, clients
    {
      Table(clients[..], nextId)
    }

    constructor ()
      ensures fresh(clients) && clients.Length == MAX_CLIENTS
      ensures nextId == 1 && forall k :: 0 <= k < clients.Length ==> clients[k] == NOBODY
    {
      clients := new Client[MAX_CLIENTS](_ => NOBODY);
      nextId := 1;
    }

    /** client_register. */
    method ClientRegister(name: string, port: nat) returns (id: int)
      modifies this`nextId, clients
      ensures Registered(View(), id) == Register(old(View()), name, port)
    {
      var i := 0;
      while i < clients.Length
        invariant i <= clients.Length
        invariant forall j :: 0 <= j < i ==> !(clients[j].active && clients[j].name == name)
      {
        if clients[i].active && clients[i].name == name { break; }
        i := i + 1;
      }
      NameIsFirst(clients[..], name, i);
      if i < clients.Length {
        clients[i] := clients[i].(port := port);
        return clients[i].id;
      }
      var slot := 0;
      while slot < clients.Length
        invariant slot <= clients.Length
        invariant forall j :: 0 <= j < slot ==> clients[j].active
      {
        if !clients[slot].active { break; }
        slot := slot + 1;
      }
      FreeIsFirst(clients[..], slot);
      if slot == clients.Length { return -1; }
      clients[slot] := Client(true, nextId, Clip(name, NAME_MAX), port, Registry.Listing([], [], []));
      nextId := nextId + 1;
      return clients[slot].id;
    }

    /** client_find: the slot of an id, or the table's length. */
    method ClientFind(id: nat) returns (k: nat)
      ensures k == FindById(clients[..], id)
    {
      k := 0;
      while k < clients.Length
        invariant k <= clients.Length
        invariant forall j :: 0 <= j < k ==> !(clients[j].active && clients[j].id == id)
      {
        if clients[k].active && clients[k].id == id { break; }
        k := k + 1;
      }
      IdIsFirst(clients[..], id, k);
    }

    /** client_unregister. */
    method ClientUnregister(id: nat)
      modifies clients
      ensures View() == Unregister(old(View()), id)
    {
      var k := ClientFind(id);
      if k < clients.Length {
        clients[k] := clients[k].(active := false, port := 0);
      }
    }
  }

  lemma NameIsFirst(cs: seq<Client>, name: string, k: nat)
    requires k <= |cs| && (k < |cs| ==> cs[k].active && cs[k].name == name)
    requires forall j :: 0 <= j < k ==> !(cs[j].active && cs[j].name == name)
    ensures FindByName(cs, name) == k
  {
  }

  lemma IdIsFirst(cs: seq<Client>, id: nat, k: nat)
    requires k <= |cs| && (k < |cs| ==> cs[k].active && cs[k].id == id)
    requires forall j :: 0 <= j < k ==> !(cs[j].active && cs[j].id == id)
    ensures FindById(cs, id) == k
  {
  }

  lemma FreeIsFirst(cs: seq<Client>, k: nat)
    requires k <= |cs| && (k < |cs| ==> !cs[k].active)
    requires forall j :: 0 <= j < k ==> cs[j].active
    ensures FreeSlot(cs) == k
  {
  }

  // ----------------------------------------------------------------- what they keep

  /** Ids are never given twice, and names are registered once. */
  ghost predicate Inv(t: Table) {
    && t.nextId > 0
    && (forall i :: 0 <= i < |t.cs| && t.cs[i].active ==> 0 < t.cs[i].id < t.nextId && |t.cs[i].name| <= NAME_MAX)
    && (forall i, j :: 0 <= i < j < |t.cs| && t.cs[i].active && t.cs[j].active ==>
          t.cs[i].id != t.cs[j].id && t.cs[i].name != t.cs[j].name)
  }

  /** The client an id finds, and the others. */
  ghost predicate Registers(t: Table, after: Table, id: int, name: string, port: nat, lists: Registry.Listing) {
    && id >= 0 && |after.cs| == |t.cs|
    && var k := FindById(after.cs, id);
    && k < |after.cs|
    && after.cs[k].name == name && after.cs[k].port == port && after.cs[k].lists == lists
    && forall j :: 0 <= j < |t.cs| && j != k ==> after.cs[j] == t.cs[j]
  }

  lemma KnownClient(t: Table, k: nat, port: nat)
    requires Inv(t) && k < |t.cs| && t.cs[k].active
    ensures var after := t.(cs := t.cs[k := t.cs[k].(port := port)]);
            Inv(after) && Registers(t, after, t.cs[k].id, t.cs[k].name, port, t.cs[k].lists)
  {
    hide FindById;
    IdIsFirst(t.cs[k := t.cs[k].(port := port)], t.cs[k].id, k);
  }

  lemma NewKeepsInv(t: Table, f: nat, c: Client)
    requires Inv(t) && f < |t.cs| && FindByName(t.cs, c.name) == |t.cs|
    requires c.active && c.id == t.nextId && |c.name| <= NAME_MAX
    ensures Inv(Table(t.cs[f := c], t.nextId + 1))
  {
    assert forall j :: 0 <= j < |t.cs| && t.cs[j].active ==> t.cs[j].name != c.name;
    hide FindByName;
  }

  lemma NewClient(t: Table, f: nat, name: string, port: nat)
    requires Inv(t) && f < |t.cs| && FindByName(t.cs, name) == |t.cs| && |name| <= NAME_MAX
    ensures var c := Client(true, t.nextId, name, port, Registry.Listing([], [], []));
            var after := Table(t.cs[f := c], t.nextId + 1);
            Inv(after) && Registers(t, after, t.nextId, name, port, Registry.Listing([], [], []))
  {
    var c := Client(true, t.nextId, name, port, Registry.Listing([], [], []));
    NewKeepsInv(t, f, c);
    assert forall j :: 0 <= j < |t.cs| && t.cs[j].active ==> t.cs[j].id != t.nextId;
    hide FindById, FindByName, Inv;
    IdIsFirst(t.cs[f := c], t.nextId, f);
  }

  /** Registering gives an id under which the client is found, by its name and port, with
      empty lists unless it was registered before; the others stay as they are. A new client's
      id is larger than all given before. It fails exactly when the name is new and every slot
      is taken. */
  lemma RegisterFinds(t: Table, name: string, port: nat)
    requires Inv(t) && |name| <= NAME_MAX
    ensures var Registered(after, id) := Register(t, name, port);
            var k := FindByName(t.cs, name);
            && Inv(after)
            && (if k == |t.cs| && id >= 0 then id == t.nextId < after.nextId else after.nextId == t.nextId)
            && (id < 0 <==> k == |t.cs| && forall j :: 0 <= j < |t.cs| ==> t.cs[j].active)
            && (if id < 0 then after == t
                else Registers(t, after, id, name, port,
                               if k < |t.cs| then t.cs[k].lists else Registry.Listing([], [], [])))
  {
    var k, f := FindByName(t.cs, name), FreeSlot(t.cs);
    assert Clip(name, NAME_MAX) == name;
    hide Inv, Registers, FindByName, FreeSlot, Clip;
    if k < |t.cs| {
      KnownClient(t, k, port);
    } else if f < |t.cs| {
      NewClient(t, f, name, port);
    }
  }

  /** After unregistering, the id finds nobody, and the other clients stay. */
  lemma UnregisterForgets(t: Table, id: nat)
    requires Inv(t)
    ensures var after := Unregister(t, id);
            && Inv(after) && |after.cs| == |t.cs| && FindById(after.cs, id) == |t.cs| && after.nextId == t.nextId
            && forall j :: 0 <= j < |t.cs| && !(t.cs[j].active && t.cs[j].id == id) ==> after.cs[j] == t.cs[j]
  {
    var k := FindById(t.cs, id);
    var after := Unregister(t, id);
    hide FindById;
    IdIsFirst(after.cs, id, |after.cs|);
  }

  /** The lists an id finds. */
  function ListsOf(t: Table, id: int): Option<Registry.Listing> {
    var k := if id < 0 then |t.cs| else FindById(t.cs, id);
    if k < |t.cs| then Some(t.cs[k].lists) else None
  }

  /** The client called name has the id and the lists it had, or a new id and empty ones. */
  lemma RegisterMeets(t: Table, name: string, port: nat)
    requires Inv(t) && |name| <= NAME_MAX
    ensures var Registered(after, id) := Register(t, name, port);
            var k := FindByName(t.cs, name);
            ListsOf(after, id) ==
            if id < 0 then None else Some(if k < |t.cs| then t.cs[k].lists else Registry.Listing([], [], []))
  {
    RegisterFinds(t, name, port);
    hide Register, Inv, FindByName, FindById;
  }

  lemma EmptyAgrees(c: Registry.Client, l: Registry.Listing)
    requires Registry.Fresh(c)
    ensures Registry.AllAgree(c, l) <==> l == Registry.Listing([], [], [])
  {
    UsedNone(c.vars);
    UsedNone(c.hooks);
    UsedNone(c.regions);
    FreshAgree(c.vars);
    FreshAgree(c.hooks);
    FreshAgree(c.regions);
    hide Distinct, DistinctList, SameContents, Used, Registry.Unused;
  }

  /** A client that starts with empty tables and registers agrees with the lists it meets if
      and only if its name was not registered, or its lists were empty. */
  lemma RestartAgrees(t: Table, name: string, port: nat, c: Registry.Client)
    requires Inv(t) && |name| <= NAME_MAX && Registry.Fresh(c)
    ensures var Registered(after, id) := Register(t, name, port);
            var k, met := FindByName(t.cs, name), ListsOf(after, id);
            && (met.None? <==> id < 0)
            && (id >= 0 ==> (Registry.AllAgree(c, met.value) <==>
                             k == |t.cs| || t.cs[k].lists == Registry.Listing([], [], [])))
  {
    RegisterMeets(t, name, port);
    var Registered(after, id) := Register(t, name, port);
    hide Register, ListsOf, FindByName, Inv, Registry.AllAgree, Registry.Fresh;
    if id >= 0 { EmptyAgrees(c, ListsOf(after, id).value); }
  }

  /** Unregistering first always makes the next registration agree. */
  lemma UnregisteredRestartAgrees(t: Table, name: string, port: nat, c: Registry.Client)
    requires Inv(t) && |name| <= NAME_MAX && Registry.Fresh(c) && FindByName(t.cs, name) < |t.cs|
    ensures var Registered(after, id) := Register(Unregister(t, t.cs[FindByName(t.cs, name)].id), name, port);
            id >= 0 && ListsOf(after, id).Some? && Registry.AllAgree(c, ListsOf(after, id).value)
  {
    var k := FindByName(t.cs, name);
    var gone := Unregister(t, t.cs[k].id);
    UnregisterForgets(t, t.cs[k].id);
    NameIsGone(t, k);
    hide *;
    RestartAgrees(gone, name, port, c);
  }

  lemma NameIsGone(t: Table, k: nat)
    requires Inv(t) && k < |t.cs| && t.cs[k].active
    ensures var gone := Unregister(t, t.cs[k].id);
            && FindByName(gone.cs, t.cs[k].name) == |gone.cs|
            && forall port :: Register(gone, t.cs[k].name, port).id >= 0
  {
    hide FindById, FindByName;
    IdIsFirst(t.cs, t.cs[k].id, k);
    var gone := Unregister(t, t.cs[k].id);
    NameIsFirst(gone.cs, t.cs[k].name, |gone.cs|);
    assert !gone.cs[k].active;
  }

  /** A client that starts again under a name still registered, and then runs: the two
      sides agree in the end if and only if the run named everything that was listed. */
  lemma RestartCatchesUp(t: Table, name: string, port: nat, c: Registry.Client, steps: seq<Registry.Step>,
                         pool: Registry.Names)
    requires Inv(t) && |name| <= NAME_MAX && Registry.Fresh(c) && FindByName(t.cs, name) < |t.cs|
    requires var l := t.cs[FindByName(t.cs, name)].lists; Registry.Tidy(l) && Registry.Pooled(l, pool)
    requires forall i :: 0 <= i < |steps| ==> Registry.Registers(steps[i], pool)
    ensures var l, Registered(after, id) := t.cs[FindByName(t.cs, name)].lists, Register(t, name, port);
            && ListsOf(after, id).Some?
            && var k := Registry.Run(Registry.Link(c, [], ListsOf(after, id).value), steps);
               Registry.AllAgree(k.client, Registry.Drained(k)) <==>
               Registry.Within(Registry.ListedNames(l), Registry.NamedIn(steps))
  {
    RegisterFinds(t, name, port);
    RegisterMeets(t, name, port);
    hide *;
    Registry.RestartedRunAgrees(c, t.cs[FindByName(t.cs, name)].lists, steps, pool);
  }
}
