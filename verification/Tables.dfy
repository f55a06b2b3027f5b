/** The two forms of a registry: the client's table of slots (`bridge_client.c`) and the
    daemon's dense list (`client_registry.c`). V is what is kept with a name: a type, a
    description, or an address with its size and description. */
module Tables {
  import opened Text

  const NAME_MAX: nat := 33

  datatype Slot<V> = Slot(active: bool, name: string, value: V)

  datatype Entry<V> = Entry(name: string, value: V)

  // ------------------------------------------------------------- the client's table

  predicate Holds<V>(s: Slot<V>, name: string) { s.active && s.name == name }

  /** The first slot in use under a name, or the table's length. */
  function FindActive<V>(slots: seq<Slot<V>>, name: string): (k: nat)
    ensures k <= |slots|
    ensures k < |slots| ==> Holds(slots[k], name)
    ensures forall j :: 0 <= j < k ==> !Holds(slots[j], name)
  {
    if slots == [] || Holds(slots[0], name) then 0 else 1 + FindActive(slots[1..], name)
  }

  /** The first free slot, or the table's length. */
  function FindFree<V>(slots: seq<Slot<V>>): (k: nat)
    ensures k <= |slots|
    ensures k < |slots| ==> !slots[k].active
    ensures forall j :: 0 <= j < k ==> slots[j].active
  {
    if slots == [] || !slots[0].active then 0 else 1 + FindFree(slots[1..])
  }

  /** The slot a name is registered in: its own, or else a free one. */
  function Target<V>(slots: seq<Slot<V>>, name: string): (k: nat)
    ensures k <= |slots|
  {
    if FindActive(slots, name) < |slots| then FindActive(slots, name) else FindFree(slots)
  }

  function ClientRegister<V>(slots: seq<Slot<V>>, name: string, value: V): (r: seq<Slot<V>>)
    ensures |r| == |slots|
  {
    var k := Target(slots, name);
    if k < |slots| then slots[k := Slot(true, Clip(name, NAME_MAX), value)] else slots
  }

  function ClientUnregister<V>(slots: seq<Slot<V>>, name: string): (r: seq<Slot<V>>)
    ensures |r| == |slots|
  {
    var k := FindActive(slots, name);
    if k < |slots| then slots[k := slots[k].(active := false)] else slots
  }

  // --------------------------------------------------------------- the daemon's list

  function FindEntry<V>(list: seq<Entry<V>>, name: string): (k: nat)
    ensures k <= |list|
    ensures k < |list| ==> list[k].name == name
    ensures forall j :: 0 <= j < k ==> list[j].name != name
  {
    if list == [] || list[0].name == name then 0 else 1 + FindEntry(list[1..], name)
  }

  function DaemonAdd<V>(list: seq<Entry<V>>, name: string, value: V, capacity: nat): seq<Entry<V>> {
    var k := FindEntry(list, name);
    if k < |list| then list[k := Entry(list[k].name, value)]
    else if |list| >= capacity then list
    else list + [Entry(Clip(name, NAME_MAX), value)]
  }

  function DaemonRemove<V>(list: seq<Entry<V>>, name: string): seq<Entry<V>> {
    var k := FindEntry(list, name);
    if k < |list| then list[..k] + list[k + 1..] else list
  }

  // ----------------------------------------------------------------- in the machines

  class ClientTable<V(0)> {
    const slots: array<Slot<V>>

    constructor (capacity: nat, nothing: V)
      ensures fresh(slots) && slots.Length == capacity
      ensures forall k :: 0 <= k < capacity ==> !slots[k].active
    {
      slots := new Slot<V>[capacity](_ => Slot(false, "", nothing));
    }

    /** The slot search shared by the register functions. */
    method FindSlot(name: string) returns (slot: nat)
      ensures slot == Target(slots[..], name)
    {
      slot := 0;
      while slot < slots.Length
        invariant slot <= slots.Length
        invariant forall j :: 0 <= j < slot ==> !Holds(slots[j], name)
      {
        if slots[slot].active && slots[slot].name == name {
          FirstActive(slots[..], name, slot);
          return;
        }
        slot := slot + 1;
      }
      FirstActive(slots[..], name, slot);
      slot := 0;
      while slot < slots.Length
        invariant slot <= slots.Length
        invariant forall j :: 0 <= j < slot ==> slots[j].active
      {
        if !slots[slot].active { break; }
        slot := slot + 1;
      }
      FirstFree(slots[..], slot);
    }

    /** ab_register_var, ab_register_hook and ab_register_memregion, on the table. */
    method Register(name: string, value: V) returns (stored: bool)
      modifies slots
      ensures slots[..] == ClientRegister(old(slots[..]), name, value)
      ensures stored <==> Target(old(slots[..]), name) < slots.Length
    {
      var slot := FindSlot(name);
      if slot == slots.Length { return false; }
      slots[slot] := Slot(true, Clip(name, NAME_MAX), value);
      return true;
    }

    /** ab_unregister_var, ab_unregister_hook and ab_unregister_memregion, on the table. */
    method Unregister(name: string)
      modifies slots
      ensures slots[..] == ClientUnregister(old(slots[..]), name)
    {
      var i := 0;
      while i < slots.Length
        invariant i <= slots.Length && slots[..] == old(slots[..])
        invariant forall j :: 0 <= j < i ==> !Holds(slots[j], name)
      {
        if slots[i].active && slots[i].name == name {
          FirstActive(slots[..], name, i);
          slots[i] := slots[i].(active := false);
          return;
        }
        i := i + 1;
      }
      FirstActive(slots[..], name, i);
    }
  }

  lemma FirstActive<V>(slots: seq<Slot<V>>, name: string, k: nat)
    requires k <= |slots| && (k < |slots| ==> Holds(slots[k], name))
    requires forall j :: 0 <= j < k ==> !Holds(slots[j], name)
    ensures FindActive(slots, name) == k
  {
  }

  lemma FirstFree<V>(slots: seq<Slot<V>>, k: nat)
    requires k <= |slots| && (k < |slots| ==> !slots[k].active)
    requires forall j :: 0 <= j < k ==> slots[j].active
    ensures FindFree(slots) == k
  {
  }

  lemma FirstEntry<V>(list: seq<Entry<V>>, name: string, k: nat)
    requires k <= |list| && (k < |list| ==> list[k].name == name)
    requires forall j :: 0 <= j < k ==> list[j].name != name
    ensures FindEntry(list, name) == k
  {
  }

  class DaemonList<V(0)> {
    const entries: array<Entry<V>>
    var count: nat

    ghost predicate Valid()
      reads this
    {
      count <= entries.Length
    }

    function Contents(): seq<Entry<V>>
      requires Valid()
      reads this, entries
    {
      entries[..count]
    }

    constructor (capacity: nat, nothing: V)
      ensures Valid() && fresh(entries) && entries.Length == capacity && Contents() == []
    {
      entries := new Entry<V>[capacity](_ => Entry("", nothing));
      count := 0;
    }

    method Find(name: string) returns (k: nat)
      requires Valid()
      ensures k == FindEntry(Contents(), name)
    {
      k := 0;
      while k < count
        invariant k <= count
        invariant forall j :: 0 <= j < k ==> entries[j].name != name
      {
        if entries[k].name == name { break; }
        k := k + 1;
      }
      FirstEntry(Contents(), name, k);
    }

    /** client_add_var, client_add_hook and client_add_memreg. */
    method Add(name: string, value: V)
      requires Valid()
      modifies this`count, entries
      ensures Valid() && Contents() == DaemonAdd(old(Contents()), name, value, entries.Length)
    {
      var k := Find(name);
      if k < count {
        entries[k] := Entry(entries[k].name, value);
        return;
      }
      if count >= entries.Length { return; }
      entries[count] := Entry(Clip(name, NAME_MAX), value);
      count := count + 1;
    }

    /** client_remove_var, client_remove_hook and client_remove_memreg. */
    method Remove(name: string)
      requires Valid()
      modifies this`count, entries
      ensures Valid() && Contents() == DaemonRemove(old(Contents()), name)
    {
      var k := Find(name);
      ghost var list := Contents();
      assert DaemonRemove(list, name) == if k < |list| then list[..k] + list[k + 1..] else list;
      hide FindEntry, DaemonRemove;
      if k < count {
        assert entries[..k] == list[..k] && entries[k + 1..count] == list[k + 1..];
        CloseGap(k);
        count := count - 1;
      }
    }

    /** memmove of the entries after k. */
    method CloseGap(k: nat)
      requires Valid() && k < count
      modifies entries
      ensures entries[..count - 1] == old(entries[..k]) + old(entries[k + 1..count])
    {
      forall j | k <= j < count - 1 {
        entries[j] := entries[j + 1];
      }
      assert entries[..count - 1] == entries[..k] + entries[k..count - 1];
    }
  }
}
