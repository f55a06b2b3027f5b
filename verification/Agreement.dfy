/** When the client's table and the daemon's list say the same, and what keeps them so. */
module Agreement {
  import opened Tables
  import opened Text

  function Used<V>(slots: seq<Slot<V>>): (n: nat)
    ensures n <= |slots|
  {
    if slots == [] then 0 else (if slots[0].active then 1 else 0) + Used(slots[1..])
  }

  predicate Distinct<V>(slots: seq<Slot<V>>) {
    forall i, j :: 0 <= i < j < |slots| && slots[i].active && slots[j].active ==> slots[i].name != slots[j].name
  }

  predicate DistinctList<V>(list: seq<Entry<V>>) {
    forall i, j :: 0 <= i < j < |list| ==> list[i].name != list[j].name
  }

  /** What the table keeps under a name. */
  predicate Keeps<V(==)>(slots: seq<Slot<V>>, e: Entry<V>) {
    var k := FindActive(slots, e.name);
    k < |slots| && slots[k].value == e.value
  }

  predicate Lists<V(==)>(list: seq<Entry<V>>, e: Entry<V>) {
    var k := FindEntry(list, e.name);
    k < |list| && list[k] == e
  }

  /** Every slot in use is listed with its value, and every entry is kept. */
  predicate SameContents<V(==)>(slots: seq<Slot<V>>, list: seq<Entry<V>>) {
    && (forall i :: 0 <= i < |slots| && slots[i].active ==> Lists(list, Entry(slots[i].name, slots[i].value)))
    && (forall i :: 0 <= i < |list| ==> Keeps(slots, list[i]))
  }

  /** The same names with the same values on both sides, each name once. */
  predicate Agree<V(==)>(slots: seq<Slot<V>>, list: seq<Entry<V>>) {
    Distinct(slots) && DistinctList(list) && SameContents(slots, list) && Used(slots) == |list|
  }

  predicate Has<V>(list: seq<Entry<V>>, name: string) { FindEntry(list, name) < |list| }

  predicate Tracks<V(==)>(slots: seq<Slot<V>>, list: seq<Entry<V>>, stale: set<string>) {
    && (forall i :: 0 <= i < |slots| && slots[i].active ==>
          slots[i].name !in stale && Lists(list, Entry(slots[i].name, slots[i].value)))
    && (forall i :: 0 <= i < |list| ==> list[i].name in stale || Keeps(slots, list[i]))
    && (forall n :: n in stale ==> Has(list, n))
  }

  /** The two sides say the same, but for some names that are listed and not kept. */
  predicate AgreeBut<V(==)>(slots: seq<Slot<V>>, list: seq<Entry<V>>, stale: set<string>) {
    Distinct(slots) && DistinctList(list) && Tracks(slots, list, stale) && Used(slots) + |stale| == |list|
  }

  /** Agreement is agreement but for no name. */
  lemma AgreeIsAgreeBut<V>(slots: seq<Slot<V>>, list: seq<Entry<V>>, stale: set<string>)
    requires AgreeBut(slots, list, stale)
    ensures Agree(slots, list) <==> stale == {}
  {
    hide Distinct, DistinctList, Lists, Keeps, Used, FindEntry;
    if n :| n in stale {
      assert Has(list, n);
      assert |stale| > 0;
    }
  }

  lemma AgreeBut0<V>(slots: seq<Slot<V>>, list: seq<Entry<V>>)
    requires Agree(slots, list)
    ensures AgreeBut(slots, list, {})
  {
    hide Distinct, DistinctList, Lists, Keeps, Used, FindEntry;
  }

  lemma {:induction false} UsedUpdate<V>(slots: seq<Slot<V>>, k: nat, s: Slot<V>)
    requires k < |slots|
    ensures Used(slots[k := s]) == Used(slots) + (if s.active then 1 else 0) - (if slots[k].active then 1 else 0)
    decreases |slots|
  {
    if k > 0 {
      assert slots[k := s][1..] == slots[1..][k - 1 := s];
      UsedUpdate(slots[1..], k - 1, s);
    } else {
      assert slots[0 := s][1..] == slots[1..];
    }
  }

  lemma {:induction false} UsedFull<V>(slots: seq<Slot<V>>)
    ensures Used(slots) == |slots| <==> forall k :: 0 <= k < |slots| ==> slots[k].active
    decreases |slots|
  {
    if slots != [] {
      UsedFull(slots[1..]);
      if forall k :: 0 <= k < |slots| ==> slots[k].active {
        assert forall k :: 0 <= k < |slots[1..]| ==> slots[1..][k] == slots[k + 1];
      } else if slots[0].active {
        var k :| 0 <= k < |slots| && !slots[k].active;
        assert slots[1..][k - 1] == slots[k];
      }
    }
  }

  lemma {:induction false} UsedNone<V>(slots: seq<Slot<V>>)
    requires forall k :: 0 <= k < |slots| ==> !slots[k].active
    ensures Used(slots) == 0
    decreases |slots|
  {
    if slots != [] { UsedNone(slots[1..]); }
  }

  /** Empty tables agree. */
  lemma FreshAgree<V>(slots: seq<Slot<V>>)
    requires forall k :: 0 <= k < |slots| ==> !slots[k].active
    ensures Agree(slots, [])
  {
    UsedNone(slots);
  }

  lemma FoundInBoth<V>(slots: seq<Slot<V>>, list: seq<Entry<V>>, stale: set<string>, name: string)
    requires AgreeBut(slots, list, stale)
    ensures FindActive(slots, name) < |slots| <==> Has(list, name) && name !in stale
    ensures FindActive(slots, name) < |slots| ==>
              Has(list, name) && slots[FindActive(slots, name)].value == list[FindEntry(list, name)].value
  {
    hide Distinct, DistinctList, Used;
    var k, j := FindActive(slots, name), FindEntry(list, name);
    if k < |slots| { assert Lists(list, Entry(slots[k].name, slots[k].value)); }
    if j < |list| && name !in stale { assert Keeps(slots, list[j]); }
  }

  /** Distinct names: a name's slot, and its entry, is where it is found. */
  lemma FindIs<V>(slots: seq<Slot<V>>, k: nat)
    requires Distinct(slots) && k < |slots| && slots[k].active
    ensures FindActive(slots, slots[k].name) == k
  {
    FirstActive(slots, slots[k].name, k);
  }

  lemma FindEntryIs<V>(list: seq<Entry<V>>, k: nat)
    requires DistinctList(list) && k < |list|
    ensures FindEntry(list, list[k].name) == k
  {
    FirstEntry(list, list[k].name, k);
  }

  lemma ListsAt<V>(list: seq<Entry<V>>, k: nat)
    requires DistinctList(list) && k < |list|
    ensures Lists(list, list[k]) && Has(list, list[k].name)
  {
    FindEntryIs(list, k);
  }

  lemma KeepsAt<V>(slots: seq<Slot<V>>, k: nat)
    requires Distinct(slots) && k < |slots| && slots[k].active
    ensures Keeps(slots, Entry(slots[k].name, slots[k].value))
  {
    FindIs(slots, k);
  }

  /** The entry that lists a slot in use. */
  lemma ListedAt<V>(slots: seq<Slot<V>>, list: seq<Entry<V>>, stale: set<string>, i: nat) returns (n: nat)
    requires Tracks(slots, list, stale) && i < |slots| && slots[i].active
    ensures n < |list| && list[n] == Entry(slots[i].name, slots[i].value) && slots[i].name !in stale
  {
    hide FindEntry;
    assert Lists(list, Entry(slots[i].name, slots[i].value));
    n := FindEntry(list, slots[i].name);
  }

  /** The slot that keeps an entry. */
  lemma KeptAt<V>(slots: seq<Slot<V>>, list: seq<Entry<V>>, stale: set<string>, i: nat) returns (n: nat)
    requires Tracks(slots, list, stale) && i < |list| && list[i].name !in stale
    ensures n < |slots| && slots[n].active && Entry(slots[n].name, slots[n].value) == list[i]
  {
    hide FindActive;
    assert Keeps(slots, list[i]);
    n := FindActive(slots, list[i].name);
  }

  /** The entry of a name that is only listed. */
  lemma StaleAt<V>(slots: seq<Slot<V>>, list: seq<Entry<V>>, stale: set<string>, name: string) returns (n: nat)
    requires Tracks(slots, list, stale) && name in stale
    ensures n < |list| && list[n].name == name
  {
    assert Has(list, name);
    n := FindEntry(list, name);
  }

  lemma AgreeButParts<V>(slots: seq<Slot<V>>, list: seq<Entry<V>>, stale: set<string>)
    requires AgreeBut(slots, list, stale)
    ensures Distinct(slots) && DistinctList(list) && Tracks(slots, list, stale) && Used(slots) + |stale| == |list|
    ensures |list| <= |slots| && Used(slots) == |slots| ==> stale == {}
  {
    hide Distinct, DistinctList, Tracks, Used;
    if |stale| == 0 { assert stale == {}; }
  }

  lemma AgreeButIs<V>(slots: seq<Slot<V>>, list: seq<Entry<V>>, stale: set<string>)
    requires Distinct(slots) && DistinctList(list) && Tracks(slots, list, stale) && Used(slots) + |stale| == |list|
    ensures AgreeBut(slots, list, stale)
  {
  }

  lemma TracksIs<V>(slots: seq<Slot<V>>, list: seq<Entry<V>>, stale: set<string>)
    requires forall i :: 0 <= i < |slots| && slots[i].active ==>
               slots[i].name !in stale && Lists(list, Entry(slots[i].name, slots[i].value))
    requires forall i :: 0 <= i < |list| ==> list[i].name in stale || Keeps(slots, list[i])
    requires forall n :: n in stale ==> Has(list, n)
    ensures Tracks(slots, list, stale)
  {
  }

  lemma SameName<V>(slots: seq<Slot<V>>, i: nat, k: nat)
    requires Distinct(slots) && i < |slots| && k < |slots| && slots[i].active && slots[k].active
    requires slots[i].name == slots[k].name
    ensures i == k
  {
  }

  lemma SameEntry<V>(list: seq<Entry<V>>, i: nat, k: nat)
    requires DistinctList(list) && i < |list| && k < |list| && list[i].name == list[k].name
    ensures i == k
  {
  }

  lemma RemoveStale(stale: set<string>, name: string)
    ensures name in stale ==> |stale - {name}| == |stale| - 1
    ensures name !in stale ==> stale - {name} == stale
  {
    if name in stale { assert stale == (stale - {name}) + {name}; }
  }

  // ------------------------------------------------------------- replacing a value

  lemma ReplaceDistinct<V>(slots: seq<Slot<V>>, list: seq<Entry<V>>, k: nat, j: nat, value: V)
    requires Distinct(slots) && DistinctList(list) && k < |slots| && slots[k].active && j < |list|
    ensures Distinct(slots[k := Slot(true, slots[k].name, value)])
    ensures DistinctList(list[j := Entry(list[j].name, value)])
  {
  }

  lemma ReplaceAgrees<V>(slots: seq<Slot<V>>, list: seq<Entry<V>>, stale: set<string>, k: nat, j: nat, value: V)
    requires AgreeBut(slots, list, stale) && k < |slots| && slots[k].active
    requires j < |list| && list[j].name == slots[k].name
    ensures AgreeBut(slots[k := Slot(true, slots[k].name, value)], list[j := Entry(list[j].name, value)], stale)
  {
    hide *;
    var slots', list' := slots[k := Slot(true, slots[k].name, value)], list[j := Entry(list[j].name, value)];
    AgreeButParts(slots, list, stale);
    UsedUpdate(slots, k, slots'[k]);
    ReplaceDistinct(slots, list, k, j, value);
    forall i | 0 <= i < |slots'| && slots'[i].active
      ensures slots'[i].name !in stale && Lists(list', Entry(slots'[i].name, slots'[i].value))
    {
      var n := ListedAt(slots, list, stale, i);
      ListsAt(list', n);
      if i == k { SameEntry(list, n, j); }
      if n == j { SameName(slots, i, k); }
    }
    forall i | 0 <= i < |list'| ensures list'[i].name in stale || Keeps(slots', list'[i]) {
      if list[i].name !in stale {
        var n := KeptAt(slots, list, stale, i);
        KeepsAt(slots', n);
        if i == j { SameName(slots, n, k); }
        if n == k { SameEntry(list, i, j); }
      }
    }
    forall name | name in stale ensures Has(list', name) {
      var n := StaleAt(slots, list, stale, name);
      ListsAt(list', n);
    }
    TracksIs(slots', list', stale);
    AgreeButIs(slots', list', stale);
  }

  // ----------------------------------------------------------------- adding a name

  lemma AddDistinct<V>(slots: seq<Slot<V>>, k: nat, name: string, value: V)
    requires Distinct(slots) && k < |slots| && FindActive(slots, name) == |slots|
    ensures Distinct(slots[k := Slot(true, name, value)])
  {
    assert forall i :: 0 <= i < |slots| ==> !Holds(slots[i], name);
  }

  lemma AppendDistinct<V>(list: seq<Entry<V>>, name: string, value: V)
    requires DistinctList(list) && !Has(list, name)
    ensures DistinctList(list + [Entry(name, value)])
  {
  }

  /** A name that neither side has. */
  lemma AddAgrees<V>(slots: seq<Slot<V>>, list: seq<Entry<V>>, stale: set<string>, k: nat, name: string, value: V)
    requires AgreeBut(slots, list, stale) && k < |slots| && !slots[k].active
    requires FindActive(slots, name) == |slots| && !Has(list, name)
    ensures AgreeBut(slots[k := Slot(true, name, value)], list + [Entry(name, value)], stale)
  {
    hide *;
    var slots', list' := slots[k := Slot(true, name, value)], list + [Entry(name, value)];
    AgreeButParts(slots, list, stale);
    UsedUpdate(slots, k, slots'[k]);
    AddDistinct(slots, k, name, value);
    AppendDistinct(list, name, value);
    if name in stale { StaleIsListed(slots, list, stale, name); }
    forall i | 0 <= i < |slots'| && slots'[i].active
      ensures slots'[i].name !in stale && Lists(list', Entry(slots'[i].name, slots'[i].value))
    {
      if i == k {
        ListsAt(list', |list|);
      } else {
        var n := ListedAt(slots, list, stale, i);
        ListsAt(list', n);
      }
    }
    forall i | 0 <= i < |list'| ensures list'[i].name in stale || Keeps(slots', list'[i]) {
      if i == |list| {
        KeepsAt(slots', k);
      } else if list[i].name !in stale {
        var n := KeptAt(slots, list, stale, i);
        KeepsAt(slots', n);
      }
    }
    forall m | m in stale ensures Has(list', m) {
      var n := StaleAt(slots, list, stale, m);
      ListsAt(list', n);
    }
    TracksIs(slots', list', stale);
    AgreeButIs(slots', list', stale);
  }

  lemma StaleIsListed<V>(slots: seq<Slot<V>>, list: seq<Entry<V>>, stale: set<string>, name: string)
    requires Tracks(slots, list, stale) && name in stale
    ensures Has(list, name)
  {
    hide Lists, Keeps, FindEntry;
  }

  /** A name that was only listed: the client takes it up again. */
  lemma AdoptAgrees<V>(slots: seq<Slot<V>>, list: seq<Entry<V>>, stale: set<string>, k: nat, j: nat, value: V)
    requires AgreeBut(slots, list, stale) && k < |slots| && !slots[k].active
    requires j < |list| && list[j].name in stale && FindActive(slots, list[j].name) == |slots|
    ensures AgreeBut(slots[k := Slot(true, list[j].name, value)], list[j := Entry(list[j].name, value)],
                     stale - {list[j].name})
  {
    hide *;
    var name := list[j].name;
    var slots', list', left := slots[k := Slot(true, name, value)], list[j := Entry(name, value)], stale - {name};
    AgreeButParts(slots, list, stale);
    UsedUpdate(slots, k, slots'[k]);
    AddDistinct(slots, k, name, value);
    SetDistinct(list, j, value);
    RemoveStale(stale, name);
    forall i | 0 <= i < |slots'| && slots'[i].active
      ensures slots'[i].name !in left && Lists(list', Entry(slots'[i].name, slots'[i].value))
    {
      if i == k {
        ListsAt(list', j);
      } else {
        var n := ListedAt(slots, list, stale, i);
        ListsAt(list', n);
      }
    }
    forall i | 0 <= i < |list'| ensures list'[i].name in left || Keeps(slots', list'[i]) {
      if i == j {
        KeepsAt(slots', k);
      } else if list[i].name !in stale {
        var n := KeptAt(slots, list, stale, i);
        KeepsAt(slots', n);
      } else if list[i].name == name {
        SameEntry(list, i, j);
      }
    }
    forall m | m in left ensures Has(list', m) {
      var n := StaleAt(slots, list, stale, m);
      ListsAt(list', n);
    }
    TracksIs(slots', list', left);
    AgreeButIs(slots', list', left);
  }

  lemma SetDistinct<V>(list: seq<Entry<V>>, j: nat, value: V)
    requires DistinctList(list) && j < |list|
    ensures DistinctList(list[j := Entry(list[j].name, value)])
  {
  }

  // --------------------------------------------------------------- removing a name

  lemma FreeDistinct<V>(slots: seq<Slot<V>>, k: nat)
    requires Distinct(slots) && k < |slots|
    ensures Distinct(slots[k := slots[k].(active := false)])
  {
  }

  lemma CutDistinct<V>(list: seq<Entry<V>>, j: nat)
    requires DistinctList(list) && j < |list|
    ensures DistinctList(list[..j] + list[j + 1..])
  {
  }

  lemma RemoveAgrees<V>(slots: seq<Slot<V>>, list: seq<Entry<V>>, stale: set<string>, k: nat, j: nat)
    requires AgreeBut(slots, list, stale) && k < |slots| && slots[k].active
    requires j < |list| && list[j].name == slots[k].name
    ensures AgreeBut(slots[k := slots[k].(active := false)], list[..j] + list[j + 1..], stale)
  {
    hide *;
    var slots', list' := slots[k := slots[k].(active := false)], list[..j] + list[j + 1..];
    AgreeButParts(slots, list, stale);
    UsedUpdate(slots, k, slots'[k]);
    FreeDistinct(slots, k);
    CutDistinct(list, j);
    forall i | 0 <= i < |slots'| && slots'[i].active
      ensures slots'[i].name !in stale && Lists(list', Entry(slots'[i].name, slots'[i].value))
    {
      var n := ListedAt(slots, list, stale, i);
      if n == j { SameName(slots, i, k); }
      ListsAt(list', if n < j then n else n - 1);
    }
    forall i | 0 <= i < |list'| ensures list'[i].name in stale || Keeps(slots', list'[i]) {
      var was := if i < j then i else i + 1;
      if list[was].name !in stale {
        var n := KeptAt(slots, list, stale, was);
        if n == k { SameEntry(list, was, j); }
        KeepsAt(slots', n);
      }
    }
    forall m | m in stale ensures Has(list', m) {
      var n := StaleAt(slots, list, stale, m);
      var i := ListedAt(slots, list, stale, k);
      if n == j { assert false; }
      ListsAt(list', if n < j then n else n - 1);
    }
    TracksIs(slots', list', stale);
    AgreeButIs(slots', list', stale);
  }

  /** A name that was only listed is dropped. */
  lemma DropAgrees<V>(slots: seq<Slot<V>>, list: seq<Entry<V>>, stale: set<string>, j: nat)
    requires AgreeBut(slots, list, stale) && j < |list| && list[j].name in stale
    ensures AgreeBut(slots, list[..j] + list[j + 1..], stale - {list[j].name})
  {
    hide *;
    var name := list[j].name;
    var list', left := list[..j] + list[j + 1..], stale - {name};
    AgreeButParts(slots, list, stale);
    CutDistinct(list, j);
    RemoveStale(stale, name);
    forall i | 0 <= i < |slots| && slots[i].active
      ensures slots[i].name !in left && Lists(list', Entry(slots[i].name, slots[i].value))
    {
      var n := ListedAt(slots, list, stale, i);
      ListsAt(list', if n < j then n else n - 1);
    }
    forall i | 0 <= i < |list'| ensures list'[i].name in left || Keeps(slots, list'[i]) {
      var was := if i < j then i else i + 1;
      if list[was].name !in stale {
        var n := KeptAt(slots, list, stale, was);
        KeepsAt(slots, n);
      } else if list[was].name == name {
        SameEntry(list, was, j);
      }
    }
    forall m | m in left ensures Has(list', m) {
      var n := StaleAt(slots, list, stale, m);
      ListsAt(list', if n < j then n else n - 1);
    }
    TracksIs(slots, list', left);
    AgreeButIs(slots, list', left);
  }

  // ------------------------------------------------------------------ main results

  /** Unregistering a name that is only listed drops it; any other name leaves the two
      sides as near as they were. */
  lemma UnregisterTracks<V>(slots: seq<Slot<V>>, list: seq<Entry<V>>, stale: set<string>, name: string)
    requires AgreeBut(slots, list, stale)
    ensures AgreeBut(ClientUnregister(slots, name), DaemonRemove(list, name), stale - {name})
  {
    hide *;
    FoundInBoth(slots, list, stale, name);
    RemoveStale(stale, name);
    AgreeButParts(slots, list, stale);
    GoneFromSlots(slots, name);
    GoneFromList(list, name);
    if FindActive(slots, name) < |slots| {
      RemoveAgrees(slots, list, stale, FindActive(slots, name), FindEntry(list, name));
    } else if name in stale {
      StaleIsListed(slots, list, stale, name);
      DropAgrees(slots, list, stale, FindEntry(list, name));
    }
  }

  lemma GoneFromSlots<V>(slots: seq<Slot<V>>, name: string)
    ensures var k := FindActive(slots, name);
            && (k < |slots| ==> slots[k].active && slots[k].name == name
                                && ClientUnregister(slots, name) == slots[k := slots[k].(active := false)])
            && (k == |slots| ==> ClientUnregister(slots, name) == slots)
  {
    hide FindActive;
  }

  lemma GoneFromList<V>(list: seq<Entry<V>>, name: string)
    ensures var j := FindEntry(list, name);
            && (Has(list, name) ==> j < |list| && list[j].name == name
                                    && DaemonRemove(list, name) == list[..j] + list[j + 1..])
            && (!Has(list, name) ==> DaemonRemove(list, name) == list)
  {
    hide FindEntry;
  }

  /** Registering a name of at most 33 characters takes it up again if it was only listed,
      and keeps the two sides as near as they were, unless the list has no room for it. */
  lemma RegisterTracks<V>(slots: seq<Slot<V>>, list: seq<Entry<V>>, stale: set<string>, name: string, value: V)
    requires AgreeBut(slots, list, stale) && |name| <= NAME_MAX && |list| <= |slots|
    requires Has(list, name) || |list| < |slots| || stale == {}
    ensures AgreeBut(ClientRegister(slots, name, value), DaemonAdd(list, name, value, |slots|), stale - {name})
  {
    hide *;
    FoundInBoth(slots, list, stale, name);
    RemoveStale(stale, name);
    AgreeButParts(slots, list, stale);
    if FindActive(slots, name) < |slots| {
      KnownUnfolds(slots, list, name, value);
      ReplaceAgrees(slots, list, stale, FindActive(slots, name), FindEntry(list, name), value);
    } else if FindFree(slots) == |slots| {
      NoSlotFree(slots);
      FullUnfolds(slots, list, name, value);
    } else if name in stale {
      StaleIsListed(slots, list, stale, name);
      NewUnfolds(slots, list, name, value);
      AdoptAgrees(slots, list, stale, FindFree(slots), FindEntry(list, name), value);
    } else {
      NewUnfolds(slots, list, name, value);
      if |list| == |slots| { NoSlotFree(slots); }
      AddAgrees(slots, list, stale, FindFree(slots), name, value);
    }
  }

  lemma NoSlotFree<V>(slots: seq<Slot<V>>)
    ensures FindFree(slots) == |slots| <==> Used(slots) == |slots|
  {
    UsedFull(slots);
  }

  lemma KnownUnfolds<V>(slots: seq<Slot<V>>, list: seq<Entry<V>>, name: string, value: V)
    requires FindActive(slots, name) < |slots| && Has(list, name) && |name| <= NAME_MAX
    ensures var k, j := FindActive(slots, name), FindEntry(list, name);
            && j < |list| && slots[k].active && slots[k].name == list[j].name
            && ClientRegister(slots, name, value) == slots[k := Slot(true, slots[k].name, value)]
            && DaemonAdd(list, name, value, |slots|) == list[j := Entry(list[j].name, value)]
  {
  }

  lemma FullUnfolds<V>(slots: seq<Slot<V>>, list: seq<Entry<V>>, name: string, value: V)
    requires FindActive(slots, name) == |slots| == FindFree(slots) && |list| >= |slots| && !Has(list, name)
    ensures ClientRegister(slots, name, value) == slots && DaemonAdd(list, name, value, |slots|) == list
  {
  }

  lemma NewUnfolds<V>(slots: seq<Slot<V>>, list: seq<Entry<V>>, name: string, value: V)
    requires FindActive(slots, name) == |slots| > FindFree(slots) && |name| <= NAME_MAX
    ensures var k, j := FindFree(slots), FindEntry(list, name);
            && !slots[k].active
            && ClientRegister(slots, name, value) == slots[k := Slot(true, name, value)]
            && (Has(list, name) ==>
                  j < |list| && list[j].name == name
                  && DaemonAdd(list, name, value, |slots|) == list[j := Entry(name, value)])
            && (!Has(list, name) && |list| < |slots| ==>
                  DaemonAdd(list, name, value, |slots|) == list + [Entry(name, value)])
  {
  }

  /** When the list is full of names the client does not keep, a new name is registered in
      the table only. */
  lemma RegistrationIsLost<V>(slots: seq<Slot<V>>, list: seq<Entry<V>>, name: string, value: V, capacity: nat)
    requires FindFree(slots) < |slots| && |name| <= NAME_MAX && !Has(list, name) && |list| >= capacity
    ensures !Agree(ClientRegister(slots, name, value), DaemonAdd(list, name, value, capacity))
  {
    var k := Target(slots, name);
    var slots' := ClientRegister(slots, name, value);
    assert slots'[k].active && slots'[k].name == name;
    hide Distinct, DistinctList, Used;
    assert !Lists(list, Entry(slots'[k].name, slots'[k].value));
  }

  /** Unregistering keeps the two sides in agreement, whatever the name. */
  lemma UnregisterAgrees<V>(slots: seq<Slot<V>>, list: seq<Entry<V>>, name: string)
    requires Agree(slots, list)
    ensures Agree(ClientUnregister(slots, name), DaemonRemove(list, name))
  {
    hide *;
    AgreeBut0(slots, list);
    UnregisterTracks(slots, list, {}, name);
    assert {} - {name} == {};
    AgreeIsAgreeBut(ClientUnregister(slots, name), DaemonRemove(list, name), {});
  }

  /** Registering a name of at most 33 characters keeps them in agreement, also when both
      are full. */
  lemma RegisterAgrees<V>(slots: seq<Slot<V>>, list: seq<Entry<V>>, name: string, value: V)
    requires Agree(slots, list) && |name| <= NAME_MAX
    ensures Agree(ClientRegister(slots, name, value), DaemonAdd(list, name, value, |slots|))
  {
    ListFits(slots, list);
    hide *;
    AgreeBut0(slots, list);
    RegisterTracks(slots, list, {}, name, value);
    assert {} - {name} == {};
    AgreeIsAgreeBut(ClientRegister(slots, name, value), DaemonAdd(list, name, value, |slots|), {});
  }

  lemma ListFits<V>(slots: seq<Slot<V>>, list: seq<Entry<V>>)
    requires Agree(slots, list)
    ensures Used(slots) == |list| <= |slots|
  {
    hide Distinct, DistinctList, SameContents;
  }

  /** Whether the daemon, reading cut and got for a name that is not in the table and for
      its value, still lists what the client keeps. */
  predicate MisreadSafe<V(==)>(slots: seq<Slot<V>>, name: string, value: V, cut: string, got: V) {
    var k := FindActive(slots, cut);
    if FindFree(slots) < |slots| then Clip(name, NAME_MAX) == cut && got == value && k == |slots|
    else k == |slots| || slots[k].value == got
  }

  lemma MisreadAgrees<V>(slots: seq<Slot<V>>, list: seq<Entry<V>>, name: string, value: V, cut: string, got: V)
    requires Agree(slots, list) && FindActive(slots, name) == |slots| && |cut| <= NAME_MAX
    ensures Agree(ClientRegister(slots, name, value), DaemonAdd(list, cut, got, |slots|)) <==>
            MisreadSafe(slots, name, value, cut, got)
  {
    hide *;
    AgreeBut0(slots, list);
    FoundInBoth(slots, list, {}, cut);
    HasIs(list, cut);
    ListFits(slots, list);
    if FindFree(slots) < |slots| {
      MisreadNew(slots, list, name, value, cut, got);
    } else {
      MisreadFull(slots, list, name, value, cut, got);
    }
  }

  /** Another value for a listed name, and the table as it is. */
  lemma OtherValue<V>(slots: seq<Slot<V>>, list: seq<Entry<V>>, j: nat, got: V)
    requires Agree(slots, list) && j < |list|
    ensures Agree(slots, list[j := Entry(list[j].name, got)]) <==> list[j].value == got
  {
    hide Distinct, DistinctList, Lists, Used, FindActive;
    var list' := list[j := Entry(list[j].name, got)];
    if list[j].value == got {
      assert list' == list;
    } else {
      assert Keeps(slots, list[j]);
      assert !Keeps(slots, list'[j]);
    }
  }

  lemma FullIsUsed<V>(slots: seq<Slot<V>>)
    requires FindFree(slots) == |slots|
    ensures Used(slots) == |slots|
  {
    UsedFull(slots);
    hide Used;
  }

  /** Nothing is registered in a full table, and nothing new in a full list. */
  lemma FullRegister<V>(slots: seq<Slot<V>>, list: seq<Entry<V>>, name: string, value: V, cut: string, got: V)
    requires FindActive(slots, name) == |slots| == FindFree(slots) == |list|
    ensures ClientRegister(slots, name, value) == slots
    ensures var j := FindEntry(list, cut);
            DaemonAdd(list, cut, got, |slots|) == if j < |list| then list[j := Entry(list[j].name, got)] else list
  {
    hide FindActive, FindFree, FindEntry;
  }

  lemma MisreadFullIs<V>(slots: seq<Slot<V>>, name: string, value: V, cut: string, got: V)
    requires FindFree(slots) == |slots|
    ensures var k := FindActive(slots, cut);
            MisreadSafe(slots, name, value, cut, got) <==> k == |slots| || slots[k].value == got
  {
    hide FindActive, FindFree;
  }

  lemma MisreadFull<V>(slots: seq<Slot<V>>, list: seq<Entry<V>>, name: string, value: V, cut: string, got: V)
    requires Agree(slots, list) && FindActive(slots, name) == |slots| == FindFree(slots)
    requires FindActive(slots, cut) < |slots| <==> FindEntry(list, cut) < |list|
    requires FindEntry(list, cut) < |list| ==> slots[FindActive(slots, cut)].value == list[FindEntry(list, cut)].value
    ensures Agree(ClientRegister(slots, name, value), DaemonAdd(list, cut, got, |slots|)) <==>
            MisreadSafe(slots, name, value, cut, got)
  {
    hide *;
    FullIsUsed(slots);
    ListFits(slots, list);
    FullRegister(slots, list, name, value, cut, got);
    MisreadFullIs(slots, name, value, cut, got);
    if FindEntry(list, cut) < |list| { OtherValue(slots, list, FindEntry(list, cut), got); }
  }

  lemma HasIs<V>(list: seq<Entry<V>>, name: string)
    ensures Has(list, name) <==> FindEntry(list, name) < |list|
  {
  }

  lemma MisreadNew<V>(slots: seq<Slot<V>>, list: seq<Entry<V>>, name: string, value: V, cut: string, got: V)
    requires Agree(slots, list) && FindActive(slots, name) == |slots| > FindFree(slots) && |cut| <= NAME_MAX
    ensures Agree(ClientRegister(slots, name, value), DaemonAdd(list, cut, got, |slots|)) <==>
            MisreadSafe(slots, name, value, cut, got)
  {
    var f, kept := FindFree(slots), Clip(name, NAME_MAX);
    var slots', list' := slots[f := Slot(true, kept, value)], DaemonAdd(list, cut, got, |slots|);
    assert ClientRegister(slots, name, value) == slots';
    assert MisreadSafe(slots, name, value, cut, got) <==>
           kept == cut && got == value && FindActive(slots, cut) == |slots|;
    assert Clip(kept, NAME_MAX) == kept;
    if FindActive(slots, kept) < |slots| {
      TwiceIsNotDistinct(slots, f, kept, value);
    } else if kept == cut && got == value {
      hide *;
      RegisterAgrees(slots, list, kept, value);
      SameTarget(slots, kept, value);
    } else {
      hide *;
      MisreadDiffers(slots, list, f, kept, value, cut, got);
    }
  }

  lemma SameTarget<V>(slots: seq<Slot<V>>, kept: string, value: V)
    requires FindActive(slots, kept) == |slots| > FindFree(slots) && |kept| <= NAME_MAX
    ensures ClientRegister(slots, kept, value) == slots[FindFree(slots) := Slot(true, kept, value)]
  {
  }

  lemma TwiceIsNotDistinct<V>(slots: seq<Slot<V>>, f: nat, name: string, value: V)
    requires f < |slots| && !slots[f].active && FindActive(slots, name) < |slots|
    ensures !Distinct(slots[f := Slot(true, name, value)])
  {
    var k, slots' := FindActive(slots, name), slots[f := Slot(true, name, value)];
    assert slots'[k].active && slots'[f].active && slots'[k].name == slots'[f].name && k != f;
    if k < f { assert slots'[k].name == slots'[f].name; }
  }

  /** A name that is not listed, or is listed with another value, is not agreed on. */
  lemma MisreadDiffers<V>(slots: seq<Slot<V>>, list: seq<Entry<V>>, f: nat, kept: string, value: V, cut: string, got: V)
    requires Agree(slots, list) && f < |slots| && !slots[f].active && FindActive(slots, kept) == |slots|
    requires |cut| <= NAME_MAX && (kept != cut || got != value)
    ensures !Agree(slots[f := Slot(true, kept, value)], DaemonAdd(list, cut, got, |slots|))
  {
    var slots', list' := slots[f := Slot(true, kept, value)], DaemonAdd(list, cut, got, |slots|);
    hide *;
    AgreeBut0(slots, list);
    FoundInBoth(slots, list, {}, kept);
    AddedEntries(list, cut, got, |slots|, kept);
    ShortClip(cut);
    if Agree(slots', list') {
      KeptIsListed(slots', list', f);
    }
  }

  lemma ShortClip(s: string)
    requires |s| <= NAME_MAX
    ensures Clip(s, NAME_MAX) == s
  {
  }

  lemma KeptIsListed<V>(slots: seq<Slot<V>>, list: seq<Entry<V>>, f: nat)
    requires Agree(slots, list) && f < |slots| && slots[f].active
    ensures Has(list, slots[f].name) && list[FindEntry(list, slots[f].name)].value == slots[f].value
  {
    hide FindEntry, Distinct, DistinctList, Keeps, Used;
    assert Lists(list, Entry(slots[f].name, slots[f].value));
  }

  lemma AddedEntries<V>(list: seq<Entry<V>>, cut: string, got: V, capacity: nat, name: string)
    requires !Has(list, name)
    ensures var list' := DaemonAdd(list, cut, got, capacity);
            Has(list', name) ==> list'[FindEntry(list', name)].value == got && Clip(cut, NAME_MAX) == name
  {
  }

  /** A longer name is cut on both sides, but the client looks it up uncut: registering
      it keeps the agreement exactly when its first 33 characters are not yet registered,
      or the table is full and they are registered with this value. */
  lemma LongNameAgrees<V>(slots: seq<Slot<V>>, list: seq<Entry<V>>, name: string, value: V)
    requires Agree(slots, list) && |name| > NAME_MAX
    requires forall k :: 0 <= k < |slots| && slots[k].active ==> |slots[k].name| <= NAME_MAX
    ensures var cut := Clip(name, NAME_MAX);
            Agree(ClientRegister(slots, name, value), DaemonAdd(list, cut, value, |slots|)) <==>
            (FindActive(slots, cut) == |slots|
             || (FindFree(slots) == |slots| && slots[FindActive(slots, cut)].value == value))
  {
    MisreadAgrees(slots, list, name, value, Clip(name, NAME_MAX), value);
  }

  /** An input: a name of 34 characters registered twice leaves two slots under its first
      33, next to one entry. */
  lemma LongNameTwice(slots: seq<Slot<int>>, name: string)
    requires |slots| >= 2 && |name| == NAME_MAX + 1
    requires forall k :: 0 <= k < |slots| ==> !slots[k].active
    ensures var cut := Clip(name, NAME_MAX);
            var once, listed := ClientRegister(slots, name, 1), DaemonAdd([], cut, 1, |slots|);
            && Agree(once, listed)
            && !Agree(ClientRegister(once, name, 1), DaemonAdd(listed, cut, 1, |slots|))
  {
    var cut := Clip(name, NAME_MAX);
    var once := ClientRegister(slots, name, 1);
    FreshAgree(slots);
    FirstFree(slots, 0);
    FirstActive(slots, name, |slots|);
    FirstActive(slots, cut, |slots|);
    LongNameAgrees(slots, [], name, 1);
    assert once == slots[0 := Slot(true, cut, 1)];
    FirstFree(once, 1);
    FirstActive(once, cut, 0);
    hide Agree;
    LongNameAgrees(once, DaemonAdd([], cut, 1, |slots|), name, 1);
  }
}
