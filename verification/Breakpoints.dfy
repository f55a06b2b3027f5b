/** The breakpoint table of the remote debugger (`debugger.c`) and the code words
    it patches, over byte-addressed memory. */
module Breakpoints {
  import opened Bytes

  const MAX_BREAKPOINTS: nat := 32

  datatype Word = Word(hi: byte, lo: byte)

  const TRAP15 := Word(0x4E, 0x4F)

  /** The bytes of RAM; TypeOfMem is membership. */
  type Memory = map<nat, byte>

  /** RAM comes in regions that start and end on even addresses. */
  ghost predicate EvenRegions(mem: Memory) {
    forall a :: a in mem && a % 2 == 0 ==> a + 1 in mem
  }

  function ReadWord(mem: Memory, a: nat): Word
    requires a in mem && a + 1 in mem
  {
    Word(mem[a], mem[a + 1])
  }

  function WriteWord(mem: Memory, a: nat, w: Word): Memory {
    mem[a := w.hi][a + 1 := w.lo]
  }

  datatype Breakpoint = Breakpoint(address: nat, original: Word, enabled: bool, temporary: bool, used: bool)

  const Unused := Breakpoint(0, Word(0, 0), false, false, false)

  /** bp_table after a memset. */
  function EmptyTable(): (table: seq<Breakpoint>)
    ensures |table| == MAX_BREAKPOINTS && forall i :: 0 <= i < |table| ==> table[i] == Unused
  {
    seq(MAX_BREAKPOINTS, _ => Unused)
  }

  datatype Image = Image(mem: Memory, table: seq<Breakpoint>)

  /** dbg_find_bp_by_addr from entry `i`; |table| for -1. */
  function FindByAddr(table: seq<Breakpoint>, address: nat, i: nat): (r: nat)
    requires i <= |table|
    ensures i <= r <= |table|
    ensures r < |table| ==> table[r].used && table[r].address == address
    ensures forall k :: i <= k < r ==> !(table[k].used && table[k].address == address)
    decreases |table| - i
  {
    if i == |table| || (table[i].used && table[i].address == address) then i
    else FindByAddr(table, address, i + 1)
  }

  /** dbg_find_free_bp from entry `i`; |table| for -1. */
  function FindFree(table: seq<Breakpoint>, i: nat): (r: nat)
    requires i <= |table|
    ensures i <= r <= |table|
    ensures r < |table| ==> !table[r].used
    ensures forall k :: i <= k < r ==> table[k].used
    decreases |table| - i
  {
    if i == |table| || !table[i].used then i else FindFree(table, i + 1)
  }

  function UsedCount(table: seq<Breakpoint>): nat {
    if table == [] then 0 else UsedCount(table[1..]) + if table[0].used then 1 else 0
  }

  /** dbg_patch_bp */
  function Patch(im: Image, i: nat): Image
    requires i < |im.table|
  {
    var b := im.table[i];
    if !b.used || b.enabled then im
    else Image(WriteWord(im.mem, b.address, TRAP15), im.table[i := b.(enabled := true)])
  }

  /** dbg_unpatch_bp */
  function Unpatch(im: Image, i: nat): Image
    requires i < |im.table|
  {
    var b := im.table[i];
    if !b.used || !b.enabled then im
    else Image(WriteWord(im.mem, b.address, b.original), im.table[i := b.(enabled := false)])
  }

  /** dbg_unpatch_all from entry `i` on. */
  function UnpatchFrom(im: Image, i: nat): Image
    requires i <= |im.table|
    decreases |im.table| - i
  {
    if i == |im.table| then im else UnpatchFrom(Unpatch(im, i), i + 1)
  }

  /** The loop body of dbg_repatch_all: it writes even where `enabled` is set. */
  function Rearm(im: Image, i: nat): Image
    requires i < |im.table|
  {
    var b := im.table[i];
    if b.used && !b.temporary then
      Image(WriteWord(im.mem, b.address, TRAP15), im.table[i := b.(enabled := true)])
    else im
  }

  /** dbg_repatch_all from entry `i` on. */
  function RearmFrom(im: Image, i: nat): Image
    requires i <= |im.table|
    decreases |im.table| - i
  {
    if i == |im.table| then im else RearmFrom(Rearm(im, i), i + 1)
  }

  /** The loop that clears `used` in every entry. */
  function ClearUsed(table: seq<Breakpoint>): (r: seq<Breakpoint>)
    ensures |r| == |table|
    ensures forall i :: 0 <= i < |table| ==> r[i] == table[i].(used := false)
  {
    if table == [] then [] else [table[0].(used := false)] + ClearUsed(table[1..])
  }

  // ---------------------------------------------------------------- invariant

  /** Used entries have distinct even addresses in RAM, none is temporary, and
      each remembers the word of the pristine image. */
  ghost predicate TableOk(table: seq<Breakpoint>, pristine: Memory) {
    && |table| == MAX_BREAKPOINTS
    && (forall i :: 0 <= i < |table| && table[i].used ==>
         && table[i].address % 2 == 0 && table[i].address in pristine && !table[i].temporary
         && table[i].address + 1 in pristine
         && table[i].original == ReadWord(pristine, table[i].address))
    && (forall i :: 0 <= i < |table| && table[i].enabled ==> table[i].used)
    && (forall i, j :: 0 <= i < j < |table| && table[i].used && table[j].used ==>
         table[i].address != table[j].address)
  }

  /** `a` is one of the two bytes of entry `b`. */
  predicate Covers(b: Breakpoint, a: nat) {
    a == b.address || a == b.address + 1
  }

  /** Enabled entries hold TRAP #15. */
  ghost predicate Armed(im: Image, pristine: Memory) {
    forall i :: 0 <= i < |im.table| && im.table[i].enabled ==>
      && im.table[i].address in im.mem && im.table[i].address + 1 in im.mem
      && ReadWord(im.mem, im.table[i].address) == TRAP15
  }

  ghost predicate Untouched(table: seq<Breakpoint>, a: nat) {
    forall i :: 0 <= i < |table| && table[i].enabled ==> !Covers(table[i], a)
  }

  /** Bytes under no enabled entry are pristine. */
  ghost predicate ElsewherePristine(im: Image, pristine: Memory) {
    forall a :: a in pristine && Untouched(im.table, a) ==> a in im.mem && im.mem[a] == pristine[a]
  }

  /** Memory is the pristine image with TRAP #15 over the enabled entries. */
  ghost predicate ImageOk(im: Image, pristine: Memory) {
    && EvenRegions(pristine)
    && TableOk(im.table, pristine)
    && im.mem.Keys == pristine.Keys
    && Armed(im, pristine)
    && ElsewherePristine(im, pristine)
  }

  lemma WordWritten(mem: Memory, a: nat, w: Word)
    requires a in mem && a + 1 in mem
    ensures WriteWord(mem, a, w).Keys == mem.Keys
    ensures ReadWord(WriteWord(mem, a, w), a) == w
    ensures forall b :: b in mem && b != a && b != a + 1 ==> WriteWord(mem, a, w)[b] == mem[b]
  {
  }

  /** Distinct even addresses make the words of two entries disjoint. */
  lemma EntriesDisjoint(table: seq<Breakpoint>, pristine: Memory, i: nat, j: nat)
    requires TableOk(table, pristine) && i < |table| && j < |table| && i != j && table[i].used && table[j].used
    ensures !Covers(table[i], table[j].address) && !Covers(table[i], table[j].address + 1)
  {
    if i < j { assert table[i].address != table[j].address; } else { assert table[j].address != table[i].address; }
    assert table[i].address % 2 == 0 && table[j].address % 2 == 0;
  }

  lemma SetEnabledKeepsTable(table: seq<Breakpoint>, pristine: Memory, i: nat, on: bool)
    requires TableOk(table, pristine) && i < |table| && table[i].used
    ensures TableOk(table[i := table[i].(enabled := on)], pristine)
  {
  }

  lemma OtherWordStays(mem: Memory, a: nat, w: Word, c: nat)
    requires a in mem && a + 1 in mem && c in mem && c + 1 in mem
    requires c != a && c != a + 1 && c + 1 != a
    ensures c in WriteWord(mem, a, w) && c + 1 in WriteWord(mem, a, w)
    ensures ReadWord(WriteWord(mem, a, w), c) == ReadWord(mem, c)
  {
  }

  lemma EntryIsArmed(im: Image, pristine: Memory, i: nat, j: nat)
    requires ImageOk(im, pristine) && i < |im.table| && j < |im.table|
    requires im.table[i].used && (i == j || im.table[j].enabled)
    ensures var mem := WriteWord(im.mem, im.table[i].address, TRAP15);
            && im.table[j].address in mem && im.table[j].address + 1 in mem
            && ReadWord(mem, im.table[j].address) == TRAP15
  {
    hide WriteWord, ReadWord, ElsewherePristine;
    if i == j {
      WordWritten(im.mem, im.table[i].address, TRAP15);
    } else {
      EntriesDisjoint(im.table, pristine, i, j);
      OtherWordStays(im.mem, im.table[i].address, TRAP15, im.table[j].address);
    }
  }

  lemma ArmKeepsArmed(im: Image, pristine: Memory, i: nat)
    requires ImageOk(im, pristine) && i < |im.table| && im.table[i].used
    ensures var b := im.table[i];
            Armed(Image(WriteWord(im.mem, b.address, TRAP15), im.table[i := b.(enabled := true)]), pristine)
  {
    hide WriteWord, ReadWord, ImageOk;
    forall j | 0 <= j < |im.table| && (j == i || im.table[j].enabled)
      ensures var mem := WriteWord(im.mem, im.table[i].address, TRAP15);
              && im.table[j].address in mem && im.table[j].address + 1 in mem
              && ReadWord(mem, im.table[j].address) == TRAP15
    {
      EntryIsArmed(im, pristine, i, j);
    }
  }

  lemma ArmKeepsElsewhere(im: Image, pristine: Memory, i: nat)
    requires ImageOk(im, pristine) && i < |im.table| && im.table[i].used
    ensures var b := im.table[i];
            ElsewherePristine(Image(WriteWord(im.mem, b.address, TRAP15), im.table[i := b.(enabled := true)]), pristine)
  {
    var b := im.table[i];
    var t := Image(WriteWord(im.mem, b.address, TRAP15), im.table[i := b.(enabled := true)]);
    WordWritten(im.mem, b.address, TRAP15);
    hide WriteWord, Armed;
    forall a | a in pristine && Untouched(t.table, a) ensures a in t.mem && t.mem[a] == pristine[a] {
      assert !Covers(t.table[i], a);
      forall j | 0 <= j < |im.table| && im.table[j].enabled ensures !Covers(im.table[j], a) {
        assert t.table[j].enabled;
      }
    }
  }

  /** Writing TRAP #15 over entry `i` and enabling it, whatever it held before. */
  lemma ArmKeeps(im: Image, pristine: Memory, i: nat)
    requires ImageOk(im, pristine) && i < |im.table| && im.table[i].used
    ensures var b := im.table[i];
            ImageOk(Image(WriteWord(im.mem, b.address, TRAP15), im.table[i := b.(enabled := true)]), pristine)
  {
    hide Armed, ElsewherePristine, EvenRegions;
    WordWritten(im.mem, im.table[i].address, TRAP15);
    SetEnabledKeepsTable(im.table, pristine, i, true);
    ArmKeepsArmed(im, pristine, i);
    ArmKeepsElsewhere(im, pristine, i);
  }

  /** Restoring the saved word of an enabled entry. */
  function Disarmed(im: Image, i: nat): Image
    requires i < |im.table|
  {
    Image(WriteWord(im.mem, im.table[i].address, im.table[i].original),
          im.table[i := im.table[i].(enabled := false)])
  }

  lemma DisarmKeepsOthersArmed(im: Image, pristine: Memory, i: nat)
    requires ImageOk(im, pristine) && i < |im.table| && im.table[i].enabled
    ensures Armed(Disarmed(im, i), pristine)
  {
    var t := Disarmed(im, i);
    WordWritten(im.mem, im.table[i].address, im.table[i].original);
    forall j | 0 <= j < |t.table| && t.table[j].enabled
      ensures t.table[j].address in t.mem && t.table[j].address + 1 in t.mem
      ensures ReadWord(t.mem, t.table[j].address) == TRAP15
    {
      EntriesDisjoint(im.table, pristine, i, j);
    }
  }

  /** Writing an entry's saved word sets exactly its two bytes, to the pristine ones. */
  lemma OriginalWritten(mem: Memory, table: seq<Breakpoint>, pristine: Memory, i: nat, a: nat)
    requires TableOk(table, pristine) && i < |table| && table[i].used && mem.Keys == pristine.Keys && a in pristine
    ensures var t := WriteWord(mem, table[i].address, table[i].original);
            t.Keys == pristine.Keys && t[a] == if Covers(table[i], a) then pristine[a] else mem[a]
  {
  }

  lemma DisarmRestores(im: Image, pristine: Memory, i: nat)
    requires ImageOk(im, pristine) && i < |im.table| && im.table[i].enabled
    ensures ElsewherePristine(Disarmed(im, i), pristine)
  {
    var t := Disarmed(im, i);
    forall a | a in pristine && Untouched(t.table, a) ensures a in t.mem && t.mem[a] == pristine[a] {
      OriginalWritten(im.mem, im.table, pristine, i, a);
      hide TableOk, Armed, WriteWord;
      if !Covers(im.table[i], a) {
        forall j | 0 <= j < |im.table| && im.table[j].enabled ensures !Covers(im.table[j], a) {
          assert j != i ==> t.table[j].enabled;
        }
        assert Untouched(im.table, a);
      }
    }
  }

  lemma UnpatchKeeps(im: Image, pristine: Memory, i: nat)
    requires ImageOk(im, pristine) && i < |im.table|
    ensures ImageOk(Unpatch(im, i), pristine)
  {
    hide Armed, ElsewherePristine;
    if im.table[i].enabled {
      DisarmKeepsOthersArmed(im, pristine, i);
      DisarmRestores(im, pristine, i);
      SetEnabledKeepsTable(im.table, pristine, i, false);
      WordWritten(im.mem, im.table[i].address, im.table[i].original);
    }
  }

  /** What repeated (un)patching leaves alone. */
  predicate SameEntry(b: Breakpoint, c: Breakpoint) {
    b.address == c.address && b.original == c.original && b.temporary == c.temporary && b.used == c.used
  }

  ghost predicate SameEntries(table: seq<Breakpoint>, other: seq<Breakpoint>) {
    |table| == |other| && forall i :: 0 <= i < |table| ==> SameEntry(table[i], other[i])
  }

  lemma {:induction false} UnpatchFromKeeps(im: Image, pristine: Memory, i: nat)
    requires ImageOk(im, pristine) && i <= |im.table|
    ensures ImageOk(UnpatchFrom(im, i), pristine)
    decreases |im.table| - i
  {
    hide ImageOk;
    if i < |im.table| {
      UnpatchKeeps(im, pristine, i);
      UnpatchFromKeeps(Unpatch(im, i), pristine, i + 1);
    }
  }

  lemma {:induction false} UnpatchFromEntries(im: Image, i: nat)
    requires i <= |im.table|
    requires forall j :: 0 <= j < |im.table| && im.table[j].enabled ==> im.table[j].used
    requires forall j :: 0 <= j < i ==> !im.table[j].enabled
    ensures SameEntries(im.table, UnpatchFrom(im, i).table)
    ensures forall j :: 0 <= j < |im.table| ==> !UnpatchFrom(im, i).table[j].enabled
    decreases |im.table| - i
  {
    if i < |im.table| {
      var t := Unpatch(im, i);
      assert SameEntries(im.table, t.table);
      UnpatchFromEntries(t, i + 1);
    }
  }

  lemma {:induction false} RearmFromKeeps(im: Image, pristine: Memory, i: nat)
    requires ImageOk(im, pristine) && i <= |im.table|
    ensures ImageOk(RearmFrom(im, i), pristine)
    decreases |im.table| - i
  {
    hide ImageOk;
    if i < |im.table| {
      if im.table[i].used { ArmKeeps(im, pristine, i); }
      RearmFromKeeps(Rearm(im, i), pristine, i + 1);
    }
  }

  lemma {:induction false} RearmFromEntries(im: Image, i: nat)
    requires i <= |im.table|
    requires forall j :: 0 <= j < |im.table| && im.table[j].used ==> !im.table[j].temporary
    requires forall j :: 0 <= j < i && im.table[j].used ==> im.table[j].enabled
    ensures SameEntries(im.table, RearmFrom(im, i).table)
    ensures forall j :: 0 <= j < |im.table| && im.table[j].used ==> RearmFrom(im, i).table[j].enabled
    decreases |im.table| - i
  {
    if i < |im.table| {
      var t := Rearm(im, i);
      assert SameEntries(im.table, t.table);
      RearmFromEntries(t, i + 1);
      assert forall j :: 0 <= j < |im.table| ==> SameEntry(im.table[j], t.table[j]);
    }
  }

  /** With no entry enabled, memory is exactly the pristine image. */
  lemma NothingEnabledIsPristine(im: Image, pristine: Memory)
    requires ImageOk(im, pristine) && forall j :: 0 <= j < |im.table| ==> !im.table[j].enabled
    ensures im.mem == pristine
  {
    forall a | a in pristine ensures im.mem[a] == pristine[a] {
      assert Untouched(im.table, a);
    }
  }

  /** Writing the saved words back over the enabled entries from `i` on. */
  function Restored(mem: Memory, table: seq<Breakpoint>, i: nat): Memory
    requires i <= |table|
    decreases |table| - i
  {
    if i == |table| then mem
    else if table[i].enabled then WriteWord(Restored(mem, table, i + 1), table[i].address, table[i].original)
    else Restored(mem, table, i + 1)
  }

  lemma {:induction false} RestoredKeys(mem: Memory, table: seq<Breakpoint>, pristine: Memory, i: nat)
    requires TableOk(table, pristine) && mem.Keys == pristine.Keys && i <= |table|
    ensures Restored(mem, table, i).Keys == pristine.Keys
    decreases |table| - i
  {
    if i < |table| {
      RestoredKeys(mem, table, pristine, i + 1);
      if table[i].enabled { WordWritten(Restored(mem, table, i + 1), table[i].address, table[i].original); }
    }
  }

  lemma {:induction false} RestoredByte(mem: Memory, table: seq<Breakpoint>, pristine: Memory, i: nat, a: nat)
    requires TableOk(table, pristine) && mem.Keys == pristine.Keys && i <= |table| && a in pristine
    ensures Restored(mem, table, i).Keys == pristine.Keys
    ensures Restored(mem, table, i)[a] == pristine[a]
            || (Restored(mem, table, i)[a] == mem[a]
                && forall j :: i <= j < |table| && table[j].enabled ==> !Covers(table[j], a))
    decreases |table| - i
  {
    RestoredKeys(mem, table, pristine, i);
    if i < |table| {
      RestoredByte(mem, table, pristine, i + 1, a);
      if table[i].enabled { OriginalWritten(Restored(mem, table, i + 1), table, pristine, i, a); }
    }
  }

  /** Patch integrity: the saved originals over the enabled entries give back the
      pristine code image. */
  lemma RestoredIsPristine(im: Image, pristine: Memory)
    requires ImageOk(im, pristine)
    ensures Restored(im.mem, im.table, 0) == pristine
  {
    RestoredKeys(im.mem, im.table, pristine, 0);
    var r := Restored(im.mem, im.table, 0);
    forall a | a in pristine ensures r[a] == pristine[a] {
      RestoredByte(im.mem, im.table, pristine, 0, a);
      assert r[a] == pristine[a] || Untouched(im.table, a);
    }
  }

  /** A used but disabled entry sits over its pristine word. */
  lemma DisabledHoldsPristine(im: Image, pristine: Memory, i: nat)
    requires ImageOk(im, pristine) && i < |im.table| && im.table[i].used && !im.table[i].enabled
    ensures im.table[i].address in im.mem && im.table[i].address + 1 in im.mem
    ensures ReadWord(im.mem, im.table[i].address) == im.table[i].original == ReadWord(pristine, im.table[i].address)
  {
    var a := im.table[i].address;
    forall j | 0 <= j < |im.table| && im.table[j].enabled
      ensures !Covers(im.table[j], a) && !Covers(im.table[j], a + 1)
    {
      EntriesDisjoint(im.table, pristine, j, i);
    }
    assert Untouched(im.table, a) && Untouched(im.table, a + 1);
  }

  lemma EvenWordsDisjoint(a: nat, b: nat)
    requires a % 2 == 0 && b % 2 == 0 && a != b
    ensures b != a + 1 && b + 1 != a
  {
  }

  /** An even address that no used entry has still holds its pristine word. */
  lemma UnlistedHoldsPristine(im: Image, pristine: Memory, a: nat)
    requires ImageOk(im, pristine) && a in im.mem && a % 2 == 0
    requires forall i :: 0 <= i < |im.table| && im.table[i].enabled ==> im.table[i].address != a
    ensures a + 1 in im.mem && ReadWord(im.mem, a) == ReadWord(pristine, a)
  {
    assert a + 1 in pristine;
    forall j | 0 <= j < |im.table| && im.table[j].enabled
      ensures !Covers(im.table[j], a) && !Covers(im.table[j], a + 1)
    {
      EvenWordsDisjoint(im.table[j].address, a);
    }
    assert Untouched(im.table, a) && Untouched(im.table, a + 1);
  }

  /** BPSET reads the word it will save from memory, not from the pristine image. */
  lemma NewEntryKeeps(im: Image, pristine: Memory, i: nat, address: nat)
    requires ImageOk(im, pristine) && i < |im.table| && !im.table[i].used
    requires address in im.mem && address % 2 == 0 && address + 1 in im.mem
    requires FindByAddr(im.table, address, 0) == |im.table|
    ensures ImageOk(im.(table := im.table[i := Breakpoint(address, ReadWord(im.mem, address), false, false, true)]),
                    pristine)
  {
    UnlistedHoldsPristine(im, pristine, address);
    NewEntryFits(im.table, pristine, i, address);
    var table := im.table[i := Breakpoint(address, ReadWord(im.mem, address), false, false, true)];
    SameEnabled(im, pristine, table);
    hide ImageOk, TableOk, FindByAddr;
  }

  lemma NewEntryFits(table: seq<Breakpoint>, pristine: Memory, i: nat, address: nat)
    requires TableOk(table, pristine) && i < |table| && !table[i].used
    requires address in pristine && address % 2 == 0 && address + 1 in pristine
    requires FindByAddr(table, address, 0) == |table|
    ensures TableOk(table[i := Breakpoint(address, ReadWord(pristine, address), false, false, true)], pristine)
  {
    assert forall j :: 0 <= j < |table| && table[j].used ==> table[j].address != address;
    hide FindByAddr, ReadWord;
  }

  /** Image facts depend on the entries only through the enabled ones. */
  lemma SameEnabled(im: Image, pristine: Memory, table: seq<Breakpoint>)
    requires ImageOk(im, pristine) && TableOk(table, pristine)
    requires forall i :: 0 <= i < |table| ==> table[i].enabled == im.table[i].enabled
    requires forall i :: 0 <= i < |table| && table[i].enabled ==> table[i] == im.table[i]
    ensures ImageOk(im.(table := table), pristine)
  {
    forall a | a in pristine && Untouched(table, a) ensures Untouched(im.table, a) {
      forall i | 0 <= i < |im.table| && im.table[i].enabled ensures !Covers(im.table[i], a) {
        assert table[i].enabled;
      }
    }
  }

  lemma RemoveEntryKeeps(im: Image, pristine: Memory, i: nat)
    requires ImageOk(im, pristine) && i < |im.table| && !im.table[i].enabled
    ensures ImageOk(im.(table := im.table[i := im.table[i].(used := false)]), pristine)
  {
    SameEnabled(im, pristine, im.table[i := im.table[i].(used := false)]);
  }

  lemma ClearUsedKeeps(im: Image, pristine: Memory)
    requires ImageOk(im, pristine) && forall j :: 0 <= j < |im.table| ==> !im.table[j].enabled
    ensures ImageOk(im.(table := ClearUsed(im.table)), pristine)
  {
    SameEnabled(im, pristine, ClearUsed(im.table));
  }

  /** The target writes to memory, but not over code under a breakpoint. */
  lemma WritesKeep(im: Image, pristine: Memory, writes: Memory)
    requires ImageOk(im, pristine) && writes.Keys <= pristine.Keys
    requires forall a, i :: a in writes && 0 <= i < |im.table| && im.table[i].used ==> !Covers(im.table[i], a)
    ensures ImageOk(im.(mem := im.mem + writes), pristine + writes)
  {
    EntryKeepsWords(im, pristine, writes);
    WritesKeepTable(im.table, pristine, writes);
    WritesKeepElsewhere(im, pristine, writes);
    assert (pristine + writes).Keys == pristine.Keys && (im.mem + writes).Keys == im.mem.Keys;
    WritesKeepArmed(im, pristine, writes);
    hide TableOk, Armed, ElsewherePristine;
  }

  lemma WritesKeepTable(table: seq<Breakpoint>, pristine: Memory, writes: Memory)
    requires TableOk(table, pristine) && writes.Keys <= pristine.Keys
    requires forall i :: 0 <= i < |table| && table[i].used ==>
               ReadWord(pristine + writes, table[i].address) == ReadWord(pristine, table[i].address)
    ensures TableOk(table, pristine + writes)
  {
    hide ReadWord, UsedCount;
  }

  lemma WritesKeepArmed(im: Image, pristine: Memory, writes: Memory)
    requires TableOk(im.table, pristine) && Armed(im, pristine) && im.mem.Keys == pristine.Keys
    requires forall i :: 0 <= i < |im.table| && im.table[i].used ==>
               ReadWord(im.mem + writes, im.table[i].address) == ReadWord(im.mem, im.table[i].address)
    ensures Armed(im.(mem := im.mem + writes), pristine + writes)
  {
    assert forall i :: 0 <= i < |im.table| && im.table[i].enabled ==> im.table[i].used;
    hide TableOk, ReadWord;
  }

  lemma WritesKeepElsewhere(im: Image, pristine: Memory, writes: Memory)
    requires ElsewherePristine(im, pristine) && im.mem.Keys == pristine.Keys && writes.Keys <= pristine.Keys
    ensures ElsewherePristine(im.(mem := im.mem + writes), pristine + writes)
  {
    hide Untouched;
  }

  /** The words of used entries are not written. */
  lemma EntryKeepsWords(im: Image, pristine: Memory, writes: Memory)
    requires TableOk(im.table, pristine) && im.mem.Keys == pristine.Keys && writes.Keys <= pristine.Keys
    requires forall a, i :: a in writes && 0 <= i < |im.table| && im.table[i].used ==> !Covers(im.table[i], a)
    ensures forall i :: 0 <= i < |im.table| && im.table[i].used ==>
              && ReadWord(pristine + writes, im.table[i].address) == ReadWord(pristine, im.table[i].address)
              && ReadWord(im.mem + writes, im.table[i].address) == ReadWord(im.mem, im.table[i].address)
  {
    forall i | 0 <= i < |im.table| && im.table[i].used
      ensures ReadWord(pristine + writes, im.table[i].address) == ReadWord(pristine, im.table[i].address)
      ensures ReadWord(im.mem + writes, im.table[i].address) == ReadWord(im.mem, im.table[i].address)
    {
      assert Covers(im.table[i], im.table[i].address) && Covers(im.table[i], im.table[i].address + 1);
    }
  }

  // Counting used entries

  lemma {:induction false} UsedCountUpdate(table: seq<Breakpoint>, i: nat, b: Breakpoint)
    requires i < |table|
    ensures UsedCount(table[i := b]) + (if table[i].used then 1 else 0)
            == UsedCount(table) + (if b.used then 1 else 0)
  {
    if i == 0 {
      assert table[0 := b][1..] == table[1..];
    } else {
      assert table[i := b][1..] == table[1..][i - 1 := b];
      UsedCountUpdate(table[1..], i - 1, b);
    }
  }

  lemma {:induction false} UsedCountSame(table: seq<Breakpoint>, other: seq<Breakpoint>)
    requires SameEntries(table, other)
    ensures UsedCount(table) == UsedCount(other)
  {
    if table != [] { UsedCountSame(table[1..], other[1..]); }
  }

  lemma {:induction false} UsedCountCleared(table: seq<Breakpoint>)
    ensures UsedCount(ClearUsed(table)) == 0
  {
    if table != [] {
      assert ClearUsed(table)[1..] == ClearUsed(table[1..]);
      UsedCountCleared(table[1..]);
    }
  }

  lemma EmptyTableKeeps(im: Image, pristine: Memory)
    requires ImageOk(im, pristine) && forall j :: 0 <= j < |im.table| ==> !im.table[j].enabled
    ensures ImageOk(im.(table := EmptyTable()), pristine)
  {
    SameEnabled(im, pristine, EmptyTable());
  }

  lemma EmptyTableCount()
    ensures UsedCount(EmptyTable()) == 0
  {
    UsedCountCleared(EmptyTable());
    assert ClearUsed(EmptyTable()) == EmptyTable();
  }
}
