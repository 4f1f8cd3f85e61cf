/** PduDefinition: the name/channel table, its two file formats and its lookups. */
module PduDefinitions {
  import opened Types

  datatype PduDef = PduDef(typ: string, orgName: string, name: string, channelId: i32, pduSize: nat)

  type Table = map<string, map<string, PduDef>>

  /** pdu_definitions_[robot][def.org_name] = def. */
  function Insert(t: Table, robot: string, def: PduDef): Table {
    t[robot := (if robot in t then t[robot] else map[])[def.orgName := def]]
  }

  /** resolve by robot and PDU name. */
  function Resolve(t: Table, robot: string, pdu: string): Option<PduDef> {
    if robot in t && pdu in t[robot] then Some(t[robot][pdu]) else None
  }

  // ---------------------------------------------------------------- parsed files

  /** One PDU in either format. */
  datatype Entry = Entry(typ: string, orgName: string, channelId: i32, pduSize: nat)

  datatype LegacyRobot = LegacyRobot(name: string, readers: Option<seq<Entry>>, writers: Option<seq<Entry>>)

  /** A set of PDU types; None when its file cannot be opened or is not a JSON array. */
  datatype TypeSet = TypeSet(id: string, entries: Option<seq<Entry>>)

  datatype CompactRobot = CompactRobot(name: string, setId: string)

  function LegacyDef(e: Entry): PduDef {
    PduDef(e.typ, e.orgName, "", e.channelId, e.pduSize)
  }

  function CompactDef(e: Entry): PduDef {
    PduDef(e.typ, e.orgName, e.orgName, e.channelId, e.pduSize)
  }

  function ListOf(entries: Option<seq<Entry>>): seq<Entry> {
    if entries.Some? then entries.value else []
  }

  // ---------------------------------------------------------------- what loading means

  /** Readers overwrite what is there. */
  function AddReaders(t: Table, robot: string, entries: seq<Entry>): Table
    decreases |entries|
  {
    if entries == [] then t else AddReaders(Insert(t, robot, LegacyDef(entries[0])), robot, entries[1..])
  }

  /** Writers are added only under names not present yet. */
  function AddWriters(t: Table, robot: string, entries: seq<Entry>): Table
    decreases |entries|
  {
    if entries == [] then t
    else if Resolve(t, robot, entries[0].orgName).Some? then AddWriters(t, robot, entries[1..])
    else AddWriters(Insert(t, robot, LegacyDef(entries[0])), robot, entries[1..])
  }

  function LegacyTable(t: Table, robots: seq<LegacyRobot>): Table
    decreases |robots|
  {
    if robots == [] then t else
    var r := robots[0];
    LegacyTable(AddWriters(AddReaders(t, r.name, ListOf(r.readers)), r.name, ListOf(r.writers)), robots[1..])
  }

  /** The first readable set with an id, if every set file is readable. */
  function FirstSet(sets: seq<TypeSet>, id: string): Option<seq<Entry>> {
    if sets == [] then None
    else if sets[0].id == id then sets[0].entries
    else FirstSet(sets[1..], id)
  }

  predicate AllReadable(sets: seq<TypeSet>) {
    forall s | s in sets :: s.entries.Some?
  }

  function AddCompact(t: Table, robot: string, entries: seq<Entry>): Table
    decreases |entries|
  {
    if entries == [] then t else AddCompact(Insert(t, robot, CompactDef(entries[0])), robot, entries[1..])
  }

  /** Robots are loaded in order until one names an unknown set. */
  function CompactTable(t: Table, sets: seq<TypeSet>, robots: seq<CompactRobot>): (bool, Table)
    decreases |robots|
  {
    if robots == [] then (true, t)
    else match FirstSet(sets, robots[0].setId)
         case None => (false, t)
         case Some(entries) => CompactTable(AddCompact(t, robots[0].name, entries), sets, robots[1..])
  }

  /** The legacy file with the same contents: each robot's set inlined as its readers. */
  function Expand(sets: seq<TypeSet>, robots: seq<CompactRobot>): seq<LegacyRobot> {
    if robots == [] then [] else
    [LegacyRobot(robots[0].name, FirstSet(sets, robots[0].setId), None)] + Expand(sets, robots[1..])
  }

  // ---------------------------------------------------------------- what a load stores

  predicate LastNamed(entries: seq<Entry>, pdu: string, i: int) {
    && 0 <= i < |entries| && entries[i].orgName == pdu
    && (forall k | i < k < |entries| :: entries[k].orgName != pdu)
  }

  predicate FirstNamed(entries: seq<Entry>, pdu: string, i: int) {
    && 0 <= i < |entries| && entries[i].orgName == pdu
    && (forall k | 0 <= k < i :: entries[k].orgName != pdu)
  }

  predicate Unnamed(entries: seq<Entry>, pdu: string) {
    forall k | 0 <= k < |entries| :: entries[k].orgName != pdu
  }

  /** A lookup gives every field of an entry; the compact format also copies the name. */
  predicate Gives(found: Option<PduDef>, e: Entry, compact: bool) {
    && found.Some?
    && found.value.typ == e.typ && found.value.orgName == e.orgName
    && found.value.channelId == e.channelId && found.value.pduSize == e.pduSize
    && found.value.name == if compact then e.orgName else ""
  }

  /** What a lookup gives after a load, by what it gave before: the last overwriting entry of that name;
      without one, what was there; without that, the first other entry of that name. */
  ghost predicate Picks(before: Option<PduDef>, over: seq<Entry>, fill: seq<Entry>, pdu: string, compact: bool,
                        found: Option<PduDef>)
  {
    && (forall i | LastNamed(over, pdu, i) :: Gives(found, over[i], compact))
    && (Unnamed(over, pdu) && before.Some? ==> found == before)
    && (Unnamed(over, pdu) && before.None? ==> forall i | FirstNamed(fill, pdu, i) :: Gives(found, fill[i], compact))
    && (Unnamed(over, pdu) && before.None? && Unnamed(fill, pdu) ==> found.None?)
  }

  /** These cases leave none out. */
  lemma {:induction false} NamedSomewhere(entries: seq<Entry>, pdu: string)
    ensures Unnamed(entries, pdu) || (exists i :: LastNamed(entries, pdu, i))
    ensures Unnamed(entries, pdu) || (exists i :: FirstNamed(entries, pdu, i))
  {
    if entries != [] {
      var (front, last) := (entries[..|entries| - 1], |entries| - 1);
      NamedSomewhere(front, pdu);
      if entries[last].orgName == pdu {
        assert LastNamed(entries, pdu, last);
        if Unnamed(front, pdu) {
          assert FirstNamed(entries, pdu, last);
        }
      }
      if i :| FirstNamed(front, pdu, i) {
        assert FirstNamed(entries, pdu, i);
      }
      if i :| LastNamed(front, pdu, i) {
        assert entries[last].orgName != pdu ==> LastNamed(entries, pdu, i);
      }
    }
  }

  /** Two loads one after the other pick as one load of both lists. */
  lemma {:induction false} PicksCompose(a: Option<PduDef>, over1: seq<Entry>, fill1: seq<Entry>, b: Option<PduDef>,
                                        over2: seq<Entry>, fill2: seq<Entry>, c: Option<PduDef>, pdu: string, compact: bool)
    requires Picks(a, over1, fill1, pdu, compact, b) && Picks(b, over2, fill2, pdu, compact, c)
    ensures Picks(a, over1 + over2, fill1 + fill2, pdu, compact, c)
  {
    hide Gives;
    UnnamedConcat(over1, over2, pdu);
    UnnamedConcat(fill1, fill2, pdu);
    ComposeOver(a, over1, fill1, b, over2, fill2, c, pdu, compact);
    if Unnamed(over1, pdu) && Unnamed(over2, pdu) && a.None? {
      ComposeFill(a, over1, fill1, b, over2, fill2, c, pdu, compact);
    }
  }

  lemma {:induction false} ComposeOver(a: Option<PduDef>, over1: seq<Entry>, fill1: seq<Entry>, b: Option<PduDef>,
                                       over2: seq<Entry>, fill2: seq<Entry>, c: Option<PduDef>, pdu: string, compact: bool)
    requires Picks(a, over1, fill1, pdu, compact, b) && Picks(b, over2, fill2, pdu, compact, c)
    ensures forall i | LastNamed(over1 + over2, pdu, i) :: Gives(c, (over1 + over2)[i], compact)
  {
    hide Gives, LastNamed;
    forall i | LastNamed(over1 + over2, pdu, i)
      ensures 0 <= i < |over1| + |over2| && Gives(c, (over1 + over2)[i], compact)
    {
      LastOfConcat(over1, over2, pdu, i);
      GivesSomething(b);
    }
  }

  lemma {:induction false} ComposeFill(a: Option<PduDef>, over1: seq<Entry>, fill1: seq<Entry>, b: Option<PduDef>,
                                       over2: seq<Entry>, fill2: seq<Entry>, c: Option<PduDef>, pdu: string, compact: bool)
    requires Picks(a, over1, fill1, pdu, compact, b) && Picks(b, over2, fill2, pdu, compact, c)
    requires Unnamed(over1, pdu) && Unnamed(over2, pdu) && a.None?
    ensures forall i | FirstNamed(fill1 + fill2, pdu, i) :: Gives(c, (fill1 + fill2)[i], compact)
  {
    hide Gives, FirstNamed;
    forall i | FirstNamed(fill1 + fill2, pdu, i)
      ensures 0 <= i < |fill1| + |fill2| && Gives(c, (fill1 + fill2)[i], compact)
    {
      FirstOfConcat(fill1, fill2, pdu, i);
      GivesSomething(b);
    }
  }

  lemma {:induction false} GivesSomething(found: Option<PduDef>)
    ensures forall e, compact | Gives(found, e, compact) :: found.Some?
  {
  }

  lemma {:induction false} UnnamedConcat(a: seq<Entry>, b: seq<Entry>, pdu: string)
    ensures Unnamed(a + b, pdu) <==> Unnamed(a, pdu) && Unnamed(b, pdu)
  {
    if Unnamed(a + b, pdu) {
      forall k | 0 <= k < |b| ensures b[k].orgName != pdu { assert (a + b)[|a| + k] == b[k]; }
      forall k | 0 <= k < |a| ensures a[k].orgName != pdu { assert (a + b)[k] == a[k]; }
    }
  }

  lemma {:induction false} LastOfConcat(a: seq<Entry>, b: seq<Entry>, pdu: string, i: int)
    requires LastNamed(a + b, pdu, i)
    ensures 0 <= i < |a| + |b|
    ensures i < |a| ==> LastNamed(a, pdu, i) && Unnamed(b, pdu) && (a + b)[i] == a[i]
    ensures i >= |a| ==> LastNamed(b, pdu, i - |a|) && (a + b)[i] == b[i - |a|]
  {
    forall k | 0 <= k < |b| && i < |a| + k
      ensures b[k].orgName != pdu
    {
      assert (a + b)[|a| + k] == b[k];
    }
    if i < |a| {
      forall k | i < k < |a| ensures a[k].orgName != pdu { assert (a + b)[k] == a[k]; }
    }
  }

  lemma {:induction false} FirstOfConcat(a: seq<Entry>, b: seq<Entry>, pdu: string, i: int)
    requires FirstNamed(a + b, pdu, i)
    ensures 0 <= i < |a| + |b|
    ensures i < |a| ==> FirstNamed(a, pdu, i) && (a + b)[i] == a[i]
    ensures i >= |a| ==> Unnamed(a, pdu) && FirstNamed(b, pdu, i - |a|) && (a + b)[i] == b[i - |a|]
  {
    forall k | 0 <= k < |a| && k < i ensures a[k].orgName != pdu { assert (a + b)[k] == a[k]; }
    if i >= |a| {
      forall k | 0 <= k < i - |a| ensures b[k].orgName != pdu { assert (a + b)[|a| + k] == b[k]; }
    }
  }

  /** The readers, or writers, a legacy file lists for a robot, over all its records of that name. */
  function ReadersOf(robots: seq<LegacyRobot>, robot: string): seq<Entry> {
    if robots == [] then [] else
    (if robots[0].name == robot then ListOf(robots[0].readers) else []) + ReadersOf(robots[1..], robot)
  }

  function WritersOf(robots: seq<LegacyRobot>, robot: string): seq<Entry> {
    if robots == [] then [] else
    (if robots[0].name == robot then ListOf(robots[0].writers) else []) + WritersOf(robots[1..], robot)
  }

  /** Set number k is the first with an id. */
  predicate FirstWithId(sets: seq<TypeSet>, id: string, k: int) {
    0 <= k < |sets| && sets[k].id == id && forall j | 0 <= j < k :: sets[j].id != id
  }

  /** The entries of the first set with an id. */
  ghost function EntriesOf(sets: seq<TypeSet>, id: string): seq<Entry> {
    if exists k :: FirstWithId(sets, id, k)
    then var k :| FirstWithId(sets, id, k); ListOf(sets[k].entries)
    else []
  }

  /** The entries a compact file gives a robot, over all its records of that name. */
  ghost function AssignedTo(sets: seq<TypeSet>, robots: seq<CompactRobot>, robot: string): seq<Entry> {
    if robots == [] then [] else
    (if robots[0].name == robot then EntriesOf(sets, robots[0].setId) else []) + AssignedTo(sets, robots[1..], robot)
  }

  /** For every robot and PDU name: readers overwrite, writers only fill in what is missing. */
  ghost predicate LegacyStored(t: Table, robots: seq<LegacyRobot>, u: Table) {
    forall robot, pdu ::
      Picks(Resolve(t, robot, pdu), ReadersOf(robots, robot), WritersOf(robots, robot), pdu, false, Resolve(u, robot, pdu))
  }

  /** For every robot and PDU name: the entries of the robot's sets overwrite. */
  ghost predicate CompactStored(t: Table, sets: seq<TypeSet>, robots: seq<CompactRobot>, u: Table) {
    forall robot, pdu ::
      Picks(Resolve(t, robot, pdu), AssignedTo(sets, robots, robot), [], pdu, true, Resolve(u, robot, pdu))
  }

  lemma {:induction false} PicksNothing(found: Option<PduDef>, pdu: string, compact: bool)
    ensures Picks(found, [], [], pdu, compact, found)
  {
  }

  /** The entries of a record for one robot, as far as they concern another. */
  function For(name: string, robot: string, entries: seq<Entry>): seq<Entry> {
    if name == robot then entries else []
  }

  lemma {:induction false} PicksOne(before: Option<PduDef>, e: Entry, pdu: string, compact: bool, found: Option<PduDef>)
    requires if e.orgName == pdu then Gives(found, e, compact) else found == before
    ensures Picks(before, [e], [], pdu, compact, found)
  {
    assert [e][0] == e;
    assert Unnamed([e], pdu) <==> e.orgName != pdu;
  }

  lemma {:induction false} FillsOne(before: Option<PduDef>, e: Entry, pdu: string, found: Option<PduDef>)
    requires if e.orgName == pdu && before.None? then Gives(found, e, false) else found == before
    ensures Picks(before, [], [e], pdu, false, found)
  {
    assert [e][0] == e;
    assert Unnamed([e], pdu) <==> e.orgName != pdu;
  }

  /** One insertion, of a reader or of a compact entry. */
  lemma {:induction false} InsertPicks(t: Table, name: string, e: Entry, compact: bool, robot: string, pdu: string)
    ensures var def := if compact then CompactDef(e) else LegacyDef(e);
            Picks(Resolve(t, robot, pdu), For(name, robot, [e]), [], pdu, compact,
                  Resolve(Insert(t, name, def), robot, pdu))
  {
    hide Picks;
    var found := Resolve(Insert(t, name, if compact then CompactDef(e) else LegacyDef(e)), robot, pdu);
    if name == robot {
      PicksOne(Resolve(t, robot, pdu), e, pdu, compact, found);
    } else {
      PicksNothing(found, pdu, compact);
    }
  }

  lemma {:induction false} FillPicks(t: Table, name: string, e: Entry, robot: string, pdu: string)
    ensures var u := if Resolve(t, name, e.orgName).Some? then t else Insert(t, name, LegacyDef(e));
            Picks(Resolve(t, robot, pdu), [], For(name, robot, [e]), pdu, false, Resolve(u, robot, pdu))
  {
    hide Picks;
    var u := if Resolve(t, name, e.orgName).Some? then t else Insert(t, name, LegacyDef(e));
    if name == robot {
      FillsOne(Resolve(t, robot, pdu), e, pdu, Resolve(u, robot, pdu));
    } else {
      PicksNothing(Resolve(u, robot, pdu), pdu, false);
    }
  }

  lemma {:induction false} ForCons(name: string, robot: string, entries: seq<Entry>)
    requires entries != []
    ensures var none: seq<Entry> := []; none + none == none
    ensures For(name, robot, [entries[0]]) + For(name, robot, entries[1..]) == For(name, robot, entries)
  {
  }

  lemma {:induction false} ReadersPick(t: Table, name: string, entries: seq<Entry>, robot: string, pdu: string)
    ensures Picks(Resolve(t, robot, pdu), For(name, robot, entries), [], pdu, false,
                  Resolve(AddReaders(t, name, entries), robot, pdu))
    decreases |entries|
  {
    hide Picks, Insert, Resolve;
    if entries == [] {
      PicksNothing(Resolve(t, robot, pdu), pdu, false);
    } else {
      var u := Insert(t, name, LegacyDef(entries[0]));
      InsertPicks(t, name, entries[0], false, robot, pdu);
      ReadersPick(u, name, entries[1..], robot, pdu);
      ForCons(name, robot, entries);
      PicksCompose(Resolve(t, robot, pdu), For(name, robot, [entries[0]]), [], Resolve(u, robot, pdu),
                   For(name, robot, entries[1..]), [], Resolve(AddReaders(u, name, entries[1..]), robot, pdu), pdu, false);
    }
  }

  lemma {:induction false} CompactPick(t: Table, name: string, entries: seq<Entry>, robot: string, pdu: string)
    ensures Picks(Resolve(t, robot, pdu), For(name, robot, entries), [], pdu, true,
                  Resolve(AddCompact(t, name, entries), robot, pdu))
    decreases |entries|
  {
    hide Picks, Insert, Resolve;
    if entries == [] {
      PicksNothing(Resolve(t, robot, pdu), pdu, true);
    } else {
      var u := Insert(t, name, CompactDef(entries[0]));
      InsertPicks(t, name, entries[0], true, robot, pdu);
      CompactPick(u, name, entries[1..], robot, pdu);
      ForCons(name, robot, entries);
      PicksCompose(Resolve(t, robot, pdu), For(name, robot, [entries[0]]), [], Resolve(u, robot, pdu),
                   For(name, robot, entries[1..]), [], Resolve(AddCompact(u, name, entries[1..]), robot, pdu), pdu, true);
    }
  }

  lemma {:induction false} WritersPick(t: Table, name: string, entries: seq<Entry>, robot: string, pdu: string)
    ensures Picks(Resolve(t, robot, pdu), [], For(name, robot, entries), pdu, false,
                  Resolve(AddWriters(t, name, entries), robot, pdu))
    decreases |entries|
  {
    hide Picks, Insert, Resolve;
    if entries == [] {
      PicksNothing(Resolve(t, robot, pdu), pdu, false);
    } else {
      var u := if Resolve(t, name, entries[0].orgName).Some? then t else Insert(t, name, LegacyDef(entries[0]));
      FillPicks(t, name, entries[0], robot, pdu);
      WritersPick(u, name, entries[1..], robot, pdu);
      ForCons(name, robot, entries);
      PicksCompose(Resolve(t, robot, pdu), [], For(name, robot, [entries[0]]), Resolve(u, robot, pdu),
                   [], For(name, robot, entries[1..]), Resolve(AddWriters(u, name, entries[1..]), robot, pdu), pdu, false);
    }
  }

  /** After a legacy file. */
  lemma {:induction false} LegacyLoadStores(t: Table, robots: seq<LegacyRobot>)
    ensures LegacyStored(t, robots, LegacyTable(t, robots))
  {
    forall robot, pdu
      ensures Picks(Resolve(t, robot, pdu), ReadersOf(robots, robot), WritersOf(robots, robot), pdu, false,
                    Resolve(LegacyTable(t, robots), robot, pdu))
    {
      LegacyPick(t, robots, robot, pdu);
    }
  }

  lemma {:induction false} LegacyPick(t: Table, robots: seq<LegacyRobot>, robot: string, pdu: string)
    ensures Picks(Resolve(t, robot, pdu), ReadersOf(robots, robot), WritersOf(robots, robot), pdu, false,
                  Resolve(LegacyTable(t, robots), robot, pdu))
    decreases |robots|
  {
    hide Picks, Resolve, AddReaders, AddWriters;
    if robots == [] {
      PicksNothing(Resolve(t, robot, pdu), pdu, false);
    } else {
      var (r, readers, writers) := (robots[0], ListOf(robots[0].readers), ListOf(robots[0].writers));
      var u := AddReaders(t, r.name, readers);
      var v := AddWriters(u, r.name, writers);
      var (over, fill) := (For(r.name, robot, readers), For(r.name, robot, writers));
      ReadersPick(t, r.name, readers, robot, pdu);
      WritersPick(u, r.name, writers, robot, pdu);
      PicksCompose(Resolve(t, robot, pdu), over, [], Resolve(u, robot, pdu), [], fill, Resolve(v, robot, pdu), pdu, false);
      assert over + [] == over && [] + fill == fill;
      LegacyPick(v, robots[1..], robot, pdu);
      PicksCompose(Resolve(t, robot, pdu), over, fill, Resolve(v, robot, pdu),
                   ReadersOf(robots[1..], robot), WritersOf(robots[1..], robot),
                   Resolve(LegacyTable(v, robots[1..]), robot, pdu), pdu, false);
    }
  }

  /** After a compact file: the robots before the first one with an unknown set are stored. */
  lemma {:induction false} CompactLoadStores(t: Table, sets: seq<TypeSet>, robots: seq<CompactRobot>) returns (n: nat)
    requires AllReadable(sets)
    ensures n <= |robots| && CompactStored(t, sets, robots[..n], CompactTable(t, sets, robots).1)
    ensures forall r | r in robots[..n] :: exists k :: FirstWithId(sets, r.setId, k)
    ensures n < |robots| ==> forall s | s in sets :: s.id != robots[n].setId
    ensures CompactTable(t, sets, robots).0 <==> n == |robots|
    decreases |robots|
  {
    hide CompactStored, FirstWithId, EntriesOf, AddCompact;
    if robots == [] {
      n := 0;
      StoresNothing(t, sets);
    } else {
      FirstSetIsFirst(sets, robots[0].setId);
      match FirstSet(sets, robots[0].setId)
      case None =>
        n := 0;
        StoresNothing(t, sets);
        assert robots[..0] == [];
      case Some(entries) =>
        var m := CompactLoadStores(AddCompact(t, robots[0].name, entries), sets, robots[1..]);
        n := m + 1;
        CompactStoredCons(t, sets, robots, entries, m);
        assert robots[..n] == [robots[0]] + robots[1..][..m];
    }
  }

  lemma {:induction false} StoresNothing(t: Table, sets: seq<TypeSet>)
    ensures CompactStored(t, sets, [], t)
  {
    hide Picks, Resolve;
    forall robot, pdu
      ensures Picks(Resolve(t, robot, pdu), AssignedTo(sets, [], robot), [], pdu, true, Resolve(t, robot, pdu))
    {
      PicksNothing(Resolve(t, robot, pdu), pdu, true);
    }
  }

  lemma {:induction false} FirstSetIsFirst(sets: seq<TypeSet>, id: string)
    requires AllReadable(sets)
    ensures FirstSet(sets, id).None? ==> forall s | s in sets :: s.id != id
    ensures FirstSet(sets, id).Some? ==>
      (exists k :: FirstWithId(sets, id, k)) && FirstSet(sets, id).value == EntriesOf(sets, id)
  {
    if sets == [] {
    } else if sets[0].id == id {
      assert FirstWithId(sets, id, 0);
      assert sets[0] in sets;
    } else {
      FirstSetIsFirst(sets[1..], id);
      assert forall s :: s in sets <==> s == sets[0] || s in sets[1..];
      if k :| FirstWithId(sets[1..], id, k) {
        assert FirstWithId(sets, id, k + 1);
      }
    }
  }

  lemma {:induction false} CompactStoredCons(t: Table, sets: seq<TypeSet>, robots: seq<CompactRobot>, entries: seq<Entry>, m: nat)
    requires robots != [] && m <= |robots| - 1 && entries == EntriesOf(sets, robots[0].setId)
    requires FirstSet(sets, robots[0].setId) == Some(entries)
    requires var u := AddCompact(t, robots[0].name, entries);
             CompactStored(u, sets, robots[1..][..m], CompactTable(u, sets, robots[1..]).1)
    ensures CompactStored(t, sets, robots[..m + 1], CompactTable(t, sets, robots).1)
  {
    hide Picks, Resolve, AddCompact, EntriesOf;
    var u := AddCompact(t, robots[0].name, entries);
    var v := CompactTable(u, sets, robots[1..]).1;
    assert robots[..m + 1] == [robots[0]] + robots[1..][..m];
    forall robot, pdu
      ensures Picks(Resolve(t, robot, pdu), AssignedTo(sets, robots[..m + 1], robot), [], pdu, true, Resolve(v, robot, pdu))
    {
      CompactPick(t, robots[0].name, entries, robot, pdu);
      PicksCompose(Resolve(t, robot, pdu), For(robots[0].name, robot, entries), [], Resolve(u, robot, pdu),
                   AssignedTo(sets, robots[1..][..m], robot), [], Resolve(v, robot, pdu), pdu, true);
      assert robots[..m + 1][1..] == robots[1..][..m];
      var none: seq<Entry> := [];
      assert none + none == none;
    }
  }

  // ---------------------------------------------------------------- the two formats agree

  /** Everything about a definition except `name`, which only the compact format fills in. */
  function Essence(d: Option<PduDef>): Option<Entry> {
    match d
    case None => None
    case Some(def) => Some(Entry(def.typ, def.orgName, def.channelId, def.pduSize))
  }

  ghost predicate SameTable(t: Table, u: Table) {
    forall robot, pdu :: Essence(Resolve(t, robot, pdu)) == Essence(Resolve(u, robot, pdu))
  }

  lemma {:induction false} InsertSame(t: Table, u: Table, robot: string, e: Entry)
    requires SameTable(t, u)
    ensures SameTable(Insert(t, robot, CompactDef(e)), Insert(u, robot, LegacyDef(e)))
  {
    forall r, p
      ensures Essence(Resolve(Insert(t, robot, CompactDef(e)), r, p)) == Essence(Resolve(Insert(u, robot, LegacyDef(e)), r, p))
    {
      assert Essence(Resolve(t, r, p)) == Essence(Resolve(u, r, p));
    }
  }

  lemma {:induction false} AddSame(t: Table, u: Table, robot: string, entries: seq<Entry>)
    requires SameTable(t, u)
    ensures SameTable(AddCompact(t, robot, entries), AddReaders(u, robot, entries))
    decreases |entries|
  {
    hide SameTable, Insert;
    if entries == [] {
    } else {
      InsertSame(t, u, robot, entries[0]);
      AddSame(Insert(t, robot, CompactDef(entries[0])), Insert(u, robot, LegacyDef(entries[0])), robot, entries[1..]);
    }
  }

  /** A compact file that loads and its legacy expansion give the same type, channel and size for
      every robot and PDU name. */
  lemma {:induction false} FormatsAgree(t: Table, u: Table, sets: seq<TypeSet>, robots: seq<CompactRobot>)
    requires SameTable(t, u)
    requires CompactTable(t, sets, robots).0
    ensures SameTable(CompactTable(t, sets, robots).1, LegacyTable(u, Expand(sets, robots)))
    decreases |robots|
  {
    hide SameTable, AddReaders, AddCompact;
    if robots == [] {
    } else {
      var entries := FirstSet(sets, robots[0].setId).value;
      AddSame(t, u, robots[0].name, entries);
      FormatsAgree(AddCompact(t, robots[0].name, entries), AddReaders(u, robots[0].name, entries), sets, robots[1..]);
      assert Expand(sets, robots)[1..] == Expand(sets, robots[1..]);
    }
  }

  /** A compact file loads exactly when every robot names a known set. */
  lemma {:induction false} CompactLoadsIff(t: Table, sets: seq<TypeSet>, robots: seq<CompactRobot>)
    ensures CompactTable(t, sets, robots).0 <==> forall r | r in robots :: FirstSet(sets, r.setId).Some?
    decreases |robots|
  {
    hide AddCompact;
    if robots == [] {
    } else {
      if FirstSet(sets, robots[0].setId).Some? {
        CompactLoadsIff(AddCompact(t, robots[0].name, FirstSet(sets, robots[0].setId).value), sets, robots[1..]);
      }
      assert forall r :: r in robots <==> r == robots[0] || r in robots[1..];
    }
  }

  // ---------------------------------------------------------------- lookup by channel

  /** std::string's operator<=. */
  predicate LexLeq(a: string, b: string) {
    if a == [] then true
    else if b == [] then false
    else a[0] < b[0] || (a[0] == b[0] && LexLeq(a[1..], b[1..]))
  }

  /** `a` is a prefix of `b`, or the first character in which they differ is smaller in `a`. */
  lemma {:induction false} LexLeqMeans(a: string, b: string)
    ensures LexLeq(a, b) <==> a <= b || exists k :: DiffersAt(a, b, k) && a[k] < b[k]
  {
    if a == [] || b == [] {
    } else {
      LexLeqMeans(a[1..], b[1..]);
      if k :| DiffersAt(a[1..], b[1..], k) && a[1..][k] < b[1..][k] && a[0] == b[0] {
        assert a[..k + 1] == [a[0]] + a[1..][..k] && b[..k + 1] == [b[0]] + b[1..][..k];
        assert DiffersAt(a, b, k + 1);
      }
      if a[0] != b[0] {
        assert DiffersAt(a, b, 0);
      }
      if k :| DiffersAt(a, b, k) && a[k] < b[k] && k > 0 {
        assert a[0] == a[..k][0] == b[..k][0] == b[0];
        assert a[1..][..k - 1] == a[..k][1..] == b[..k][1..] == b[1..][..k - 1];
        assert DiffersAt(a[1..], b[1..], k - 1);
      }
      if a[0] == b[0] {
        assert a == [a[0]] + a[1..] && b == [b[0]] + b[1..];
      }
    }
  }

  predicate DiffersAt(a: string, b: string, k: int) {
    0 <= k < |a| && k < |b| && a[..k] == b[..k] && a[k] != b[k]
  }

  lemma {:induction false} LexTotal(a: string, b: string)
    ensures LexLeq(a, b) || LexLeq(b, a)
    ensures LexLeq(a, b) && LexLeq(b, a) ==> a == b
  {
    if a == [] || b == [] {
    } else {
      LexTotal(a[1..], b[1..]);
      assert a == [a[0]] + a[1..] && b == [b[0]] + b[1..];
    }
  }

  lemma {:induction false} LexTransitive(a: string, b: string, c: string)
    requires LexLeq(a, b) && LexLeq(b, c)
    ensures LexLeq(a, c)
  {
    if a == [] || b == [] || c == [] {
    } else if a[0] == b[0] && b[0] == c[0] {
      LexTransitive(a[1..], b[1..], c[1..]);
    }
  }

  ghost predicate IsLeast(s: set<string>, p: string) {
    p in s && forall q | q in s :: LexLeq(p, q)
  }

  lemma {:induction false} LeastExists(s: set<string>) returns (p: string)
    requires s != {}
    ensures IsLeast(s, p)
  {
    var x :| x in s;
    LexTotal(x, x);
    if s == {x} {
      p := x;
    } else {
      var rest := s - {x};
      assert s == rest + {x};
      var q := LeastExists(rest);
      LexTotal(x, q);
      p := if LexLeq(x, q) then x else q;
      forall r | r in s
        ensures LexLeq(p, r)
      {
        if r != x && p == x {
          LexTransitive(x, q, r);
        }
      }
    }
  }

  /** The least PDU name of a robot with a given channel id. */
  ghost predicate LeastMatch(defs: map<string, PduDef>, channel: i32, p: string) {
    && p in defs && defs[p].channelId == channel
    && forall q | q in defs && defs[q].channelId == channel :: LexLeq(p, q)
  }

  /** Loaded definitions are stored under their own names. */
  ghost predicate WellNamed(t: Table) {
    forall robot, pdu | robot in t && pdu in t[robot] :: t[robot][pdu].orgName == pdu
  }

  ghost predicate UniqueChannels(defs: map<string, PduDef>) {
    forall p, q | p in defs && q in defs && defs[p].channelId == defs[q].channelId :: p == q
  }

  /** What resolve by robot and channel finds: the definition under the least PDU name with that channel. */
  ghost predicate FoundByChannel(t: Table, robot: string, channel: i32, def: PduDef) {
    robot in t && exists p :: LeastMatch(t[robot], channel, p) && def == t[robot][p]
  }

  /** A definition file in either format. */
  datatype File =
    | Legacy(robots: seq<LegacyRobot>)
    | Compact(sets: seq<TypeSet>, compactRobots: seq<CompactRobot>)

  /** What a load leaves in the table, also when it fails. */
  function Load(t: Table, file: File): Table {
    match file
    case Legacy(robots) => LegacyTable(t, robots)
    case Compact(sets, robots) => if AllReadable(sets) then CompactTable(t, sets, robots).1 else t
  }

  /** The table of a new PduDefinition after any loads. */
  function Loaded(files: seq<File>): Table {
    if files == [] then map[] else Load(Loaded(files[..|files| - 1]), files[|files| - 1])
  }

  class PduDefinition {
    var defs: Table

    constructor ()
      ensures defs == map[]
    {
      defs := map[];
    }

    method LoadLegacy(robots: seq<LegacyRobot>) returns (ok: bool)
      modifies this
      ensures ok && defs == Load(old(defs), Legacy(robots))
      ensures LegacyStored(old(defs), robots, defs)
    {
      LegacyLoadStores(defs, robots);
      var i := 0;
      while i < |robots|
        invariant 0 <= i <= |robots|
        invariant LegacyTable(defs, robots[i..]) == LegacyTable(old(defs), robots)
      {
        var r := robots[i];
        ghost var loaded := AddReaders(defs, r.name, ListOf(r.readers));
        if r.readers.Some? {
          ParsePduList(r.name, r.readers.value);
        }
        if r.writers.Some? {
          AddMissing(r.name, r.writers.value);
        }
        assert defs == AddWriters(loaded, r.name, ListOf(r.writers));
        assert robots[i..][1..] == robots[i + 1..];
        i := i + 1;
      }
      return true;
    }

    method ParsePduList(robot: string, entries: seq<Entry>)
      modifies this
      ensures defs == AddReaders(old(defs), robot, entries)
    {
      var i := 0;
      while i < |entries|
        invariant 0 <= i <= |entries|
        invariant AddReaders(defs, robot, entries[i..]) == AddReaders(old(defs), robot, entries)
      {
        assert entries[i..][1..] == entries[i + 1..];
        defs := Insert(defs, robot, LegacyDef(entries[i]));
        i := i + 1;
      }
    }

    method AddMissing(robot: string, entries: seq<Entry>)
      modifies this
      ensures defs == AddWriters(old(defs), robot, entries)
    {
      var i := 0;
      while i < |entries|
        invariant 0 <= i <= |entries|
        invariant AddWriters(defs, robot, entries[i..]) == AddWriters(old(defs), robot, entries)
      {
        assert entries[i..][1..] == entries[i + 1..];
        if robot !in defs || entries[i].orgName !in defs[robot] {
          defs := Insert(defs, robot, LegacyDef(entries[i]));
        }
        i := i + 1;
      }
    }

    /** load_compact_: nothing is stored unless every set file is readable; robots before one with
        an unknown set stay stored. */
    method LoadCompact(sets: seq<TypeSet>, robots: seq<CompactRobot>) returns (ok: bool)
      modifies this
      ensures !AllReadable(sets) ==> !ok && defs == old(defs)
      ensures AllReadable(sets) ==> (ok, defs) == CompactTable(old(defs), sets, robots)
      ensures defs == Load(old(defs), Compact(sets, robots))
      ensures AllReadable(sets) ==> exists n: nat | n <= |robots| ::
        && CompactStored(old(defs), sets, robots[..n], defs)
        && (ok <==> n == |robots|)
        && (n < |robots| ==> forall s | s in sets :: s.id != robots[n].setId)
    {
      ghost var stored: nat;
      if AllReadable(sets) {
        stored := CompactLoadStores(defs, sets, robots);
      }
      var known: map<string, seq<Entry>> := map[];
      var i := 0;
      while i < |sets|
        invariant 0 <= i <= |sets|
        invariant defs == old(defs)
        invariant forall k | 0 <= k < i :: sets[k].entries.Some?
        invariant forall id :: FirstSet(sets, id) == if id in known then Some(known[id]) else FirstSet(sets[i..], id)
      {
        if sets[i].entries.None? {
          return false;
        }
        assert sets[i..][1..] == sets[i + 1..];
        if sets[i].id !in known {
          known := known[sets[i].id := sets[i].entries.value];
        }
        i := i + 1;
      }
      assert forall id :: FirstSet(sets[i..], id).None?;
      i := 0;
      while i < |robots|
        invariant 0 <= i <= |robots|
        invariant forall id :: FirstSet(sets, id) == if id in known then Some(known[id]) else None
        invariant CompactTable(defs, sets, robots[i..]) == CompactTable(old(defs), sets, robots)
      {
        if robots[i].setId !in known {
          return false;
        }
        assert robots[i..][1..] == robots[i + 1..];
        StoreSet(robots[i].name, known[robots[i].setId]);
        i := i + 1;
      }
      return true;
    }

    method StoreSet(robot: string, entries: seq<Entry>)
      modifies this
      ensures defs == AddCompact(old(defs), robot, entries)
    {
      var i := 0;
      while i < |entries|
        invariant 0 <= i <= |entries|
        invariant AddCompact(defs, robot, entries[i..]) == AddCompact(old(defs), robot, entries)
      {
        assert entries[i..][1..] == entries[i + 1..];
        defs := Insert(defs, robot, CompactDef(entries[i]));
        i := i + 1;
      }
    }

    /** resolve by robot and channel: std::map yields names in increasing order, the first match wins. */
    method ResolveChannel(robot: string, channel: i32) returns (def: Option<PduDef>)
      ensures def.Some? <==> robot in defs && exists p :: p in defs[robot] && defs[robot][p].channelId == channel
      ensures def.Some? ==> FoundByChannel(defs, robot, channel, def.value)
    {
      if robot !in defs {
        return None;
      }
      var todo := defs[robot].Keys;
      while todo != {}
        invariant todo <= defs[robot].Keys
        invariant forall p | p in defs[robot] && p !in todo :: defs[robot][p].channelId != channel
        decreases |todo|
      {
        ghost var least := LeastExists(todo);
        var p :| p in todo && forall q | q in todo :: LexLeq(p, q);
        if defs[robot][p].channelId == channel {
          assert LeastMatch(defs[robot], channel, p);
          return Some(defs[robot][p]);
        }
        todo := todo - {p};
      }
      return None;
    }

    /** get_pdu_size. */
    method GetPduSize(robot: string, pdu: string) returns (size: nat)
      ensures match Resolve(defs, robot, pdu) case Some(d) => size == d.pduSize case None => size == 0
    {
      var d := Resolve(defs, robot, pdu);
      return if d.Some? then d.value.pduSize else 0;
    }
  }

  /** The lookup by channel has one answer. */
  lemma {:induction false} LeastMatchUnique(defs: map<string, PduDef>, channel: i32, p: string, q: string)
    requires LeastMatch(defs, channel, p) && LeastMatch(defs, channel, q)
    ensures p == q
  {
    LexTotal(p, q);
  }

  /** Every definition is found again by its own channel if and only if channel ids are unique
      within the robot. */
  lemma {:induction false} LookupsInverseIff(defs: map<string, PduDef>)
    ensures (forall p | p in defs :: LeastMatch(defs, defs[p].channelId, p)) <==> UniqueChannels(defs)
  {
    if forall p | p in defs :: LeastMatch(defs, defs[p].channelId, p) {
      forall p, q | p in defs && q in defs && defs[p].channelId == defs[q].channelId
        ensures p == q
      {
        LeastMatchUnique(defs, defs[p].channelId, p, q);
      }
    }
    if UniqueChannels(defs) {
      forall p | p in defs
        ensures LeastMatch(defs, defs[p].channelId, p)
      {
        LexTotal(p, p);
      }
    }
  }

  lemma {:induction false} InsertKeepsNames(t: Table, robot: string, def: PduDef)
    requires WellNamed(t)
    ensures WellNamed(Insert(t, robot, def))
  {
  }

  lemma {:induction false} LegacyKeepsNames(t: Table, robot: string, entries: seq<Entry>)
    requires WellNamed(t)
    ensures WellNamed(AddReaders(t, robot, entries)) && WellNamed(AddWriters(t, robot, entries))
    decreases |entries|
  {
    hide WellNamed, Insert;
    if entries == [] {
    } else {
      InsertKeepsNames(t, robot, LegacyDef(entries[0]));
      LegacyKeepsNames(Insert(t, robot, LegacyDef(entries[0])), robot, entries[1..]);
      LegacyKeepsNames(t, robot, entries[1..]);
    }
  }

  /** Loading keeps every definition stored under its own name. */
  lemma {:induction false} LegacyTableWellNamed(t: Table, robots: seq<LegacyRobot>)
    requires WellNamed(t)
    ensures WellNamed(LegacyTable(t, robots))
    decreases |robots|
  {
    hide WellNamed, AddReaders, AddWriters;
    if robots == [] {
    } else {
      var r := robots[0];
      LegacyKeepsNames(t, r.name, ListOf(r.readers));
      LegacyKeepsNames(AddReaders(t, r.name, ListOf(r.readers)), r.name, ListOf(r.writers));
      LegacyTableWellNamed(AddWriters(AddReaders(t, r.name, ListOf(r.readers)), r.name, ListOf(r.writers)), robots[1..]);
    }
  }

  lemma {:induction false} AddCompactNames(t: Table, robot: string, entries: seq<Entry>)
    requires WellNamed(t)
    ensures WellNamed(AddCompact(t, robot, entries))
    decreases |entries|
  {
    hide WellNamed, Insert;
    if entries == [] {
    } else {
      InsertKeepsNames(t, robot, CompactDef(entries[0]));
      AddCompactNames(Insert(t, robot, CompactDef(entries[0])), robot, entries[1..]);
    }
  }

  /** The same for a compact file, whether or not it loads to the end. */
  lemma {:induction false} CompactTableWellNamed(t: Table, sets: seq<TypeSet>, robots: seq<CompactRobot>)
    requires WellNamed(t)
    ensures WellNamed(CompactTable(t, sets, robots).1)
    decreases |robots|
  {
    hide WellNamed, AddCompact;
    if robots == [] {
    } else {
      match FirstSet(sets, robots[0].setId)
      case None =>
      case Some(entries) =>
        AddCompactNames(t, robots[0].name, entries);
        CompactTableWellNamed(AddCompact(t, robots[0].name, entries), sets, robots[1..]);
    }
  }

  lemma {:induction false} LoadedWellNamed(files: seq<File>)
    ensures WellNamed(Loaded(files))
  {
    hide LegacyTable, CompactTable;
    if files == [] {
    } else {
      var t := Loaded(files[..|files| - 1]);
      LoadedWellNamed(files[..|files| - 1]);
      match files[|files| - 1]
      case Legacy(robots) => LegacyTableWellNamed(t, robots);
      case Compact(sets, robots) => CompactTableWellNamed(t, sets, robots);
    }
  }

  /** After any loads of files in either format, also failed ones, the two lookups are inverse as far as
      channel ids allow. What is found by a channel has that channel and is found again under its own name;
      what is found under a name is found again by its channel, for every name of the robot, if and only if
      no two of its definitions share a channel. */
  lemma {:induction false} LookupsInverse(files: seq<File>, robot: string)
    ensures var t := Loaded(files);
      && (forall channel, d | FoundByChannel(t, robot, channel, d) ::
            d.channelId == channel && Resolve(t, robot, d.orgName) == Some(d))
      && (robot in t ==>
            ((forall name, d | Resolve(t, robot, name) == Some(d) ::
                d.orgName == name && FoundByChannel(t, robot, d.channelId, d))
             <==> UniqueChannels(t[robot])))
  {
    hide Loaded, LexLeq;
    LoadedWellNamed(files);
    var t := Loaded(files);
    if robot in t {
      NameChannelName(t, robot);
      LookupsInverseIff(t[robot]);
    }
  }

  lemma {:induction false} NameChannelName(t: Table, robot: string)
    requires WellNamed(t) && robot in t
    ensures (forall name, d | Resolve(t, robot, name) == Some(d) ::
               d.orgName == name && FoundByChannel(t, robot, d.channelId, d))
       <==> (forall p | p in t[robot] :: LeastMatch(t[robot], t[robot][p].channelId, p))
  {
    hide LexLeq;
    if forall name, d | Resolve(t, robot, name) == Some(d) :: d.orgName == name && FoundByChannel(t, robot, d.channelId, d) {
      forall p | p in t[robot]
        ensures LeastMatch(t[robot], t[robot][p].channelId, p)
      {
        var d := t[robot][p];
        assert Resolve(t, robot, p) == Some(d);
        var q :| q in t[robot] && LeastMatch(t[robot], d.channelId, q) && d == t[robot][q];
        assert q == t[robot][q].orgName == p;
      }
    }
  }
}
