/**
 * The build's main loop: index rows, ordered by entry, are cut into groups
 * of consecutive rows with the same entry, and every group is flushed.
 */
module Driver {
  import opened Wrappers
  import opened Flush

  /** The rows handed to one `flush_entry` call, with the entry it loads. */
  datatype Group = Group(entry: Option<string>, rows: seq<IndexRow>)

  /** The loop's state: the current entry, its pending rows and the groups already flushed. */
  datatype Grouper = Grouper(current: Option<string>, pending: seq<IndexRow>, closed: seq<Group>)

  const Start := Grouper(None, [], [])

  /** Every flush the loop makes: the closed groups and the final one. */
  function Close(g: Grouper): seq<Group> {
    g.closed + [Group(g.current, g.pending)]
  }

  /** The rows of a list of groups, in order. */
  function Flat(gs: seq<Group>): seq<IndexRow>
    decreases |gs|
  {
    if |gs| == 0 then [] else Flat(gs[..|gs| - 1]) + gs[|gs| - 1].rows
  }

  lemma FlatSnoc(gs: seq<Group>, g: Group)
    ensures Flat(gs + [g]) == Flat(gs) + g.rows
  {
    assert (gs + [g])[..|gs|] == gs;
  }

  /**
   * One loop iteration. The first row sets the current entry; a row of a
   * different entry closes the pending group and starts a new one.
   */
  function Step(g: Grouper, row: IndexRow): (r: Grouper)
    ensures r.current == Some(row.entry)
    ensures |r.pending| > 0 && r.pending[|r.pending| - 1] == row
    ensures g.current.None? || g.current == Some(row.entry) ==> r.closed == g.closed && r.pending == g.pending + [row]
    ensures g.current.Some? && g.current != Some(row.entry) ==>
      r.closed == g.closed + [Group(g.current, g.pending)] && r.pending == [row]
  {
    var cur := if g.current.None? then Some(row.entry) else g.current;
    if Some(row.entry) != cur then Grouper(Some(row.entry), [row], g.closed + [Group(cur, g.pending)])
    else Grouper(cur, g.pending + [row], g.closed)
  }

  /** One iteration neither loses nor reorders rows: the row lands at the end of the flushed sequence. */
  lemma StepKeepsRows(g: Grouper, row: IndexRow)
    ensures Flat(Close(Step(g, row))) == Flat(Close(g)) + [row]
  {
    var cur := if g.current.None? then Some(row.entry) else g.current;
    FlatSnoc(g.closed, Group(g.current, g.pending));
    if Some(row.entry) != cur {
      FlatSnoc(g.closed, Group(cur, g.pending));
      FlatSnoc(g.closed + [Group(cur, g.pending)], Group(Some(row.entry), [row]));
    } else {
      FlatSnoc(g.closed, Group(cur, g.pending + [row]));
    }
  }

  /** The loop state after `rows`. */
  function Run(rows: seq<IndexRow>): (r: Grouper)
    ensures |rows| == 0 ==> r == Start
    ensures |rows| > 0 ==> r.current == Some(rows[|rows| - 1].entry) && |r.pending| > 0
    decreases |rows|
  {
    if |rows| == 0 then Start else Step(Run(rows[..|rows| - 1]), rows[|rows| - 1])
  }

  /** The groups flushed for `rows`, the final flush included. */
  function Groups(rows: seq<IndexRow>): seq<Group> {
    Close(Run(rows))
  }

  /** Grouping loses, duplicates and reorders no row. */
  lemma {:induction false} GroupsKeepRows(rows: seq<IndexRow>)
    ensures Flat(Groups(rows)) == rows
    decreases |rows|
  {
    if |rows| == 0 {
      assert Groups(rows) == [] + [Group(None, [])];
      FlatSnoc([], Group(None, []));
    } else {
      GroupsKeepRows(rows[..|rows| - 1]);
      StepKeepsRows(Run(rows[..|rows| - 1]), rows[|rows| - 1]);
      assert rows == rows[..|rows| - 1] + [rows[|rows| - 1]];
    }
  }

  /** The group holds only rows of its own entry. */
  predicate OfEntry(g: Group) {
    forall k :: 0 <= k < |g.rows| ==> Some(g.rows[k].entry) == g.entry
  }

  /** Every group holds only rows of its own entry. */
  predicate Tagged(gs: seq<Group>) {
    forall i :: 0 <= i < |gs| ==> OfEntry(gs[i])
  }

  /** Groups carry an entry, are not empty, hold only rows of their entry, and neighbours differ. */
  predicate Keyed(gs: seq<Group>) {
    && (forall i :: 0 <= i < |gs| ==> gs[i].entry.Some? && |gs[i].rows| > 0)
    && Tagged(gs)
    && (forall i :: 0 <= i < |gs| - 1 ==> gs[i].entry != gs[i + 1].entry)
  }

  lemma {:induction false} StepKeyed(g: Grouper, row: IndexRow)
    requires Keyed(Close(g))
    ensures Keyed(Close(Step(g, row)))
  {
    var c := Close(g);
    assert c[|c| - 1] == Group(g.current, g.pending);
    assert forall i :: 0 <= i < |g.closed| ==> c[i] == g.closed[i];
    var r := Step(g, row);
    var d := Close(r);
    if Some(row.entry) != g.current {
      assert d == g.closed + [Group(g.current, g.pending), Group(Some(row.entry), [row])];
    } else {
      assert d == g.closed + [Group(g.current, g.pending + [row])];
    }
  }

  /** Each flushed group is a maximal run of consecutive rows sharing one entry. */
  lemma {:induction false} GroupsAreRuns(rows: seq<IndexRow>)
    requires |rows| > 0
    ensures Keyed(Groups(rows))
    decreases |rows|
  {
    if |rows| == 1 {
      assert rows[..0] == [];
      assert Run(rows) == Step(Start, rows[0]) == Grouper(Some(rows[0].entry), [] + [rows[0]], []);
      var g := Groups(rows);
      assert g == [] + [Group(Some(rows[0].entry), [] + [rows[0]])];
      assert |g| == 1 && g[0].rows == [rows[0]];
    } else {
      var init := rows[..|rows| - 1];
      assert forall i :: 0 <= i < |init| ==> init[i] == rows[i];
      GroupsAreRuns(init);
      StepKeyed(Run(init), rows[|rows| - 1]);
    }
  }

  /** An index row whose entry loads and which clears every gate: its key is written. */
  function WriteTest(load: Option<string> -> Loaded, maxPoints: int, parse: string -> Option<real>): IndexRow -> bool {
    (row: IndexRow) => load(Some(row.entry)).Found? && Passes(row, load(Some(row.entry)).sets, maxPoints, parse)
  }

  /** An index row whose entry loads but which some gate stops: it moves a skip counter. */
  function SkipTest(load: Option<string> -> Loaded, maxPoints: int, parse: string -> Option<real>): IndexRow -> bool {
    (row: IndexRow) => load(Some(row.entry)).Found? && !Passes(row, load(Some(row.entry)).sets, maxPoints, parse)
  }

  /** The keys the build writes for the index rows `rows`. */
  function IndexKeys(rows: seq<IndexRow>, load: Option<string> -> Loaded, maxPoints: int, parse: string -> Option<real>): set<EntryKey> {
    KeysWhere(rows, WriteTest(load, maxPoints, parse))
  }

  /** How many of the index rows `rows` a gate stops after their entry loaded. */
  function IndexSkips(rows: seq<IndexRow>, load: Option<string> -> Loaded, maxPoints: int, parse: string -> Option<real>): nat {
    CountWhere(rows, SkipTest(load, maxPoints, parse))
  }

  /** How many non-empty groups the loader does not find. */
  function Unfound(gs: seq<Group>, load: Option<string> -> Loaded): nat
    decreases |gs|
  {
    if |gs| == 0 then 0
    else Unfound(gs[..|gs| - 1], load) + (if |gs[|gs| - 1].rows| > 0 && load(gs[|gs| - 1].entry).NotFound? then 1 else 0)
  }

  /** How many non-empty groups fail to load. */
  function Unloadable(gs: seq<Group>, load: Option<string> -> Loaded): nat
    decreases |gs|
  {
    if |gs| == 0 then 0
    else Unloadable(gs[..|gs| - 1], load) + (if |gs[|gs| - 1].rows| > 0 && load(gs[|gs| - 1].entry).LoadFailed? then 1 else 0)
  }

  /**
   * The rows of one group, all of its own entry, are accounted for at index
   * level: a loaded group's passing keys and stopped rows are the index's,
   * and a group that does not load writes no key and skips no row.
   */
  lemma GroupAccounts(g: Group, load: Option<string> -> Loaded, maxPoints: int, parse: string -> Option<real>)
    requires OfEntry(g)
    ensures |g.rows| > 0 && load(g.entry).Found? ==>
      && PassingKeys(g.rows, load(g.entry).sets, maxPoints, parse) == IndexKeys(g.rows, load, maxPoints, parse)
      && Failures(g.rows, load(g.entry).sets, maxPoints, parse) == IndexSkips(g.rows, load, maxPoints, parse)
    ensures !(|g.rows| > 0 && load(g.entry).Found?) ==>
      IndexKeys(g.rows, load, maxPoints, parse) == {} && IndexSkips(g.rows, load, maxPoints, parse) == 0
  {
    if |g.rows| > 0 && load(g.entry).Found? {
      var sets := load(g.entry).sets;
      WhereAgree(g.rows, PassTest(sets, maxPoints, parse), WriteTest(load, maxPoints, parse));
      WhereAgree(g.rows, StopTest(sets, maxPoints, parse), SkipTest(load, maxPoints, parse));
    } else {
      WhereNone(g.rows, WriteTest(load, maxPoints, parse));
      WhereNone(g.rows, SkipTest(load, maxPoints, parse));
    }
  }

  /** Every group the loop flushes holds only rows of its own entry. */
  lemma GroupsTagged(rows: seq<IndexRow>)
    ensures Tagged(Groups(rows))
  {
    if |rows| == 0 {
      assert Groups(rows) == [] + [Group(None, [])];
    } else {
      GroupsAreRuns(rows);
    }
  }

  /** The store after flushing `gs` in order, starting from `st`. */
  function FlushAll(st: Store, gs: seq<Group>, load: Option<string> -> Loaded, maxPoints: int, parse: string -> Option<real>): (r: Store)
    ensures Consistent(st) ==> Consistent(r)
    ensures Handled(st.stats) <= Handled(r.stats) <= Handled(st.stats) + |Flat(gs)|
    ensures r.stats.missingEntries + r.stats.entryLoadErrors <= st.stats.missingEntries + st.stats.entryLoadErrors + |gs|
    ensures st.entries <= r.entries
    ensures r.stats.missingEntries == st.stats.missingEntries + Unfound(gs, load)
    ensures r.stats.entryLoadErrors == st.stats.entryLoadErrors + Unloadable(gs, load)
    decreases |gs|
  {
    if |gs| == 0 then st
    else
      var before := FlushAll(st, gs[..|gs| - 1], load, maxPoints, parse);
      var g := gs[|gs| - 1];
      var r := FlushEntry(before, g.entry, g.rows, load, maxPoints, parse);
      assert |g.rows| > 0 && load(g.entry).Found? ==>
        Handled(r.stats) <= Handled(before.stats) + |g.rows|;
      r
  }

  /** One flush of a group whose rows all belong to its entry, at index level. */
  lemma FlushEntryAccounts(st: Store, g: Group, load: Option<string> -> Loaded, maxPoints: int, parse: string -> Option<real>)
    requires OfEntry(g)
    ensures FlushEntry(st, g.entry, g.rows, load, maxPoints, parse).written == st.written + IndexKeys(g.rows, load, maxPoints, parse)
    ensures Skipped(FlushEntry(st, g.entry, g.rows, load, maxPoints, parse).stats) == Skipped(st.stats) + IndexSkips(g.rows, load, maxPoints, parse)
  {
    GroupAccounts(g, load, maxPoints, parse);
    if |g.rows| > 0 && load(g.entry).Found? {
      ApplyRowsWrites(st, g.rows, load(g.entry).sets, maxPoints, parse);
      ApplyRowsSkips(st, g.rows, load(g.entry).sets, maxPoints, parse);
    }
  }

  /** Dropping the last group keeps every group's rows of its own entry. */
  lemma TaggedInit(gs: seq<Group>)
    requires Tagged(gs) && |gs| > 0
    ensures Tagged(gs[..|gs| - 1])
    ensures OfEntry(gs[|gs| - 1])
  {
    assert forall i :: 0 <= i < |gs| - 1 ==> gs[..|gs| - 1][i] == gs[i];
  }

  /** One more group, whose rows all belong to its entry, adds its own rows' keys and skips. */
  lemma FlushAllStep(st: Store, gs: seq<Group>, load: Option<string> -> Loaded, maxPoints: int, parse: string -> Option<real>)
    requires |gs| > 0 && OfEntry(gs[|gs| - 1])
    ensures FlushAll(st, gs, load, maxPoints, parse).written ==
      FlushAll(st, gs[..|gs| - 1], load, maxPoints, parse).written + IndexKeys(gs[|gs| - 1].rows, load, maxPoints, parse)
    ensures Skipped(FlushAll(st, gs, load, maxPoints, parse).stats) ==
      Skipped(FlushAll(st, gs[..|gs| - 1], load, maxPoints, parse).stats) + IndexSkips(gs[|gs| - 1].rows, load, maxPoints, parse)
  {
    FlushEntryAccounts(FlushAll(st, gs[..|gs| - 1], load, maxPoints, parse), gs[|gs| - 1], load, maxPoints, parse);
  }

  /**
   * Flushing groups whose rows all belong to their group's entry writes
   * exactly the keys of the index rows whose entry loads and which clear
   * every gate.
   */
  lemma {:induction false} FlushAllWrites(st: Store, gs: seq<Group>, load: Option<string> -> Loaded, maxPoints: int, parse: string -> Option<real>)
    requires Tagged(gs)
    ensures FlushAll(st, gs, load, maxPoints, parse).written == st.written + IndexKeys(Flat(gs), load, maxPoints, parse)
    decreases |gs|
  {
    if |gs| == 0 {
      WhereNone([], WriteTest(load, maxPoints, parse));
    } else {
      var init := gs[..|gs| - 1];
      var g := gs[|gs| - 1];
      TaggedInit(gs);
      FlushAllWrites(st, init, load, maxPoints, parse);
      FlushAllStep(st, gs, load, maxPoints, parse);
      assert Flat(gs) == Flat(init) + g.rows;
      KeysWhereAppend(Flat(init), g.rows, WriteTest(load, maxPoints, parse));
    }
  }

  /**
   * Flushing groups whose rows all belong to their group's entry moves one
   * skip counter for every index row whose entry loads but which a gate stops.
   */
  lemma {:induction false} FlushAllSkips(st: Store, gs: seq<Group>, load: Option<string> -> Loaded, maxPoints: int, parse: string -> Option<real>)
    requires Tagged(gs)
    ensures Skipped(FlushAll(st, gs, load, maxPoints, parse).stats) == Skipped(st.stats) + IndexSkips(Flat(gs), load, maxPoints, parse)
    decreases |gs|
  {
    if |gs| == 0 {
      WhereNone([], SkipTest(load, maxPoints, parse));
    } else {
      var init := gs[..|gs| - 1];
      var g := gs[|gs| - 1];
      TaggedInit(gs);
      FlushAllSkips(st, init, load, maxPoints, parse);
      FlushAllStep(st, gs, load, maxPoints, parse);
      assert Flat(gs) == Flat(init) + g.rows;
      CountWhereAppend(Flat(init), g.rows, SkipTest(load, maxPoints, parse));
    }
  }

  lemma RunSnoc(rows: seq<IndexRow>, i: nat)
    requires i < |rows|
    ensures Run(rows[..i + 1]) == Step(Run(rows[..i]), rows[i])
  {
    assert rows[..i + 1][..i] == rows[..i];
  }

  lemma FlushAllSnoc(st: Store, gs: seq<Group>, g: Group, load: Option<string> -> Loaded, maxPoints: int, parse: string -> Option<real>)
    ensures FlushAll(st, gs + [g], load, maxPoints, parse) == FlushEntry(FlushAll(st, gs, load, maxPoints, parse), g.entry, g.rows, load, maxPoints, parse)
  {
    assert (gs + [g])[..|gs|] == gs;
  }

  lemma EmptyStoreConsistent()
    ensures Consistent(EmptyStore)
  {
    assert KeysOf([]) == {};
  }

  /**
   * The whole build: the stored tables stay consistent and an empty index
   * writes nothing. Every index row is accounted for: the keys written, and
   * so the entries inserted, are exactly those of the rows whose entry loads
   * and which clear every gate; each other row of a loaded entry moves one
   * skip counter; and each group whose entry is missing or fails to load
   * moves its load counter once.
   */
  function Build(rows: seq<IndexRow>, load: Option<string> -> Loaded, maxPoints: int, parse: string -> Option<real>): (r: Store)
    ensures Consistent(r)
    ensures Handled(r.stats) <= |rows|
    ensures |rows| == 0 ==> r == EmptyStore
    ensures r.written == IndexKeys(rows, load, maxPoints, parse)
    ensures r.stats.entriesInserted == |IndexKeys(rows, load, maxPoints, parse)|
    ensures Skipped(r.stats) == IndexSkips(rows, load, maxPoints, parse)
    ensures r.stats.missingEntries == Unfound(Groups(rows), load)
    ensures r.stats.entryLoadErrors == Unloadable(Groups(rows), load)
  {
    BuildShape(rows, load, maxPoints, parse);
    BuildWrites(rows, load, maxPoints, parse);
    BuildInserted(rows, load, maxPoints, parse);
    BuildSkips(rows, load, maxPoints, parse);
    FlushAll(EmptyStore, Groups(rows), load, maxPoints, parse)
  }

  /** The final store is consistent, no row is counted twice, and an empty index leaves the store empty. */
  lemma BuildShape(rows: seq<IndexRow>, load: Option<string> -> Loaded, maxPoints: int, parse: string -> Option<real>)
    ensures Consistent(FlushAll(EmptyStore, Groups(rows), load, maxPoints, parse))
    ensures Handled(FlushAll(EmptyStore, Groups(rows), load, maxPoints, parse).stats) <= |rows|
    ensures |rows| == 0 ==> FlushAll(EmptyStore, Groups(rows), load, maxPoints, parse) == EmptyStore
  {
    GroupsKeepRows(rows);
    EmptyStoreConsistent();
    EmptyIndex(rows, load, maxPoints, parse);
  }

  /** The keys a build writes are exactly those of its loaded, passing index rows. */
  lemma BuildWrites(rows: seq<IndexRow>, load: Option<string> -> Loaded, maxPoints: int, parse: string -> Option<real>)
    ensures FlushAll(EmptyStore, Groups(rows), load, maxPoints, parse).written == IndexKeys(rows, load, maxPoints, parse)
  {
    GroupsKeepRows(rows);
    GroupsTagged(rows);
    FlushAllWrites(EmptyStore, Groups(rows), load, maxPoints, parse);
    assert EmptyStore.written == {};
  }

  /** A build inserts one entry per written key. */
  lemma BuildInserted(rows: seq<IndexRow>, load: Option<string> -> Loaded, maxPoints: int, parse: string -> Option<real>)
    ensures FlushAll(EmptyStore, Groups(rows), load, maxPoints, parse).stats.entriesInserted == |IndexKeys(rows, load, maxPoints, parse)|
  {
    EmptyStoreConsistent();
    BuildWrites(rows, load, maxPoints, parse);
    EntriesMatchWritten(FlushAll(EmptyStore, Groups(rows), load, maxPoints, parse));
  }

  /** A build moves one skip counter per loaded index row that some gate stops. */
  lemma BuildSkips(rows: seq<IndexRow>, load: Option<string> -> Loaded, maxPoints: int, parse: string -> Option<real>)
    ensures Skipped(FlushAll(EmptyStore, Groups(rows), load, maxPoints, parse).stats) == IndexSkips(rows, load, maxPoints, parse)
  {
    GroupsKeepRows(rows);
    GroupsTagged(rows);
    FlushAllSkips(EmptyStore, Groups(rows), load, maxPoints, parse);
  }

  /** The empty index makes a single flush, of no rows, which changes nothing. */
  lemma EmptyIndex(rows: seq<IndexRow>, load: Option<string> -> Loaded, maxPoints: int, parse: string -> Option<real>)
    ensures |rows| == 0 ==> FlushAll(EmptyStore, Groups(rows), load, maxPoints, parse) == EmptyStore
  {
    if |rows| == 0 {
      assert Groups(rows) == [] + [Group(None, [])];
      FlushAllSnoc(EmptyStore, [], Group(None, []), load, maxPoints, parse);
    }
  }

  /** The loop as the build script runs it, one index row at a time. */
  method RunBuild(rows: seq<IndexRow>, load: Option<string> -> Loaded, maxPoints: int, parse: string -> Option<real>) returns (st: Store)
    ensures st == Build(rows, load, maxPoints, parse)
    ensures Consistent(st)
  {
    var current: Option<string> := None;
    var entryRows: seq<IndexRow> := [];
    ghost var closed: seq<Group> := [];
    st := EmptyStore;
    var i := 0;
    while i < |rows|
      invariant 0 <= i <= |rows|
      invariant Run(rows[..i]) == Grouper(current, entryRows, closed)
      invariant st == FlushAll(EmptyStore, closed, load, maxPoints, parse)
    {
      var row := rows[i];
      RunSnoc(rows, i);
      if current.None? {
        current := Some(row.entry);
      }
      if Some(row.entry) != current {
        FlushAllSnoc(EmptyStore, closed, Group(current, entryRows), load, maxPoints, parse);
        st := FlushEntry(st, current, entryRows, load, maxPoints, parse);
        closed := closed + [Group(current, entryRows)];
        entryRows := [row];
        current := Some(row.entry);
      } else {
        entryRows := entryRows + [row];
      }
      i := i + 1;
    }
    assert rows[..i] == rows;
    FlushAllSnoc(EmptyStore, closed, Group(current, entryRows), load, maxPoints, parse);
    st := FlushEntry(st, current, entryRows, load, maxPoints, parse);
  }

}
