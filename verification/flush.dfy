/**
 * `flush_entry`: one EXFOR entry's index rows are checked in a fixed order
 * (target and quantity, projectile, dataset, points, duplicate key) and each
 * surviving row becomes one entry record and its point records. The store
 * is modelled as the sequences of inserted records plus the counters.
 */
module Flush {
  import opened Wrappers
  import Target
  import Tables
  import opened Points
  import opened Lookup

  /** One row of the index query: entry, subentry, pointer, target, projectile, reaction, quantity, author. */
  datatype IndexRow = IndexRow(
    entry: string,
    subent: string,
    pointer: Option<string>,
    target: Option<string>,
    projectile: string,
    reaction: Option<string>,
    quantity: string,
    author: Option<string>)

  /** What loading an entry gives: nothing, a failure, or its datasets. */
  datatype Loaded = NotFound | LoadFailed | Found(sets: DatasetMap)

  /** The build's counters. */
  datatype Stats = Stats(
    missingEntries: nat,
    entryLoadErrors: nat,
    skippedNonNuclideOrQuantity: nat,
    skippedProjectile: nat,
    missingDataset: nat,
    emptyPoints: nat,
    entriesInserted: nat,
    pointsInserted: nat)

  const NoStats := Stats(0, 0, 0, 0, 0, 0, 0, 0)

  /** A row of the entries table; `year` is always written as NULL. */
  datatype EntryRecord = EntryRecord(
    entryId: string,
    subentryId: string,
    z: nat,
    a: nat,
    state: nat,
    projectile: string,
    reaction: Option<string>,
    quantity: string,
    reference: Option<string>,
    year: Option<int>)

  /** A row of the points table. */
  datatype PointRecord = PointRecord(entryId: string, subentryId: string, point: Point)

  /** The primary key of the entries table. */
  type EntryKey = (string, string)

  /** What the build has written so far: the keys seen, the counters and the inserted records. */
  datatype Store = Store(written: set<EntryKey>, stats: Stats, entries: seq<EntryRecord>, points: seq<PointRecord>)

  const EmptyStore := Store({}, NoStats, [], [])

  function KeyOf(e: EntryRecord): EntryKey {
    (e.entryId, e.subentryId)
  }

  function PointKey(p: PointRecord): EntryKey {
    (p.entryId, p.subentryId)
  }

  function KeysOf(es: seq<EntryRecord>): set<EntryKey> {
    set i | 0 <= i < |es| :: KeyOf(es[i])
  }

  /**
   * The store's invariant: the counters match the tables, the written set
   * is exactly the set of entry keys, entry keys are unique (the table's
   * primary key) and every point refers to an inserted entry (its foreign key).
   */
  predicate Consistent(st: Store) {
    && st.stats.entriesInserted == |st.entries|
    && st.stats.pointsInserted == |st.points|
    && st.written == KeysOf(st.entries)
    && (forall i, j :: 0 <= i < j < |st.entries| ==> KeyOf(st.entries[i]) != KeyOf(st.entries[j]))
    && (forall j :: 0 <= j < |st.points| ==> PointKey(st.points[j]) in st.written)
  }

  /** The key a row would be written under. */
  function RowKey(row: IndexRow): EntryKey {
    (row.entry, SubentryId(row.subent, NormalizePointer(row.pointer)))
  }

  /** The dataset a row reads, among the datasets of its entry. */
  function RowDataset(row: IndexRow, sets: DatasetMap): Option<Dataset> {
    FindDataset(sets, row.entry, row.subent, NormalizePointer(row.pointer))
  }

  /** What happens to one row. */
  datatype Outcome =
    | SkipNonNuclideOrQuantity
    | SkipProjectile
    | MissingDataset
    | EmptyPoints
    | AlreadyWritten
    | Insert(entry: EntryRecord, points: seq<Point>)

  /** The gates a row must pass, in the order the build applies them. */
  function Classify(row: IndexRow, sets: DatasetMap, written: set<EntryKey>, maxPoints: int, parse: string -> Option<real>): (o: Outcome)
    ensures o.SkipNonNuclideOrQuantity? <==>
      Target.ParseTarget(row.target).None? || row.quantity !in Tables.SupportedQuantities
    ensures o.SkipProjectile? <==>
      Target.ParseTarget(row.target).Some? && row.quantity in Tables.SupportedQuantities
      && Tables.ProjectileCode(row.projectile).None?
    ensures o.MissingDataset? <==>
      Target.ParseTarget(row.target).Some? && row.quantity in Tables.SupportedQuantities
      && Tables.ProjectileCode(row.projectile).Some? && RowDataset(row, sets).None?
    ensures o.MissingDataset? ==> forall k :: 0 <= k < |sets| ==> sets[k].0.subent != row.subent
    ensures o.EmptyPoints? ==> RowDataset(row, sets).Some?
    ensures o.AlreadyWritten? ==> RowKey(row) in written
    ensures o.Insert? || o.AlreadyWritten? <==>
      && Target.ParseTarget(row.target).Some? && row.quantity in Tables.SupportedQuantities
      && Tables.ProjectileCode(row.projectile).Some?
      && RowDataset(row, sets).Some?
      && |ExtractPoints(RowDataset(row, sets).value, row.quantity, maxPoints, parse)| > 0
    ensures o.Insert? ==> RowKey(row) !in written && KeyOf(o.entry) == RowKey(row)
    ensures o.Insert? ==>
      var n := Target.ParseTarget(row.target).value;
      && o.entry == EntryRecord(row.entry, RowKey(row).1, n.z, n.a, n.state, Tables.ProjectileCode(row.projectile).value,
                                row.reaction, row.quantity, row.author, None)
      && o.points == ExtractPoints(RowDataset(row, sets).value, row.quantity, maxPoints, parse)
  {
    var target := Target.ParseTarget(row.target);
    if target.None? || row.quantity !in Tables.SupportedQuantities then SkipNonNuclideOrQuantity
    else
      var projectile := Tables.ProjectileCode(row.projectile);
      if projectile.None? then SkipProjectile
      else
        match RowDataset(row, sets)
        case None => MissingDataset
        case Some(ds) =>
          var points := ExtractPoints(ds, row.quantity, maxPoints, parse);
          if |points| == 0 then EmptyPoints
          else if RowKey(row) in written then AlreadyWritten
          else
            var n := target.value;
            Insert(EntryRecord(row.entry, RowKey(row).1, n.z, n.a, n.state, projectile.value,
                               row.reaction, row.quantity, row.author, None), points)
  }

  /** No counter of `b` is below its value in `a`. */
  predicate Grew(a: Stats, b: Stats) {
    && a.missingEntries <= b.missingEntries && a.entryLoadErrors <= b.entryLoadErrors
    && a.skippedNonNuclideOrQuantity <= b.skippedNonNuclideOrQuantity && a.skippedProjectile <= b.skippedProjectile
    && a.missingDataset <= b.missingDataset && a.emptyPoints <= b.emptyPoints
    && a.entriesInserted <= b.entriesInserted && a.pointsInserted <= b.pointsInserted
  }

  /** The four counters of rows that some gate stops. */
  function Skipped(s: Stats): nat {
    s.skippedNonNuclideOrQuantity + s.skippedProjectile + s.missingDataset + s.emptyPoints
  }

  /** The counters that account for rows of a loaded entry. */
  function Handled(s: Stats): nat {
    Skipped(s) + s.entriesInserted
  }

  /** A row clears every gate against `sets`, so it is either inserted or a duplicate. */
  predicate Passes(row: IndexRow, sets: DatasetMap, maxPoints: int, parse: string -> Option<real>) {
    && Target.ParseTarget(row.target).Some? && row.quantity in Tables.SupportedQuantities
    && Tables.ProjectileCode(row.projectile).Some?
    && RowDataset(row, sets).Some?
    && |ExtractPoints(RowDataset(row, sets).value, row.quantity, maxPoints, parse)| > 0
  }

  /** The keys of the rows that `keep` accepts. */
  function KeysWhere(rows: seq<IndexRow>, keep: IndexRow -> bool): set<EntryKey>
    decreases |rows|
  {
    if |rows| == 0 then {}
    else (if keep(rows[0]) then {RowKey(rows[0])} else {}) + KeysWhere(rows[1..], keep)
  }

  /** A key is selected exactly when some accepted row has it. */
  lemma {:induction false} KeysWhereMembers(rows: seq<IndexRow>, keep: IndexRow -> bool, k: EntryKey)
    ensures k in KeysWhere(rows, keep) <==> exists i :: 0 <= i < |rows| && keep(rows[i]) && RowKey(rows[i]) == k
    decreases |rows|
  {
    if |rows| > 0 {
      var tail := rows[1..];
      KeysWhereMembers(tail, keep, k);
      if k in KeysWhere(tail, keep) {
        var i :| 0 <= i < |tail| && keep(tail[i]) && RowKey(tail[i]) == k;
        assert rows[i + 1] == tail[i];
      }
      if exists i :: 0 <= i < |rows| && keep(rows[i]) && RowKey(rows[i]) == k {
        var i :| 0 <= i < |rows| && keep(rows[i]) && RowKey(rows[i]) == k;
        if i > 0 {
          assert tail[i - 1] == rows[i];
        }
      }
    }
  }

  /** How many of the rows `keep` accepts. */
  function CountWhere(rows: seq<IndexRow>, keep: IndexRow -> bool): nat
    decreases |rows|
  {
    if |rows| == 0 then 0 else (if keep(rows[0]) then 1 else 0) + CountWhere(rows[1..], keep)
  }

  lemma {:induction false} KeysWhereAppend(a: seq<IndexRow>, b: seq<IndexRow>, keep: IndexRow -> bool)
    ensures KeysWhere(a + b, keep) == KeysWhere(a, keep) + KeysWhere(b, keep)
    decreases |a|
  {
    if |a| == 0 {
      assert a + b == b;
    } else {
      assert (a + b)[0] == a[0];
      assert (a + b)[1..] == a[1..] + b;
      KeysWhereAppend(a[1..], b, keep);
    }
  }

  lemma {:induction false} CountWhereAppend(a: seq<IndexRow>, b: seq<IndexRow>, keep: IndexRow -> bool)
    ensures CountWhere(a + b, keep) == CountWhere(a, keep) + CountWhere(b, keep)
    decreases |a|
  {
    if |a| == 0 {
      assert a + b == b;
    } else {
      assert (a + b)[0] == a[0];
      assert (a + b)[1..] == a[1..] + b;
      CountWhereAppend(a[1..], b, keep);
    }
  }

  /** Two tests that agree on every row select the same keys and the same number of rows. */
  lemma {:induction false} WhereAgree(rows: seq<IndexRow>, f: IndexRow -> bool, g: IndexRow -> bool)
    requires forall k :: 0 <= k < |rows| ==> f(rows[k]) == g(rows[k])
    ensures KeysWhere(rows, f) == KeysWhere(rows, g)
    ensures CountWhere(rows, f) == CountWhere(rows, g)
    decreases |rows|
  {
    if |rows| > 0 {
      assert forall k :: 0 <= k < |rows| - 1 ==> rows[1..][k] == rows[k + 1];
      WhereAgree(rows[1..], f, g);
    }
  }

  /** A test no row meets selects no key and no row. */
  lemma {:induction false} WhereNone(rows: seq<IndexRow>, keep: IndexRow -> bool)
    requires forall k :: 0 <= k < |rows| ==> !keep(rows[k])
    ensures KeysWhere(rows, keep) == {}
    ensures CountWhere(rows, keep) == 0
    decreases |rows|
  {
    if |rows| > 0 {
      assert forall k :: 0 <= k < |rows| - 1 ==> rows[1..][k] == rows[k + 1];
      WhereNone(rows[1..], keep);
    }
  }

  function PassTest(sets: DatasetMap, maxPoints: int, parse: string -> Option<real>): IndexRow -> bool {
    row => Passes(row, sets, maxPoints, parse)
  }

  function StopTest(sets: DatasetMap, maxPoints: int, parse: string -> Option<real>): IndexRow -> bool {
    row => !Passes(row, sets, maxPoints, parse)
  }

  /** The keys of the rows that clear every gate. */
  function PassingKeys(rows: seq<IndexRow>, sets: DatasetMap, maxPoints: int, parse: string -> Option<real>): set<EntryKey> {
    KeysWhere(rows, PassTest(sets, maxPoints, parse))
  }

  /** How many of the rows some gate stops. */
  function Failures(rows: seq<IndexRow>, sets: DatasetMap, maxPoints: int, parse: string -> Option<real>): nat {
    CountWhere(rows, StopTest(sets, maxPoints, parse))
  }

  function Stamp(entryId: string, subentryId: string, points: seq<Point>): (r: seq<PointRecord>)
    ensures |r| == |points|
    ensures forall j :: 0 <= j < |r| ==> r[j] == PointRecord(entryId, subentryId, points[j])
  {
    seq(|points|, j requires 0 <= j < |points| => PointRecord(entryId, subentryId, points[j]))
  }

  /**
   * What an outcome writes: a skip moves its own counter, a duplicate
   * changes nothing, and an insert appends the entry and its stamped points,
   * marks the key written and moves the two insert counters.
   */
  function Effect(st: Store, o: Outcome): (r: Store)
    ensures Consistent(st) && (o.Insert? ==> KeyOf(o.entry) !in st.written) ==> Consistent(r)
    ensures o.Insert? ==>
      && r.entries == st.entries + [o.entry]
      && r.points == st.points + Stamp(o.entry.entryId, o.entry.subentryId, o.points)
      && r.written == st.written + {KeyOf(o.entry)}
      && r.stats == st.stats.(entriesInserted := st.stats.entriesInserted + 1,
                              pointsInserted := st.stats.pointsInserted + |o.points|)
    ensures !o.Insert? ==> r.written == st.written && r.entries == st.entries && r.points == st.points
    ensures o.AlreadyWritten? ==> r == st
    ensures o.SkipNonNuclideOrQuantity? ==>
      r.stats == st.stats.(skippedNonNuclideOrQuantity := st.stats.skippedNonNuclideOrQuantity + 1)
    ensures o.SkipProjectile? ==> r.stats == st.stats.(skippedProjectile := st.stats.skippedProjectile + 1)
    ensures o.MissingDataset? ==> r.stats == st.stats.(missingDataset := st.stats.missingDataset + 1)
    ensures o.EmptyPoints? ==> r.stats == st.stats.(emptyPoints := st.stats.emptyPoints + 1)
    ensures Grew(st.stats, r.stats)
    ensures r.stats.missingEntries == st.stats.missingEntries && r.stats.entryLoadErrors == st.stats.entryLoadErrors
    ensures Handled(r.stats) == Handled(st.stats) + (if o.AlreadyWritten? then 0 else 1)
  {
    var s := st.stats;
    match o
    case SkipNonNuclideOrQuantity => st.(stats := s.(skippedNonNuclideOrQuantity := s.skippedNonNuclideOrQuantity + 1))
    case SkipProjectile => st.(stats := s.(skippedProjectile := s.skippedProjectile + 1))
    case MissingDataset => st.(stats := s.(missingDataset := s.missingDataset + 1))
    case EmptyPoints => st.(stats := s.(emptyPoints := s.emptyPoints + 1))
    case AlreadyWritten => st
    case Insert(e, points) =>
      var r := Store(
        st.written + {KeyOf(e)},
        s.(entriesInserted := s.entriesInserted + 1, pointsInserted := s.pointsInserted + |points|),
        st.entries + [e],
        st.points + Stamp(e.entryId, e.subentryId, points));
      assert Consistent(st) && KeyOf(e) !in st.written ==> Consistent(r) by {
        if Consistent(st) && KeyOf(e) !in st.written {
          InsertKeeps(st, e, points);
        }
      }
      r
  }

  /**
   * The effect of one row on the store: no counter goes down and the row
   * counters rise by exactly one in total, so exactly one of them moves,
   * unless the row is a duplicate, which leaves the store as it was. Each
   * skip moves its own counter; an inserted row appends its entry record and
   * all its points and marks its key written.
   */
  function ApplyRow(st: Store, row: IndexRow, sets: DatasetMap, maxPoints: int, parse: string -> Option<real>): (r: Store)
    ensures Consistent(st) ==> Consistent(r)
    ensures Grew(st.stats, r.stats)
    ensures r.stats.missingEntries == st.stats.missingEntries && r.stats.entryLoadErrors == st.stats.entryLoadErrors
    ensures st.written <= r.written
    ensures st.entries <= r.entries && st.points <= r.points
    ensures var o := Classify(row, sets, st.written, maxPoints, parse);
      && (o.AlreadyWritten? ==> r == st)
      && Handled(r.stats) == Handled(st.stats) + (if o.AlreadyWritten? then 0 else 1)
      && (!o.Insert? ==> r.written == st.written && r.entries == st.entries && r.points == st.points)
      && (o.Insert? ==>
            && r.entries == st.entries + [o.entry]
            && r.points == st.points + Stamp(o.entry.entryId, o.entry.subentryId, o.points)
            && r.written == st.written + {KeyOf(o.entry)}
            && r.stats == st.stats.(entriesInserted := st.stats.entriesInserted + 1,
                                    pointsInserted := st.stats.pointsInserted + |o.points|))
      && (o.SkipNonNuclideOrQuantity? ==>
            r.stats == st.stats.(skippedNonNuclideOrQuantity := st.stats.skippedNonNuclideOrQuantity + 1))
      && (o.SkipProjectile? ==> r.stats == st.stats.(skippedProjectile := st.stats.skippedProjectile + 1))
      && (o.MissingDataset? ==> r.stats == st.stats.(missingDataset := st.stats.missingDataset + 1))
      && (o.EmptyPoints? ==> r.stats == st.stats.(emptyPoints := st.stats.emptyPoints + 1))
  {
    Effect(st, Classify(row, sets, st.written, maxPoints, parse))
  }

  /** One row that clears every gate has its key written; any other row writes no key. */
  lemma ApplyRowWrites(st: Store, row: IndexRow, sets: DatasetMap, maxPoints: int, parse: string -> Option<real>)
    ensures ApplyRow(st, row, sets, maxPoints, parse).written ==
      st.written + (if Passes(row, sets, maxPoints, parse) then {RowKey(row)} else {})
  {
    var o := Classify(row, sets, st.written, maxPoints, parse);
    assert o.Insert? || o.AlreadyWritten? <==> Passes(row, sets, maxPoints, parse);
  }

  /** One row that some gate stops moves exactly one skip counter; any other row moves none. */
  lemma ApplyRowSkips(st: Store, row: IndexRow, sets: DatasetMap, maxPoints: int, parse: string -> Option<real>)
    ensures Skipped(ApplyRow(st, row, sets, maxPoints, parse).stats) ==
      Skipped(st.stats) + (if Passes(row, sets, maxPoints, parse) then 0 else 1)
  {
    var o := Classify(row, sets, st.written, maxPoints, parse);
    assert o.Insert? || o.AlreadyWritten? <==> Passes(row, sets, maxPoints, parse);
  }

  /** Inserting an entry under a fresh key, with its points, keeps the store consistent. */
  lemma InsertKeeps(st: Store, e: EntryRecord, points: seq<Point>)
    requires Consistent(st) && KeyOf(e) !in st.written
    ensures Consistent(Store(
      st.written + {KeyOf(e)},
      st.stats.(entriesInserted := st.stats.entriesInserted + 1, pointsInserted := st.stats.pointsInserted + |points|),
      st.entries + [e],
      st.points + Stamp(e.entryId, e.subentryId, points)))
  {
    var es := st.entries + [e];
    assert KeysOf(es) == KeysOf(st.entries) + {KeyOf(e)} by {
      assert forall i :: 0 <= i < |st.entries| ==> es[i] == st.entries[i];
      assert es[|st.entries|] == e;
    }
    assert forall i :: 0 <= i < |st.entries| ==> KeyOf(st.entries[i]) in st.written;
    var ps := st.points + Stamp(e.entryId, e.subentryId, points);
    assert forall j :: |st.points| <= j < |ps| ==> PointKey(ps[j]) == KeyOf(e);
  }

  /**
   * First write wins: a row whose key is already in the store writes no
   * record; it still moves a skip counter if an earlier gate stops it, and
   * changes nothing at all if it passes them.
   */
  lemma FirstWriteWins(st: Store, row: IndexRow, sets: DatasetMap, maxPoints: int, parse: string -> Option<real>)
    requires RowKey(row) in st.written
    ensures !Classify(row, sets, st.written, maxPoints, parse).Insert?
    ensures ApplyRow(st, row, sets, maxPoints, parse).entries == st.entries
    ensures ApplyRow(st, row, sets, maxPoints, parse).points == st.points
    ensures ApplyRow(st, row, sets, maxPoints, parse).written == st.written
  {
  }

  /** Distinct keys: the written set has one element per inserted entry. */
  lemma {:induction false} KeysCount(es: seq<EntryRecord>)
    requires forall i, j :: 0 <= i < j < |es| ==> KeyOf(es[i]) != KeyOf(es[j])
    ensures |KeysOf(es)| == |es|
    decreases |es|
  {
    if |es| > 0 {
      var init := es[..|es| - 1];
      var last := es[|es| - 1];
      assert forall i :: 0 <= i < |init| ==> init[i] == es[i];
      KeysCount(init);
      assert KeysOf(es) == KeysOf(init) + {KeyOf(last)};
      assert KeyOf(last) !in KeysOf(init);
    }
  }

  /** In a consistent store `entries_inserted` equals the size of the written-key set. */
  lemma EntriesMatchWritten(st: Store)
    requires Consistent(st)
    ensures st.stats.entriesInserted == |st.written|
  {
    KeysCount(st.entries);
  }

  /** The rows of one loaded entry, in order. */
  function ApplyRows(st: Store, rows: seq<IndexRow>, sets: DatasetMap, maxPoints: int, parse: string -> Option<real>): (r: Store)
    ensures Consistent(st) ==> Consistent(r)
    ensures Grew(st.stats, r.stats)
    ensures r.stats.missingEntries == st.stats.missingEntries && r.stats.entryLoadErrors == st.stats.entryLoadErrors
    ensures Handled(st.stats) <= Handled(r.stats) <= Handled(st.stats) + |rows|
    ensures st.written <= r.written
    ensures st.entries <= r.entries && st.points <= r.points
    decreases |rows|
  {
    if |rows| == 0 then st
    else
      var next := ApplyRow(st, rows[0], sets, maxPoints, parse);
      var r := ApplyRows(next, rows[1..], sets, maxPoints, parse);
      r
  }

  /**
   * The rows are applied first to last: one more row is applied after all
   * earlier ones, so of two rows with the same key the earlier one is kept.
   */
  lemma {:induction false} ApplyRowsSnoc(st: Store, rows: seq<IndexRow>, row: IndexRow, sets: DatasetMap, maxPoints: int, parse: string -> Option<real>)
    ensures ApplyRows(st, rows + [row], sets, maxPoints, parse) == ApplyRow(ApplyRows(st, rows, sets, maxPoints, parse), row, sets, maxPoints, parse)
    decreases |rows|
  {
    if |rows| == 0 {
      assert rows + [row] == [row];
      assert [row][1..] == [];
    } else {
      assert (rows + [row])[0] == rows[0];
      assert (rows + [row])[1..] == rows[1..] + [row];
      ApplyRowsSnoc(ApplyRow(st, rows[0], sets, maxPoints, parse), rows[1..], row, sets, maxPoints, parse);
    }
  }

  /** The keys a loaded entry writes are exactly those of its rows that clear every gate. */
  lemma {:induction false} ApplyRowsWrites(st: Store, rows: seq<IndexRow>, sets: DatasetMap, maxPoints: int, parse: string -> Option<real>)
    ensures ApplyRows(st, rows, sets, maxPoints, parse).written == st.written + PassingKeys(rows, sets, maxPoints, parse)
    decreases |rows|
  {
    if |rows| == 0 {
      assert PassingKeys(rows, sets, maxPoints, parse) == {};
    } else {
      var next := ApplyRow(st, rows[0], sets, maxPoints, parse);
      ApplyRowWrites(st, rows[0], sets, maxPoints, parse);
      ApplyRowsWrites(next, rows[1..], sets, maxPoints, parse);
    }
  }

  /** Each row of a loaded entry that some gate stops moves exactly one skip counter. */
  lemma {:induction false} ApplyRowsSkips(st: Store, rows: seq<IndexRow>, sets: DatasetMap, maxPoints: int, parse: string -> Option<real>)
    ensures Skipped(ApplyRows(st, rows, sets, maxPoints, parse).stats) == Skipped(st.stats) + Failures(rows, sets, maxPoints, parse)
    decreases |rows|
  {
    if |rows| > 0 {
      var next := ApplyRow(st, rows[0], sets, maxPoints, parse);
      ApplyRowSkips(st, rows[0], sets, maxPoints, parse);
      ApplyRowsSkips(next, rows[1..], sets, maxPoints, parse);
    }
  }

  /**
   * `flush_entry`: an empty group does nothing; an entry that cannot be
   * found or loaded moves one counter and nothing else; otherwise every row
   * is applied in order against the entry's datasets.
   */
  function FlushEntry(st: Store, entry: Option<string>, rows: seq<IndexRow>, load: Option<string> -> Loaded, maxPoints: int, parse: string -> Option<real>): (r: Store)
    ensures |rows| == 0 ==> r == st
    ensures |rows| > 0 && !load(entry).Found? ==>
      && r.entries == st.entries && r.points == st.points && r.written == st.written
      && Skipped(r.stats) == Skipped(st.stats) && r.stats.entriesInserted == st.stats.entriesInserted
      && r.stats.missingEntries + r.stats.entryLoadErrors == st.stats.missingEntries + st.stats.entryLoadErrors + 1
    ensures |rows| > 0 && load(entry).NotFound? ==> r == st.(stats := st.stats.(missingEntries := st.stats.missingEntries + 1))
    ensures |rows| > 0 && load(entry).LoadFailed? ==> r == st.(stats := st.stats.(entryLoadErrors := st.stats.entryLoadErrors + 1))
    ensures |rows| > 0 && load(entry).Found? ==> r == ApplyRows(st, rows, load(entry).sets, maxPoints, parse)
    ensures Consistent(st) ==> Consistent(r)
    ensures st.written <= r.written
    ensures st.entries <= r.entries && st.points <= r.points
  {
    if |rows| == 0 then st
    else
      var s := st.stats;
      match load(entry)
      case NotFound => st.(stats := s.(missingEntries := s.missingEntries + 1))
      case LoadFailed => st.(stats := s.(entryLoadErrors := s.entryLoadErrors + 1))
      case Found(sets) => ApplyRows(st, rows, sets, maxPoints, parse)
  }
}
