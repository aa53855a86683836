/**
 The account registry and its identity sequence as two files of one directory
 (internal/registry/store.go and sequence.go). No write covers both, any step
 may be the last before a kill, and power loss undoes unsynced changes.
 */
module Registry {
  import opened Wrappers
  import opened Storage
  import opened Validate
  import opened Records
  import opened Tables
  import opened Sequences
  import opened Transitions
  import Numbers
  import Times

  const TABLE := "registry.tsv"
  const LOCK := "registry.lock"
  const SEQUENCE := "identity-sequence"

  /**
   Died: killed on the way. Err: reported to the caller, perhaps after a visible
   write. Uncovered: the error that a row's UID is above the sequence.
   */
  datatype Answer = Ok | Err | Died | Uncovered

  function Highest(rows: seq<Row>): (h: nat)
    ensures forall r | r in rows :: r.uid <= h
    ensures h == 0 || exists r | r in rows :: r.uid == h
  {
    if rows == [] then 0
    else
      var h, last := Highest(rows[..|rows| - 1]), rows[|rows| - 1];
      assert rows == rows[..|rows| - 1] + [last];
      if last.uid > h then last.uid else h
  }

  method HighestRecordedUID(rows: seq<Row>) returns (h: nat)
    ensures h == Highest(rows)
  {
    h := 0;
    for i := 0 to |rows|
      invariant h == Highest(rows[..i])
    {
      assert rows[..i + 1][..i] == rows[..i];
      if rows[i].uid > h { h := rows[i].uid; }
    }
    assert rows[..|rows|] == rows;
  }

  function TableOf(f: Files): Option<Table> { if TABLE in f then Some(ReadTable(f[TABLE])) else None }

  /** None when the file is absent or does not parse. */
  function SequenceOf(f: Files): Option<Sequence> { if SEQUENCE in f then ReadSequence(f[SEQUENCE]) else None }

  function Mark(f: Files): nat { var s := SequenceOf(f); if s.Some? then s.value.highest else 0 }

  function Rows(t: Option<Table>): seq<Row> { if t.Some? && t.value.Table? then t.value.rows else [] }

  predicate Current(t: Option<Table>) { t.Some? && t.value.Table? && t.value.version == V5 }
  predicate Legacy(t: Option<Table>) { t.Some? && t.value.Table? && t.value.version != V5 }
  predicate Damaged(t: Option<Table>) { t == Some(Unreadable) }

  /** One state of the directory and every UID its lineage ever put in a row or reserved. */
  datatype Moment = Moment(files: Files, issued: set<int>)

  /**
   A v5 table has a sequence, and no issued UID is above what the sequence, or
   a legacy table that still has to be migrated, remembers.
   */
  ghost predicate Safe(m: Moment) {
    var t := TableOf(m.files);
    (Current(t) ==> SequenceOf(m.files).Some?) &&
    (!Damaged(t) ==>
      (forall r | r in Rows(t) :: r.uid in m.issued) &&
      forall u | u in m.issued :: u <= Mark(m.files) || (Legacy(t) && u <= Highest(Rows(t))))
  }

  lemma SafeCovers(m: Moment)
    requires Safe(m) && Current(TableOf(m.files))
    ensures SequenceOf(m.files).Some? && Highest(Rows(TableOf(m.files))) <= Mark(m.files)
  {
  }

  /**
   What a call may have done to the states power loss can fall back to: kept
   old ones, or added ones that forget no issued UID and whose table is the last
   one before or the one the call was to write. What readers see is no older state.
   */
  ghost predicate Continues(h: seq<Moment>, h': seq<Moment>, target: Option<Table>)
    requires h != []
  {
    h' != [] &&
    (forall m | m in h' :: m in h || Follows(h[|h| - 1], m, target)) &&
    (h'[|h'| - 1] == h[|h| - 1] || Follows(h[|h| - 1], h'[|h'| - 1], target))
  }

  ghost predicate Follows(last: Moment, m: Moment, target: Option<Table>) {
    last.issued <= m.issued && (TableOf(m.files) == TableOf(last.files) || TableOf(m.files) == target)
  }

  lemma ContinuesOn(h: seq<Moment>, h1: seq<Moment>, h2: seq<Moment>, target: Option<Table>)
    requires h != [] && (Continues(h, h1, TableOf(h[|h| - 1].files)) || Continues(h, h1, target))
    requires Continues(h1, h2, target)
    ensures Continues(h, h2, target)
  {
    hide TableOf;
    forall m | m in h2 && m !in h ensures Follows(h[|h| - 1], m, target) {
    }
  }

  /** Writing a sequence that is not lower keeps every promise of the state. */
  lemma SequenceRaised(m: Moment, text: string, s: Sequence, more: set<int>)
    requires Safe(m) && ReadSequence(text) == Some(s)
    requires Mark(m.files) <= s.highest && forall u | u in more :: u <= s.highest
    ensures var m' := Moment(m.files[SEQUENCE := text], m.issued + more);
      Safe(m') && SequenceOf(m'.files) == Some(s) && TableOf(m'.files) == TableOf(m.files)
  {
    var f := m.files[SEQUENCE := text];
    assert TableOf(f) == TableOf(m.files) && Mark(f) == s.highest;
  }

  /** So does publishing rows that the sequence covers, once it covers everything issued. */
  lemma TablePublished(m: Moment, rows: seq<Row>)
    requires Tables.Valid(rows) && |Render(rows)| <= MAX_BYTES
    requires SequenceOf(m.files).Some? && Highest(rows) <= Mark(m.files)
    requires forall u | u in m.issued :: u <= Mark(m.files)
    ensures var m' := Moment(m.files[TABLE := Render(rows)], m.issued + UIDs(rows));
      Safe(m') && TableOf(m'.files) == Some(Table(V5, SanitizeAll(rows)))
  {
    TableRoundTrip(rows);
    var f := m.files[TABLE := Render(rows)];
    assert SequenceOf(f) == SequenceOf(m.files);
    SanitizedUIDs(rows);
  }

  lemma SanitizedUIDs(rows: seq<Row>)
    ensures UIDs(SanitizeAll(rows)) == UIDs(rows)
  {
    forall r | r in rows ensures r.uid in UIDs(SanitizeAll(rows)) {
      var i :| 0 <= i < |rows| && rows[i] == r;
      assert SanitizeAll(rows)[i] in SanitizeAll(rows);
    }
    forall r | r in SanitizeAll(rows) ensures r.uid in UIDs(rows) {
      var i :| 0 <= i < |rows| && SanitizeAll(rows)[i] == r;
      assert rows[i] in rows;
    }
  }

  /** The table a mutation is to leave behind. */
  function Target(t: Option<Table>, m: Mutation): Option<Table> {
    if Damaged(t) then t
    else match Applied(Rows(t), m)
      case Changed(out) => Some(Table(V5, SanitizeAll(out)))
      case _ => t
  }

  /** What Init makes of the table: a missing or older one becomes v5 with the same rows. */
  function Initialized(t: Option<Table>): Option<Table> {
    if Damaged(t) || Current(t) then t else Some(Table(V5, SanitizeAll(Rows(t))))
  }

  /** The sequence proves that this tool allocated identities here before. */
  predicate UsedBefore(s: Option<Sequence>) { s.Some? && (s.value.highest > 0 || s.value.safeAfter != NEVER) }

  lemma LockKeeps(m: Moment)
    requires Safe(m)
    ensures var f := m.files[LOCK := ""];
      Safe(Moment(f, m.issued)) && TableOf(f) == TableOf(m.files) && SequenceOf(f) == SequenceOf(m.files)
  {
    var f := m.files[LOCK := ""];
    assert TableOf(f) == TableOf(m.files) && SequenceOf(f) == SequenceOf(m.files);
  }

  lemma EverythingMarked(m: Moment)
    requires Safe(m) && TABLE !in m.files
    ensures forall u | u in m.issued :: u <= Mark(m.files)
  {
  }

  lemma EmptyTable()
    ensures Render([]) == Header(V5) + "\n" && |Render([])| <= MAX_BYTES && SanitizeAll([]) == [] && UIDs([]) == {}
  {
  }

  predicate CompletelyAbsent(f: Files) { TABLE !in f && LOCK !in f && SEQUENCE !in f }

  lemma HighestBelow(rows: seq<Row>, n: nat)
    requires forall u | u in UIDs(rows) :: u <= n
    ensures Highest(rows) <= n
  {
    if Highest(rows) > 0 {
      var r :| r in rows && r.uid == Highest(rows);
      assert r.uid in UIDs(rows);
    }
  }

  lemma ContinuesItself(h: seq<Moment>, target: Option<Table>)
    requires h != []
    ensures Continues(h, h, target)
  {
  }

  lemma ValidIsDistinct(rows: seq<Row>)
    requires Tables.Valid(rows)
    ensures Distinct(rows)
  {
  }

  lemma CompactNone(rows: seq<Row>)
    ensures Applied(rows, Mutation.Compact({})) == Unchanged
  {
    CompactKeepsAll(rows);
  }

  lemma {:induction false} CompactKeepsAll(rows: seq<Row>)
    ensures Compacted(rows, {}) == rows
  {
    if rows != [] { CompactKeepsAll(rows[..|rows| - 1]); }
  }

  class Store {
    const dir: Directory
    ghost var history: seq<Moment>
    var lostHighest: nat
    var lostObserved: bool

    ghost predicate Valid()
      reads this, dir
    {
      dir.Valid() && |history| == |dir.chain| &&
      (forall i | 0 <= i < |history| :: history[i].files == dir.chain[i]) &&
      forall m | m in history :: Safe(m)
    }

    ghost function Last(): Moment
      reads this
      requires history != []
    {
      history[|history| - 1]
    }

    constructor (dir: Directory, ghost issued: set<int>)
      requires dir.Valid() && dir.chain == [dir.entries] && Safe(Moment(dir.entries, issued))
      ensures this.dir == dir && Valid() && history == [Moment(dir.entries, issued)]
      ensures !lostObserved
    {
      this.dir := dir;
      history := [Moment(dir.entries, issued)];
      lostHighest, lostObserved := 0, false;
    }

    method Ask() returns (a: Answer)
      ensures a != Uncovered
    {
      a :| a in {Ok, Err, Died};
    }

    /** One atomic replacement, remembered with the UIDs it issues. */
    method Write(name: string, content: string, ghost more: set<int>) returns (a: Answer)
      requires Valid() && Safe(Moment(dir.entries[name := content], Last().issued + more))
      modifies dir, this`history
      ensures Valid()
      ensures var m := Moment(old(dir.entries)[name := content], old(Last().issued) + more);
        Continues(old(history), history, TableOf(m.files)) &&
        (Last() == old(Last()) || Last() == m) &&
        (a == Ok ==> history == [m])
      ensures a != Uncovered
      ensures old(dir.entries).Keys <= dir.entries.Keys
    {
      ghost var m := Moment(dir.entries[name := content], Last().issued + more);
      ghost var before := dir.chain;
      var o := dir.AtomicWrite(name, content);
      if dir.chain == before + [m.files] {
        history := history + [m];
      } else if dir.chain == [m.files] && o != Failed {
        history := [m];
      }
      match o
      case Done => return Ok;
      case Killed => return Died;
      case _ => return Err;
    }

    /** Creates or raises the sequence; it never lowers and never replaces a broken one. */
    method EnsureSequence(seed: int, allowCreate: bool, safeAfter: int) returns (a: Answer)
      requires Valid() && Times.InCalendar(safeAfter)
      modifies dir, this`history
      ensures Valid() && Continues(old(history), history, TableOf(old(dir.entries)))
      ensures Last().issued == old(Last().issued) && TableOf(Last().files) == TableOf(old(Last()).files)
      ensures a == Ok ==> SequenceOf(dir.entries).Some? && seed <= Mark(dir.entries)
      ensures a != Uncovered
      ensures Mark(old(dir.entries)) <= Mark(dir.entries)
      ensures old(dir.entries).Keys <= dir.entries.Keys
    {
      hide Safe, ReadSequence, ReadTable;
      if seed < 0 || !KernelID(seed) { return Err; }
      if SEQUENCE !in dir.entries {
        if !allowCreate { return Err; }
        ghost var m;
        a, m := WriteSequence(Sequence(seed, safeAfter), {});
      } else {
        a := Ask();
        if a != Ok { return a; }
        var s := ReadSequence(dir.entries[SEQUENCE]);
        ReadIsWritable(dir.entries[SEQUENCE]);
        if s == None { return Err; }
        var sequence, changed := s.value, false;
        if sequence.highest < seed {
          sequence, changed := sequence.(highest := seed), true;
        }
        if sequence.safeAfter < safeAfter {
          sequence, changed := sequence.(safeAfter := safeAfter), true;
        }
        if !changed { return Ok; }
        ghost var m;
        a, m := WriteSequence(sequence, {});
      }
    }

    method WriteSequence(s: Sequence, ghost more: set<int>) returns (a: Answer, ghost m: Moment)
      requires Valid() && s.Writable() && Mark(dir.entries) <= s.highest
      requires forall u | u in more :: u <= s.highest
      modifies dir, this`history
      ensures Valid() && Continues(old(history), history, TableOf(old(dir.entries)))
      ensures SequenceOf(m.files) == Some(s) && TableOf(m.files) == TableOf(old(dir.entries))
      ensures m.issued == old(Last().issued) + more
      ensures (Last() == old(Last()) || Last() == m) && (a == Ok ==> history == [m])
      ensures a != Uncovered
      ensures old(dir.entries).Keys <= dir.entries.Keys
    {
      var text := SequenceText(s);
      SequenceRoundTrip(s);
      SequenceRaised(Last(), text, s, more);
      m := Moment(dir.entries[SEQUENCE := text], Last().issued + more);
      a := Write(SEQUENCE, text, more);
    }

    method RequireCovering(rows: seq<Row>) returns (a: Answer)
      requires Valid()
      ensures a == Ok ==> SequenceOf(dir.entries).Some? && Highest(rows) <= Mark(dir.entries)
      ensures a == Uncovered ==> Highest(rows) > Mark(dir.entries)
    {
      a := Ask();
      if a != Ok { return a; }
      if SEQUENCE !in dir.entries { return Err; }
      var s := ReadSequence(dir.entries[SEQUENCE]);
      if s == None { return Err; }
      var highest := HighestRecordedUID(rows);
      return if highest <= s.value.highest then Ok else Uncovered;
    }

    /** Publishes a v5 table, never without a sequence that covers it. */
    method WriteAll(rows: seq<Row>) returns (a: Answer)
      requires Valid() && Tables.Valid(rows)
      requires forall u | u in Last().issued :: u <= Mark(dir.entries)
      modifies dir, this`history
      ensures Valid() && Continues(old(history), history, Some(Table(V5, SanitizeAll(rows))))
      ensures a == Ok ==> TableOf(dir.entries) == Some(Table(V5, SanitizeAll(rows))) && |history| == 1
      ensures a == Uncovered ==> Highest(rows) > Mark(old(dir.entries))
      ensures old(dir.entries).Keys <= dir.entries.Keys
    {
      var text := BuildTable(rows);
      if text == None { return Err; }
      a := RequireCovering(rows);
      if a != Ok { return a; }
      TablePublished(Last(), rows);
      a := Write(TABLE, text.value, UIDs(rows));
    }

    /** The rows a mutation starts from, and whether they are of an older format. */
    method ReadMutationSnapshot() returns (a: Answer, rows: seq<Row>, legacy: bool)
      requires Valid()
      ensures a == Ok ==>
        !Damaged(TableOf(dir.entries)) && rows == Rows(TableOf(dir.entries)) && Tables.Valid(rows) &&
        legacy == Legacy(TableOf(dir.entries))
      ensures a == Ok && !legacy ==> forall u | u in Last().issued :: u <= Mark(dir.entries)
      ensures a == Ok && !legacy ==> UIDs(rows) <= Last().issued
      ensures a != Uncovered
    {
      hide ReadSequence;
      rows, legacy := [], false;
      a := Ask();
      if a != Ok { return; }
      if TABLE in dir.entries {
        var t := ReadAll(dir.entries[TABLE]);
        if t == Unreadable { a := Err; return; }
        ReadIsValid(dir.entries[TABLE]);
        rows, legacy := t.rows, t.version != V5;
      }
      assert Safe(Last());
      if !legacy { a := RequireCovering(rows); }
    }

    /** Publishes the rows of a mutation, migrating an older table on the way. */
    method CommitMutation(before: seq<Row>, legacy: bool, out: seq<Row>, now: int) returns (a: Answer)
      requires Valid() && !Damaged(TableOf(dir.entries)) && Tables.Valid(out) && Times.InCalendar(SafeAfter(now))
      requires before == Rows(TableOf(dir.entries)) && legacy == Legacy(TableOf(dir.entries))
      requires !legacy ==> forall u | u in Last().issued :: u <= Mark(dir.entries)
      modifies dir, this`history
      ensures Valid() && Continues(old(history), history, Some(Table(V5, SanitizeAll(out))))
      ensures a == Ok ==> TableOf(dir.entries) == Some(Table(V5, SanitizeAll(out))) && |history| == 1
      ensures a == Uncovered ==> !legacy && Highest(out) > Mark(old(dir.entries))
      ensures old(dir.entries).Keys <= dir.entries.Keys
    {
      hide SanitizeAll, ReadTable, ReadSequence, Tables.Valid, SafeAfter, Times.InCalendar;
      ghost var h := history;
      if legacy {
        assert Safe(Last());
        var highest := HighestRecordedUID(before);
        var outputHighest := HighestRecordedUID(out);
        if outputHighest > highest { highest := outputHighest; }
        a := EnsureSequence(highest, true, SafeAfter(now));
        if a != Ok {
          assert Continues(h, history, Some(Table(V5, SanitizeAll(out))));
          return;
        }
      }
      ghost var h1 := history;
      a := WriteAll(out);
      if legacy { ContinuesOn(h, h1, history, Some(Table(V5, SanitizeAll(out)))); }
    }

    /** The lock every mutation takes must already exist. */
    method WithLock() returns (a: Answer)
      ensures a == Ok ==> LOCK in dir.entries
      ensures a != Uncovered
    {
      a := Ask();
      if a == Ok && LOCK !in dir.entries { a := Err; }
    }

    /** What a call may leave in the table, whether it succeeds, fails or is killed. */
    ghost predicate Did(h: seq<Moment>, t: Option<Table>, m: Mutation, a: Answer)
      reads this, dir
      requires h != []
    {
      Continues(h, history, Target(t, m)) &&
      (a == Ok ==> !Damaged(t) && Applied(Rows(t), m) != Refused && TableOf(dir.entries) == Target(t, m)) &&
      (a == Ok && Applied(Rows(t), m).Changed? ==> |history| == 1)
    }

    method Record(rec: Row, now: int) returns (a: Answer)
      requires Valid() && Times.InCalendar(SafeAfter(now)) && Numbers.Int64(rec.port) && Numbers.Int64(rec.uid)
      modifies dir, this`history
      ensures Valid() && Did(old(history), TableOf(old(dir.entries)), Mutation.Record(rec), a)
      ensures a == Uncovered ==> !Legacy(TableOf(old(dir.entries))) && rec.uid > Mark(old(dir.entries))
    {
      hide SanitizeAll, SanitizeRow, ReadTable, ValidRow, Safe, Tables.Valid, Distinct;
      ghost var m := Mutation.Record(rec);
      var ok := Parses(rec);
      if !ok || rec.deletionStarted { return Err; }
      a := WithLock();
      if a != Ok { return a; }
      var rows, legacy;
      a, rows, legacy := ReadMutationSnapshot();
      if a != Ok { return a; }
      ValidIsDistinct(rows);
      var c := RecordRows(rows, rec);
      if c.Refused? { return Err; }
      AppliedIsValid(rows, m);
      AppliedUIDs(rows, m);
      if !legacy && rec.uid <= Mark(dir.entries) { HighestBelow(c.rows, Mark(dir.entries)); }
      a := CommitMutation(rows, legacy, c.rows, now);
    }

    method Remove(user: string, now: int) returns (a: Answer)
      requires Valid() && Times.InCalendar(SafeAfter(now))
      modifies dir, this`history
      ensures Valid() && Did(old(history), TableOf(old(dir.entries)), Mutation.Remove(user), a)
      ensures a != Uncovered
    {
      hide SanitizeAll, ReadTable, ValidRow, Safe, Tables.Valid, Distinct;
      ghost var m := Mutation.Remove(user);
      a := Ask();
      if a != Ok { return a; }
      if CompletelyAbsent(dir.entries) { return Ok; }
      a := WithLock();
      if a != Ok { return a; }
      var rows, legacy;
      a, rows, legacy := ReadMutationSnapshot();
      if a != Ok { return a; }
      ValidIsDistinct(rows);
      var c := RemoveRows(rows, user);
      if c.Refused? { return Err; }
      if c.Unchanged? { return Ok; }
      AppliedIsValid(rows, m);
      AppliedUIDs(rows, m);
      if !legacy { HighestBelow(c.rows, Mark(dir.entries)); }
      a := CommitMutation(rows, legacy, c.rows, now);
    }

    /** `gone` is every ordinary row the callback no longer wants. */
    method Compact(keep: Row -> Option<bool>, now: int) returns (a: Answer, removed: int, ghost gone: set<string>)
      requires Valid() && Times.InCalendar(SafeAfter(now))
      modifies dir, this`history
      ensures Valid() && Did(old(history), TableOf(old(dir.entries)), Mutation.Compact(gone), a)
      ensures a != Uncovered
      ensures forall u | u in gone ::
        exists r | r in Rows(TableOf(old(dir.entries))) :: r.user == u && !r.deletionStarted && keep(r) == Some(false)
      ensures a == Ok ==> removed == |Rows(TableOf(old(dir.entries)))| - |Rows(TableOf(dir.entries))|
    {
      hide SanitizeRow, ReadTable, ValidRow, Safe, Tables.Valid, Distinct, Compacted;
      removed, gone := 0, {};
      a := Ask();
      if a != Ok { CompactNone(Rows(TableOf(dir.entries))); return; }
      if CompletelyAbsent(dir.entries) { CompactNone([]); return; }
      a := WithLock();
      if a != Ok { return; }
      var rows, legacy;
      a, rows, legacy := ReadMutationSnapshot();
      if a != Ok { return; }
      ValidIsDistinct(rows);
      var out;
      out, gone := CompactRows(rows, keep);
      if out == None { a := Err; return; }
      removed := |rows| - |out.value|;
      if removed == 0 { return; }
      AppliedIsValid(rows, Mutation.Compact(gone));
      AppliedUIDs(rows, Mutation.Compact(gone));
      if !legacy { HighestBelow(out.value, Mark(dir.entries)); }
      a := CommitMutation(rows, legacy, out.value, now);
    }

    method BeginDeletion(user: string, uid: int, generation: string, now: int) returns (a: Answer)
      requires Valid() && Times.InCalendar(SafeAfter(now))
      modifies dir, this`history
      ensures Valid() && Did(old(history), TableOf(old(dir.entries)), Mutation.BeginDeletion(user, uid, generation), a)
      ensures a != Uncovered
    {
      hide SanitizeAll, ReadTable, ReadSequence, ValidRow, Safe, Tables.Valid, DeletionBegun, DeletionIdentity,
        Distinct, Continues, SafeAfter, Times.InCalendar;
      ghost var h, t, m := history, TableOf(dir.entries), Mutation.BeginDeletion(user, uid, generation);
      ContinuesItself(h, Target(t, m));
      if !DeletionIdentity(user, uid, generation) { return Err; }
      a := WithLock();
      if a != Ok { return a; }
      var rows, legacy;
      a, rows, legacy := ReadMutationSnapshot();
      if a != Ok { return a; }
      var c := BeginDeletionRecords(rows, user, uid, generation);
      if c.Refused? { return Err; }
      if c.Unchanged? { return Ok; }
      AppliedIsValid(rows, m);
      AppliedUIDs(rows, m);
      if generation == "" && !legacy {
        a := Advance(uid, Target(t, m));
        if a != Ok { return a; }
      }
      ghost var h1 := history;
      if !legacy { HighestBelow(c.rows, Mark(dir.entries)); }
      a := CommitMutation(rows, legacy, c.rows, now);
      ContinuesOn(h, h1, history, Target(t, m));
    }

    method BeginQuarantine(user: string, uid: int, generation: string, deadline: int, unit: string, now: int)
      returns (a: Answer)
      requires Valid() && Times.InCalendar(SafeAfter(now))
      modifies dir, this`history
      ensures Valid()
      ensures Did(old(history), TableOf(old(dir.entries)), Mutation.BeginQuarantine(user, uid, generation, deadline), a)
      ensures deadline == NEVER || unit != QUARANTINE_PREFIX + user ==> a != Ok
      ensures a != Uncovered
    {
      hide SanitizeAll, ReadTable, ValidRow, Safe, QuarantineBegun, Distinct, Continues, Lookup, DeletionIdentity;
      ghost var h, t := history, TableOf(dir.entries);
      ghost var m := Mutation.BeginQuarantine(user, uid, generation, deadline);
      ContinuesItself(h, Target(t, m));
      if !DeletionIdentity(user, uid, generation) || generation == "" { return Err; }
      if deadline == NEVER || unit != QUARANTINE_PREFIX + user { return Err; }
      a := WithLock();
      if a != Ok { return a; }
      var rows, legacy;
      a, rows, legacy := ReadMutationSnapshot();
      if a != Ok { return a; }
      var c, promotes := BeginQuarantineRecords(rows, user, uid, generation, deadline);
      if c.Refused? { return Err; }
      if c.Unchanged? { return Ok; }
      AppliedIsValid(rows, m);
      AppliedUIDs(rows, m);
      if promotes && !legacy {
        a := Advance(uid, Target(t, m));
        if a != Ok { return a; }
      }
      ghost var h1 := history;
      if !legacy { HighestBelow(c.rows, Mark(dir.entries)); }
      a := CommitMutation(rows, legacy, c.rows, now);
      ContinuesOn(h, h1, history, Target(t, m));
    }

    method FinishDeletionRecovery(user: string, uid: int, generation: string, now: int) returns (a: Answer)
      requires Valid() && Times.InCalendar(SafeAfter(now))
      modifies dir, this`history
      ensures Valid() && Did(old(history), TableOf(old(dir.entries)), Mutation.FinishDeletion(user, uid, generation), a)
      ensures a != Uncovered
    {
      hide SanitizeAll, ReadTable, ValidRow, Safe, Tables.Valid, Distinct;
      ghost var m := Mutation.FinishDeletion(user, uid, generation);
      if !DeletionIdentity(user, uid, generation) { return Err; }
      a := Ask();
      if a != Ok { return a; }
      if CompletelyAbsent(dir.entries) { return Ok; }
      a := WithLock();
      if a != Ok { return a; }
      var rows, legacy;
      a, rows, legacy := ReadMutationSnapshot();
      if a != Ok { return a; }
      ValidIsDistinct(rows);
      var c := FinishDeletionRecords(rows, user, uid, generation);
      if c.Refused? { return Err; }
      if c.Unchanged? { return Ok; }
      AppliedIsValid(rows, m);
      AppliedUIDs(rows, m);
      if !legacy { HighestBelow(c.rows, Mark(dir.entries)); }
      a := CommitMutation(rows, legacy, c.rows, now);
    }

    /** Burns a UID before the row that first records it is published. */
    method Advance(uid: int, ghost target: Option<Table>) returns (a: Answer)
      requires Valid()
      requires forall u | u in Last().issued :: u <= Mark(dir.entries)
      modifies dir, this`history
      ensures Valid() && Continues(old(history), history, TableOf(old(dir.entries)))
      ensures Continues(old(history), history, target)
      ensures TableOf(dir.entries) == TableOf(old(dir.entries))
      ensures forall u | u in Last().issued :: u <= Mark(dir.entries)
      ensures a == Ok ==> SequenceOf(dir.entries).Some? && uid <= Mark(dir.entries)
      ensures Mark(old(dir.entries)) <= Mark(dir.entries) && Last().issued == old(Last().issued) && a != Uncovered
    {
      hide ReadTable, ReadSequence, Safe;
      NeverIsInCalendar();
      a := EnsureSequence(uid, false, NEVER);
    }

    method CreateLock() returns (a: Answer)
      requires Valid()
      modifies dir, this`history
      ensures Valid() && Continues(old(history), history, TableOf(old(dir.entries)))
      ensures TableOf(dir.entries) == TableOf(old(dir.entries)) &&
        SequenceOf(dir.entries) == SequenceOf(old(dir.entries))
      ensures TABLE in dir.entries <==> TABLE in old(dir.entries)
      ensures a == Ok ==> LOCK in dir.entries && |history| == 1
      ensures a != Uncovered
    {
      hide ReadTable, ReadSequence, Safe;
      ghost var before, m := dir.chain, Moment(dir.entries[LOCK := ""], Last().issued);
      LockKeeps(Last());
      var o := dir.Create(LOCK);
      if dir.chain != before { history := history + [m]; }
      if o != Done { return if o == Killed then Died else Err; }
      a := Ask();
      if a != Ok { return a; }
      o := dir.Sync();
      if |dir.chain| == 1 { history := [Last()]; }
      return if o == Done then Ok else if o == Killed then Died else Err;
    }

    /**
     Sets the store up or migrates it. A missing table beside a used sequence is
     a loss; Init records that and starts an empty table that keeps the sequence.
     */
    method Init(now: int) returns (a: Answer)
      requires Valid() && Times.InCalendar(SafeAfter(now))
      modifies dir, this
      ensures Valid() && Continues(old(history), history, Initialized(TableOf(old(dir.entries))))
      ensures a == Ok ==>
        LOCK in dir.entries && Current(TableOf(dir.entries)) && TableOf(dir.entries) == Initialized(TableOf(old(dir.entries)))
      ensures a != Uncovered
      ensures a == Ok && TABLE !in old(dir.entries) ==>
        (lostObserved <==> old(lostObserved) || UsedBefore(SequenceOf(old(dir.entries)))) &&
        (UsedBefore(SequenceOf(old(dir.entries))) ==> lostHighest == Mark(old(dir.entries)))
      ensures TABLE in old(dir.entries) ==> lostObserved == old(lostObserved)
    {
      hide ReadTable, ReadSequence, Safe, SanitizeAll, Continues;
      ghost var h, goal := history, Initialized(TableOf(dir.entries));
      a := CreateLock();
      ContinuesItself(history, goal);
      ContinuesOn(h, history, history, goal);
      if a != Ok { return a; }
      var missing := TABLE !in dir.entries;
      if missing {
        ghost var h1 := history;
        a := StartEmpty();
        ContinuesOn(h, h1, history, goal);
        if a != Ok { return a; }
      }
      var rows, legacy;
      a, rows, legacy := ReadMutationSnapshot();
      if a != Ok { return a; }
      if legacy {
        ghost var h1 := history;
        a := CommitMutation(rows, true, rows, now);
        ContinuesOn(h, h1, history, goal);
      }
    }

    method StartEmpty() returns (a: Answer)
      requires Valid() && TABLE !in dir.entries
      modifies dir, this
      ensures Valid() && Continues(old(history), history, Some(Table(V5, [])))
      ensures a == Ok ==> TableOf(dir.entries) == Some(Table(V5, []))
      ensures a != Uncovered
      ensures a == Ok ==> (lostObserved <==> old(lostObserved) || UsedBefore(SequenceOf(old(dir.entries))))
      ensures a == Ok && UsedBefore(SequenceOf(old(dir.entries))) ==> lostHighest == Mark(old(dir.entries))
      ensures old(dir.entries).Keys <= dir.entries.Keys
    {
      hide ReadSequence, Safe, Continues, Render, SanitizeAll;
      ghost var h := history;
      a := NoteLoss();
      if a == Ok {
        NeverIsInCalendar();
        a := EnsureSequence(0, true, NEVER);
      }
      ghost var h1 := history;
      ContinuesItself(h1, Some(Table(V5, [])));
      ContinuesOn(h, h1, h1, Some(Table(V5, [])));
      if a != Ok { return a; }
      EverythingMarked(Last());
      EmptyTable();
      TablePublished(Last(), []);
      a := Write(TABLE, Header(V5) + "\n", {});
      ContinuesOn(h, h1, history, Some(Table(V5, [])));
    }

    /** A lost table beside a used sequence is remembered for this process. */
    method NoteLoss() returns (a: Answer)
      modifies this`lostHighest, this`lostObserved
      ensures a == Ok ==> (lostObserved <==> old(lostObserved) || UsedBefore(SequenceOf(dir.entries)))
      ensures a == Ok && UsedBefore(SequenceOf(dir.entries)) ==> lostHighest == Mark(dir.entries)
      ensures a != Uncovered
    {
      a := Ask();
      if a == Ok && SEQUENCE in dir.entries {
        var s := ReadSequence(dir.entries[SEQUENCE]);
        if UsedBefore(s) { lostHighest, lostObserved := s.value.highest, true; }
      }
    }

    /**
     Burns and returns the next identity of the range. It is above every UID its
     lineage ever had in a row or reserved, and no power loss can take it back.
     */
    method ReserveIdentity(minimum: int, maximum: int, now: int) returns (a: Answer, reserved: int, isolated: bool)
      requires Valid()
      modifies dir, this`history
      ensures Valid() && Continues(old(history), history, TableOf(old(dir.entries)))
      ensures a == Ok ==>
        minimum <= reserved <= maximum && AccountID(reserved) &&
        (forall u | u in old(Last().issued) :: u < reserved) &&
        |history| == 1 && Last().issued == old(Last().issued) + {reserved}
      ensures a == Ok ==> reserved == if Mark(old(dir.entries)) < minimum then minimum else Mark(old(dir.entries)) + 1
      ensures a == Ok ==>
        SequenceOf(old(dir.entries)).Some? &&
        (isolated <==> var safe := SequenceOf(old(dir.entries)).value.safeAfter; safe == NEVER || safe * NANOS <= now)
      ensures a != Uncovered
    {
      hide ReadTable, ReadSequence, Continues;
      ContinuesItself(history, TableOf(dir.entries));
      reserved, isolated := 0, false;
      if !AccountID(minimum) || !AccountID(maximum) || minimum > maximum { a := Err; return; }
      a := WithLock();
      if a != Ok { return; }
      var rows, legacy;
      a, rows, legacy := ReadMutationSnapshot();
      if a != Ok { return; }
      if legacy || TABLE !in dir.entries || SEQUENCE !in dir.entries { a := Err; return; }
      var s := ReadSequence(dir.entries[SEQUENCE]);
      ReadIsWritable(dir.entries[SEQUENCE]);
      if s == None { a := Err; return; }
      var candidate := s.value.highest + 1;
      if candidate < minimum { candidate := minimum; }
      if candidate > maximum || !AccountID(candidate) { a := Err; return; }
      ghost var m;
      a, m := WriteSequence(s.value.(highest := candidate), {candidate});
      if a != Ok { return; }
      reserved := candidate;
      isolated := s.value.safeAfter == NEVER || s.value.safeAfter * NANOS <= now;
    }

    /** The check doctor makes; it never complains about a state the store can get into. */
    method CheckIntegrity() returns (ok: bool)
      requires Valid()
      ensures ok <==>
        !Damaged(TableOf(dir.entries)) &&
        (Current(TableOf(dir.entries)) || SEQUENCE !in dir.entries || SequenceOf(dir.entries).Some?)
    {
      hide ReadTable, ReadSequence;
      assert Safe(Last());
      var t := None;
      if TABLE in dir.entries {
        var read := ReadAll(dir.entries[TABLE]);
        if read == Unreadable { return false; }
        t := Some(read);
      }
      if !Current(t) {
        return SEQUENCE !in dir.entries || ReadSequence(dir.entries[SEQUENCE]).Some?;
      }
      if SEQUENCE !in dir.entries { return false; }
      var s := ReadSequence(dir.entries[SEQUENCE]);
      if s == None { return false; }
      var highest := HighestRecordedUID(t.value.rows);
      return highest <= s.value.highest;
    }

    /** Everything unsynced may be undone; what is left is one of the remembered states. */
    method PowerLoss()
      requires Valid()
      modifies dir, this`history
      ensures Valid() && |history| == 1 && history[0] in old(history)
    {
      var kept := dir.PowerLoss();
      history := [history[kept]];
    }
  }

  /** Every entry but these is in both or neither, with the same content. */
  ghost predicate SameBut(a: Files, b: Files, names: set<string>) {
    forall name | name !in names :: (name in a <==> name in b) && (name in a ==> a[name] == b[name])
  }

  /**
   Recreates a sequence that went missing beside a v5 table, from a mark the
   operator vouches for. An existing file, whatever it holds, is never replaced.
   The promises hold again exactly when the mark covers everything ever issued.
   */
  method RepairMissingIdentitySequence(
    dir: Directory, highWater: int, temp: string, now: int, ghost issued: set<int>) returns (a: Answer)
    requires dir.Valid() && Times.InCalendar(SafeAfter(now)) && temp !in {TABLE, LOCK, SEQUENCE}
    modifies dir
    ensures dir.Valid() && SameBut(dir.entries, old(dir.entries), {SEQUENCE, temp})
    ensures SEQUENCE in old(dir.entries) ==> a != Ok && dir.entries == old(dir.entries)
    ensures SEQUENCE in dir.entries && SEQUENCE !in old(dir.entries) ==>
      KernelID(highWater) && SequenceOf(dir.entries) == Some(Sequence(highWater, SafeAfter(now))) &&
      Current(TableOf(dir.entries)) && Highest(Rows(TableOf(dir.entries))) <= highWater
    ensures SEQUENCE in dir.entries && SEQUENCE !in old(dir.entries) && UIDs(Rows(TableOf(dir.entries))) <= issued ==>
      (Safe(Moment(dir.entries, issued)) <==> forall u | u in issued :: u <= highWater)
    ensures a == Ok ==> SEQUENCE in dir.entries && temp !in dir.entries && dir.chain == [dir.entries]
  {
    hide ReadTable, ReadSequence, SequenceText, SafeAfter, Safe, UIDs;
    if !KernelID(highWater) { return Err; }
    if LOCK !in dir.entries || TABLE !in dir.entries { return Err; }
    var t := ReadAll(dir.entries[TABLE]);
    if !Current(Some(t)) { return Err; }
    var recorded := HighestRecordedUID(t.rows);
    if highWater < recorded { return Uncovered; }
    if SEQUENCE in dir.entries || temp in dir.entries { return Err; }
    var text := SequenceText(Sequence(highWater, SafeAfter(now)));
    SequenceRoundTrip(Sequence(highWater, SafeAfter(now)));
    a := PublishExclusive(dir, text, temp);
    if SEQUENCE in dir.entries && UIDs(Rows(TableOf(dir.entries))) <= issued {
      RepairRestores(dir.entries, issued, Sequence(highWater, SafeAfter(now)));
    }
  }

  /** Publishes complete content under a name that must still be free. */
  method PublishExclusive(dir: Directory, text: string, temp: string) returns (a: Answer)
    requires dir.Valid() && temp != SEQUENCE && SEQUENCE !in dir.entries && temp !in dir.entries
    modifies dir
    ensures dir.Valid() && SameBut(dir.entries, old(dir.entries), {SEQUENCE, temp})
    ensures SEQUENCE in dir.entries ==> dir.entries[SEQUENCE] == text
    ensures a == Ok ==> SEQUENCE in dir.entries && temp !in dir.entries && dir.chain == [dir.entries]
  {
    var o := dir.AtomicWrite(temp, text);
    if o == Killed { return Died; }
    if o == Done { o := dir.Link(temp, SEQUENCE); }
    if o == Killed { return Died; }
    if o == Done { o := dir.Sync(); }
    if o == Killed { return Died; }
    var removed := dir.RemoveFile(temp);
    if removed == Killed { return Died; }
    if o != Done || removed != Done { return Err; }
    a :| a in {Ok, Err, Died};
  }

  /** The repaired state keeps every promise exactly when the mark covers all that was ever issued. */
  lemma RepairRestores(f: Files, issued: set<int>, s: Sequence)
    requires Current(TableOf(f)) && SequenceOf(f) == Some(s) && UIDs(Rows(TableOf(f))) <= issued
    ensures Safe(Moment(f, issued)) <==> forall u | u in issued :: u <= s.highest
  {
    forall r | r in Rows(TableOf(f)) ensures r.uid in issued { assert r.uid in UIDs(Rows(TableOf(f))); }
  }
}
