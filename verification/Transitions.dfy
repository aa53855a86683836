/**
 What each registry mutation does to the rows (internal/registry/store.go),
 apart from files and locks.
 */
module Transitions {
  import opened Wrappers
  import opened Validate
  import opened Numbers
  import opened Records
  import opened Tables
  import Times

  datatype Change = Refused | Unchanged | Changed(rows: seq<Row>)

  /** The row for a name, the last one if a table could hold several. */
  function Lookup(rows: seq<Row>, user: string): (r: Option<Row>)
    ensures r.Some? ==> r.value.user == user
  {
    if rows == [] then None
    else if rows[|rows| - 1].user == user then Some(rows[|rows| - 1])
    else Lookup(rows[..|rows| - 1], user)
  }

  function Without(rows: seq<Row>, user: string): seq<Row> {
    if rows == [] then []
    else
      var last := rows[|rows| - 1];
      var front := Without(rows[..|rows| - 1], user);
      if last.user == user then front else front + [last]
  }

  /** The same rows with one name's row replaced where it stands. */
  function Replace(rows: seq<Row>, user: string, row: Row): (out: seq<Row>)
    ensures |out| == |rows|
    ensures forall i | 0 <= i < |rows| :: out[i] == if rows[i].user == user then row else rows[i]
  {
    seq(|rows|, i requires 0 <= i < |rows| => if rows[i].user == user then row else rows[i])
  }

  // The specification of each transition, by the row the name has.

  function Recorded(rows: seq<Row>, rec: Row): Change {
    var r := Lookup(rows, rec.user);
    if r.Some? && r.value.deletionStarted then Refused else Changed(Without(rows, rec.user) + [rec])
  }

  function Removed(rows: seq<Row>, user: string): Change {
    match Lookup(rows, user)
    case Some(r) => if r.deletionStarted then Refused else Changed(Without(rows, user))
    case None => Unchanged
  }

  predicate DeletionIdentity(user: string, uid: int, generation: string) {
    Username(user) && AccountID(uid) && (generation == "" || Generation(generation))
  }

  /** The exact identity a started deletion was recorded for. */
  predicate SameDeletion(r: Row, uid: int, generation: string) {
    r.deletionStarted && r.uid == uid && r.generation == generation && (r.identityBound <==> generation != "")
  }

  function Deleting(r: Row, uid: int, generation: string): Option<Row> {
    if generation != "" then
      if r.pending || !r.identityBound || r.uid != uid || r.generation != generation then None
      else Some(r.(deletionStarted := true))
    else if r.identityBound && !r.pending then None
    else if r.uid != 0 && r.uid != uid then None
    else Some(r.(uid := uid, generation := "", identityBound := false, pending := false, deletionStarted := true))
  }

  function DeletionBegun(rows: seq<Row>, user: string, uid: int, generation: string): Change {
    if !DeletionIdentity(user, uid, generation) then Refused
    else match Lookup(rows, user)
      case None =>
        if generation != "" then Refused
        else Changed(rows + [BLANK.(user := user, uid := uid, deletionStarted := true)])
      case Some(r) =>
        if r.deletionStarted then
          if SameDeletion(r, uid, generation) then Unchanged else Refused
        else match Deleting(r, uid, generation)
          case None => Refused
          case Some(r') => Changed(Replace(rows, user, r'))
  }

  /** A deadline's text; one no reader accepts when the calendar has no name for it. */
  function DeadlineText(deadline: int): string {
    if Times.InCalendar(deadline) then Times.TimeText(deadline) else "?"
  }

  function Quarantining(r: Row, uid: int, generation: string, deadline: int): Option<Row> {
    if !r.identityBound || (r.uid != 0 && r.uid != uid) || r.generation != generation then None
    else if !Times.InCalendar(deadline) then None
    else Some(r.(uid := uid, deletionStarted := true, quarantineUntil := DeadlineText(deadline),
                 quarantineUnit := QUARANTINE_PREFIX + r.user))
  }

  function QuarantineBegun(rows: seq<Row>, user: string, uid: int, generation: string, deadline: int): Change {
    if !DeletionIdentity(user, uid, generation) || generation == "" then Refused
    else match Lookup(rows, user)
      case None => Refused
      case Some(r) =>
        if r.deletionStarted then
          if SameDeletion(r, uid, generation) && r.quarantineUntil == DeadlineText(deadline) &&
             r.quarantineUnit == QUARANTINE_PREFIX + user then Unchanged
          else Refused
        else match Quarantining(r, uid, generation, deadline)
          case None => Refused
          case Some(r') => Changed(Replace(rows, user, r'))
  }

  function DeletionFinished(rows: seq<Row>, user: string, uid: int, generation: string): Change {
    if !DeletionIdentity(user, uid, generation) then Refused
    else match Lookup(rows, user)
      case None => Unchanged
      case Some(r) => if SameDeletion(r, uid, generation) then Changed(Without(rows, user)) else Refused
  }

  /** Started deletions stay whatever the callback would have said. */
  function Compacted(rows: seq<Row>, gone: set<string>): seq<Row> {
    if rows == [] then []
    else
      var last := rows[|rows| - 1];
      var front := Compacted(rows[..|rows| - 1], gone);
      if last.deletionStarted || last.user !in gone then front + [last] else front
  }

  // Rows by name.

  lemma {:induction false} LookupFinds(rows: seq<Row>, user: string)
    ensures Lookup(rows, user).Some? ==> Lookup(rows, user).value in rows
    ensures Lookup(rows, user) == None <==> !Names(rows, user)
  {
    if rows != [] {
      LookupFinds(rows[..|rows| - 1], user);
      assert rows == rows[..|rows| - 1] + [rows[|rows| - 1]];
    }
  }

  lemma {:induction false} LookupIn(rows: seq<Row>, r: Row)
    requires Distinct(rows) && r in rows
    ensures Lookup(rows, r.user) == Some(r)
  {
    var front, last := rows[..|rows| - 1], rows[|rows| - 1];
    assert rows == front + [last];
    if r != last {
      assert r in front;
      var i :| 0 <= i < |front| && front[i] == r;
      assert rows[i].user != last.user;
      LookupIn(front, r);
    }
  }

  lemma {:induction false} WithoutHas(rows: seq<Row>, user: string)
    ensures forall r :: r in Without(rows, user) <==> r in rows && r.user != user
  {
    if rows != [] {
      WithoutHas(rows[..|rows| - 1], user);
      assert rows == rows[..|rows| - 1] + [rows[|rows| - 1]];
    }
  }

  lemma {:induction false} CompactedHas(rows: seq<Row>, gone: set<string>)
    ensures forall r :: r in Compacted(rows, gone) <==> r in rows && (r.deletionStarted || r.user !in gone)
  {
    if rows != [] {
      CompactedHas(rows[..|rows| - 1], gone);
      assert rows == rows[..|rows| - 1] + [rows[|rows| - 1]];
    }
  }

  lemma {:induction false} WithoutKeepsDistinct(rows: seq<Row>, user: string)
    requires Distinct(rows)
    ensures Distinct(Without(rows, user))
  {
    if rows != [] {
      var front, last := rows[..|rows| - 1], rows[|rows| - 1];
      WithoutKeepsDistinct(front, user);
      WithoutHas(front, user);
      forall r | r in Without(front, user) ensures r.user != last.user { OnlyLast(rows, r); }
    }
  }

  lemma {:induction false} CompactedKeepsDistinct(rows: seq<Row>, gone: set<string>)
    requires Distinct(rows)
    ensures Distinct(Compacted(rows, gone))
  {
    if rows != [] {
      var front, last := rows[..|rows| - 1], rows[|rows| - 1];
      CompactedKeepsDistinct(front, gone);
      CompactedHas(front, gone);
      forall r | r in Compacted(front, gone) ensures r.user != last.user { OnlyLast(rows, r); }
    }
  }

  lemma OnlyLast(rows: seq<Row>, r: Row)
    requires Distinct(rows) && rows != [] && r in rows[..|rows| - 1]
    ensures r.user != rows[|rows| - 1].user
  {
    var i :| 0 <= i < |rows| - 1 && rows[i] == r;
  }

  lemma AppendKeepsDistinct(rows: seq<Row>, r: Row)
    requires Distinct(rows) && !Names(rows, r.user)
    ensures Distinct(rows + [r])
  {
    forall i | 0 <= i < |rows| ensures rows[i].user != r.user { assert rows[i] in rows; }
  }

  // Validity is closed under every transition; the checks made after the
  // identity checks are never the ones that refuse.

  lemma DeletingIsValid(r: Row, uid: int, generation: string)
    requires ValidRow(r) && !r.deletionStarted && AccountID(uid) && (generation == "" || Generation(generation))
    ensures var r' := Deleting(r, uid, generation);
      r'.Some? ==> ValidRow(r'.value) && r'.value.user == r.user && r'.value.quarantineUntil == ""
  {
  }

  lemma QuarantiningIsValid(r: Row, uid: int, generation: string, deadline: int)
    requires ValidRow(r) && !r.deletionStarted && AccountID(uid)
    ensures var r' := Quarantining(r, uid, generation, deadline);
      r'.Some? ==> ValidRow(r'.value) && r'.value.user == r.user && Lifecycle(r'.value) == Some(Quarantined)
  {
    if Times.InCalendar(deadline) { Times.TimeRoundTrip(deadline); }
  }

  lemma ReplaceKeepsValid(rows: seq<Row>, user: string, row: Row)
    requires Valid(rows) && ValidRow(row) && row.user == user
    ensures Valid(Replace(rows, user, row))
  {
    forall r | r in Replace(rows, user, row) ensures ValidRow(r) {
      var i :| 0 <= i < |rows| && Replace(rows, user, row)[i] == r;
      assert rows[i] in rows;
    }
  }

  lemma WitnessIsValid(user: string, uid: int)
    requires Username(user) && AccountID(uid)
    ensures ValidRow(BLANK.(user := user, uid := uid, deletionStarted := true))
  {
  }

  lemma RecordedIsValid(rows: seq<Row>, rec: Row)
    requires Valid(rows) && ValidRow(rec)
    ensures Recorded(rows, rec).Changed? ==> Valid(Recorded(rows, rec).rows)
  {
    WithoutKeepsDistinct(rows, rec.user);
    WithoutHas(rows, rec.user);
    AppendKeepsDistinct(Without(rows, rec.user), rec);
  }

  lemma DeletionBegunIsValid(rows: seq<Row>, user: string, uid: int, generation: string)
    requires Valid(rows)
    ensures var c := DeletionBegun(rows, user, uid, generation); c.Changed? ==> Valid(c.rows)
  {
    if DeletionIdentity(user, uid, generation) {
      LookupFinds(rows, user);
      match Lookup(rows, user)
      case None =>
        WitnessIsValid(user, uid);
        AppendKeepsDistinct(rows, BLANK.(user := user, uid := uid, deletionStarted := true));
      case Some(r) =>
        if !r.deletionStarted && Deleting(r, uid, generation).Some? {
          DeletingIsValid(r, uid, generation);
          ReplaceKeepsValid(rows, user, Deleting(r, uid, generation).value);
        }
    }
  }

  lemma QuarantineBegunIsValid(rows: seq<Row>, user: string, uid: int, generation: string, deadline: int)
    requires Valid(rows)
    ensures var c := QuarantineBegun(rows, user, uid, generation, deadline); c.Changed? ==> Valid(c.rows)
  {
    LookupFinds(rows, user);
    if DeletionIdentity(user, uid, generation) && Lookup(rows, user).Some? {
      var r := Lookup(rows, user).value;
      if !r.deletionStarted && Quarantining(r, uid, generation, deadline).Some? {
        QuarantiningIsValid(r, uid, generation, deadline);
        ReplaceKeepsValid(rows, user, Quarantining(r, uid, generation, deadline).value);
      }
    }
  }

  lemma SmallerIsValid(rows: seq<Row>, user: string, gone: set<string>)
    requires Valid(rows)
    ensures Valid(Without(rows, user)) && Valid(Compacted(rows, gone))
  {
    WithoutKeepsDistinct(rows, user);
    WithoutHas(rows, user);
    CompactedKeepsDistinct(rows, gone);
    CompactedHas(rows, gone);
  }

  // Other names keep their rows, in order.

  lemma WithoutSnoc(rows: seq<Row>, r: Row, user: string)
    ensures Without(rows + [r], user) == if r.user == user then Without(rows, user) else Without(rows, user) + [r]
  {
    assert (rows + [r])[..|rows|] == rows;
  }

  lemma {:induction false} WithoutTwice(rows: seq<Row>, user: string)
    ensures Without(Without(rows, user), user) == Without(rows, user)
  {
    if rows != [] {
      WithoutTwice(rows[..|rows| - 1], user);
      WithoutSnoc(Without(rows[..|rows| - 1], user), rows[|rows| - 1], user);
    }
  }

  lemma {:induction false} WithoutReplace(rows: seq<Row>, user: string, row: Row)
    requires row.user == user
    ensures Without(Replace(rows, user, row), user) == Without(rows, user)
  {
    if rows != [] {
      var front := rows[..|rows| - 1];
      assert Replace(rows, user, row)[..|front|] == Replace(front, user, row);
      WithoutReplace(front, user, row);
    }
  }

  lemma LookupSnoc(rows: seq<Row>, r: Row, user: string)
    ensures Lookup(rows + [r], user) == if r.user == user then Some(r) else Lookup(rows, user)
  {
    assert (rows + [r])[..|rows|] == rows;
  }

  lemma {:induction false} LookupWithout(rows: seq<Row>, user: string, other: string)
    ensures Lookup(Without(rows, user), other) == if other == user then None else Lookup(rows, other)
  {
    if rows != [] {
      var front, last := rows[..|rows| - 1], rows[|rows| - 1];
      LookupWithout(front, user, other);
      LookupSnoc(Without(front, user), last, other);
      LookupSnoc(front, last, other);
      assert rows == front + [last];
    }
  }

  lemma {:induction false} LookupReplace(rows: seq<Row>, user: string, row: Row)
    requires row.user == user && Lookup(rows, user).Some?
    ensures Lookup(Replace(rows, user, row), user) == Some(row)
  {
    var front := rows[..|rows| - 1];
    assert Replace(rows, user, row)[..|front|] == Replace(front, user, row);
    if rows[|rows| - 1].user != user {
      assert rows == front + [rows[|rows| - 1]];
      LookupReplace(front, user, row);
    }
  }

  /** A transition touches the rows of one name only, if it touches any. */
  ghost predicate Only(user: string, rows: seq<Row>, c: Change) {
    c.Changed? ==> Without(c.rows, user) == Without(rows, user)
  }

  lemma {:induction false} CompactedLookup(rows: seq<Row>, gone: set<string>, user: string)
    requires Distinct(rows)
    ensures var r := Lookup(rows, user);
      Lookup(Compacted(rows, gone), user) ==
      if r.Some? && !r.value.deletionStarted && user in gone then None else r
  {
    CompactedKeepsDistinct(rows, gone);
    CompactedHas(rows, gone);
    LookupFinds(rows, user);
    LookupFinds(Compacted(rows, gone), user);
    var r := Lookup(rows, user);
    var r' := Lookup(Compacted(rows, gone), user);
    if r.Some? && r.value in Compacted(rows, gone) {
      LookupIn(Compacted(rows, gone), r.value);
    }
    if r'.Some? {
      LookupIn(rows, r'.value);
    }
  }

  /** The mutations a caller may ask for, Init aside. */
  datatype Mutation =
    | Record(rec: Row)
    | Remove(user: string)
    | Compact(gone: set<string>)
    | BeginDeletion(user: string, uid: int, generation: string)
    | BeginQuarantine(user: string, uid: int, generation: string, deadline: int)
    | FinishDeletion(user: string, uid: int, generation: string)

  function Applied(rows: seq<Row>, m: Mutation): Change {
    match m
    case Record(rec) => if ValidRow(SanitizeRow(rec)) && !rec.deletionStarted then Recorded(rows, rec) else Refused
    case Remove(user) => Removed(rows, user)
    case Compact(gone) =>
      var out := Compacted(rows, gone);
      if |out| == |rows| then Unchanged else Changed(out)
    case BeginDeletion(user, uid, generation) => DeletionBegun(rows, user, uid, generation)
    case BeginQuarantine(user, uid, generation, deadline) => QuarantineBegun(rows, user, uid, generation, deadline)
    case FinishDeletion(user, uid, generation) => DeletionFinished(rows, user, uid, generation)
  }

  /** The name a mutation is about; Compact is about all of them. */
  function Subject(m: Mutation): string {
    match m
    case Record(rec) => rec.user
    case Remove(user) => user
    case Compact(_) => ""
    case BeginDeletion(user, _, _) => user
    case BeginQuarantine(user, _, _, _) => user
    case FinishDeletion(user, _, _) => user
  }

  lemma RecordedIsLocal(rows: seq<Row>, rec: Row)
    ensures Only(rec.user, rows, Recorded(rows, rec))
  {
    WithoutTwice(rows, rec.user);
    WithoutSnoc(Without(rows, rec.user), rec, rec.user);
  }

  lemma DeletionBegunIsLocal(rows: seq<Row>, user: string, uid: int, generation: string)
    ensures Only(user, rows, DeletionBegun(rows, user, uid, generation))
  {
    WithoutSnoc(rows, BLANK.(user := user, uid := uid, deletionStarted := true), user);
    var r := Lookup(rows, user);
    if r.Some? && Deleting(r.value, uid, generation).Some? {
      WithoutReplace(rows, user, Deleting(r.value, uid, generation).value);
    }
  }

  lemma QuarantineBegunIsLocal(rows: seq<Row>, user: string, uid: int, generation: string, deadline: int)
    ensures Only(user, rows, QuarantineBegun(rows, user, uid, generation, deadline))
  {
    var r := Lookup(rows, user);
    if r.Some? && Quarantining(r.value, uid, generation, deadline).Some? {
      WithoutReplace(rows, user, Quarantining(r.value, uid, generation, deadline).value);
    }
  }

  /** Every row of every other name is kept, in order. */
  lemma OthersUntouched(rows: seq<Row>, m: Mutation, other: string)
    requires !m.Compact? && Applied(rows, m).Changed? && other != Subject(m)
    ensures Without(Applied(rows, m).rows, Subject(m)) == Without(rows, Subject(m))
    ensures Lookup(Applied(rows, m).rows, other) == Lookup(rows, other)
  {
    var user, c := Subject(m), Applied(rows, m);
    match m {
      case Record(rec) => RecordedIsLocal(rows, rec);
      case BeginDeletion(_, uid, generation) => DeletionBegunIsLocal(rows, user, uid, generation);
      case BeginQuarantine(_, uid, generation, deadline) => QuarantineBegunIsLocal(rows, user, uid, generation, deadline);
      case _ => WithoutTwice(rows, user);
    }
    LookupWithout(rows, user, other);
    LookupWithout(c.rows, user, other);
  }

  lemma UnsanitizedIsValid(r: Row)
    requires ValidRow(SanitizeRow(r))
    ensures ValidRow(r) && SanitizeRow(r).user == r.user
  {
    SpacesBetray(r.user, Sanitize(r.user));
    SpacesBetray(r.generation, Sanitize(r.generation));
    SpacesBetray(r.quarantineUntil, Sanitize(r.quarantineUntil));
    SpacesBetray(r.quarantineUnit, Sanitize(r.quarantineUnit));
    NameHasNoSpace(Sanitize(r.user));
    if Sanitize(r.quarantineUntil) != "" { Times.ParsedIsSpaceless(Sanitize(r.quarantineUntil)); }
  }

  /** A flattened tab or line break leaves a space behind. */
  lemma SpacesBetray(s: string, t: string)
    requires t == Sanitize(s)
    ensures ' ' !in t ==> t == s
  {
    if ' ' !in t {
      forall i | 0 <= i < |s| ensures t[i] == s[i] { assert t[i] in t; }
    }
  }

  lemma NameHasNoSpace(user: string)
    requires Username(user)
    ensures ' ' !in user && ' ' !in QUARANTINE_PREFIX + user
  {
    assert ' ' !in QUARANTINE_PREFIX;
    assert forall c | c in user :: NameChar(c);
  }

  /** Every transition of a valid table gives a valid table. */
  lemma AppliedIsValid(rows: seq<Row>, m: Mutation)
    requires Valid(rows)
    ensures Applied(rows, m).Changed? ==> Valid(Applied(rows, m).rows)
  {
    match m
    case Record(rec) =>
      if ValidRow(SanitizeRow(rec)) {
        UnsanitizedIsValid(rec);
        RecordedIsValid(rows, rec);
      }
    case Remove(user) => SmallerIsValid(rows, user, {});
    case Compact(gone) => SmallerIsValid(rows, "", gone);
    case BeginDeletion(user, uid, generation) => DeletionBegunIsValid(rows, user, uid, generation);
    case BeginQuarantine(user, uid, generation, deadline) => QuarantineBegunIsValid(rows, user, uid, generation, deadline);
    case FinishDeletion(user, uid, generation) => SmallerIsValid(rows, user, {});
  }

  function UIDs(rows: seq<Row>): set<int> { set r | r in rows :: r.uid }

  /** The UID a mutation may bring into the table. */
  function NewUIDs(m: Mutation): set<int> {
    match m
    case Record(rec) => {rec.uid}
    case BeginDeletion(_, uid, generation) => if generation == "" then {uid} else {}
    case BeginQuarantine(_, uid, _, _) => {uid}
    case _ => {}
  }

  /** No other UID ever appears. */
  lemma AppliedUIDs(rows: seq<Row>, m: Mutation)
    requires Applied(rows, m).Changed?
    ensures UIDs(Applied(rows, m).rows) <= UIDs(rows) + NewUIDs(m)
    ensures m.BeginQuarantine? ==>
      Lookup(rows, m.user).Some? && (Lookup(rows, m.user).value.uid != 0 ==> m.uid in UIDs(rows))
  {
    var user := Subject(m);
    LookupFinds(rows, user);
    var out := Applied(rows, m).rows;
    match m
    case Record(rec) => WithoutHas(rows, user);
    case Remove(_) => WithoutHas(rows, user);
    case FinishDeletion(_, _, _) => WithoutHas(rows, user);
    case Compact(gone) => CompactedHas(rows, gone);
    case _ =>
      forall r | r in out ensures r.uid in UIDs(rows) + NewUIDs(m) {
        if r !in rows { ChangedRow(rows, m, r); }
      }
  }

  lemma ChangedRow(rows: seq<Row>, m: Mutation, r: Row)
    requires m.BeginDeletion? || m.BeginQuarantine?
    requires Applied(rows, m).Changed? && r in Applied(rows, m).rows && r !in rows
    ensures r.uid == m.uid && (m.BeginDeletion? && m.generation != "" ==> m.uid in UIDs(rows))
  {
    LookupFinds(rows, m.user);
  }

  /** Names exactly this row's deletion, the only call that may drop it. */
  predicate Finishes(m: Mutation, r: Row) {
    m.FinishDeletion? && m.user == r.user && SameDeletion(r, m.uid, m.generation)
  }

  /** A started deletion is neither altered nor dropped but by its own exact finish. */
  lemma WitnessStays(rows: seq<Row>, m: Mutation, r: Row)
    requires Valid(rows) && Lookup(rows, r.user) == Some(r) && r.deletionStarted
    requires Applied(rows, m).Changed?
    ensures Lookup(Applied(rows, m).rows, r.user) == if Finishes(m, r) then None else Some(r)
  {
    if m.Compact? {
      CompactedLookup(rows, m.gone, r.user);
    } else if Subject(m) != r.user {
      OthersUntouched(rows, m, r.user);
    } else {
      LookupWithout(rows, r.user, r.user);
    }
  }

  /** A completed identity-bound account, or its deletion under its own identity. */
  predicate Bound(r: Row) { r.identityBound && (!r.pending || r.deletionStarted) }

  /** No transition weakens a completed bound row to UID-only authority. */
  lemma BoundNeverWeakened(rows: seq<Row>, m: Mutation, r: Row)
    requires Valid(rows) && Lookup(rows, r.user) == Some(r) && Bound(r)
    requires Applied(rows, m).Changed? && Lookup(Applied(rows, m).rows, r.user).Some?
    ensures var r' := Lookup(Applied(rows, m).rows, r.user).value;
      r'.deletionStarted ==> r'.identityBound && r'.uid == r.uid && r'.generation == r.generation
  {
    if r.deletionStarted {
      WitnessStays(rows, m, r);
    } else if m.Compact? {
      CompactedLookup(rows, m.gone, r.user);
    } else if Subject(m) != r.user {
      OthersUntouched(rows, m, r.user);
    } else {
      LookupFinds(rows, r.user);
      BoundHasUID(r);
      BoundStepsOn(rows, m, r);
    }
  }

  lemma BoundHasUID(r: Row)
    requires ValidRow(r) && Bound(r)
    ensures AccountID(r.uid) && Generation(r.generation)
  {
  }

  lemma RecordedLookup(rows: seq<Row>, rec: Row)
    requires Recorded(rows, rec).Changed?
    ensures Lookup(Recorded(rows, rec).rows, rec.user) == Some(rec)
  {
    LookupSnoc(Without(rows, rec.user), rec, rec.user);
  }

  lemma DeletionBegunLookup(rows: seq<Row>, r: Row, uid: int, generation: string)
    requires Lookup(rows, r.user) == Some(r) && DeletionBegun(rows, r.user, uid, generation).Changed?
    ensures Lookup(DeletionBegun(rows, r.user, uid, generation).rows, r.user) == Deleting(r, uid, generation)
  {
    LookupReplace(rows, r.user, Deleting(r, uid, generation).value);
  }

  lemma QuarantineBegunLookup(rows: seq<Row>, r: Row, uid: int, generation: string, deadline: int)
    requires Lookup(rows, r.user) == Some(r) && QuarantineBegun(rows, r.user, uid, generation, deadline).Changed?
    ensures Lookup(QuarantineBegun(rows, r.user, uid, generation, deadline).rows, r.user) ==
            Quarantining(r, uid, generation, deadline)
  {
    LookupReplace(rows, r.user, Quarantining(r, uid, generation, deadline).value);
  }

  lemma BoundStepsOn(rows: seq<Row>, m: Mutation, r: Row)
    requires Lookup(rows, r.user) == Some(r) && Bound(r) && !r.deletionStarted && r.uid != 0
    requires !m.Compact? && Subject(m) == r.user && Applied(rows, m).Changed?
    ensures var r' := Lookup(Applied(rows, m).rows, r.user);
      r'.Some? && r'.value.deletionStarted ==>
        r'.value.identityBound && r'.value.uid == r.uid && r'.value.generation == r.generation
  {
    match m
    case Record(rec) => RecordedLookup(rows, rec);
    case BeginDeletion(_, uid, generation) => DeletionBegunLookup(rows, r, uid, generation);
    case BeginQuarantine(_, uid, generation, deadline) =>
      QuarantineBegunLookup(rows, r, uid, generation, deadline);
      QuarantinedAsBefore(r, uid, generation, deadline);
    case _ => LookupWithout(rows, r.user, r.user);
  }

  lemma QuarantinedAsBefore(r: Row, uid: int, generation: string, deadline: int)
    requires r.identityBound
    ensures var r' := Quarantining(r, uid, generation, deadline);
      r'.Some? ==> r'.value.identityBound && r'.value.generation == r.generation && (r.uid != 0 ==> r'.value.uid == r.uid)
  {
  }

  // The loops that compute the transitions.

  lemma {:induction false} LookupNone(rows: seq<Row>, user: string)
    requires forall r | r in rows :: r.user != user
    ensures Lookup(rows, user) == None && Without(rows, user) == rows
  {
    if rows != [] {
      assert rows == rows[..|rows| - 1] + [rows[|rows| - 1]];
      LookupNone(rows[..|rows| - 1], user);
    }
  }

  method RecordRows(recs: seq<Row>, rec: Row) returns (c: Change)
    requires Distinct(recs)
    ensures c == Recorded(recs, rec)
  {
    var out := [];
    for i := 0 to |recs|
      invariant out == Without(recs[..i], rec.user)
      invariant forall r | r in recs[..i] && r.user == rec.user :: !r.deletionStarted
    {
      var r := recs[i];
      assert recs[..i + 1] == recs[..i] + [r];
      WithoutSnoc(recs[..i], r, rec.user);
      if r.user == rec.user {
        if r.deletionStarted {
          LookupIn(recs, r);
          return Refused;
        }
      } else {
        out := out + [r];
      }
    }
    assert recs[..|recs|] == recs;
    LookupFinds(recs, rec.user);
    return Changed(out + [rec]);
  }

  method RemoveRows(recs: seq<Row>, user: string) returns (c: Change)
    requires Distinct(recs)
    ensures c == Removed(recs, user)
  {
    var out, removed := [], false;
    for i := 0 to |recs|
      invariant out == Without(recs[..i], user)
      invariant removed <==> exists r | r in recs[..i] :: r.user == user
      invariant forall r | r in recs[..i] && r.user == user :: !r.deletionStarted
    {
      var r := recs[i];
      assert recs[..i + 1] == recs[..i] + [r];
      WithoutSnoc(recs[..i], r, user);
      if r.user == user {
        if r.deletionStarted {
          LookupIn(recs, r);
          return Refused;
        }
        removed := true;
      } else {
        out := out + [r];
      }
    }
    assert recs[..|recs|] == recs;
    LookupFinds(recs, user);
    return if removed then Changed(out) else Unchanged;
  }

  method CompactRows(recs: seq<Row>, keep: Row -> Option<bool>) returns (out: Option<seq<Row>>, ghost gone: set<string>)
    requires Distinct(recs)
    ensures out == None <==> exists r | r in recs :: !r.deletionStarted && keep(r) == None
    ensures out.Some? ==> out.value == Compacted(recs, gone)
    ensures gone == set r | r in recs && !r.deletionStarted && keep(r) == Some(false) :: r.user
  {
    var kept := [];
    gone := set r | r in recs && !r.deletionStarted && keep(r) == Some(false) :: r.user;
    for i := 0 to |recs|
      invariant kept == Compacted(recs[..i], gone)
      invariant forall r | r in recs[..i] && !r.deletionStarted :: keep(r) != None
    {
      var r := recs[i];
      assert recs[..i + 1][..i] == recs[..i];
      assert recs[..i + 1] == recs[..i] + [r];
      if r.deletionStarted {
        kept := kept + [r];
      } else {
        var live := keep(r);
        if live == None { return None, gone; }
        if live.value {
          OneRowPerName(recs, r, gone, keep);
          kept := kept + [r];
        }
      }
    }
    assert recs[..|recs|] == recs;
    return Some(kept), gone;
  }

  lemma OneRowPerName(recs: seq<Row>, r: Row, gone: set<string>, keep: Row -> Option<bool>)
    requires Distinct(recs) && r in recs && keep(r) == Some(true)
    requires gone == set q | q in recs && !q.deletionStarted && keep(q) == Some(false) :: q.user
    ensures r.user !in gone
  {
    forall q | q in recs && q.user == r.user ensures q == r {
      LookupIn(recs, q);
      LookupIn(recs, r);
    }
  }

  lemma ReplaceAt(recs: seq<Row>, i: nat, row: Row)
    requires Distinct(recs) && i < |recs|
    ensures Replace(recs, recs[i].user, row) == recs[i := row]
    ensures Lookup(recs, recs[i].user) == Some(recs[i])
  {
    LookupIn(recs, recs[i]);
  }

  /** The check that a changed row still parses as a line. */
  method Parses(r: Row) returns (ok: bool)
    requires Int64(r.port) && Int64(r.uid)
    ensures ok == ValidRow(SanitizeRow(r))
  {
    RowRoundTrip(r);
    ok := ParseLine(RowText(r), V5).Some?;
  }

  method BeginDeletionRecords(recs: seq<Row>, user: string, uid: int, generation: string) returns (c: Change)
    requires Valid(recs)
    ensures c == DeletionBegun(recs, user, uid, generation)
  {
    if !DeletionIdentity(user, uid, generation) { return Refused; }
    for i := 0 to |recs|
      invariant forall r | r in recs[..i] :: r.user != user
    {
      var current := recs[i];
      assert recs[..i + 1] == recs[..i] + [current];
      if current.user == user {
        assert current in recs;
        ReplaceAt(recs, i, current);
        if current.deletionStarted {
          return if SameDeletion(current, uid, generation) then Unchanged else Refused;
        }
        var next := Deleting(current, uid, generation);
        if next == None { return Refused; }
        DeletingIsValid(current, uid, generation);
        SanitizedRowIsValid(next.value);
        var ok := Parses(next.value);
        if !ok { return Refused; }
        ReplaceAt(recs, i, next.value);
        return Changed(recs[i := next.value]);
      }
    }
    assert recs[..|recs|] == recs;
    LookupNone(recs, user);
    if generation != "" { return Refused; }
    var recovery := BLANK.(user := user, uid := uid, deletionStarted := true);
    WitnessIsValid(user, uid);
    SanitizedRowIsValid(recovery);
    var ok := Parses(recovery);
    if !ok { return Refused; }
    return Changed(recs + [recovery]);
  }

  method BeginQuarantineRecords(recs: seq<Row>, user: string, uid: int, generation: string, deadline: int)
    returns (c: Change, promotesUID: bool)
    requires Valid(recs)
    ensures c == QuarantineBegun(recs, user, uid, generation, deadline)
    ensures c.Changed? ==> Lookup(recs, user).Some? && promotesUID == (Lookup(recs, user).value.uid == 0)
  {
    if !DeletionIdentity(user, uid, generation) || generation == "" { return Refused, false; }
    for i := 0 to |recs|
      invariant forall r | r in recs[..i] :: r.user != user
    {
      var current := recs[i];
      assert recs[..i + 1] == recs[..i] + [current];
      if current.user == user {
        assert current in recs;
        ReplaceAt(recs, i, current);
        var text, unit := DeadlineText(deadline), QUARANTINE_PREFIX + user;
        if current.deletionStarted {
          if current.uid == uid && current.identityBound && current.generation == generation &&
            current.quarantineUntil == text && current.quarantineUnit == unit
          {
            return Unchanged, false;
          }
          return Refused, false;
        }
        if !current.identityBound || (current.uid != 0 && current.uid != uid) || current.generation != generation {
          return Refused, false;
        }
        var next := current.(uid := uid, deletionStarted := true, quarantineUntil := text, quarantineUnit := unit);
        QuarantinedParsesIff(current, uid, deadline);
        var ok := Parses(next);
        if !ok { return Refused, false; }
        ReplaceAt(recs, i, next);
        return Changed(recs[i := next]), current.uid == 0 && uid > 0;
      }
    }
    assert recs[..|recs|] == recs;
    LookupNone(recs, user);
    return Refused, false;
  }

  /** The re-parse check refuses exactly the deadlines the calendar cannot name. */
  lemma QuarantinedParsesIff(r: Row, uid: int, deadline: int)
    requires ValidRow(r) && r.identityBound && !r.deletionStarted && AccountID(uid)
    ensures var r' := r.(uid := uid, deletionStarted := true, quarantineUntil := DeadlineText(deadline),
                         quarantineUnit := QUARANTINE_PREFIX + r.user);
      ValidRow(SanitizeRow(r')) <==> Times.InCalendar(deadline)
  {
    var r' := r.(uid := uid, deletionStarted := true, quarantineUntil := DeadlineText(deadline),
                 quarantineUnit := QUARANTINE_PREFIX + r.user);
    if Times.InCalendar(deadline) {
      Times.TimeRoundTrip(deadline);
      SanitizedRowIsValid(r');
    } else {
      assert CleanText("?") && |DeadlineText(deadline)| == 1;
    }
  }

  method FinishDeletionRecords(recs: seq<Row>, user: string, uid: int, generation: string) returns (c: Change)
    requires Distinct(recs)
    ensures c == DeletionFinished(recs, user, uid, generation)
  {
    if !DeletionIdentity(user, uid, generation) { return Refused; }
    var out := [];
    for i := 0 to |recs|
      invariant out == recs[..i] && forall r | r in out :: r.user != user
    {
      var r := recs[i];
      if r.user == user {
        LookupIn(recs, r);
        if !SameDeletion(r, uid, generation) { return Refused; }
        WithoutAt(recs, i);
        return Changed(out + recs[i + 1..]);
      }
      out := out + [r];
    }
    LookupNone(recs, user);
    return Unchanged;
  }

  lemma {:induction false} WithoutAt(recs: seq<Row>, i: nat)
    requires Distinct(recs) && i < |recs|
    ensures Without(recs, recs[i].user) == recs[..i] + recs[i + 1..]
    decreases |recs|
  {
    var front, last := recs[..|recs| - 1], recs[|recs| - 1];
    if i == |recs| - 1 {
      forall r | r in front ensures r.user != last.user { OnlyLast(recs, r); }
      LookupNone(front, last.user);
    } else {
      WithoutAt(front, i);
      assert front[..i] + front[i + 1..] + [last] == recs[..i] + recs[i + 1..];
    }
  }
}
