/** Whole runs of registry calls, with kills and power losses anywhere between. */
module RegistryRuns {
  import opened Wrappers
  import opened Storage
  import opened Validate
  import opened Records
  import opened Tables
  import opened Transitions
  import opened Registry
  import Numbers
  import Sequences
  import Times

  /** A row without the fields that only describe it to a person. */
  function Essence(r: Row): Row {
    r.(created := "", expires := "", host := "", fingerprint := "", autoUnit := "")
  }

  datatype Step =
    | Initialize
    | Mutate(m: Mutation, unit: string)
    | CompactWith(keep: Row -> Option<bool>)
    | Reserve(minimum: int, maximum: int)
    | Crash

  /** Every state power loss may leave holds this name's started deletion. */
  ghost predicate Witnessed(history: seq<Moment>, user: string, w: Row) {
    forall m | m in history :: WitnessIn(TableOf(m.files), user, w)
  }

  predicate WitnessIn(t: Option<Table>, user: string, w: Row) {
    var r := Lookup(Rows(t), user);
    r.Some? && r.value.deletionStarted && Essence(r.value) == w && Tables.Valid(Rows(t))
  }

  lemma {:induction false} LookupSanitized(rows: seq<Row>, user: string)
    requires Tables.Valid(rows)
    ensures Lookup(SanitizeAll(rows), user) ==
      match Lookup(rows, user) case None => None case Some(r) => Some(SanitizeRow(r))
  {
    if rows != [] {
      LastRow(rows);
      var front, last := rows[..|rows| - 1], rows[|rows| - 1];
      LookupSanitized(front, user);
      SanitizedRowIsValid(last);
      LookupSnoc(SanitizeAll(front), SanitizeRow(last), user);
    }
  }

  lemma SanitizedWitness(rows: seq<Row>, user: string, w: Row)
    requires Tables.Valid(rows) && Lookup(rows, user).Some?
    requires Lookup(rows, user).value.deletionStarted && Essence(Lookup(rows, user).value) == w
    ensures WitnessIn(Some(Table(V5, SanitizeAll(rows))), user, w)
  {
    var r := Lookup(rows, user).value;
    LookupFinds(rows, user);
    LookupSanitized(rows, user);
    SanitizedRowIsValid(r);
    SanitizedIsValid(rows);
  }

  /** No mutation but the exact finish takes a witness from the table it writes. */
  lemma TargetKeepsWitness(t: Option<Table>, m: Mutation, user: string, w: Row)
    requires WitnessIn(t, user, w) && !Finishes(m, w)
    ensures WitnessIn(Target(t, m), user, w)
  {
    var rows := Rows(t);
    var r := Lookup(rows, user).value;
    if !Damaged(t) && Applied(rows, m).Changed? {
      assert Finishes(m, r) ==> Finishes(m, w);
      WitnessStays(rows, m, r);
      AppliedIsValid(rows, m);
      SanitizedWitness(Applied(rows, m).rows, user, w);
    }
  }

  lemma WitnessGoesOn(h: seq<Moment>, h': seq<Moment>, target: Option<Table>, user: string, w: Row)
    requires h != [] && Continues(h, h', target) && Witnessed(h, user, w) && WitnessIn(target, user, w)
    ensures Witnessed(h', user, w)
  {
    hide WitnessIn;
    assert h[|h| - 1] in h;
  }

  predicate InTime(now: int) { Times.InCalendar(Sequences.SafeAfter(now)) }

  /** States that power loss may leave, the visible one last. */
  ghost predicate Sound(h: seq<Moment>) { h != [] && forall m | m in h :: Safe(m) }

  ghost function Visible(h: seq<Moment>): Option<Table>
    requires h != []
  {
    TableOf(h[|h| - 1].files)
  }

  /** The identity a reservation takes next. */
  function NextIdentity(mark: nat, minimum: int): int { if mark < minimum then minimum else mark + 1 }

  /** What one step may make of the states power loss can fall back to, and the identity it hands out. */
  ghost predicate Takes(h: seq<Moment>, step: Step, reserved: Option<int>, h': seq<Moment>)
    requires h != []
  {
    Sound(h') && (!step.Reserve? ==> reserved == None) &&
    match step
    case Initialize => Continues(h, h', Initialized(Visible(h)))
    case Mutate(m, _) => if m.Compact? then h' == h else Continues(h, h', Target(Visible(h), m))
    case CompactWith(_) => exists gone :: Continues(h, h', Target(Visible(h), Mutation.Compact(gone)))
    case Reserve(minimum, maximum) =>
      Continues(h, h', Visible(h)) &&
      (reserved.Some? ==>
        var last, r := h[|h| - 1], reserved.value;
        minimum <= r <= maximum && r == NextIdentity(Mark(last.files), minimum) &&
        (forall u | u in last.issued :: u < r) && |h'| == 1 && h'[0].issued == last.issued + {r})
    case Crash => |h'| == 1 && h'[0] in h
  }

  datatype Taken = Taken(step: Step, reserved: Option<int>, after: seq<Moment>)

  ghost function Before(h: seq<Moment>, run: seq<Taken>, i: nat): seq<Moment>
    requires i <= |run|
  {
    if i == 0 then h else run[i - 1].after
  }

  ghost predicate TakenAt(h: seq<Moment>, run: seq<Taken>, i: nat)
    requires i < |run|
  {
    Before(h, run, i) != [] && Takes(Before(h, run, i), run[i].step, run[i].reserved, run[i].after)
  }

  /** Any run of registry calls, failures, kills and power losses. */
  ghost predicate Runs(h: seq<Moment>, run: seq<Taken>) {
    Sound(h) && forall i | 0 <= i < |run| :: TakenAt(h, run, i)
  }

  lemma StepOf(h: seq<Moment>, run: seq<Taken>, i: nat)
    requires Runs(h, run) && i < |run|
    ensures Before(h, run, i) != [] && Takes(Before(h, run, i), run[i].step, run[i].reserved, run[i].after)
    ensures Before(h, run, i + 1) == run[i].after
  {
    hide Takes, Sound;
    assert TakenAt(h, run, i);
  }

  lemma SoundAt(h: seq<Moment>, run: seq<Taken>, i: nat)
    requires Runs(h, run) && i <= |run|
    ensures Sound(Before(h, run, i))
  {
    if i > 0 { StepOf(h, run, i - 1); TakesToSound(Before(h, run, i - 1), run[i - 1]); }
  }

  lemma TakesToSound(h: seq<Moment>, t: Taken)
    requires h != [] && Takes(h, t.step, t.reserved, t.after)
    ensures Sound(t.after)
  {
    hide Sound, Continues, TableOf, Target, Initialized;
  }

  lemma HandedOutIsBurned(h: seq<Moment>, t: Taken, u: int)
    requires h != [] && Takes(h, t.step, t.reserved, t.after) && t.reserved == Some(u)
    ensures Burned(t.after, u)
  {
    hide Sound, Continues, TableOf, Target, Initialized;
  }

  /** The UID is in a row whatever power loss leaves. */
  ghost predicate InEveryTable(h: seq<Moment>, u: int) { forall m | m in h :: u in UIDs(Rows(TableOf(m.files))) }

  ghost predicate Burned(h: seq<Moment>, u: int) { forall m | m in h :: u in m.issued }

  lemma RecordedIsBurned(h: seq<Moment>, u: int)
    requires Sound(h) && InEveryTable(h, u)
    ensures Burned(h, u)
  {
    hide TableOf;
    forall m | m in h ensures u in m.issued {
      assert Safe(m);
    }
  }

  lemma GoesOnBurned(h: seq<Moment>, h': seq<Moment>, target: Option<Table>, u: int)
    requires h != [] && Continues(h, h', target) && Burned(h, u)
    ensures Burned(h', u)
  {
    hide TableOf;
    assert h[|h| - 1] in h;
    forall m | m in h' ensures u in m.issued {
      assert m in h || Follows(h[|h| - 1], m, target);
    }
  }

  lemma StepBurns(h: seq<Moment>, step: Step, reserved: Option<int>, h': seq<Moment>, u: int)
    requires h != [] && Takes(h, step, reserved, h') && Burned(h, u)
    ensures Burned(h', u)
  {
    hide TableOf, Continues, Target, Initialized;
    match step
    case Initialize => GoesOnBurned(h, h', Initialized(Visible(h)), u);
    case Mutate(m, _) => if !m.Compact? { GoesOnBurned(h, h', Target(Visible(h), m), u); }
    case CompactWith(_) =>
      var gone :| Continues(h, h', Target(Visible(h), Mutation.Compact(gone)));
      GoesOnBurned(h, h', Target(Visible(h), Mutation.Compact(gone)), u);
    case Reserve(_, _) => GoesOnBurned(h, h', Visible(h), u);
    case Crash =>
  }

  /** What is burned at one point of a run is burned ever after. */
  lemma {:induction false} StaysBurned(h: seq<Moment>, run: seq<Taken>, i: nat, j: nat, u: int)
    requires Runs(h, run) && i <= j <= |run| && Burned(Before(h, run, i), u)
    ensures Burned(Before(h, run, j), u)
    decreases j
  {
    hide Takes, Burned, Runs, Before;
    if i < j {
      StaysBurned(h, run, i, j - 1, u);
      StepOf(h, run, j - 1);
      StepBurns(Before(h, run, j - 1), run[j - 1].step, run[j - 1].reserved, run[j - 1].after, u);
    }
  }

  /** A UID that was handed out, or is in a row whatever power loss leaves, when i steps are taken. */
  ghost predicate Spent(h: seq<Moment>, run: seq<Taken>, i: nat, u: int)
    requires i <= |run|
  {
    InEveryTable(Before(h, run, i), u) || (i > 0 && run[i - 1].reserved == Some(u))
  }

  lemma SpentIsBurned(h: seq<Moment>, run: seq<Taken>, i: nat, u: int)
    requires Runs(h, run) && i <= |run| && Spent(h, run, i, u)
    ensures Burned(Before(h, run, i), u)
  {
    hide InEveryTable, Runs, Before, Burned, Takes, Sound;
    SoundAt(h, run, i);
    if InEveryTable(Before(h, run, i), u) {
      RecordedIsBurned(Before(h, run, i), u);
    } else {
      StepOf(h, run, i - 1);
      HandedOutIsBurned(Before(h, run, i - 1), run[i - 1], u);
    }
  }

  /**
   In any run an identity is in the range its own step asked for and above every
   UID that was handed out, or durably in a row, at any earlier point, whatever
   became of that row since.
   */
  lemma IdentityIsNew(h: seq<Moment>, run: seq<Taken>, i: nat, j: nat, u: int)
    requires Runs(h, run) && i <= j < |run| && run[j].reserved.Some? && Spent(h, run, i, u)
    ensures run[j].step.Reserve? && run[j].step.minimum <= run[j].reserved.value <= run[j].step.maximum
    ensures u < run[j].reserved.value
  {
    hide Spent, Runs, Before, Continues, TableOf, Sound;
    SpentIsBurned(h, run, i, u);
    StaysBurned(h, run, i, j, u);
    StepOf(h, run, j);
    var h1 := Before(h, run, j);
    assert h1[|h1| - 1] in h1;
  }

  // Started deletions.

  ghost predicate StepSpares(step: Step, w: Row) { step.Mutate? ==> !Finishes(step.m, w) }

  lemma StepKeepsWitness(h: seq<Moment>, step: Step, reserved: Option<int>, h': seq<Moment>, user: string, w: Row)
    requires h != [] && Takes(h, step, reserved, h') && Witnessed(h, user, w) && StepSpares(step, w)
    ensures Witnessed(h', user, w)
  {
    hide WitnessIn, TableOf, Continues, Target, Initialized;
    assert h[|h| - 1] in h;
    var t := Visible(h);
    match step
    case Initialize =>
      InitializedWitness(t, user, w);
      WitnessGoesOn(h, h', Initialized(t), user, w);
    case Mutate(m, _) =>
      if !m.Compact? {
        TargetKeepsWitness(t, m, user, w);
        WitnessGoesOn(h, h', Target(t, m), user, w);
      }
    case CompactWith(_) =>
      var gone :| Continues(h, h', Target(t, Mutation.Compact(gone)));
      TargetKeepsWitness(t, Mutation.Compact(gone), user, w);
      WitnessGoesOn(h, h', Target(t, Mutation.Compact(gone)), user, w);
    case Reserve(_, _) => WitnessGoesOn(h, h', t, user, w);
    case Crash =>
  }

  lemma InitializedWitness(t: Option<Table>, user: string, w: Row)
    requires WitnessIn(t, user, w)
    ensures WitnessIn(Initialized(t), user, w)
  {
    SanitizedWitness(Rows(t), user, w);
  }

  /** Once in every state power loss may leave, a started deletion stays there until its exact finish is asked for. */
  lemma {:induction false} WitnessLasts(h: seq<Moment>, run: seq<Taken>, i: nat, j: nat, user: string, w: Row)
    requires Runs(h, run) && i <= j <= |run| && Witnessed(Before(h, run, i), user, w)
    requires forall k | i <= k < j :: StepSpares(run[k].step, w)
    ensures Witnessed(Before(h, run, j), user, w)
    decreases j
  {
    hide Takes, Witnessed, Runs, Before;
    if i < j {
      WitnessLasts(h, run, i, j - 1, user, w);
      StepOf(h, run, j - 1);
      StepKeepsWitness(Before(h, run, j - 1), run[j - 1].step, run[j - 1].reserved, run[j - 1].after, user, w);
    }
  }

  /** A started deletion with nothing unsynced behind it is on record for good. */
  lemma DurableDeletionIsWitnessed(history: seq<Moment>, user: string)
    requires |history| == 1 && DeletionVisible(history[0].files, user)
    ensures var w := Essence(Lookup(Rows(TableOf(history[0].files)), user).value);
      w.user == user && Witnessed(history, user, w)
  {
    hide Rows, TableOf, Tables.Valid;
    TableIsValid(history[0].files);
  }

  ghost predicate DeletionVisible(f: map<string, string>, user: string) {
    var r := Lookup(Rows(TableOf(f)), user);
    r.Some? && r.value.deletionStarted
  }

  lemma TableIsValid(f: map<string, string>)
    ensures Tables.Valid(Rows(TableOf(f)))
  {
    if TABLE in f { ReadIsValid(f[TABLE]); }
  }

  /** The call a mutation stands for; Compact is asked for through its callback instead. */
  method Call(store: Store, m: Mutation, unit: string, now: int) returns (a: Answer)
    requires store.Valid() && InTime(now) && !m.Compact?
    modifies store, store.dir
    ensures store.Valid() && store.Did(old(store.history), TableOf(old(store.dir.entries)), m, a)
  {
    hide Safe, Continues, ReadTable;
    ContinuesItself(store.history, Target(TableOf(store.dir.entries), m));
    match m
    case Record(rec) =>
      if !Numbers.Int64(rec.port) || !Numbers.Int64(rec.uid) { return Err; }
      a := store.Record(rec, now);
    case Remove(user) => a := store.Remove(user, now);
    case BeginDeletion(user, uid, generation) => a := store.BeginDeletion(user, uid, generation, now);
    case BeginQuarantine(user, uid, generation, deadline) =>
      a := store.BeginQuarantine(user, uid, generation, deadline, unit, now);
    case FinishDeletion(user, uid, generation) => a := store.FinishDeletionRecovery(user, uid, generation, now);
  }

  method TakeStep(store: Store, step: Step, now: int) returns (reserved: Option<int>)
    requires store.Valid() && InTime(now)
    modifies store, store.dir
    ensures store.Valid() && Takes(old(store.history), step, reserved, store.history)
  {
    hide Safe, ReadTable, Target, Continues, InTime, Times.InCalendar, Sequences.SafeAfter, Initialized;
    ghost var h := store.history;
    reserved := None;
    match step
    case Initialize =>
      InTimeMeans(now);
      var a := store.Init(now);
    case Mutate(m, unit) =>
      if !m.Compact? { var a := Call(store, m, unit, now); }
    case CompactWith(keep) =>
      InTimeMeans(now);
      var a, n;
      ghost var gone;
      a, n, gone := store.Compact(keep, now);
      assert Continues(h, store.history, Target(Visible(h), Mutation.Compact(gone)));
    case Reserve(minimum, maximum) =>
      var a, r, isolated := store.ReserveIdentity(minimum, maximum, now);
      if a == Ok { reserved := Some(r); }
    case Crash =>
      store.PowerLoss();
  }

  lemma InTimeMeans(now: int)
    requires InTime(now)
    ensures Times.InCalendar(Sequences.SafeAfter(now))
  {
  }

  method TakeSteps(store: Store, script: seq<Step>, clock: seq<int>)
    returns (reserved: seq<Option<int>>, ghost run: seq<Taken>)
    requires store.Valid() && |clock| == |script| && forall n | 0 <= n < |clock| :: InTime(clock[n])
    modifies store, store.dir
    ensures store.Valid() && Runs(old(store.history), run) && |run| == |reserved| == |script|
    ensures forall n | 0 <= n < |script| :: run[n].step == script[n] && run[n].reserved == reserved[n]
    ensures store.history == Before(old(store.history), run, |run|)
  {
    hide Takes, InTime, Safe, Sound, Runs, Before;
    ghost var h := store.history;
    reserved, run := [], [];
    StoreIsSound(store);
    NothingTaken(h);
    for n := 0 to |script|
      invariant store.Valid() && Runs(h, run) && |run| == |reserved| == n && store.history == Before(h, run, n)
      invariant forall k | 0 <= k < n :: run[k].step == script[k] && run[k].reserved == reserved[k]
    {
      StoreIsSound(store);
      var r := TakeStep(store, script[n], clock[n]);
      RunsOn(h, run, Taken(script[n], r, store.history));
      reserved, run := reserved + [r], run + [Taken(script[n], r, store.history)];
    }
  }

  lemma NothingTaken(h: seq<Moment>)
    requires Sound(h)
    ensures Runs(h, []) && Before(h, [], 0) == h
  {
  }

  /**
   Any script of calls, failures, kills and power losses is such a run: every
   identity it hands out is in the range asked for and above every UID handed
   out or durably recorded before.
   */
  method Run(store: Store, script: seq<Step>, clock: seq<int>) returns (reserved: seq<Option<int>>, ghost run: seq<Taken>)
    requires store.Valid() && |clock| == |script| && forall n | 0 <= n < |clock| :: InTime(clock[n])
    modifies store, store.dir
    ensures store.Valid() && Runs(old(store.history), run) && |run| == |reserved| == |script|
    ensures forall n | 0 <= n < |script| :: run[n].step == script[n] && run[n].reserved == reserved[n]
    ensures store.history == Before(old(store.history), run, |run|)
    ensures forall n | 0 <= n < |script| && reserved[n].Some? ::
      script[n].Reserve? && script[n].minimum <= reserved[n].value <= script[n].maximum
    ensures forall i, n, u | 0 <= i <= n < |script| && reserved[n].Some? && Spent(old(store.history), run, i, u) ::
      u < reserved[n].value
    ensures forall n | 0 <= n < |script| && reserved[n].Some? :: Burned(store.history, reserved[n].value)
  {
    hide Takes, Spent, InTime, Safe, Sound, Runs, Before, Burned;
    ghost var h := store.history;
    reserved, run := TakeSteps(store, script, clock);
    forall n | 0 <= n < |script| && reserved[n].Some?
      ensures script[n].Reserve? && script[n].minimum <= reserved[n].value <= script[n].maximum
    {
      RangeOf(h, run, n);
    }
    forall i, n, u | 0 <= i <= n < |script| && reserved[n].Some? && Spent(h, run, i, u) ensures u < reserved[n].value {
      IdentityIsNew(h, run, i, n, u);
    }
    forall n | 0 <= n < |script| && reserved[n].Some? ensures Burned(store.history, reserved[n].value) {
      StepOf(h, run, n);
      HandedOutIsBurned(Before(h, run, n), run[n], reserved[n].value);
      StaysBurned(h, run, n + 1, |run|, reserved[n].value);
    }
  }

  lemma RangeOf(h: seq<Moment>, run: seq<Taken>, n: nat)
    requires Runs(h, run) && n < |run| && run[n].reserved.Some?
    ensures run[n].step.Reserve? && run[n].step.minimum <= run[n].reserved.value <= run[n].step.maximum
  {
    hide Runs, Before, Continues, TableOf, Sound;
    StepOf(h, run, n);
  }

  lemma StoreIsSound(store: Store)
    requires store.Valid()
    ensures Sound(store.history)
  {
    hide Safe;
  }

  lemma TakenStays(h: seq<Moment>, run: seq<Taken>, last: Taken, i: nat)
    requires i < |run|
    ensures TakenAt(h, run + [last], i) <==> TakenAt(h, run, i)
  {
    hide Takes;
    assert (run + [last])[i] == run[i];
    if i > 0 { assert (run + [last])[i - 1] == run[i - 1]; }
  }

  lemma TakenLast(h: seq<Moment>, run: seq<Taken>, last: Taken)
    ensures Before(h, run + [last], |run|) == Before(h, run, |run|) && Before(h, run + [last], |run| + 1) == last.after
  {
    if run != [] { assert (run + [last])[|run| - 1] == run[|run| - 1]; }
  }

  lemma RunsOn(h: seq<Moment>, run: seq<Taken>, last: Taken)
    requires Runs(h, run) && Before(h, run, |run|) != []
    requires Takes(Before(h, run, |run|), last.step, last.reserved, last.after)
    ensures Runs(h, run + [last]) && Before(h, run + [last], |run| + 1) == last.after
  {
    hide Takes, Sound, Before;
    TakenLast(h, run, last);
    forall i: nat | i < |run + [last]| ensures TakenAt(h, run + [last], i) {
      if i < |run| {
        assert TakenAt(h, run, i);
        TakenStays(h, run, last, i);
      }
    }
  }

  // What power loss may take back, and what it costs.

  /** The state after a write of one file, with the UIDs it brings. */
  function Wrote(m: Moment, name: string, content: string, more: set<int>): Moment {
    Moment(m.files[name := content], m.issued + more)
  }

  /** A v5 table whose sequence is s. */
  ghost predicate Settled(m: Moment, s: Sequences.Sequence) {
    Safe(m) && Current(TableOf(m.files)) && SequenceOf(m.files) == Some(s)
  }

  function Raised(m: Moment, s: Sequences.Sequence, u: nat, more: set<int>): Moment
    requires s.(highest := u).Writable()
  {
    Wrote(m, SEQUENCE, Sequences.SequenceText(s.(highest := u)), more)
  }

  lemma RaisedIsSettled(m: Moment, s: Sequences.Sequence, u: int, more: set<int>)
    requires Settled(m, s) && AccountID(u) && s.highest < u && more <= {u}
    ensures s.(highest := u).Writable()
    ensures Settled(Raised(m, s, u, more), s.(highest := u))
    ensures TableOf(Raised(m, s, u, more).files) == TableOf(m.files)
  {
    hide ReadTable, Sequences.ReadSequence, Sequences.SequenceText;
    Sequences.ReadIsWritable(m.files[SEQUENCE]);
    Sequences.SequenceRoundTrip(s.(highest := u));
    SequenceRaised(m, Sequences.SequenceText(s.(highest := u)), s.(highest := u), more);
  }

  /** A reservation can hand out u next exactly when the mark is below it. */
  lemma ReservableIff(m: Moment, s: Sequences.Sequence, u: int)
    requires Settled(m, s) && AccountID(u)
    ensures (exists minimum, maximum, h :: Takes([m], Reserve(minimum, maximum), Some(u), h)) <==> s.highest < u
  {
    hide ReadTable, Safe, Sequences.ReadSequence, Sequences.SequenceText;
    if s.highest < u {
      ReservesNext(m, s, u);
    }
  }

  lemma MarkBounds(m: Moment, s: Sequences.Sequence, u: int)
    requires Settled(m, s) && s.highest < u
    ensures forall v | v in m.issued :: v < u
  {
  }

  /**
   After a crash a UID can be handed out again if and only if one of the states
   it may fall back to has a mark below it: never one that is durable in a row.
   */
  lemma CrashMayReuseIff(h: seq<Moment>, u: int)
    requires Sound(h) && AccountID(u) && forall m | m in h :: Current(TableOf(m.files))
    ensures (exists back, minimum, maximum, h' ::
        Takes(h, Crash, None, [back]) && Takes([back], Reserve(minimum, maximum), Some(u), h')) <==>
      (exists back :: back in h && Mark(back.files) < u)
    ensures Burned(h, u) ==> forall back | back in h :: u <= Mark(back.files)
  {
    hide ReadTable, Sequences.ReadSequence, Safe, Takes;
    forall back | back in h
      ensures (exists minimum, maximum, h' :: Takes([back], Reserve(minimum, maximum), Some(u), h')) <==> Mark(back.files) < u
      ensures u in back.issued ==> u <= Mark(back.files)
      ensures Takes(h, Crash, None, [back])
    {
      CrashBack(h, back);
      ReservableIff(back, SequenceOf(back.files).value, u);
      if u in back.issued && Mark(back.files) < u { MarkBounds(back, SequenceOf(back.files).value, u); }
    }
    forall back | Takes(h, Crash, None, [back]) ensures back in h {
      CrashWasThere(h, back);
    }
  }

  lemma CrashBack(h: seq<Moment>, back: Moment)
    requires Sound(h) && back in h && Current(TableOf(back.files))
    ensures Takes(h, Crash, None, [back]) && SequenceOf(back.files).Some? && Settled(back, SequenceOf(back.files).value)
    ensures Mark(back.files) == SequenceOf(back.files).value.highest
  {
    hide ReadTable, Sequences.ReadSequence;
    assert Safe(back);
  }

  lemma CrashWasThere(h: seq<Moment>, back: Moment)
    requires h != [] && Takes(h, Crash, None, [back])
    ensures back in h
  {
  }

  lemma PublishedIsSettled(m: Moment, s: Sequences.Sequence, out: seq<Row>)
    requires Settled(m, s) && Tables.Valid(out) && |Render(out)| <= MAX_BYTES
    requires forall u | u in UIDs(out) :: u <= s.highest
    ensures var m' := Wrote(m, TABLE, Render(out), UIDs(out));
      Settled(m', s) && TableOf(m'.files) == Some(Table(V5, SanitizeAll(out)))
  {
    hide ReadTable, Sequences.ReadSequence, Render, SanitizeAll, Safe, Tables.Valid;
    HighestBelow(out, s.highest);
    MarkCovers(m, s);
    TablePublished(m, out);
    var m' := Wrote(m, TABLE, Render(out), UIDs(out));
    assert SequenceOf(m'.files) == SequenceOf(m.files);
  }

  /** A mutation whose rows fit under the mark may be published, synced or not. */
  lemma Publishable(h: seq<Moment>, m: Moment, s: Sequences.Sequence, mutation: Mutation, out: seq<Row>)
    requires Sound(h) && h[|h| - 1] == m && Settled(m, s) && !mutation.Compact?
    requires Applied(Rows(TableOf(m.files)), mutation) == Changed(out) && |Render(out)| <= MAX_BYTES
    requires forall u | u in UIDs(out) :: u <= s.highest
    ensures var m' := Wrote(m, TABLE, Render(out), UIDs(out));
      Settled(m', s) && TableOf(m'.files) == Some(Table(V5, SanitizeAll(out))) &&
      Takes(h, Mutate(mutation, ""), None, h + [m']) && Takes(h, Mutate(mutation, ""), None, [m'])
  {
    hide ReadTable, Sequences.ReadSequence, Render, Applied, SanitizeAll, Safe, Tables.Valid;
    TableIsValid(m.files);
    AppliedIsValid(Rows(TableOf(m.files)), mutation);
    PublishedIsSettled(m, s, out);
    TargetIs(TableOf(m.files), mutation, out);
    NextMoment(h, Wrote(m, TABLE, Render(out), UIDs(out)), Mutate(mutation, ""));
  }

  lemma TargetIs(t: Option<Table>, m: Mutation, out: seq<Row>)
    requires Current(t) && Applied(Rows(t), m) == Changed(out)
    ensures Target(t, m) == Some(Table(V5, SanitizeAll(out)))
  {
    hide Applied, SanitizeAll;
  }

  lemma NextMoment(h: seq<Moment>, m: Moment, step: Step)
    requires Sound(h) && Safe(m) && h[|h| - 1].issued <= m.issued
    requires step.Mutate? && !step.m.Compact?
    requires TableOf(m.files) == Visible(h) || TableOf(m.files) == Target(Visible(h), step.m)
    ensures Takes(h, step, None, h + [m]) && Takes(h, step, None, [m])
  {
    hide TableOf, Target, Safe;
  }

  lemma MarkCovers(m: Moment, s: Sequences.Sequence)
    requires Settled(m, s)
    ensures forall u | u in m.issued :: u <= Mark(m.files)
    ensures forall u | u in UIDs(Rows(TableOf(m.files))) :: u <= s.highest
  {
    hide ReadTable, Sequences.ReadSequence;
  }

  /** A sequence raised and not yet synced. */
  lemma RaisedFirst(h: seq<Moment>, m: Moment, s: Sequences.Sequence, u: int, mutation: Mutation)
    requires Sound(h) && h[|h| - 1] == m && Settled(m, s) && AccountID(u) && s.highest < u && !mutation.Compact?
    ensures s.(highest := u).Writable()
    ensures Takes(h, Mutate(mutation, ""), None, h + [Raised(m, s, u, {})])
  {
    hide ReadTable, Sequences.ReadSequence, Sequences.SequenceText, Safe, Target;
    RaisedIsSettled(m, s, u, {});
    NextMoment(h, Raised(m, s, u, {}), Mutate(mutation, ""));
  }

  /** The mark is raised for the row to come, but not synced. */
  lemma LostMark(m0: Moment, s: Sequences.Sequence, u: int, begin: Mutation) returns (m1: Moment)
    requires Settled(m0, s) && s.highest < u && AccountID(u) && !begin.Compact?
    ensures Takes([m0], Mutate(begin, ""), None, [m0, m1]) && Sound([m0, m1])
    ensures Settled(m1, s.(highest := u)) && TableOf(m1.files) == TableOf(m0.files)
    ensures Effect(m0.files, [m0.files], m1.files, NotDurable, m1.files, [m0.files, m1.files])
  {
    hide TableOf, SequenceOf, Sequences.SequenceText, Safe, Takes;
    RaisedIsSettled(m0, s, u, {});
    m1 := Raised(m0, s, u, {});
    RaisedFirst([m0], m0, s, u, begin);
    assert [m0] + [m1] == [m0, m1];
  }

  /** Nor is the table that is written next. */
  lemma LostTable(m0: Moment, m1: Moment, s: Sequences.Sequence, begin: Mutation, out: seq<Row>) returns (m2: Moment)
    requires Sound([m0, m1]) && Settled(m1, s) && !begin.Compact?
    requires Applied(Rows(TableOf(m1.files)), begin) == Changed(out) && |Render(out)| <= MAX_BYTES
    requires forall u | u in UIDs(out) :: u <= s.highest
    ensures Takes([m0, m1], Mutate(begin, ""), None, [m0, m1, m2]) && Sound([m0, m1, m2])
    ensures UIDs(Rows(TableOf(m2.files))) == UIDs(out)
    ensures Effect(m1.files, [m0.files, m1.files], m2.files, NotDurable, m2.files, [m0.files, m1.files, m2.files])
  {
    hide TableOf, SequenceOf, Safe, Render, SanitizeAll, Applied, UIDs, Continues;
    Publishable([m0, m1], m1, s, begin, out);
    m2 := Wrote(m1, TABLE, Render(out), UIDs(out));
    assert [m0, m1] + [m2] == [m0, m1, m2];
    SanitizedUIDs(out);
  }

  /** The first half: neither the mark nor the row is synced, and power loss takes both back. */
  lemma LostRow(m0: Moment, s: Sequences.Sequence, user: string, u: int) returns (m1: Moment, m2: Moment)
    requires Settled(m0, s) && s.highest < u && AccountID(u) && Username(user)
    requires var rows := Rows(TableOf(m0.files));
      Lookup(rows, user) == None && |Render(rows + [BLANK.(user := user, uid := u, deletionStarted := true)])| <= MAX_BYTES
    ensures var begin := Mutate(BeginDeletion(user, u, ""), "");
      Takes([m0], begin, None, [m0, m1]) && Takes([m0, m1], begin, None, [m0, m1, m2]) &&
      Takes([m0, m1, m2], Crash, None, [m0])
    ensures Effect(m0.files, [m0.files], m1.files, NotDurable, m1.files, [m0.files, m1.files])
    ensures Effect(m1.files, [m0.files, m1.files], m2.files, NotDurable, m2.files, [m0.files, m1.files, m2.files])
    ensures u in UIDs(Rows(TableOf(m2.files)))
  {
    hide TableOf, SequenceOf, Safe, Render, Takes, BLANK, Effect, Sound, Applied, UIDs;
    m1 := LostMark(m0, s, u, BeginDeletion(user, u, ""));
    MarkCovers(m0, s);
    FirstRow(Rows(TableOf(m0.files)), user, u);
    m2 := LostTable(m0, m1, s.(highest := u), BeginDeletion(user, u, ""),
      Rows(TableOf(m0.files)) + [BLANK.(user := user, uid := u, deletionStarted := true)]);
    CrashBack([m0, m1, m2], m0);
  }

  /** The second half: the same UID is reserved and recorded again. */
  lemma SecondUse(m0: Moment, s: Sequences.Sequence, rec: Row) returns (m3: Moment, m4: Moment)
    requires Settled(m0, s) && s.highest < rec.uid && AccountID(rec.uid)
    requires var c := Applied(Rows(TableOf(m0.files)), Mutation.Record(rec));
      c.Changed? && |Render(c.rows)| <= MAX_BYTES
    ensures Takes([m0], Reserve(rec.uid, rec.uid), Some(rec.uid), [m3])
    ensures Takes([m3], Mutate(Mutation.Record(rec), ""), None, [m4])
    ensures rec.uid in UIDs(Rows(TableOf(m4.files)))
  {
    hide ReadTable, Sequences.ReadSequence, Sequences.SequenceText, Safe, Render, Takes, SanitizeAll, Applied;
    var rows, u := Rows(TableOf(m0.files)), rec.uid;
    var second := Applied(rows, Mutation.Record(rec)).rows;
    MarkCovers(m0, s);
    AppliedUIDs(rows, Mutation.Record(rec));
    RaisedIsSettled(m0, s, u, {u});
    m3 := Raised(m0, s, u, {u});
    ReservesNext(m0, s, u);
    Publishable([m3], m3, s.(highest := u), Mutation.Record(rec), second);
    m4 := Wrote(m3, TABLE, Render(second), UIDs(second));
    SanitizedUIDs(second);
    SecondRow(rows, rec);
  }

  lemma FiveSteps(h: seq<Moment>, a: Taken, b: Taken, c: Taken, d: Taken, e: Taken)
    requires h != [] && Sound(h) && Takes(h, a.step, a.reserved, a.after)
    requires a.after != [] && Takes(a.after, b.step, b.reserved, b.after)
    requires b.after != [] && Takes(b.after, c.step, c.reserved, c.after)
    requires c.after != [] && Takes(c.after, d.step, d.reserved, d.after)
    requires d.after != [] && Takes(d.after, e.step, e.reserved, e.after)
    ensures Runs(h, [a, b, c, d, e])
  {
    hide Takes, Sound, Runs, Before;
    NothingTaken(h);
    RunsOn(h, [], a);
    assert [] + [a] == [a] && [a] + [b] == [a, b] && [a, b] + [c] == [a, b, c];
    assert [a, b, c] + [d] == [a, b, c, d] && [a, b, c, d] + [e] == [a, b, c, d, e];
    RunsOn(h, [a], b);
    RunsOn(h, [a, b], c);
    RunsOn(h, [a, b, c], d);
    RunsOn(h, [a, b, c, d], e);
  }

  /**
   One UID in two rows, across a power loss. A deletion that names a UID above
   the mark raises the mark, then writes the row; neither sync succeeds. Power
   loss takes both back, the UID is reserved, and another row records it.
   */
  lemma TwoRowsOneUID(m0: Moment, s: Sequences.Sequence, user: string, rec: Row)
    returns (m1: Moment, m2: Moment, m3: Moment, m4: Moment)
    requires Settled(m0, s) && s.highest < rec.uid && AccountID(rec.uid) && Username(user)
    requires var rows := Rows(TableOf(m0.files));
      Lookup(rows, user) == None && |Render(rows + [BLANK.(user := user, uid := rec.uid, deletionStarted := true)])| <= MAX_BYTES
    requires var c := Applied(Rows(TableOf(m0.files)), Mutation.Record(rec));
      c.Changed? && |Render(c.rows)| <= MAX_BYTES
    ensures var begin := Mutate(BeginDeletion(user, rec.uid, ""), "");
      Runs([m0],
        [Taken(begin, None, [m0, m1]), Taken(begin, None, [m0, m1, m2]), Taken(Crash, None, [m0]),
         Taken(Reserve(rec.uid, rec.uid), Some(rec.uid), [m3]), Taken(Mutate(Mutation.Record(rec), ""), None, [m4])])
    ensures Effect(m0.files, [m0.files], m1.files, NotDurable, m1.files, [m0.files, m1.files])
    ensures Effect(m1.files, [m0.files, m1.files], m2.files, NotDurable, m2.files, [m0.files, m1.files, m2.files])
    ensures rec.uid in UIDs(Rows(TableOf(m2.files))) && rec.uid in UIDs(Rows(TableOf(m4.files)))
  {
    hide TableOf, Safe, Render, Takes, Runs, BLANK, Applied, Effect;
    m1, m2 := LostRow(m0, s, user, rec.uid);
    m3, m4 := SecondUse(m0, s, rec);
    var begin := Mutate(BeginDeletion(user, rec.uid, ""), "");
    FiveSteps([m0], Taken(begin, None, [m0, m1]), Taken(begin, None, [m0, m1, m2]), Taken(Crash, None, [m0]),
      Taken(Reserve(rec.uid, rec.uid), Some(rec.uid), [m3]), Taken(Mutate(Mutation.Record(rec), ""), None, [m4]));
  }

  lemma FirstRow(rows: seq<Row>, user: string, u: int)
    requires Username(user) && AccountID(u) && Lookup(rows, user) == None
    ensures var w := BLANK.(user := user, uid := u, deletionStarted := true);
      Applied(rows, BeginDeletion(user, u, "")) == Changed(rows + [w]) &&
      u in UIDs(rows + [w]) && forall v | v in UIDs(rows + [w]) :: v in UIDs(rows) || v == u
  {
    var w := BLANK.(user := user, uid := u, deletionStarted := true);
    assert w in rows + [w];
  }

  lemma SecondRow(rows: seq<Row>, rec: Row)
    requires Applied(rows, Mutation.Record(rec)).Changed?
    ensures rec.uid in UIDs(Applied(rows, Mutation.Record(rec)).rows)
  {
    hide ValidRow, SanitizeRow;
    assert rec in Without(rows, rec.user) + [rec];
  }

  lemma ReservesNext(m: Moment, s: Sequences.Sequence, u: int)
    requires Settled(m, s) && AccountID(u) && s.highest < u
    ensures s.(highest := u).Writable() && Takes([m], Reserve(u, u), Some(u), [Raised(m, s, u, {u})])
  {
    hide ReadTable, Safe, Sequences.ReadSequence, Sequences.SequenceText;
    RaisedIsSettled(m, s, u, {u});
    assert Safe(m);
    MarkBounds(m, s, u);
  }
}
