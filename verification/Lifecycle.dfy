/**
 One managed account name and everything on the host that is keyed by it: the
 passwd entry, login state, grants, scheduled tasks and the registry row. Every
 step may fail, half-succeed or be the last before a kill, and between any two
 steps the account may be edited, replaced or removed from outside.
 */
module Lifecycle {
  import opened Wrappers
  import opened Storage
  import opened Validate
  import opened Records
  import opened Transitions
  import opened Sequences
  import Times

  /** The lifecycle marker in the passwd entry, as its authoritative field has it. */
  datatype Marker = NoMarker | LegacyMark | PendingMark(generation: string) | ManagedMark(generation: string)

  /** `trailing`: the marker is in the field only root can edit. `look`: what the holder may edit freely. */
  datatype Passwd = Passwd(uid: int, gid: int, home: string, shell: bool, marker: Marker, trailing: bool, look: int)

  /** user.SameAccountIdentity: older entries must be equal byte for byte. */
  predicate SameIdentity(a: Passwd, b: Passwd) {
    a == b ||
    (a.trailing && b.trailing && a.marker != NoMarker && a.marker == b.marker &&
     a.uid == b.uid && a.gid == b.gid && a.home == b.home && a.shell && b.shell)
  }

  lemma SameIdentityIsEquivalence(a: Passwd, b: Passwd, c: Passwd)
    ensures SameIdentity(a, a) && (SameIdentity(a, b) ==> SameIdentity(b, a))
    ensures SameIdentity(a, b) && SameIdentity(b, c) ==> SameIdentity(a, c)
  {
  }

  predicate ManagedHome(user: string, home: string) { home == "/home/" + user }

  /** deletionRecordMatchesPasswd: the exact identity a bound row stands for. */
  predicate Matches(r: Row, pw: Passwd) {
    r.identityBound && AccountID(r.uid) && r.uid == pw.uid && AccountID(pw.gid) && Generation(r.generation) &&
    ManagedHome(r.user, pw.home) && pw.shell && (r.sequentialID ==> pw.gid == r.uid) &&
    pw.marker == if r.pending then PendingMark(r.generation) else ManagedMark(r.generation)
  }

  /** uidOnlyDeletionCandidateMatches: the shape a UID-only witness may be written for. */
  predicate CandidateMatches(r: Row, pw: Passwd) {
    pw.uid >= 1000 && AccountID(pw.uid) && AccountID(pw.gid) && (r.uid == 0 || r.uid == pw.uid) &&
    ManagedHome(r.user, pw.home) && pw.shell && pw.marker != NoMarker
  }

  predicate PendingCreationMatches(r: Row, pw: Passwd) {
    r.pending && !r.deletionStarted && r.identityBound && (r.uid == 0 || r.uid == pw.uid) &&
    Matches(r.(uid := pw.uid), pw)
  }

  // What a run has seen and done, in order, and what that permits.

  datatype Event =
    | RunStarted
    | RowRead(row: Option<Row>, handoff: int)
    | AccountRead(pw: Option<Passwd>)
    | Authorized(expected: Passwd)
    | ClockRead(t: int)
    | SudoRemoved | SSHDRemoved | SudoGranting | SSHDGranting
    | LoginDisabled | LoginActivating | AccountCreating
    | ProcessesTerminated | JobsCleared | JobsDrained
    | HandedOff(deadline: int)
    | WitnessCommitted
    | HomeRemoval | Userdel
    | RowRelease
    | ExpiryRetired(synced: bool)
    | PowerLost

  datatype Seen = Seen(
    sudoGone: bool, sshdGone: bool, disabled: bool, drained: bool, terminated: bool, passed: bool, witnessed: bool,
    expected: Option<Passwd>, account: Option<Option<Passwd>>, deadline: Option<int>, handoff: int, now: int)

  const NOTHING := Seen(false, false, false, false, false, false, false, None, None, None, 0, 0)

  /** The deadline a row holds its identity until. */
  function DeadlineOf(row: Option<Row>): Option<int> {
    if row.Some? && row.value.quarantineUntil != "" then Times.ParseTime(row.value.quarantineUntil) else None
  }

  /** A login that may be open again voids what was established behind a closed one. */
  function Opened(s: Seen): Seen {
    s.(disabled := false, drained := false, terminated := false, passed := false, witnessed := false)
  }

  function Next(s: Seen, e: Event): Seen {
    match e
    case RunStarted => NOTHING.(now := s.now)
    case PowerLost => NOTHING.(now := s.now)
    case RowRead(row, handoff) => s.(deadline := DeadlineOf(row), handoff := handoff)
    case AccountRead(pw) => s.(account := Some(pw))
    case Authorized(expected) => s.(expected := Some(expected))
    case ClockRead(t) => s.(now := t)
    case SudoRemoved => s.(sudoGone := true)
    case SSHDRemoved => s.(sshdGone := true)
    case SudoGranting => s.(sudoGone := false)
    case SSHDGranting => s.(sshdGone := false)
    case LoginDisabled => s.(disabled := true)
    case LoginActivating => Opened(s)
    case AccountCreating => Opened(s)
    case ProcessesTerminated => s.(terminated := s.terminated || s.disabled)
    case JobsCleared => s.(passed := s.passed || s.terminated)
    case JobsDrained => s.(drained := s.drained || s.disabled)
    case WitnessCommitted => s.(witnessed := s.witnessed || s.passed)
    case _ => s
  }

  function Fold(trace: seq<Event>): Seen {
    if trace == [] then NOTHING else Next(Fold(trace[..|trace| - 1]), trace[|trace| - 1])
  }

  /** quarantineDeadline: a polling interval from now, rounded up to a whole minute. */
  function QuarantineDeadline(now: int): (d: int)
    ensures d % 60 == 0 && 65 * NANOS <= d * NANOS - now < 125 * NANOS
  {
    var minute := (now + QUARANTINE_SECONDS * NANOS) / (60 * NANOS);
    if (now + QUARANTINE_SECONDS * NANOS) % (60 * NANOS) == 0 then minute * 60 else (minute + 1) * 60
  }

  /** Everything that must have happened in this run before data is destroyed. */
  predicate MayDestroy(s: Seen) { s.sudoGone && s.sshdGone && s.disabled && s.passed && s.witnessed }

  /** The name and UID were held long enough: drained in this run, or past a recorded deadline. */
  predicate Held(s: Seen) { s.drained || (s.deadline.Some? && s.deadline.value * NANOS <= s.now) }

  /** A whole minute, 65 to 125 seconds after the handoff it is counted from. */
  predicate DeadlineFits(deadline: Option<int>, handoff: int) {
    deadline.Some? && deadline.value % 60 == 0 &&
    65 * NANOS <= deadline.value * NANOS - handoff < 125 * NANOS
  }

  predicate Allowed(s: Seen, e: Event) {
    match e
    case RowRead(row, handoff) => DeadlineOf(row) == None || DeadlineFits(DeadlineOf(row), handoff)
    case HomeRemoval => MayDestroy(s)
    case Userdel =>
      MayDestroy(s) && Held(s) && s.expected.Some? && s.account.Some? && s.account.value.Some? &&
      SameIdentity(s.expected.value, s.account.value.value)
    case HandedOff(deadline) => s.disabled && s.passed && deadline == QuarantineDeadline(s.now)
    case RowRelease => s.sudoGone && s.sshdGone && s.account == Some(None)
    case _ => true
  }

  /** Event number i was permitted by what came before it. */
  ghost predicate LawfulAt(trace: seq<Event>, i: nat)
    requires i < |trace|
  {
    Allowed(Fold(trace[..i]), trace[i])
  }

  /** Every step was permitted when it was taken, but for exactly these Home removals and userdels. */
  ghost predicate LawfulBut(trace: seq<Event>, breaches: set<nat>) {
    (forall i | 0 <= i < |trace| :: LawfulAt(trace, i) <==> i !in breaches) &&
    (forall i | i in breaches :: i < |trace| && (trace[i] == HomeRemoval || trace[i] == Userdel))
  }

  lemma PastStaysLawful(trace: seq<Event>, e: Event, i: nat)
    requires i < |trace|
    ensures LawfulAt(trace + [e], i) <==> LawfulAt(trace, i)
  {
    hide Allowed, Fold;
    assert (trace + [e])[..i] == trace[..i];
  }

  lemma FoldOn(trace: seq<Event>, e: Event)
    ensures Fold(trace + [e]) == Next(Fold(trace), e)
    ensures LawfulAt(trace + [e], |trace|) <==> Allowed(Fold(trace), e)
  {
    hide Next, Allowed;
    assert (trace + [e])[..|trace|] == trace;
  }

  lemma LawfulOn(trace: seq<Event>, breaches: set<nat>, e: Event)
    requires LawfulBut(trace, breaches)
    requires Allowed(Fold(trace), e) || e == HomeRemoval || e == Userdel
    ensures var more := if Allowed(Fold(trace), e) then {} else {|trace|};
      LawfulBut(trace + [e], breaches + more) && |trace| !in breaches
  {
    hide Allowed, Next, Fold, LawfulAt;
    FoldOn(trace, e);
    forall i: nat | i < |trace| ensures LawfulAt(trace + [e], i) <==> LawfulAt(trace, i) {
      PastStaysLawful(trace, e, i);
    }
  }

  // The promises of the state itself, at every step.

  /** A scheduled task is bound to the account it will act on. */
  type Task = Option<(int, string)>

  /** A row the registry may fall back to, with the instant its deadline is counted from. */
  datatype Slot = Slot(row: Option<Row>, handoff: int)

  /**
   `older`: the rows power loss may bring back, while what the registry shows is
   not synced. `exposed`: one of them lacks the task its account needs.
   `stranded`: power loss brought such a row back. `reserved`: a system account's
   name, never this tool's. `tampering`: someone forges or restores identities,
   or opens logins, behind the tool's back.
   */
  datatype HostState = HostState(
    account: Option<Passwd>, open: bool, credential: bool, sudo: bool, sshd: bool,
    auto: Task, finalizer: Task, row: Option<Row>, handoff: int, older: seq<Slot>, exposed: bool, stranded: bool,
    clock: int, minted: set<string>, reserved: bool, tampering: bool)

  predicate MatchesRow(s: HostState, row: Option<Row>) {
    row.Some? && s.account.Some? && !s.reserved && Matches(row.value, s.account.value)
  }

  predicate MatchesNow(s: HostState) { MatchesRow(s, s.row) }

  /** A quarantined row has its finalizer; before that, a recorded expiry task is armed. */
  predicate TasksFor(r: Row, auto: Task, finalizer: Task) {
    if r.quarantineUntil != "" then finalizer == Some((r.uid, r.generation))
    else r.autoUnit != "" && !r.pending ==> auto == Some((r.uid, r.generation))
  }

  predicate TasksArmed(s: HostState) { MatchesNow(s) ==> TasksFor(s.row.value, s.auto, s.finalizer) }

  /** The row names a task that its account must not lose. */
  predicate Needy(r: Row) { r.quarantineUntil != "" || (r.autoUnit != "" && !r.pending) }

  predicate Relies(s: HostState, row: Option<Row>) { MatchesRow(s, row) && Needy(row.value) }

  /** The same account by a later row, still needing a task, and quarantined if it was. */
  predicate Succeeds(older: Row, r: Row) {
    SameBearer(older, r) && Needy(r) && (older.quarantineUntil != "" ==> r.quarantineUntil != "")
  }

  /** Whoever relies on a row that may come back relies on the one there now. */
  predicate Lineage(s: HostState) {
    forall x | x in s.older && Relies(s, x.row) :: s.row.Some? && Succeeds(x.row.value, s.row.value)
  }

  /** Whatever power loss brings back, a matching account has its task. */
  predicate OlderArmed(s: HostState) {
    forall x | x in s.older && Relies(s, x.row) :: TasksFor(x.row.value, s.auto, s.finalizer)
  }

  predicate GenerationOf(m: Marker, minted: set<string>) {
    (m.PendingMark? || m.ManagedMark?) && m.generation in minted
  }

  /** The account carries a generation this tool handed out. */
  predicate Ours(s: HostState) { s.account.Some? && GenerationOf(s.account.value.marker, s.minted) }

  /** If there is such an account at all, it is this one. */
  predicate Bears(s: HostState, uid: int, marker: Marker) {
    Ours(s) ==> s.account.value.uid == uid && s.account.value.marker == marker
  }

  /** Its login is not shut: only the missing credential keeps it out, if anything does. */
  predicate Reachable(s: HostState) { Ours(s) && s.open }

  /** An account of this tool that can authenticate. */
  predicate Usable(s: HostState) { Ours(s) && s.open && s.credential }

  /** A usable account is on record completely: identity, sudo state and expiry task. */
  predicate Accounted(s: HostState) {
    Usable(s) ==>
      s.row.Some? && s.older == [] &&
      var r := s.row.value;
      r.identityBound && !r.pending && !r.deletionStarted && r.uid == s.account.value.uid &&
      s.account.value.marker == ManagedMark(r.generation) && (s.sudo ==> r.sudo) &&
      (r.autoRevoke ==> r.autoUnit != "" && s.auto == Some((r.uid, r.generation)))
  }

  /** A recorded deadline fits its handoff, and that is not in the future. */
  predicate DeadlineKept(row: Option<Row>, handoff: int, clock: int) {
    row.Some? && row.value.quarantineUntil != "" ==>
      DeadlineFits(Times.ParseTime(row.value.quarantineUntil), handoff) && handoff <= clock
  }

  predicate SoundRow(user: string, row: Option<Row>, handoff: int, clock: int) {
    (row.Some? ==> row.value.user == user && ValidRow(row.value)) && DeadlineKept(row, handoff, clock)
  }

  /** The rows themselves, those that may come back included. */
  predicate SoundRows(user: string, s: HostState) {
    SoundRow(user, s.row, s.handoff, s.clock) &&
    forall x | x in s.older :: SoundRow(user, x.row, x.handoff, s.clock)
  }

  /** Armed now, and after any power loss, unless that is already forfeited. */
  predicate Armed(s: HostState) {
    Lineage(s) && (s.stranded || TasksArmed(s)) && (s.exposed || OlderArmed(s))
  }

  /** The promises, on any host nobody tampers with. */
  predicate Safe(user: string, s: HostState) {
    SoundRows(user, s) && (s.tampering || (Armed(s) && Accounted(s)))
  }

  /**
   What may happen behind the tool's back: anything to the account; without
   tampering, an identity that is gone does not come back and nobody else opens
   a login.
   */
  predicate Meanwhile(s: HostState, s': HostState) {
    s' == s.(account := s'.account, open := s'.open, credential := s'.credential, clock := s'.clock) &&
    s.clock <= s'.clock &&
    (s.tampering ||
     ((MatchesNow(s') ==> MatchesNow(s)) &&
      (forall x | x in s.older && MatchesRow(s', x.row) :: MatchesRow(s, x.row)) &&
      (Ours(s') ==>
         Ours(s) && s'.account.value.uid == s.account.value.uid && s'.account.value.marker == s.account.value.marker &&
         (s'.open ==> s.open) && (s'.credential ==> s.credential))))
  }

  lemma MeanwhileIsSafe(user: string, s: HostState, s': HostState)
    requires Safe(user, s) && Meanwhile(s, s')
    ensures Safe(user, s')
  {
  }

  // The registry row, as this one name sees the registry's mutations.

  datatype RowChange = Refuse | Keep | Become(row: Option<Row>)

  function RowNext(row: Option<Row>, m: Mutation): RowChange
    requires !m.Compact?
  {
    match m
    case Record(rec) =>
      if !ValidRow(SanitizeRow(rec)) || rec.deletionStarted || (row.Some? && row.value.deletionStarted) then Refuse
      else Become(Some(rec))
    case Remove(_) =>
      if row.None? then Keep else if row.value.deletionStarted then Refuse else Become(None)
    case BeginDeletion(user, uid, generation) =>
      if !DeletionIdentity(user, uid, generation) then Refuse
      else if row.None? then
        if generation != "" then Refuse
        else Become(Some(BLANK.(user := user, uid := uid, deletionStarted := true)))
      else if row.value.deletionStarted then
        if SameDeletion(row.value, uid, generation) then Keep else Refuse
      else if Deleting(row.value, uid, generation).None? then Refuse
      else Become(Deleting(row.value, uid, generation))
    case BeginQuarantine(user, uid, generation, deadline) =>
      if !DeletionIdentity(user, uid, generation) || generation == "" || row.None? then Refuse
      else if row.value.deletionStarted then
        if SameDeletion(row.value, uid, generation) && row.value.quarantineUntil == DeadlineText(deadline) &&
           row.value.quarantineUnit == QUARANTINE_PREFIX + user then Keep
        else Refuse
      else if Quarantining(row.value, uid, generation, deadline).None? then Refuse
      else Become(Quarantining(row.value, uid, generation, deadline))
    case FinishDeletion(user, uid, generation) =>
      if !DeletionIdentity(user, uid, generation) then Refuse
      else if row.None? then Keep
      else if SameDeletion(row.value, uid, generation) then Become(None)
      else Refuse
  }

  /** The registry does to this name's row exactly what the row alone says. */
  lemma RegistryAgrees(rows: seq<Row>, m: Mutation)
    requires !m.Compact?
    ensures match RowNext(Lookup(rows, Subject(m)), m)
      case Refuse => Applied(rows, m) == Refused
      case Keep => Applied(rows, m) == Unchanged
      case Become(row) => Applied(rows, m).Changed? && Lookup(Applied(rows, m).rows, Subject(m)) == row
  {
    hide ValidRow, SanitizeRow, Deleting, Quarantining, DeletionIdentity, SameDeletion;
    var user := Subject(m);
    var row := Lookup(rows, user);
    match m
    case Record(rec) => LookupSnoc(Without(rows, user), rec, user);
    case Remove(_) => LookupWithout(rows, user, user);
    case FinishDeletion(_, _, _) => LookupWithout(rows, user, user);
    case BeginDeletion(_, uid, generation) =>
      LookupSnoc(rows, BLANK.(user := user, uid := uid, deletionStarted := true), user);
      if row.Some? && Deleting(row.value, uid, generation).Some? {
        DeletingKeepsName(row.value, uid, generation);
        LookupReplace(rows, user, Deleting(row.value, uid, generation).value);
      }
    case BeginQuarantine(_, uid, generation, deadline) =>
      if row.Some? && Quarantining(row.value, uid, generation, deadline).Some? {
        QuarantiningKeepsName(row.value, uid, generation, deadline);
        LookupReplace(rows, user, Quarantining(row.value, uid, generation, deadline).value);
      }
  }

  lemma DeletingKeepsName(r: Row, uid: int, generation: string)
    ensures Deleting(r, uid, generation).Some? ==> Deleting(r, uid, generation).value.user == r.user
  {
  }

  lemma QuarantiningKeepsName(r: Row, uid: int, generation: string, deadline: int)
    ensures Quarantining(r, uid, generation, deadline).Some? ==>
      Quarantining(r, uid, generation, deadline).value.user == r.user
  {
  }

  /** Two rows the same accounts match. */
  predicate SameBearer(r: Row, r': Row) {
    r'.user == r.user && r'.uid == r.uid && r'.generation == r.generation && r'.identityBound == r.identityBound &&
    r'.pending == r.pending && r'.sequentialID == r.sequentialID
  }

  /** A row change that leaves no matching account without its task, whoever comes and goes meanwhile. */
  predicate KeepsTasks(s: HostState, row': Option<Row>) {
    row'.None? || !row'.value.identityBound || TasksFor(row'.value, s.auto, s.finalizer) ||
    (s.row.Some? && SameBearer(s.row.value, row'.value) &&
     (TasksFor(s.row.value, s.auto, s.finalizer) ==> TasksFor(row'.value, s.auto, s.finalizer)))
  }

  /** Whoever relies on the row there is will rely on the one that replaces it. */
  predicate Inherits(s: HostState, row': Option<Row>) {
    Relies(s, s.row) ==> row'.Some? && Succeeds(s.row.value, row'.value)
  }

  /** A row may change while nobody can use the account and the tasks stay. */
  predicate MayBecome(user: string, s: HostState, row': Option<Row>) {
    SoundRow(user, row', s.handoff, s.clock) &&
    (s.tampering || (!Usable(s) && KeepsTasks(s, row') && Inherits(s, row')))
  }

  /** The state after a row change is visible; synced, it is the only one. */
  function AfterWrite(s: HostState, row': Option<Row>, synced: bool): HostState {
    var s1 := s.(row := row', older := if synced then [] else s.older + [Slot(s.row, s.handoff)],
                 exposed := !synced && (s.exposed || s.stranded));
    s1.(stranded := s.stranded && !TasksArmed(s1))
  }

  /** The state power loss leaves when the registry falls back to one of its rows. */
  function AfterPowerLoss(s: HostState, back: Slot): HostState {
    var s1 := s.(row := back.row, handoff := back.handoff, older := [], exposed := false);
    s1.(stranded := !s.tampering && !TasksArmed(s1))
  }

  lemma BecomesSafely(user: string, s: HostState, s': HostState, row': Option<Row>, synced: bool)
    requires Safe(user, s) && MayBecome(user, s, row') && Meanwhile(s, s')
    ensures Safe(user, AfterWrite(s', row', synced)) && MayBecome(user, s', row')
  {
    MeanwhileIsSafe(user, s, s');
    hide ValidRow, Matches;
    if !s.tampering {
      StillMayBecome(s, s', row');
      WriteIsSafe(user, s', row', synced);
    }
  }

  lemma StillMayBecome(s: HostState, s': HostState, row': Option<Row>)
    requires Meanwhile(s, s') && !s.tampering && !Usable(s) && KeepsTasks(s, row') && Inherits(s, row')
    ensures !Usable(s') && KeepsTasks(s', row') && Inherits(s', row')
  {
    hide Matches;
  }

  lemma WriteIsSafe(user: string, s: HostState, row': Option<Row>, synced: bool)
    requires Safe(user, s) && MayBecome(user, s, row') && !s.tampering
    ensures Safe(user, AfterWrite(s, row', synced))
  {
    hide ValidRow, Matches, DeadlineKept;
    var s1 := AfterWrite(s, row', synced);
    if TasksArmed(s) { TasksKept(s, row'); }
    forall x | x in s1.older && Relies(s1, x.row)
      ensures s1.row.Some? && Succeeds(x.row.value, s1.row.value)
      ensures s1.exposed || TasksFor(x.row.value, s1.auto, s1.finalizer)
    {
      if x in s.older {
        assert Relies(s, x.row);
        Inherited(s, x.row.value, s.row.value);
      }
    }
  }

  lemma TasksKept(s: HostState, row': Option<Row>)
    requires TasksArmed(s) && KeepsTasks(s, row')
    ensures TasksArmed(s.(row := row'))
  {
  }

  /** The account that relies on an older row relies on every one that succeeds it. */
  lemma Inherited(s: HostState, older: Row, r: Row)
    requires Relies(s, Some(older)) && Succeeds(older, r)
    ensures Relies(s, Some(r))
  {
  }

  // A task that no matching account's row relies on may come and go.

  lemma FinalizerIsFree(user: string, s: HostState, finalizer: Task)
    requires Safe(user, s) && (s.tampering || (s.row.Some? ==> s.row.value.quarantineUntil == ""))
    ensures Safe(user, s.(finalizer := finalizer))
  {
    hide ValidRow, Matches, DeadlineKept;
  }

  lemma AutoIsFree(user: string, s: HostState, auto: Task)
    requires Safe(user, s)
    requires s.tampering || (!Usable(s) && (s.row.Some? ==> s.row.value.autoUnit == "" && s.row.value.quarantineUntil == ""))
    ensures Safe(user, s.(auto := auto))
  {
    hide ValidRow, Matches, DeadlineKept;
  }

  // Power loss.

  /** Any of the rows may come back; what was armed then still is. */
  lemma PowerLossIsSafe(user: string, s: HostState, back: Slot)
    requires Safe(user, s) && (back in s.older || back == Slot(s.row, s.handoff))
    ensures Safe(user, AfterPowerLoss(s, back))
    ensures AfterPowerLoss(s, back).stranded ==> s.stranded || s.exposed
  {
    hide ValidRow, Matches, DeadlineKept;
  }

  /** Armed in every state power loss may leave, if and only if armed now and by every older row. */
  lemma PowerLossSparesTasksIff(s: HostState)
    ensures (forall back | back in s.older || back == Slot(s.row, s.handoff) :: TasksArmed(AfterPowerLoss(s, back))) <==>
      TasksArmed(s) && OlderArmed(s)
  {
    hide Matches;
    forall x | x in s.older
      ensures TasksArmed(AfterPowerLoss(s, x)) <==> (Relies(s, x.row) ==> TasksFor(x.row.value, s.auto, s.finalizer))
    {
    }
    var now := Slot(s.row, s.handoff);
    assert TasksArmed(AfterPowerLoss(s, now)) <==> TasksArmed(s);
    if TasksArmed(s) && OlderArmed(s) {
      forall back | back in s.older || back == now
        ensures TasksArmed(AfterPowerLoss(s, back))
      {
      }
    } else if !OlderArmed(s) {
      var x :| x in s.older && Relies(s, x.row) && !TasksFor(x.row.value, s.auto, s.finalizer);
      assert !TasksArmed(AfterPowerLoss(s, x));
    }
  }

  /** Starting a deletion is always possible once nobody can use the account. */
  lemma DeletionMayBegin(user: string, s: HostState, uid: int, generation: string)
    requires Safe(user, s) && (s.tampering || !Usable(s))
    ensures var c := RowNext(s.row, BeginDeletion(user, uid, generation));
      c.Become? ==> MayBecome(user, s, c.row)
  {
    var c := RowNext(s.row, BeginDeletion(user, uid, generation));
    if c.Become? {
      if s.row == None {
        WitnessIsValid(user, uid);
      } else {
        DeletingIsValid(s.row.value, uid, generation);
        assert s.row.value.quarantineUntil == "" by { OrdinaryHasNoDeadline(s.row.value); }
      }
    }
  }

  lemma OrdinaryHasNoDeadline(r: Row)
    requires ValidRow(r) && !r.deletionStarted
    ensures r.quarantineUntil == "" && r.quarantineUnit == ""
  {
  }

  // Steps that cannot break a promise.

  lemma SudoMayGo(user: string, s: HostState)
    requires Safe(user, s)
    ensures Safe(user, s.(sudo := false)) && Usable(s.(sudo := false)) == Usable(s)
  {
  }

  lemma SudoMayCome(user: string, s: HostState)
    requires Safe(user, s) && (s.tampering || !Usable(s))
    ensures Safe(user, s.(sudo := true)) && Usable(s.(sudo := true)) == Usable(s)
  {
  }

  lemma SSHDMayChange(user: string, s: HostState, sshd: bool)
    requires Safe(user, s)
    ensures Safe(user, s.(sshd := sshd)) && Usable(s.(sshd := sshd)) == Usable(s)
  {
  }

  lemma LoginMayClose(user: string, s: HostState)
    requires Safe(user, s)
    ensures Safe(user, s.(open := false)) && !Usable(s.(open := false))
  {
  }

  lemma AccountMayGo(user: string, s: HostState)
    requires Safe(user, s)
    ensures Safe(user, s.(account := None)) && !Usable(s.(account := None))
  {
  }

  lemma StaysUnusable(s: HostState, s': HostState)
    requires Meanwhile(s, s')
    ensures s'.tampering == s.tampering && s'.row == s.row && s.clock <= s'.clock
    ensures s.tampering || !Usable(s) ==> s'.tampering || !Usable(s')
    ensures s.tampering || !MatchesNow(s) ==> s'.tampering || !MatchesNow(s')
  {
  }
}
