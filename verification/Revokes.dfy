/** The revoke transaction of internal/cli/revoke.go, phase by phase. */
module Revokes {
  import opened Wrappers
  import opened Storage
  import opened Validate
  import opened Records
  import opened Transitions
  import opened Sequences
  import opened Lifecycle
  import opened Hosts
  import opened Deletions
  import Times

  /** What an operator saw before typing the full name. */
  datatype Snapshot = Snapshot(row: Option<Row>, pw: Passwd)

  datatype Options = Options(
    expectedUID: int, generation: string, yes: bool, force: bool, nameConfirmed: bool, liveConfirmed: bool,
    manual: bool, synchronous: bool, tty: bool, confirmed: Option<Snapshot>)
  {
    /** Only a person at a terminal who typed the full name may recover what no identity proves. */
    predicate RecoveryAuthorized() {
      tty && manual && force && generation == "" && expectedUID == 0 && !yes && liveConfirmed
    }
  }

  datatype Result =
    | Skipped            // a task for another generation
    | GrantsStripped     // an old task without deletion authority did what it could
    | Quarantined        // access closed, identity held until its deadline
    | Gone               // account absent, grants and tasks gone, row released
    | Declined
    | Interrupted

  /** No grant, no task and no row is left of the name. */
  predicate NothingLeft(s: HostState) {
    !s.sudo && !s.sshd && s.auto == None && s.finalizer == None && s.row == None
  }

  datatype Phase = Continue | Finish(result: Result)

  function Stop(o: Outcome): Phase { Finish(if o == Killed then Interrupted else Declined) }

  /** Both removals were tried; Done only if both succeeded. */
  method StripGrants(h: Host) returns (o: Outcome)
    requires h.Valid()
    modifies h
    ensures h.Valid() && old(h.trace) <= h.trace && Keeps(old(h.seen), h.seen) && o != NotDurable
    ensures Drift(old(h.s), h.s)
    ensures SameRegistry(old(h.s), h.s) && h.s.auto == old(h.s).auto && h.s.finalizer == old(h.s).finalizer
    ensures o == Done ==> h.seen.sudoGone && h.seen.sshdGone && !h.s.sudo && !h.s.sshd
    ensures h.seen.account == old(h.seen).account
  {
    hide Safe, LawfulBut, Retired, Fold, Meanwhile, MatchesNow, Usable, Bears, Reachable;
    var sudo := h.RemoveSudoGrant();
    if sudo == Killed { return Killed; }
    var sshd := h.RemoveSSHDException();
    if sshd == Killed { return Killed; }
    return if sudo == Done && sshd == Done then Done else Failed;
  }

  /** No account that matches or can log in depends on a task. */
  predicate TasksAreFree(s: HostState) {
    s.tampering || (!Usable(s) && (!MatchesNow(s) || (s.row.value.pending && s.row.value.quarantineUntil == "")))
  }

  lemma FreeTasksMayGo(user: string, s: HostState)
    requires Safe(user, s) && TasksAreFree(s)
    ensures Safe(user, s.(auto := None)) && TasksAreFree(s.(auto := None))
    ensures Safe(user, s.(finalizer := None)) && TasksAreFree(s.(finalizer := None))
  {
  }

  method CancelTasks(h: Host) returns (o: Outcome)
    requires h.Valid() && TasksAreFree(h.s)
    modifies h
    ensures h.Valid() && old(h.trace) <= h.trace && h.seen == old(h.seen) && o != NotDurable
    ensures Drift(old(h.s), h.s)
    ensures SameRegistry(old(h.s), h.s) && h.s.sudo == old(h.s).sudo && h.s.sshd == old(h.s).sshd
    ensures o == Done ==> h.s.auto == None && h.s.finalizer == None
  {
    hide Safe, LawfulBut, Retired, Fold, Meanwhile, Drift, SameRegistry, TasksAreFree;
    FreeTasksMayGo(h.user, h.s);
    var auto := h.CancelAuto();
    if auto == Killed { return Killed; }
    FreeTasksStayFree(old(h.s), h.s);
    FreeTasksMayGo(h.user, h.s);
    ghost var s1 := h.s;
    var finalizer := h.CancelQuarantine();
    DriftOn(old(h.s), s1, h.s);
    if finalizer == Killed { return Killed; }
    return if auto == Done && finalizer == Done then Done else Failed;
  }

  lemma FreeTasksStayFree(a: HostState, b: HostState)
    requires Drift(a, b) && SameRegistry(a, b) && TasksAreFree(a)
    ensures TasksAreFree(b)
  {
    hide Usable, Reachable, Bears, MatchesNow;
    if !b.tampering && MatchesNow(b) { MatchingHasRow(b); }
  }

  lemma MatchingHasRow(s: HostState)
    ensures MatchesNow(s) ==> s.row.Some?
  {
  }

  /** Releases the row under the exact identity it carries; an absent row is fine. */
  method ReleaseRegistry(h: Host) returns (o: Outcome)
    requires h.Valid() && h.seen.sudoGone && h.seen.sshdGone && SeenAbsent(h)
    modifies h
    ensures h.Valid() && old(h.trace) <= h.trace && SteadyButRow(old(h.s), h.s)
    ensures KeepsButDeadline(old(h.seen), h.seen) && (o == Done ==> h.s.row == None)
    ensures h.seen.account == old(h.seen).account
  {
    hide Safe, LawfulBut, Retired, Fold, Meanwhile, MatchesNow, Usable, MayBecome, RowNext, Steady, SteadyButRow;
    var row;
    o, row := h.ReadRow();
    ghost var s1 := h.s;
    SteadyButRowOn(old(h.s), s1, s1);
    StillAbsent(old(h.s), s1);
    if o != Done || row == None { return; }
    ReleaseMayBe(h.user, h.s);
    var r := row.value;
    o := h.ReleaseRow(if r.deletionStarted then FinishDeletion(h.user, r.uid, r.generation) else Remove(h.user));
    SteadyButRowOn(old(h.s), s1, h.s);
  }

  lemma ReleaseMayBe(user: string, s: HostState)
    requires Safe(user, s) && s.row.Some? && (s.tampering || (!Usable(s) && !MatchesNow(s)))
    ensures var r := s.row.value;
      RowNext(s.row, if r.deletionStarted then FinishDeletion(user, r.uid, r.generation) else Remove(user)) == Become(None)
    ensures MayBecome(user, s, None)
  {
  }

  // The policy: which accounts a revoke may take apart.

  predicate ProtectedEntry(reserved: bool, rec: Option<Row>, pw: Passwd, allowLegacy: bool) {
    if reserved || pw.uid == 0 then true
    else if rec.Some? && rec.value.uid > 0 && pw.uid != rec.value.uid then true
    else if rec.Some? && !rec.value.identityBound then pw.uid < 1000 || !allowLegacy || pw.marker != LegacyMark
    else if rec.Some? && rec.value.uid < 1 then true
    else
      var managed :=
        if rec.Some? then pw.marker == ManagedMark(rec.value.generation)
        else pw.marker.ManagedMark? || (allowLegacy && pw.marker == LegacyMark);
      !managed || (pw.uid < 1000 && rec.None?)
  }

  /** The gate that decides whether the rest of a revoke may run. */
  predicate Shielded(reserved: bool, rec: Option<Row>, pw: Passwd, allowLegacy: bool, pendingRecovery: bool) {
    var mismatch := rec.Some? && rec.value.sequentialID && pw.gid != rec.value.uid;
    if rec.Some? && rec.value.deletionStarted && rec.value.identityBound then
      reserved || !Matches(rec.value, pw)
    else if rec.Some? && rec.value.deletionStarted && allowLegacy then
      mismatch || reserved || !CandidateMatches(rec.value, pw)
    else
      !pendingRecovery && (mismatch || ProtectedEntry(reserved, rec, pw, allowLegacy))
  }

  /** Only a person can finish these; no unattended task may keep trying. */
  predicate ManualOnly(reserved: bool, rec: Option<Row>, pw: Passwd) {
    rec.Some? && rec.value.deletionStarted && (!rec.value.identityBound || reserved || !Matches(rec.value, pw))
  }

  /**
   A completed, identity-bound account only passes the gate under its recorded
   UID and generation; nothing short of a person's full-name confirmation lets
   an unbound one through.
   */
  lemma GateIsIdentity(reserved: bool, rec: Row, pw: Passwd, opts: Options, pendingRecovery: bool)
    requires ValidRow(rec)
    requires !Shielded(reserved, Some(rec), pw, !rec.identityBound && opts.RecoveryAuthorized(), pendingRecovery)
    requires pendingRecovery ==> opts.RecoveryAuthorized() && !reserved && PendingCreationMatches(rec, pw)
    ensures !reserved
    ensures rec.identityBound && !rec.pending ==> pw.uid == rec.uid && pw.marker == ManagedMark(rec.generation)
    ensures rec.identityBound && !rec.pending && rec.sequentialID ==> pw.gid == rec.uid
    ensures !rec.identityBound ==> opts.RecoveryAuthorized() && pw.uid >= 1000 && pw.marker != NoMarker
  {
  }

  class Transaction {
    const h: Host
    const opts: Options
    var rec: Option<Row>
    var pw: Passwd
    var allowLegacy: bool
    var pendingRecovery: bool
    var grantsGone: bool

    constructor (h: Host, opts: Options)
      ensures this.h == h && this.opts == opts && !grantsGone && rec == None
    {
      this.h, this.opts := h, opts;
      rec, pw, allowLegacy, pendingRecovery, grantsGone := None, Passwd(0, 0, "", false, NoMarker, false, 0), false, false, false;
    }

    /** The run works on the row as it still is, and has really removed the grants it says it removed. */
    ghost predicate Valid()
      reads this, h, h.breaches
    {
      h.Valid() && rec == h.s.row && (grantsGone ==> h.seen.sudoGone && h.seen.sshdGone && !h.s.sudo && !h.s.sshd)
    }

    /** If the account matches its row now, it already did when this run last read it. */
    ghost predicate Tied()
      reads this, h
    {
      h.s.tampering || (MatchesNow(h.s) ==> rec.Some? && !h.s.reserved && Matches(rec.value, pw))
    }

    method LoadRegistry() returns (p: Phase)
      requires h.Valid() && !grantsGone
      modifies this, h
      ensures h.Valid() && old(h.trace) <= h.trace && !grantsGone
      ensures p == Continue ==> Valid() && h.seen.deadline == DeadlineOf(rec)
      ensures p == Continue && (opts.generation != "" || opts.expectedUID != 0) ==>
        rec.Some? && rec.value.identityBound &&
        rec.value.generation == opts.generation && rec.value.uid == opts.expectedUID
      ensures p.Finish? ==> p.result in {Skipped, GrantsStripped, Declined, Interrupted}
    {
      hide Safe, LawfulBut, Retired, Fold, Meanwhile, Matches, GenerationOf, DeadlineOf;
      var o, row := h.ReadRow();
      if o != Done { return Stop(o); }
      rec := row;
      if opts.generation != "" || opts.expectedUID != 0 {
        if !Generation(opts.generation) || !AccountID(opts.expectedUID) { return Finish(Declined); }
        if rec == None || rec.value.generation != opts.generation || rec.value.uid != opts.expectedUID {
          return Finish(Skipped);
        }
        if !rec.value.identityBound {
          p := StripForUnboundTask();
          return;
        }
      }
      if !opts.force && rec == None { return Finish(Declined); }
      if opts.force && rec == None && opts.yes && !opts.nameConfirmed { return Finish(Declined); }
      return Continue;
    }

    /** An old task proves no account; it may strip the grants and retire itself. */
    method StripForUnboundTask() returns (p: Phase)
      requires Valid() && rec.Some? && !rec.value.identityBound && !grantsGone
      modifies h
      ensures h.Valid() && old(h.trace) <= h.trace && p.Finish?
      ensures p.result in {GrantsStripped, Declined, Interrupted}
      ensures p.result == GrantsStripped ==> !h.s.sudo && !h.s.sshd && h.s.auto == None
      ensures h.s.row == old(h.s).row
    {
      hide Safe, LawfulBut, Retired, Fold, Meanwhile;
      var o := StripGrants(h);
      if o != Done { return Stop(o); }
      UnboundNeedsNoTasks(h.user, h.s);
      FreeTasksMayGo(h.user, h.s);
      o := h.CancelAuto();
      return if o == Done then Finish(GrantsStripped) else Stop(o);
    }

    method LoadAccount() returns (p: Phase)
      requires Valid() && !grantsGone
      modifies this, h
      ensures h.Valid() && old(h.trace) <= h.trace && !grantsGone
      ensures p == Continue ==> Valid() && Tied() && h.seen.deadline == old(h.seen).deadline && rec == old(rec)
      ensures p.Finish? ==> p.result in {Gone, Declined, Interrupted}
      ensures p == Finish(Gone) ==> NothingLeft(h.s)
    {
      hide Safe, LawfulBut, Retired, Fold, Meanwhile, Matches, GenerationOf, SameIdentity;
      var o, account := h.ReadAccount();
      if o != Done { return Stop(o); }
      if opts.confirmed.Some? {
        var seen := opts.confirmed.value;
        if account == None || seen.row != rec || !SameIdentity(seen.pw, account.value) { return Finish(Declined); }
      }
      if account == None {
        p := CleanupAbsent();
        return;
      }
      if !opts.yes && !opts.liveConfirmed { return Finish(Declined); }
      pw := account.value;
      return Continue;
    }

    /** The account is already gone: what is left is swept, and only then is its row let go. */
    method CleanupAbsent() returns (p: Phase)
      requires Valid() && SeenAbsent(h)
      modifies h
      ensures h.Valid() && old(h.trace) <= h.trace && p.Finish?
      ensures p.result in {Gone, Declined, Interrupted}
      ensures p.result == Gone ==> NothingLeft(h.s)
    {
      hide Safe, LawfulBut, Retired, Fold, Meanwhile, Matches, GenerationOf;
      var reconciled := Done;
      if rec.Some? { reconciled := h.Ask(); }
      if reconciled == Killed { return Finish(Interrupted); }
      ghost var account := h.seen.account;
      var o := StripGrants(h);
      if o != Done { return Stop(o); }
      if reconciled != Done { return Finish(Declined); }
      o := CancelTasks(h);
      if o != Done { return Stop(o); }
      o := ReleaseRegistry(h);
      return if o == Done then Finish(Gone) else Stop(o);
    }

    /** The formal migration of an old row, after which neither row nor account may have moved. */
    method MigrateLegacy() returns (o: Outcome)
      requires Valid() && Tied() && !grantsGone && h.seen.deadline == DeadlineOf(rec)
      modifies this`pw, h
      ensures h.Valid() && old(h.trace) <= h.trace && o != NotDurable
      ensures o == Done ==> Valid() && Tied() && h.seen.deadline == DeadlineOf(rec) && SameIdentity(old(pw), pw)
    {
      hide Safe, LawfulBut, Retired, Fold, Meanwhile, Matches, GenerationOf, SameIdentity, DeadlineOf;
      o := h.Ask();
      if o != Done { return; }
      var row, account;
      o, row := h.ReadRow();
      if o != Done { return; }
      if row != rec { return Failed; }
      o, account := h.ReadAccount();
      if o != Done { return; }
      if account == None || !SameIdentity(pw, account.value) { return Failed; }
      pw := account.value;
    }

    /** An unproved pending creation loses its grants and tasks and ends here. */
    method RetainPending() returns (p: Phase)
      requires Valid() && rec.Some? && rec.value.pending && !rec.value.deletionStarted && !grantsGone
      modifies h
      ensures h.Valid() && old(h.trace) <= h.trace && p in {Finish(Declined), Finish(Interrupted)}
      ensures h.s.row == old(h.s).row
    {
      hide Safe, LawfulBut, Retired, Fold, Meanwhile, Matches, GenerationOf;
      var o := StripGrants(h);
      if o == Killed { return Finish(Interrupted); }
      PendingNeedsNoTasks(h.user, h.s);
      o := CancelTasks(h);
      return Finish(if o == Killed then Interrupted else Declined);
    }

    /** Which recovery this invocation may ask for. */
    method AuthorizeRecovery() returns (p: Phase)
      requires Valid() && Tied() && !grantsGone && h.seen.deadline == DeadlineOf(rec)
      modifies this`pw, this`allowLegacy, this`pendingRecovery, h
      ensures h.Valid() && old(h.trace) <= h.trace
      ensures p == Continue ==>
        Valid() && Tied() && h.seen.deadline == DeadlineOf(rec) &&
        (rec.Some? ==> allowLegacy == (!rec.value.identityBound && opts.RecoveryAuthorized())) &&
        (pendingRecovery ==>
           opts.RecoveryAuthorized() && !h.s.reserved && rec.Some? && PendingCreationMatches(rec.value, pw))
      ensures p.Finish? ==> p.result in {Declined, Interrupted}
    {
      hide Safe, LawfulBut, Retired, Fold, Meanwhile, Matches, GenerationOf, SameIdentity, DeadlineOf,
        PendingCreationMatches;
      allowLegacy := (rec == None || !rec.value.identityBound) && opts.RecoveryAuthorized();
      if rec.Some? && !rec.value.identityBound && allowLegacy && (rec.value.uid == 0 || rec.value.uid == pw.uid) &&
        pw.uid >= 1000 && !h.s.reserved && pw.marker == LegacyMark
      {
        var o := MigrateLegacy();
        if o != Done { return Stop(o); }
      }
      pendingRecovery :=
        rec.Some? && rec.value.pending && opts.RecoveryAuthorized() && !h.s.reserved && PendingCreationMatches(rec.value, pw);
      if rec.Some? && rec.value.pending && !rec.value.deletionStarted && !pendingRecovery {
        p := RetainPending();
        return;
      }
      return Continue;
    }

    /** The grants go first, so that even an account this run may not touch is left without them. */
    method StripGrantsAndCheckProtection() returns (p: Phase)
      requires Valid() && Tied() && !grantsGone
      modifies this, h
      ensures h.Valid() && old(h.trace) <= h.trace
      ensures p == Continue ==>
        Valid() && Tied() && rec == old(rec) && pw == old(pw) && pendingRecovery == old(pendingRecovery) &&
        h.seen.deadline == old(h.seen).deadline &&
        !Shielded(h.s.reserved, rec, pw, allowLegacy, pendingRecovery)
      ensures p.Finish? ==> p.result in {Declined, Interrupted}
    {
      hide Safe, LawfulBut, Retired, Fold, Meanwhile, Matches, GenerationOf, Shielded;
      var o := StripGrants(h);
      if o == Killed { return Finish(Interrupted); }
      grantsGone := o == Done;
      if Shielded(h.s.reserved, rec, pw, allowLegacy, pendingRecovery) {
        if ManualOnly(h.s.reserved, rec, pw) {
          ManualOnlyNeedsNoTasks(h.user, h.s, rec, pw);
          o := CancelTasks(h);
          if o == Killed { return Finish(Interrupted); }
        }
        return Finish(Declined);
      }
      return Continue;
    }

    /** Before its deadline a quarantined account only has its gates closed again. */
    method HonorExistingQuarantine() returns (p: Phase)
      requires Valid() && Tied()
      modifies h
      ensures h.Valid() && old(h.trace) <= h.trace
      ensures p == Continue ==>
        Valid() && Tied() && h.seen.deadline == old(h.seen).deadline && h.s.sudo == old(h.s).sudo && h.s.sshd == old(h.s).sshd &&
        (rec.Some? && rec.value.quarantineUntil != "" && !opts.synchronous ==> Held(h.seen.(deadline := DeadlineOf(rec))))
      ensures p == Finish(Result.Quarantined) ==> h.seen.disabled && !h.s.sudo && !h.s.sshd
      ensures p.Finish? ==> p.result in {Result.Quarantined, Declined, Interrupted}
    {
      hide Safe, LawfulBut, Retired, Fold, Meanwhile, Matches, GenerationOf, SameIdentity;
      if rec == None || rec.value.quarantineUntil == "" { return Continue; }
      var deadline := Times.ParseTime(rec.value.quarantineUntil);
      if deadline == None { return Finish(Declined); }
      var now := h.ReadClock();
      if now < deadline.value * NANOS && !opts.synchronous {
        var o := StripGrants(h);
        if o == Killed { return Finish(Interrupted); }
        var disabled := h.DisableLogin();
        if disabled == Killed { return Finish(Interrupted); }
        if o != Done || disabled != Done { return Finish(Declined); }
        o := StillMatches(h, pw, false);
        return if o == Done then Finish(Result.Quarantined) else Stop(o);
      }
      return Continue;
    }

    /** Nobody can log in any more and nothing runs under the UID. */
    method CloseAccess() returns (o: Outcome)
      requires Valid() && rec.Some?
      modifies h
      ensures Valid() && old(h.trace) <= h.trace && Steady(old(h.s), h.s) && Keeps(old(h.seen), h.seen)
      ensures o == Done ==> h.seen.disabled && h.seen.passed
    {
      hide Safe, LawfulBut, Retired, Fold, Meanwhile, MatchesNow, Usable, Bears, Reachable;
      o := h.DisableLogin();
      if o != Done { return; }
      o := StillMatches(h, pw, false);
      if o != Done { return; }
      o := QuiesceImmediate(h, pw, false);
    }

    /**
     Closes access now and leaves the deletion to a persistent finalizer. The
     finalizer is armed before the row says so and the expiry task goes only
     after, so that the account is never without one of them.
     */
    method BeginIdentityQuarantine() returns (handoff: Handoff)
      requires Valid() && rec.Some? && rec.value.identityBound && !rec.value.deletionStarted
      modifies h
      ensures h.Valid() && old(h.trace) <= h.trace && h.s.sudo == old(h.s).sudo && h.s.sshd == old(h.s).sshd
      ensures handoff == Unavailable ==> Valid() && Keeps(old(h.seen), h.seen)
      ensures handoff == Started ==> HandedOver(h)
    {
      hide Safe, LawfulBut, Retired, Fold, Meanwhile, MatchesNow, Usable, Bears, Reachable, QuarantineDeadline;
      var o := h.Ask();
      if o != Done { return if o == Killed then HandoffKilled else Unavailable; }
      o := CloseAccess();
      if o != Done { return if o == Killed then HandoffKilled else NotStarted; }
      RowHasNoDeadline(h.user, h.s);
      var now := h.ReadClock();
      o := h.ScheduleQuarantine(pw.uid, rec.value.generation);
      if o != Done { return if o == Killed then HandoffKilled else Unavailable; }
      h.HandOff(now);
      var committed;
      handoff, committed := CommitQuarantine(QuarantineDeadline(now));
    }

    method CommitQuarantine(deadline: int) returns (handoff: Handoff, committed: Outcome)
      requires Valid() && rec.Some? && !rec.value.deletionStarted && h.seen.disabled
      requires h.s.finalizer == Some((pw.uid, rec.value.generation))
      requires deadline == QuarantineDeadline(h.s.handoff) && h.s.handoff <= h.s.clock
      modifies h
      ensures h.Valid() && old(h.trace) <= h.trace && h.s.sudo == old(h.s).sudo && h.s.sshd == old(h.s).sshd
      ensures handoff in {Started, NotStarted, HandoffKilled}
      ensures handoff == Started ==> HandedOver(h) && committed in {Done, NotDurable}
      ensures handoff == Started && MatchesNow(h.s) && rec.value.autoUnit != "" && !rec.value.pending && h.s.auto == None ==>
        (OlderArmed(h.s) <==> committed == Done)
    {
      hide Safe, LawfulBut, Retired, Fold, Meanwhile, MatchesNow, Usable, Bears, Reachable, QuarantineDeadline,
        RowNext, MayBecome, Quarantining, OlderArmed;
      QuarantineMayBegin(h.user, h.s, pw.uid, rec.value.generation, deadline);
      RowHasNoDeadline(h.user, h.s);
      var want := Quarantining(rec.value, pw.uid, rec.value.generation, deadline);
      ghost var was := Slot(h.s.row, h.s.handoff);
      committed := h.Commit(BeginQuarantine(h.user, pw.uid, rec.value.generation, deadline));
      match committed
      case Killed => handoff := HandoffKilled;
      case Failed =>
        QuarantineIsNotNeeded(h.user, h.s);
        var o := h.CancelQuarantine();
        handoff := if o == Killed then HandoffKilled else NotStarted;
      case Done =>
        handoff := RetireExpiryTask(true);
        NothingOlder(h.s);
      case NotDurable =>
        var o := VerifyCommitted(want);
        if o != Done {
          handoff := if o == Killed then HandoffKilled else NotStarted;
          return;
        }
        handoff := RetireExpiryTask(false);
        assert was in h.s.older;
        OldRowIsUnarmed(h.s, was, rec.value, pw.uid, deadline);
    }

    /** A commit that could not be synced is only trusted once the whole visible row is the wanted one. */
    method VerifyCommitted(want: Option<Row>) returns (o: Outcome)
      requires h.Valid()
      modifies h
      ensures h.Valid() && old(h.trace) <= h.trace && Steady(old(h.s), h.s) && h.seen.disabled == old(h.seen).disabled
      ensures o == Done ==> h.s.row == want
    {
      hide Safe, LawfulBut, Retired, Fold, Meanwhile, MatchesNow, Usable, Bears, Reachable;
      var row;
      o, row := h.ReadRow();
      if o == Done && row != want { o := Failed; }
    }

    /** Whether or not the old task could be removed, the finalizer now stands in for it. */
    method RetireExpiryTask(synced: bool) returns (handoff: Handoff)
      requires h.Valid() && HandedOver(h) && (synced ==> h.s.older == [])
      modifies h
      ensures h.Valid() && old(h.trace) <= h.trace && h.s.sudo == old(h.s).sudo && h.s.sshd == old(h.s).sshd
      ensures handoff in {Started, HandoffKilled} && HandedOver(h) && h.s.row == old(h.s).row &&
        h.s.older == old(h.s).older
      ensures old(h.trace) + [ExpiryRetired(synced)] <= h.trace
    {
      hide Safe, LawfulBut, Retired, Fold, Meanwhile, MatchesNow, Usable, Bears, Reachable;
      h.NoteRetirement(synced);
      QuarantinedNeedsNoAuto(h.user, h.s);
      var o := h.CancelAuto();
      return if o == Killed then HandoffKilled else Started;
    }

    /** The grants or the Home cannot be dealt with: the account is shut and kept. */
    method ShutAndRetain() returns (p: Phase)
      requires Valid()
      modifies h
      ensures h.Valid() && old(h.trace) <= h.trace && p in {Finish(Declined), Finish(Interrupted)}
    {
      hide Safe, LawfulBut, Retired, Fold, Meanwhile, MatchesNow, Usable, Bears, Reachable;
      var o := h.DisableLogin();
      if o != Done { return Stop(o); }
      o := StillMatches(h, pw, false);
      if o != Done { return Stop(o); }
      o := Quiesce(h, pw, false);
      return Finish(if o == Killed then Interrupted else Declined);
    }

    /** The identity once more, and the quarantine where one is possible. */
    method RevalidateAndPrepareDeletion() returns (p: Phase)
      requires Valid()
      modifies this`pw, h
      ensures h.Valid() && old(h.trace) <= h.trace
      ensures p == Continue ==> Valid() && grantsGone && Keeps(old(h.seen), h.seen) && SameIdentity(old(pw), pw)
      ensures p == Finish(Result.Quarantined) ==> HandedOver(h) && !h.s.sudo && !h.s.sshd
      ensures p.Finish? ==> p.result in {Result.Quarantined, Declined, Interrupted}
    {
      hide Safe, LawfulBut, Retired, Fold, Meanwhile, MatchesNow, Usable, Bears, Reachable, SameIdentity;
      var o, account := h.ReadAccount();
      if o != Done { return Stop(o); }
      if account == None || !SameIdentity(pw, account.value) { return Finish(Declined); }
      pw := account.value;
      if !grantsGone || !ManagedHome(h.user, pw.home) {
        p := ShutAndRetain();
        return;
      }
      if rec.Some? && rec.value.identityBound && !rec.value.deletionStarted && (!rec.value.pending || pendingRecovery) &&
        (opts.manual || opts.generation != "")
      {
        var handoff := BeginIdentityQuarantine();
        match handoff
        case Started => return Finish(Result.Quarantined);
        case NotStarted => return Finish(Declined);
        case HandoffKilled => return Finish(Interrupted);
        case Unavailable =>
      }
      return Continue;
    }

    /** Uninstall cannot leave a finalizer behind: it drains unless the deadline has passed. */
    method SynchronousTeardown(deadline: int) returns (stage: Stage)
      requires Valid() && grantsGone && h.seen.expected == Some(pw) && DeadlineOf(rec) == Some(deadline)
      modifies h, h.breaches
      ensures h.Valid() && old(h.trace) <= h.trace && h.breaches.at == old(h.breaches.at) && !h.s.sudo && !h.s.sshd
      ensures stage == Removed ==> SeenAbsent(h) && h.seen.sudoGone && h.seen.sshdGone
    {
      hide Safe, LawfulBut, Retired, Fold, Meanwhile, MatchesNow, Usable, Bears, Reachable, DeadlineOf;
      var now := h.ReadClock();
      if now >= deadline * NANOS {
        stage := TeardownQuarantined(h, rec, pw);
      } else {
        stage := TeardownLocal(h, rec, pw, false);
      }
    }

    method Teardown() returns (stage: Stage)
      requires Valid() && grantsGone && h.seen.expected == Some(pw)
      requires rec.Some? && rec.value.quarantineUntil != "" && !opts.synchronous ==>
        Held(h.seen.(deadline := DeadlineOf(rec)))
      modifies h, h.breaches
      ensures h.Valid() && old(h.trace) <= h.trace && h.breaches.at == old(h.breaches.at) && !h.s.sudo && !h.s.sshd
      ensures stage == Removed ==> SeenAbsent(h) && h.seen.sudoGone && h.seen.sshdGone
    {
      hide Safe, LawfulBut, Retired, Fold, Meanwhile, MatchesNow, Usable, Bears, Reachable, DeadlineOf, Next;
      if rec == None || rec.value.quarantineUntil == "" {
        stage := TeardownLocal(h, rec, pw, false);
      } else if !opts.synchronous {
        stage := TeardownQuarantined(h, rec, pw);
      } else {
        var deadline := Times.ParseTime(rec.value.quarantineUntil);
        if deadline == None { return Deleting; }
        DeadlineIs(rec, deadline.value);
        stage := SynchronousTeardown(deadline.value);
      }
    }

    /** Takes the account apart and, once it is gone, its tasks and its row. */
    method DeleteAndFinalize() returns (p: Phase)
      requires Valid() && grantsGone
      requires rec.Some? && rec.value.quarantineUntil != "" && !opts.synchronous ==>
        Held(h.seen.(deadline := DeadlineOf(rec)))
      modifies h, h.breaches
      ensures h.Valid() && old(h.trace) <= h.trace && h.breaches.at == old(h.breaches.at) && p.Finish?
      ensures p.result in {Gone, Declined, Interrupted}
      ensures p.result == Gone ==> NothingLeft(h.s)
    {
      hide Safe, LawfulBut, Retired, Fold, Meanwhile, MatchesNow, Usable, Bears, Reachable, DeadlineOf;
      h.Emit(Authorized(pw));
      var stage := Teardown();
      if stage != Removed { return Finish(if stage == StageKilled then Interrupted else Declined); }
      p := FinishAbsent();
    }

    method FinishAbsent() returns (p: Phase)
      requires h.Valid() && h.seen.sudoGone && h.seen.sshdGone && SeenAbsent(h) && !h.s.sudo && !h.s.sshd
      modifies h
      ensures h.Valid() && old(h.trace) <= h.trace && p.Finish?
      ensures p.result in {Gone, Declined, Interrupted}
      ensures p.result == Gone ==> NothingLeft(h.s)
    {
      hide Safe, LawfulBut, Retired, Fold, Meanwhile, Matches, GenerationOf;
      var o := CancelTasks(h);
      if o != Done { return Stop(o); }
      o := ReleaseRegistry(h);
      return if o == Done then Finish(Gone) else Stop(o);
    }

    /** Everything up to the point where this run may take the account apart. */
    method Authorize() returns (p: Phase)
      requires h.Valid() && !grantsGone
      modifies this, h
      ensures h.Valid() && old(h.trace) <= h.trace
      ensures p == Continue ==> Valid() && Tied()
      ensures p.Finish? ==> p.result in {Skipped, GrantsStripped, Gone, Declined, Interrupted}
      ensures p == Finish(Gone) ==> NothingLeft(h.s)
    {
      hide Safe, LawfulBut, Retired, Fold, Meanwhile, MatchesNow, Usable, Bears, Reachable, Matches, SameIdentity,
        DeadlineOf, Shielded, Next;
      p := LoadRegistry();
      if p.Finish? { return; }
      p := LoadAccount();
      if p.Finish? { return; }
      p := AuthorizeRecovery();
      if p.Finish? { return; }
      p := StripGrantsAndCheckProtection();
    }

    /**
     One revoke, whatever fails, is killed or changes underneath it. Everything
     destructive it did was lawful, and every promise of the host still holds.
     */
    method Run() returns (result: Result)
      requires h.Valid() && !grantsGone
      modifies this, h, h.breaches
      ensures h.Valid() && old(h.trace) + [RunStarted] <= h.trace && h.breaches.at == old(h.breaches.at)
      ensures result == Gone ==> NothingLeft(h.s)
      ensures result == Result.Quarantined ==> h.seen.disabled && !h.s.sudo && !h.s.sshd
    {
      hide Safe, LawfulBut, Retired, Fold, Meanwhile, MatchesNow, Usable, Bears, Reachable, Matches, SameIdentity,
        DeadlineOf, Shielded, Next;
      h.Note(RunStarted);
      var p := Authorize();
      if p.Finish? { return p.result; }
      p := HonorExistingQuarantine();
      if p.Finish? { return p.result; }
      p := RevalidateAndPrepareDeletion();
      if p.Finish? { return p.result; }
      p := DeleteAndFinalize();
      return p.result;
    }
  }

  lemma DeadlineIs(rec: Option<Row>, deadline: int)
    requires rec.Some? && rec.value.quarantineUntil != "" &&
      Times.ParseTime(rec.value.quarantineUntil) == Some(deadline)
    ensures DeadlineOf(rec) == Some(deadline)
  {
  }

  /** Login is shut and the quarantined row's own finalizer is armed. */
  ghost predicate HandedOver(h: Host)
    reads h
  {
    h.seen.disabled && h.s.row.Some? && h.s.row.value.quarantineUntil != "" &&
    h.s.finalizer == Some((h.s.row.value.uid, h.s.row.value.generation))
  }

  datatype Handoff = Started | Unavailable | NotStarted | HandoffKilled

  lemma RowHasNoDeadline(user: string, s: HostState)
    requires Safe(user, s) && s.row.Some? && !s.row.value.deletionStarted
    ensures s.row.value.quarantineUntil == ""
    ensures s.row.value.identityBound && !s.row.value.pending ==> s.row.value.uid != 0
  {
    OrdinaryHasNoDeadline(s.row.value);
  }

  /** The row the quarantine commit publishes keeps every promise, and is the wanted one. */
  lemma QuarantineMayBegin(user: string, s: HostState, uid: int, generation: string, deadline: int)
    requires Safe(user, s) && s.row.Some? && !s.row.value.deletionStarted && (s.tampering || !Usable(s))
    requires s.finalizer == Some((uid, generation))
    requires deadline == QuarantineDeadline(s.handoff) && s.handoff <= s.clock
    ensures var c := RowNext(s.row, BeginQuarantine(user, uid, generation, deadline));
      c != Keep &&
      (c.Become? ==>
         MayBecome(user, s, c.row) && c.row == Quarantining(s.row.value, uid, generation, deadline) &&
         c.row.Some? && c.row.value.quarantineUntil != "" &&
         c.row.value.uid == uid && c.row.value.generation == generation)
  {
    var c := RowNext(s.row, BeginQuarantine(user, uid, generation, deadline));
    if c.Become? {
      QuarantiningIsValid(s.row.value, uid, generation, deadline);
      Times.TimeRoundTrip(deadline);
    }
  }

  lemma QuarantineIsNotNeeded(user: string, s: HostState)
    requires Safe(user, s) && s.row.Some? && s.row.value.quarantineUntil == ""
    ensures Safe(user, s.(finalizer := None))
  {
    FinalizerIsFree(user, s, None);
  }

  lemma QuarantinedNeedsNoAuto(user: string, s: HostState)
    requires Safe(user, s) && s.row.Some? && s.row.value.quarantineUntil != "" && (s.tampering || !Usable(s))
    requires s.older == [] || s.exposed
    ensures Safe(user, s.(auto := None))
  {
  }

  lemma NothingOlder(s: HostState)
    ensures s.older == [] ==> OlderArmed(s)
  {
  }

  /** Behind a quarantine that is not synced, the ordinary row's own task is missed. */
  lemma OldRowIsUnarmed(s: HostState, was: Slot, r: Row, uid: int, deadline: int)
    requires was in s.older && was.row == Some(r) && r.quarantineUntil == "" && !r.deletionStarted
    requires s.row == Quarantining(r, uid, r.generation, deadline) && s.row.Some?
    requires r.identityBound && !r.pending ==> r.uid != 0
    ensures MatchesNow(s) && r.autoUnit != "" && !r.pending && s.auto == None ==> !OlderArmed(s)
  {
    hide DeadlineText, Times.InCalendar, Generation, ManagedHome, AccountID, Matches;
    if MatchesNow(s) && r.autoUnit != "" && !r.pending && s.auto == None {
      BearersMatch(s.row.value, r, s.account.value);
      assert Relies(s, was.row) && !TasksFor(was.row.value, s.auto, s.finalizer);
    }
  }

  /** The row still promises the account an expiry task, and that is gone. */
  predicate Forsaken(s: HostState) {
    Relies(s, s.row) && s.row.value.quarantineUntil == "" && s.auto == None
  }

  /** Power loss may forsake an account exactly when a row that was never synced away still counts on its expiry task. */
  lemma ForsakenIff(s: HostState)
    requires !Forsaken(s)
    ensures (exists back :: (back in s.older || back == Slot(s.row, s.handoff)) && Forsaken(AfterPowerLoss(s, back))) <==>
      s.auto == None && exists x :: x in s.older && Relies(s, x.row) && x.row.value.quarantineUntil == ""
  {
    hide Matches;
    forall x | x in s.older
      ensures Forsaken(AfterPowerLoss(s, x)) <==> s.auto == None && Relies(s, x.row) && x.row.value.quarantineUntil == ""
    {
    }
    assert !Forsaken(AfterPowerLoss(s, Slot(s.row, s.handoff)));
  }

  /**
   A forsaken account is one failed commit away from having no task at all: the
   next handoff arms the finalizer, its commit fails and changes nothing, and
   the finalizer is cancelled again.
   */
  lemma ForsakenLosesBoth(user: string, s: HostState, uid: int, generation: string, m: Mutation)
    requires Safe(user, s) && Forsaken(s) && !s.row.value.deletionStarted && !m.Compact?
    ensures var armed := s.(finalizer := Some((uid, generation)));
      Safe(user, armed) && Committed(armed, RowNext(armed.row, m), Failed, armed) &&
      Safe(user, armed.(finalizer := None)) &&
      MatchesNow(armed.(finalizer := None)) && armed.auto == None
  {
    FinalizerIsFree(user, s, Some((uid, generation)));
    FinalizerIsFree(user, s.(finalizer := Some((uid, generation))), None);
  }

  /**
   The handoff of an account with an armed expiry task, step by step: the commit
   is visible, the expiry task is cancelled, and power fails. The account is
   then forsaken by some row that may come back if and only if the commit was
   not synced.
   */
  lemma HandoffForsakesIff(user: string, s: HostState, uid: int, generation: string, deadline: int, synced: bool)
    requires Safe(user, s) && !s.tampering && !Usable(s) && s.older == []
    requires Relies(s, s.row) && s.row.value.quarantineUntil == "" && s.finalizer == Some((uid, generation))
    requires deadline == QuarantineDeadline(s.handoff) && s.handoff <= s.clock
    requires RowNext(s.row, BeginQuarantine(user, uid, generation, deadline)).Become?
    ensures var c := RowNext(s.row, BeginQuarantine(user, uid, generation, deadline));
      var s1 := AfterWrite(s, c.row, synced);
      var s2 := s1.(exposed := !synced, auto := None);
      Committed(s, c, if synced then Done else NotDurable, s1) && Safe(user, s1) && Safe(user, s2) &&
      MatchesNow(s2) && s2.finalizer == Some((s2.row.value.uid, s2.row.value.generation)) &&
      ((exists back :: (back in s2.older || back == Slot(s2.row, s2.handoff)) && Forsaken(AfterPowerLoss(s2, back))) <==> !synced)
  {
    hide ValidRow, Matches, DeadlineKept, QuarantineDeadline, DeadlineText, Times.InCalendar;
    var c := RowNext(s.row, BeginQuarantine(user, uid, generation, deadline));
    RowHasNoDeadline(user, s);
    QuarantineMayBegin(user, s, uid, generation, deadline);
    WriteIsSafe(user, s, c.row, synced);
    var s1 := AfterWrite(s, c.row, synced);
    BearersMatch(s.row.value, c.row.value, s.account.value);
    var s2 := s1.(exposed := !synced, auto := None);
    QuarantinedNeedsNoAuto(user, s1.(exposed := !synced));
    ForsakenIff(s2);
    if !synced {
      assert Slot(s.row, s.handoff) in s2.older && Relies(s2, s.row);
    }
  }

  lemma BearersMatch(a: Row, b: Row, pw: Passwd)
    requires SameBearer(a, b)
    ensures Matches(a, pw) == Matches(b, pw)
  {
  }

  lemma PendingNeedsNoTasks(user: string, s: HostState)
    requires Safe(user, s) && s.row.Some? && s.row.value.pending && !s.row.value.deletionStarted
    ensures TasksAreFree(s)
  {
    OrdinaryHasNoDeadline(s.row.value);
  }

  lemma ManualOnlyNeedsNoTasks(user: string, s: HostState, rec: Option<Row>, pw: Passwd)
    requires Safe(user, s) && s.row == rec && ManualOnly(s.reserved, rec, pw)
    requires s.tampering || (MatchesNow(s) ==> !s.reserved && Matches(rec.value, pw))
    ensures TasksAreFree(s)
  {
  }

  lemma UnboundNeedsNoTasks(user: string, s: HostState)
    requires Safe(user, s) && s.row.Some? && !s.row.value.identityBound
    ensures TasksAreFree(s)
  {
  }
}