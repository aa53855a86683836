/**
 The invite transaction of internal/cli/invite_transaction.go: an account is
 created disabled and only let in once everything about it is on record; any
 failure on the way runs the registered cleanups in reverse order.
 */
module Invites {
  import opened Wrappers
  import opened Storage
  import opened Validate
  import opened Records
  import opened Transitions
  import opened Lifecycle
  import opened Hosts
  import opened Deletions
  import opened Revokes

  datatype Plan = Plan(
    wantSudo: bool, wantAuto: bool, fixSSHD: bool, generatedName: bool, host: string, port: int, generation: string)

  datatype Cleanup = ReleaseTheRow | RollBackAccount | RemoveException | RemoveSudoFile

  datatype Invitation = Created | Failed(restored: bool) | Cut

  /**
   One deletion of an account that had vanished: how far it got, whether the run
   had shut the login and completed a pass by then, and whether the identity was
   held long enough.
   */
  datatype Look = Look(home: bool, userdel: bool, shut: bool, held: bool)

  predicate Gated(l: Look) { (l.home ==> l.shut) && (l.userdel ==> l.shut && l.held) }

  predicate AllGated(looks: seq<Look>) { forall l | l in looks :: Gated(l) }

  predicate NoneBack(looks: seq<Look>) { forall l | l in looks :: !l.home && !l.userdel }

  /** Steps without leave were taken exactly where a deletion outran its gates. */
  ghost predicate Tallied(before: set<nat>, at: set<nat>, looks: seq<Look>) {
    before <= at && (at == before <==> AllGated(looks))
  }

  lemma TalliedOn(before: set<nat>, at: set<nat>, looks: seq<Look>, at': set<nat>, l: Look)
    requires Tallied(before, at, looks) && at <= at' && (at' == at <==> Gated(l))
    ensures Tallied(before, at', looks + [l])
    ensures NoneBack(looks) && !l.home && !l.userdel ==> NoneBack(looks + [l])
  {
    assert forall x :: x in looks + [l] <==> x in looks || x == l;
  }

  lemma NothingOutran(before: set<nat>, at: set<nat>, looks: seq<Look>)
    requires Tallied(before, at, looks)
    ensures NoneBack(looks) ==> at == before
  {
  }

  class Invite {
    const h: Host
    ghost const before: set<nat>
    const plan: Plan
    var rec: Row
    var pw: Passwd
    var rollbackIdentity: Passwd
    var autoScheduled: bool
    var sudoRemovalConfirmed: bool
    var sshdRemovalConfirmed: bool
    var accountCleanupConfirmed: bool
    var loginActivationStarted: bool
    var cleanups: seq<Cleanup>
    ghost var looks: seq<Look>

    constructor (h: Host, plan: Plan)
      ensures this.h == h && this.plan == plan && Fresh()
    {
      this.h, this.plan, before, looks := h, plan, h.breaches.at, [];
      rec := BLANK.(user := h.user, sudo := plan.wantSudo, host := plan.host, port := plan.port,
                    autoRevoke := plan.wantAuto, generation := plan.generation, identityBound := true, pending := true);
      pw, rollbackIdentity := Passwd(0, 0, "", false, NoMarker, false, 0), Passwd(0, 0, "", false, NoMarker, false, 0);
      autoScheduled, loginActivationStarted, cleanups := false, false, [];
      sudoRemovalConfirmed, sshdRemovalConfirmed, accountCleanupConfirmed := true, true, true;
    }

    ghost predicate Fresh()
      reads this, h.breaches
    {
      before == h.breaches.at && looks == [] &&
      rec == BLANK.(user := h.user, sudo := plan.wantSudo, host := plan.host, port := plan.port,
                    autoRevoke := plan.wantAuto, generation := plan.generation, identityBound := true, pending := true) &&
      !autoScheduled && sudoRemovalConfirmed && sshdRemovalConfirmed && accountCleanupConfirmed &&
      !loginActivationStarted && cleanups == []
    }

    /** Every step without leave is accounted for, and none was taken unless somebody brought an identity back. */
    ghost predicate Sound()
      reads this`looks, h, h.breaches
    {
      h.Valid() && Tallied(before, h.breaches.at, looks) && (h.s.tampering || NoneBack(looks))
    }

    /** A confirmed removal has really been seen in this run. */
    ghost predicate Valid()
      reads this, h, h.breaches
    {
      Sound() &&
      (cleanups != [] ==> cleanups[0] == ReleaseTheRow) &&
      (sudoRemovalConfirmed && cleanups != [] ==> h.seen.sudoGone && !h.s.sudo) &&
      (sshdRemovalConfirmed && cleanups != [] ==> h.seen.sshdGone && !h.s.sshd)
    }

    /** The account was last seen absent, and no row, grant or task of this invite is left. */
    ghost predicate Undone()
      reads this, h
    {
      SeenAbsent(h) && h.s.row == None && !h.s.sudo && !h.s.sshd && (autoScheduled ==> h.s.auto == None && h.s.finalizer == None)
    }

    /** A failure that reports everything restored has indeed undone whatever was begun. */
    ghost predicate Ended(r: Invitation)
      reads this, h
    {
      r == Invitation.Failed(true) ==> cleanups == [] || Undone()
    }

    method ConfirmSudoRemoved() returns (o: Outcome)
      requires Valid()
      modifies this`sudoRemovalConfirmed, h
      ensures Valid() && old(h.trace) <= h.trace && Keeps(old(h.seen), h.seen) && o != NotDurable
      ensures Drift(old(h.s), h.s) && h.s.sshd == old(h.s).sshd && (o == Done ==> !h.s.sudo)
      ensures sudoRemovalConfirmed == (o == Done || old(sudoRemovalConfirmed))
    {
      hide Safe, LawfulBut, Retired, Fold, Tallied, NoneBack, Meanwhile, MatchesNow, Usable, Bears, Reachable;
      o := h.RemoveSudoGrant();
      if o == Done { sudoRemovalConfirmed := true; }
    }

    method ConfirmSSHDRemoved() returns (o: Outcome)
      requires Valid()
      modifies this`sshdRemovalConfirmed, h
      ensures Valid() && old(h.trace) <= h.trace && Keeps(old(h.seen), h.seen) && o != NotDurable
      ensures Drift(old(h.s), h.s) && h.s.sudo == old(h.s).sudo && (o == Done ==> !h.s.sshd)
      ensures sshdRemovalConfirmed == (o == Done || old(sshdRemovalConfirmed))
    {
      hide Safe, LawfulBut, Retired, Fold, Tallied, NoneBack, Meanwhile, MatchesNow, Usable, Bears, Reachable;
      o := h.RemoveSSHDException();
      if o == Done { sshdRemovalConfirmed := true; }
    }

    /** This invite's own row and identity, as far as they have come. */
    ghost predicate Own()
      reads this, h
    {
      rec.generation == plan.generation && plan.generation in h.s.minted
    }

    /**
     Tears the account down if every grant is confirmed gone, and otherwise
     retains it shut.
     */
    method RollbackAccount(mayDelete: bool) returns (o: Outcome)
      requires Valid() && Own() && (mayDelete ==> h.seen.sudoGone && h.seen.sshdGone)
      modifies this`looks, h, h.breaches
      ensures Valid() && Own() && old(h.trace) <= h.trace && SteadyButRow(old(h.s), h.s)
      ensures o == Done && mayDelete ==> SeenAbsent(h)
      ensures o == Done && !mayDelete ==> h.seen.disabled || h.seen.account == Some(None)
    {
      hide Safe, LawfulBut, Retired, Fold, Tallied, NoneBack, Meanwhile, MatchesNow, Usable, Bears, Reachable,
        SameIdentity;
      var expected, exact := rollbackIdentity, !loginActivationStarted;
      if !rec.identityBound || !Generation(rec.generation) || !AccountID(expected.uid) || !AccountID(expected.gid) ||
        !ManagedHome(h.user, expected.home) || !expected.shell || (rec.uid > 0 && rec.uid != expected.uid)
      {
        return Outcome.Failed;
      }
      if expected.marker != ManagedMark(rec.generation) && !(rec.pending && expected.marker == PendingMark(rec.generation)) {
        return Outcome.Failed;
      }
      var account;
      o, account := h.ReadAccount();
      if o != Done { return; }
      if account == None {
        NobodyThere(h.s);
        if mayDelete { o := RecoverVanished(expected, exact); }
      } else if !Same(exact, expected, account.value) {
        o := Outcome.Failed;
      } else if mayDelete {
        o := TearDown(expected, exact);
      } else {
        o := RetainShut(expected, exact);
      }
    }

    method TearDown(expected: Passwd, exact: bool) returns (o: Outcome)
      requires Valid() && Own() && h.seen.sudoGone && h.seen.sshdGone
      modifies h, h.breaches
      ensures Valid() && Own() && old(h.trace) <= h.trace && SteadyButRow(old(h.s), h.s)
      ensures o == Done ==> SeenAbsent(h)
    {
      hide Safe, LawfulBut, Retired, Fold, Tallied, NoneBack, Meanwhile, MatchesNow, Usable, Bears, Reachable,
        SameIdentity;
      h.Note(Authorized(expected));
      var stage := TeardownLocal(h, Some(rec), expected, exact);
      o := if stage == Removed then Done else if stage == StageKilled then Killed else Outcome.Failed;
    }

    method RetainShut(expected: Passwd, exact: bool) returns (o: Outcome)
      requires Valid() && Own()
      modifies h
      ensures Valid() && Own() && old(h.trace) <= h.trace && SteadyButRow(old(h.s), h.s)
      ensures o == Done ==> h.seen.disabled
    {
      hide Safe, LawfulBut, Retired, Fold, Tallied, NoneBack, Meanwhile, MatchesNow, Usable, Bears, Reachable,
        SameIdentity;
      o := StillMatches(h, expected, exact);
      if o != Done { return; }
      o := h.DisableLogin();
      if o != Done { return; }
      o := Quiesce(h, expected, exact);
    }

    /**
     The account vanished: its deletion is put on record, and what is left of it
     is deleted by identity, without another gate. Should somebody have brought
     that identity back by then, its Home goes; without tampering none comes back.
     */
    method RecoverVanished(expected: Passwd, exact: bool) returns (o: Outcome)
      requires Valid() && Own() && Bears(h.s, 0, NoMarker) && h.seen.sudoGone && h.seen.sshdGone
      requires GenerationOf(expected.marker, {plan.generation})
      modifies this`looks, h, h.breaches
      ensures Valid() && Own() && old(h.trace) <= h.trace && SteadyButRow(old(h.s), h.s)
      ensures o == Done ==> SeenAbsent(h)
      ensures looks == old(looks) ||
        exists l: Look :: looks == old(looks) + [l] && l.shut == (old(h.seen).disabled && old(h.seen).passed) &&
          (l.home && !l.shut ==> Breached(old(h.breaches.at), h.breaches.at, h.trace, HomeRemoval)) &&
          (l.userdel && !(l.shut && l.held) ==> Breached(old(h.breaches.at), h.breaches.at, h.trace, Event.Userdel))
    {
      hide Safe, LawfulBut, Retired, Fold, Tallied, NoneBack, Meanwhile, MatchesNow, Usable, Bears, Reachable,
        SameIdentity, Breached, GenerationOf, Held;
      NobodyIsNotUsable(h.s);
      o := PersistDeletionStarted(h, Some(rec), expected);
      if o != Done { return; }
      h.Note(Authorized(expected));
      ghost var seen1, at1 := h.seen, h.breaches.at;
      MintedHere(expected.marker, plan.generation, h.s.minted);
      var home, userdel;
      o, home, userdel := DeleteExpected(h, expected, exact, false);
      ghost var l := Look(home, userdel, seen1.disabled && seen1.passed, Held(seen1));
      TalliedOn(before, at1, looks, h.breaches.at, l);
      looks := looks + [l];
    }

    /** One registered cleanup. The row goes last, and only when everything else is confirmed gone. */
    method RunCleanup(c: Cleanup) returns (o: Outcome)
      requires Valid() && Own() && cleanups != []
      modifies this`sudoRemovalConfirmed, this`sshdRemovalConfirmed, this`accountCleanupConfirmed, this`looks, h, h.breaches
      ensures Valid() && Own() && old(h.trace) <= h.trace
      ensures c == RollBackAccount && o == Done ==> accountCleanupConfirmed && SeenAbsent(h)
      ensures c == ReleaseTheRow && o == Done ==> Undone()
      ensures c == ReleaseTheRow && !(old(sudoRemovalConfirmed) && old(sshdRemovalConfirmed) && old(accountCleanupConfirmed)) ==>
        o == Outcome.Failed && h.s == old(h.s) && h.trace == old(h.trace)
    {
      hide Safe, LawfulBut, Retired, Fold, Tallied, NoneBack, Meanwhile, MatchesNow, Usable, Bears, Reachable;
      match c
      case RemoveException => o := ConfirmSSHDRemoved();
      case RemoveSudoFile => o := ConfirmSudoRemoved();
      case RollBackAccount =>
        var mayDelete := sudoRemovalConfirmed && sshdRemovalConfirmed;
        o := RollbackAccount(mayDelete);
        if o == Done && !mayDelete { o := Outcome.Failed; }
        if o == Done { accountCleanupConfirmed := true; }
      case ReleaseTheRow =>
        if !sudoRemovalConfirmed || !sshdRemovalConfirmed || !accountCleanupConfirmed { return Outcome.Failed; }
        o := ReleaseAbsent();
    }

    method ReleaseAbsent() returns (o: Outcome)
      requires Valid() && Own() && sudoRemovalConfirmed && sshdRemovalConfirmed && cleanups != []
      modifies h
      ensures Valid() && Own() && old(h.trace) <= h.trace && (o == Done ==> Undone())
    {
      hide Safe, LawfulBut, Retired, Fold, Tallied, NoneBack, Meanwhile, Matches, GenerationOf;
      var account;
      o, account := h.ReadAccount();
      if o != Done { return; }
      if account.Some? { return Outcome.Failed; }
      o := ReleaseRegistry(h);
      if o != Done || !autoScheduled { return; }
      o := CancelTasks(h);
    }

    /** Runs every cleanup, latest first, whatever the earlier ones report. */
    method RollBack() returns (r: Invitation)
      requires Valid() && Own()
      modifies this`sudoRemovalConfirmed, this`sshdRemovalConfirmed, this`accountCleanupConfirmed, this`looks, h, h.breaches
      ensures Valid() && Own() && old(h.trace) <= h.trace && r != Created && Ended(r)
    {
      hide Safe, LawfulBut, Retired, Fold, Tallied, NoneBack, Meanwhile, MatchesNow, Usable, Bears, Reachable;
      var i, clean := |cleanups|, true;
      while i > 0
        invariant 0 <= i <= |cleanups| && Valid() && Own() && old(h.trace) <= h.trace
        invariant clean && i == 0 && cleanups != [] ==> Undone()
      {
        i := i - 1;
        var o := RunCleanup(cleanups[i]);
        if o == Killed { return Cut; }
        if o != Done { clean := false; }
      }
      return Invitation.Failed(clean);
    }

    /** Unless somebody forges identities, the account is this one. */
    ghost predicate Bearing(uid: int, marker: Marker)
      reads h
    {
      h.s.tampering || Bears(h.s, uid, marker)
    }

    /** Unless somebody opens logins, this one is shut. */
    ghost predicate Closed()
      reads h
    {
      h.s.tampering || !Reachable(h.s)
    }

    /** What the phases before activation keep: the grants are known, and nobody can use the account. */
    ghost predicate Building()
      reads this, h, h.breaches
    {
      Valid() && Own() && RowShape(h.user, plan, rec) && !loginActivationStarted && (h.s.tampering || !Usable(h.s)) &&
      (sudoRemovalConfirmed ==> h.seen.sudoGone && !h.s.sudo) && (sshdRemovalConfirmed ==> h.seen.sshdGone && !h.s.sshd)
    }

    method ClearReusedUsername() returns (ok: bool, r: Invitation)
      requires Valid() && Fresh() && RowShape(h.user, plan, rec) && Own()
      modifies h
      ensures Valid() && old(h.trace) <= h.trace && (!ok ==> r != Created && Ended(r))
      ensures ok ==> Building() && Bearing(0, NoMarker) && h.s.row == None
    {
      hide Safe, LawfulBut, Retired, Fold, Tallied, NoneBack, Meanwhile, MatchesNow, Usable, Bears, Reachable,
        RowShape, Undone;
      ok, r := false, Invitation.Failed(true);
      var o, account := h.ReadAccount();
      if o == Killed { r := Cut; return; }
      if o != Done || account.Some? { return; }
      NobodyThere(h.s);
      var row;
      o, row := h.ReadRow();
      if o == Killed { r := Cut; return; }
      if o != Done || row.Some? { return; }
      o := StripGrants(h);
      if o == Killed { r := Cut; return; }
      if o != Done { return; }
      o := CancelTasks(h);
      if o == Killed { r := Cut; return; }
      if o != Done { return; }
      o := h.Ask();
      if o == Killed { r := Cut; return; }
      ok := o == Done;
    }

    /** Writes this invite's row as it now stands. */
    method RecordRow() returns (o: Outcome)
      requires Building() && (rec.autoUnit != "" && !rec.pending ==> h.s.auto == Some((rec.uid, rec.generation)))
      requires h.s.row.Some? ==> !Needy(h.s.row.value)
      modifies h
      ensures Building() && old(h.trace) <= h.trace && h.seen == old(h.seen) && SteadyButRow(old(h.s), h.s)
      ensures h.s.row == old(h.s).row || h.s.row == Some(rec)
      ensures o == Done || o == NotDurable ==> h.s.row == Some(rec)
      ensures o == Done ==> h.s.older == []
    {
      hide Safe, LawfulBut, Retired, Fold, Tallied, NoneBack, Meanwhile, MatchesNow, Usable, Bears, Reachable,
        RowShape, RowNext, MayBecome;
      OwnRowMayBe(h.user, plan, h.s, rec);
      o := h.Commit(Record(rec));
    }

    /** Undoes what has been done so far. */
    method Fail() returns (ok: bool, r: Invitation)
      requires Valid() && Own()
      modifies this`sudoRemovalConfirmed, this`sshdRemovalConfirmed, this`accountCleanupConfirmed, this`looks, h, h.breaches
      ensures Sound() && old(h.trace) <= h.trace && !ok && r != Created && Ended(r)
    {
      r := RollBack();
      ok := false;
    }

    method ReserveAndCreatePendingIdentity() returns (ok: bool, r: Invitation)
      requires Building() && Bearing(0, NoMarker) && cleanups == [] && rec.pending && rec.autoUnit == "" &&
        h.s.row == None
      requires sudoRemovalConfirmed && sshdRemovalConfirmed && rec.uid == 0 && !rec.sequentialID
      modifies this, h, h.breaches
      ensures Sound() && old(h.trace) <= h.trace && (!ok ==> r != Created && Ended(r))
      ensures ok ==>
        Building() && cleanups != [] && rec.pending && rec.autoUnit == "" && AccountID(rec.uid) && Closed() &&
        sudoRemovalConfirmed && sshdRemovalConfirmed && h.s.row == Some(rec) && h.s.older == [] &&
        pw.uid == rec.uid && pw.marker == PendingMark(plan.generation) && Bearing(pw.uid, pw.marker)
    {
      hide Safe, LawfulBut, Retired, Fold, Tallied, NoneBack, Meanwhile, MatchesNow, Usable, Bears, Reachable,
        RowShape, Undone;
      ok, r := false, Cut;
      var o := h.Ask();
      if o == Killed { return; }
      if o != Done { ok, r := Fail(); return; }
      assert AccountID(1);
      var uid :| AccountID(uid);
      rec := rec.(uid := uid, sequentialID := true);
      ReservedShape(h.user, plan, rec);
      o := RecordRow();
      if o == Killed { return; }
      if o == Outcome.Failed { ok, r := Fail(); return; }
      cleanups := [ReleaseTheRow];
      if o == NotDurable { ok, r := Fail(); return; }
      ok, r := CreateAccount();
    }

    /** useradd, with the gate on the row's release closed before it can have done anything. */
    method AddUser() returns (o: Outcome, ran: bool, created: Option<Passwd>)
      requires Building() && Bearing(0, NoMarker) && h.s.row == Some(rec) && h.s.older == [] && rec.pending
      modifies this`accountCleanupConfirmed, h
      ensures Building() && old(h.trace) <= h.trace && h.s.row == Some(rec) && h.s.older == [] && o != NotDurable
      ensures created.Some? ==> created.value.uid == rec.uid && created.value.marker == PendingMark(plan.generation)
      ensures Bearing(rec.uid, PendingMark(plan.generation)) && (o == Done ==> created.Some?)
    {
      hide Safe, LawfulBut, Retired, Fold, Tallied, NoneBack, Meanwhile, MatchesNow, Usable, Bears, Reachable,
        RowShape, SameButLogin;
      accountCleanupConfirmed := false;
      PendingNeedsNothing(h.user, plan, h.s, rec);
      o, ran, created := h.CreatePendingAccount(rec.uid, plan.generation);
      LoginIsAllThatMoved(old(h.s), h.s);
    }

    /** An account that was made is this run's to roll back; then it goes on record. */
    method CreateAccount() returns (ok: bool, r: Invitation)
      requires Building() && Bearing(0, NoMarker) && cleanups != [] && h.s.row == Some(rec) && h.s.older == []
      requires rec.pending && rec.autoUnit == "" && AccountID(rec.uid) && sudoRemovalConfirmed && sshdRemovalConfirmed
      modifies this, h, h.breaches
      ensures Sound() && old(h.trace) <= h.trace && (!ok ==> r != Created && Ended(r))
      ensures ok ==>
        Building() && cleanups != [] && rec.pending && rec.autoUnit == "" && AccountID(rec.uid) && Closed() &&
        sudoRemovalConfirmed && sshdRemovalConfirmed && h.s.row == Some(rec) && h.s.older == [] &&
        pw.uid == rec.uid && pw.marker == PendingMark(plan.generation) && Bearing(pw.uid, pw.marker)
    {
      hide Safe, LawfulBut, Retired, Fold, Tallied, NoneBack, Meanwhile, MatchesNow, Usable, Bears, Reachable,
        RowShape, Undone;
      ok, r := false, Cut;
      var o, ran, created := AddUser();
      if o == Killed { return; }
      if created == None {
        r := NothingCreated(ran);
        return;
      }
      pw, rollbackIdentity := created.value, created.value;
      cleanups := cleanups + [RollBackAccount];
      if o != Done { ok, r := Fail(); return; }
      ok, r := RecordAndShut();
    }

    /** useradd left no account: only if it ran is there anything to clean. */
    method NothingCreated(ran: bool) returns (r: Invitation)
      requires Building()
      modifies this, h, h.breaches
      ensures Sound() && old(h.trace) <= h.trace && r != Created && Ended(r)
    {
      hide Safe, LawfulBut, Retired, Fold, Tallied, NoneBack, Meanwhile, MatchesNow, Usable, Bears, Reachable,
        RowShape, Undone;
      if ran {
        var o := ReconcileAbsent();
        if o == Killed { return Cut; }
        accountCleanupConfirmed := o == Done;
      } else {
        accountCleanupConfirmed := true;
      }
      var ok;
      ok, r := Fail();
    }

    /** The account just made goes on record and is shut. */
    method RecordAndShut() returns (ok: bool, r: Invitation)
      requires Building() && Bearing(pw.uid, pw.marker) && cleanups != [] && h.s.row == Some(rec) && h.s.older == []
      requires rec.pending && rec.autoUnit == "" && AccountID(rec.uid) && sudoRemovalConfirmed && sshdRemovalConfirmed
      requires pw.uid == rec.uid && pw.marker == PendingMark(plan.generation)
      modifies this, h, h.breaches
      ensures Sound() && old(h.trace) <= h.trace && (!ok ==> r != Created && Ended(r))
      ensures ok ==>
        Building() && cleanups != [] && rec.pending && rec.autoUnit == "" && AccountID(rec.uid) && Closed() &&
        sudoRemovalConfirmed && sshdRemovalConfirmed && h.s.row == Some(rec) && h.s.older == [] &&
        pw.uid == rec.uid && pw.marker == PendingMark(plan.generation) && Bearing(pw.uid, pw.marker)
    {
      hide Safe, LawfulBut, Retired, Fold, Tallied, NoneBack, Meanwhile, MatchesNow, Usable, Bears, Reachable,
        RowShape, Undone;
      ok, r := false, Cut;
      NoUnitYet(h.user, plan, rec);
      var o := RecordRow();
      if o == Killed { return; }
      if o != Done { ok, r := Fail(); return; }
      o := h.DisableLogin();
      if o == Killed { return; }
      if o != Done { ok, r := Fail(); return; }
      ok := true;
    }

    /** useradd ran but left no account: its other traces are cleaned under a recorded deletion. */
    method ReconcileAbsent() returns (o: Outcome)
      requires Building()
      modifies h
      ensures Building() && old(h.trace) <= h.trace && o != NotDurable
    {
      hide Safe, LawfulBut, Retired, Fold, Tallied, NoneBack, Meanwhile, MatchesNow, Usable, Bears, Reachable, RowShape;
      o := SweepNothing(h, rec.uid);
    }

    /** The account exists, is shut, is the recorded one and nobody else's. */
    ghost predicate Shut(marker: Marker)
      reads this, h, h.breaches
    {
      Building() && cleanups != [] && Closed() && AccountID(rec.uid) && h.s.row == Some(rec) && h.s.older == [] &&
      pw.uid == rec.uid && pw.marker == marker && Bearing(rec.uid, marker) && rec.autoUnit == ""
    }

    method DrainAndFinalizeIdentity() returns (ok: bool, r: Invitation)
      requires Shut(PendingMark(plan.generation)) && rec.pending
      modifies this, h, h.breaches
      ensures Sound() && old(h.trace) <= h.trace && (!ok ==> r != Created && Ended(r))
      ensures ok ==> Shut(ManagedMark(plan.generation)) && !rec.pending && sudoRemovalConfirmed == old(sudoRemovalConfirmed)
    {
      hide Safe, LawfulBut, Retired, Fold, Tallied, NoneBack, Meanwhile, MatchesNow, Usable, Bears, Reachable,
        RowShape, Undone;
      ok, r := false, Cut;
      var o := Settle();
      if o == Killed { return; }
      if o != Done { ok, r := Fail(); return; }
      var created: string, expires: string := *, *;
      ghost var before := rec;
      rec := rec.(created := created, expires := expires);
      ShapeKept(h.user, plan, before, rec);
      o := RecordRow();
      if o == Killed { return; }
      if o != Done { ok, r := Fail(); return; }
      ok, r := PromoteIdentity();
    }

    /** The pending marker becomes the managed one while the account is still shut. */
    method PromoteIdentity() returns (ok: bool, r: Invitation)
      requires Shut(PendingMark(plan.generation)) && rec.pending
      modifies this, h, h.breaches
      ensures Sound() && old(h.trace) <= h.trace && (!ok ==> r != Created && Ended(r))
      ensures ok ==> Shut(ManagedMark(plan.generation)) && !rec.pending && sudoRemovalConfirmed == old(sudoRemovalConfirmed)
    {
      hide Safe, LawfulBut, Retired, Fold, Tallied, NoneBack, Meanwhile, MatchesNow, Usable, Bears, Reachable,
        RowShape, Undone, SameButLogin;
      ok, r := false, Cut;
      PendingNeedsNothing(h.user, plan, h.s, rec);
      var o, managed := h.MarkManaged(pw, plan.generation);
      LoginIsAllThatMoved(old(h.s), h.s);
      if o == Killed { return; }
      if !h.s.tampering { UnreachableIsNotUsable(h.s); }
      if o != Done { ok, r := Fail(); return; }
      pw, rollbackIdentity := managed, managed;
      ok, r := Complete();
    }

    /** Nothing of an earlier holder of the name or UID is left, and the Home is made. */
    method Settle() returns (o: Outcome)
      requires Building()
      modifies h
      ensures Building() && old(h.trace) <= h.trace && Steady(old(h.s), h.s) && o != NotDurable
      ensures o == Done ==> h.s.account == Some(pw)
      ensures o == Done && old(h.seen).disabled ==>
        h.seen.passed && (h.seen.drained || (plan.generatedName && rec.sequentialID))
    {
      hide Safe, LawfulBut, Retired, Fold, Tallied, NoneBack, Meanwhile, MatchesNow, Usable, Bears, Reachable, RowShape;
      var isolated: bool := *;
      o := SettleIdentity(h, pw, plan.generatedName && rec.sequentialID && isolated);
    }

    /** The completed row; a commit that could not be synced is still the row that is there. */
    method Complete() returns (ok: bool, r: Invitation)
      requires Shut(ManagedMark(plan.generation)) && rec.pending
      modifies this, h, h.breaches
      ensures Sound() && old(h.trace) <= h.trace && (!ok ==> r != Created && Ended(r))
      ensures ok ==> Shut(ManagedMark(plan.generation)) && !rec.pending && sudoRemovalConfirmed == old(sudoRemovalConfirmed)
    {
      hide Safe, LawfulBut, Retired, Fold, Tallied, NoneBack, Meanwhile, MatchesNow, Usable, Bears, Reachable,
        RowShape, Undone;
      ok, r := false, Cut;
      var pendingRow := rec;
      rec := rec.(pending := false);
      CompletedShape(h.user, plan, rec);
      var o := RecordRow();
      if o == Killed { return; }
      if o == Outcome.Failed {
        rec := pendingRow;
        ok, r := Fail();
        return;
      }
      if o == NotDurable { ok, r := Fail(); return; }
      ok := true;
    }

    /** The key or password goes to exactly the entry that was made. */
    method InstallCredential() returns (o: Outcome)
      requires Shut(ManagedMark(plan.generation))
      modifies h
      ensures Shut(ManagedMark(plan.generation)) && old(h.trace) <= h.trace && o != NotDurable
      ensures h.s.sudo == old(h.s).sudo
    {
      hide Safe, LawfulBut, Retired, Fold, Tallied, NoneBack, Meanwhile, MatchesNow, Usable, Bears, Reachable, RowShape;
      o := Recheck();
      if o == Done { o := h.InstallCredential(); }
    }

    method InstallCredentialsAndGrants() returns (ok: bool, r: Invitation)
      requires Shut(ManagedMark(plan.generation)) && !rec.pending && sudoRemovalConfirmed
      modifies this, h, h.breaches
      ensures Sound() && old(h.trace) <= h.trace && (!ok ==> r != Created && Ended(r))
      ensures ok ==> Shut(ManagedMark(plan.generation)) && !rec.pending && (h.s.sudo ==> plan.wantSudo)
    {
      hide Safe, LawfulBut, Retired, Fold, Tallied, NoneBack, Meanwhile, MatchesNow, Usable, Bears, Reachable,
        RowShape, Undone;
      ok, r := false, Cut;
      var o := InstallCredential();
      if o == Killed { return; }
      if o != Done { ok, r := Fail(); return; }
      ok, r := Grant();
      if !ok { return; }
      ok := false;
      o := h.Ask();
      if o == Killed { r := Cut; return; }
      if o != Done { ok, r := Fail(); return; }
      ok := true;
    }

    /** The grants that were asked for; none was live before. */
    method Grant() returns (ok: bool, r: Invitation)
      requires Shut(ManagedMark(plan.generation)) && !rec.pending && sudoRemovalConfirmed
      modifies this, h, h.breaches
      ensures Sound() && old(h.trace) <= h.trace && (!ok ==> r != Created && Ended(r))
      ensures ok ==> Shut(ManagedMark(plan.generation)) && !rec.pending && (h.s.sudo ==> plan.wantSudo)
    {
      hide Safe, LawfulBut, Retired, Fold, Tallied, NoneBack, Meanwhile, MatchesNow, Usable, Bears, Reachable,
        RowShape, Undone;
      ok, r := true, Cut;
      if plan.fixSSHD {
        ok, r := GrantException();
        if !ok { return; }
      }
      if plan.wantSudo {
        ok, r := GrantSudo();
      }
    }

    method GrantException() returns (ok: bool, r: Invitation)
      requires Shut(ManagedMark(plan.generation)) && !rec.pending
      modifies this, h, h.breaches
      ensures Sound() && old(h.trace) <= h.trace && (!ok ==> r != Created && Ended(r))
      ensures ok ==>
        Shut(ManagedMark(plan.generation)) && !rec.pending && rec == old(rec) && h.s.sudo == old(h.s).sudo &&
        sudoRemovalConfirmed == old(sudoRemovalConfirmed)
    {
      hide Safe, LawfulBut, Retired, Fold, Tallied, NoneBack, Meanwhile, MatchesNow, Usable, Bears, Reachable,
        RowShape, Undone;
      ok, r := false, Cut;
      sshdRemovalConfirmed := false;
      var o := h.GrantSSHD();
      if o == Killed { return; }
      if o != Done {
        o := ConfirmSSHDRemoved();
        if o == Killed { return; }
        ok, r := Fail();
        return;
      }
      cleanups := cleanups + [RemoveException];
      ok := true;
    }

    method Recheck() returns (o: Outcome)
      requires Building()
      modifies h
      ensures Building() && old(h.trace) <= h.trace && Steady(old(h.s), h.s) && o != NotDurable
      ensures o == Done ==> h.s.account == Some(pw)
    {
      hide Safe, LawfulBut, Retired, Fold, Tallied, NoneBack, Meanwhile, MatchesNow, Usable, Bears, Reachable, RowShape;
      o := LookTwice(h, pw);
    }

    /** The gate on deleting the account is closed before the grant can take any effect. */
    method GrantSudo() returns (ok: bool, r: Invitation)
      requires Shut(ManagedMark(plan.generation)) && !rec.pending
      modifies this, h, h.breaches
      ensures Sound() && old(h.trace) <= h.trace && (!ok ==> r != Created && Ended(r))
      ensures ok ==> Shut(ManagedMark(plan.generation)) && !rec.pending && rec == old(rec)
    {
      hide Safe, LawfulBut, Retired, Fold, Tallied, NoneBack, Meanwhile, MatchesNow, Usable, Bears, Reachable,
        RowShape, Undone;
      ok, r := false, Cut;
      sudoRemovalConfirmed := false;
      var o := h.GrantSudo();
      if o == Killed { return; }
      if o != Done {
        o := ConfirmSudoRemoved();
        if o == Killed { return; }
        ok, r := Fail();
        return;
      }
      cleanups := cleanups + [RemoveSudoFile];
      ok := true;
    }

    /** Everything about a usable account is on record before the login is opened. */
    method ScheduleActivateAndReport() returns (r: Invitation)
      requires Shut(ManagedMark(plan.generation)) && !rec.pending && (h.s.sudo ==> plan.wantSudo)
      modifies this, h, h.breaches
      ensures Sound() && old(h.trace) <= h.trace && Ended(r)
      ensures r == Created ==> OnRecord()
    {
      hide Safe, LawfulBut, Retired, Fold, Tallied, NoneBack, Meanwhile, MatchesNow, Usable, Bears, Reachable,
        RowShape, Undone;
      r := Cut;
      ghost var before := rec;
      rec := rec.(sudo := plan.wantSudo);
      ShapeKept(h.user, plan, before, rec);
      var o := RecordRow();
      if o == Killed { return; }
      var ok;
      if o != Done { ok, r := Fail(); return; }
      if plan.wantAuto {
        ok, r := ScheduleExpiry();
        if !ok { return; }
      }
      NoUnitYet(h.user, plan, rec);
      r := Activate();
    }

    /** The row an invite has promised its account by the time it can be used. */
    ghost predicate OnRecord()
      reads this, h
    {
      h.s.row == Some(rec) && rec.identityBound && !rec.pending && !rec.deletionStarted && rec.sudo == plan.wantSudo &&
      rec.generation == plan.generation && AccountID(rec.uid) && rec.autoRevoke == plan.wantAuto &&
      (h.s.sudo ==> rec.sudo) &&
      (plan.wantAuto ==> rec.autoUnit != "" && h.s.auto == Some((rec.uid, rec.generation)))
    }

    method ScheduleExpiry() returns (ok: bool, r: Invitation)
      requires Shut(ManagedMark(plan.generation)) && !rec.pending && (h.s.sudo ==> rec.sudo) && rec.sudo == plan.wantSudo
      modifies this, h, h.breaches
      ensures Sound() && old(h.trace) <= h.trace && (!ok ==> r != Created && Ended(r))
      ensures ok ==>
        Building() && cleanups != [] && Closed() && Bearing(rec.uid, ManagedMark(plan.generation)) &&
        h.s.row == Some(rec) && h.s.older == [] && !rec.pending && AccountID(rec.uid) && (h.s.sudo ==> rec.sudo) && rec.sudo == plan.wantSudo &&
        rec.autoUnit != "" && h.s.auto == Some((rec.uid, rec.generation))
    {
      hide Safe, LawfulBut, Retired, Fold, Tallied, NoneBack, Meanwhile, MatchesNow, Usable, Bears, Reachable,
        RowShape, Undone;
      ok, r := false, Cut;
      var o := h.Ask();
      if o == Killed { return; }
      if o != Done { ok, r := Fail(); return; }
      NoUnitYet(h.user, plan, rec);
      o := h.ScheduleAuto(pw.uid, plan.generation);
      if o == Killed { return; }
      if o != Done { ok, r := Fail(); return; }
      autoScheduled := true;
      var unit: string := *;
      ok, r := RecordUnit(if unit == "" then "at:1" else unit);
    }

    method RecordUnit(unit: string) returns (ok: bool, r: Invitation)
      requires Shut(ManagedMark(plan.generation)) && !rec.pending && (h.s.sudo ==> rec.sudo) && rec.sudo == plan.wantSudo
      requires unit != "" && h.s.auto == Some((rec.uid, rec.generation))
      modifies this, h, h.breaches
      ensures Sound() && old(h.trace) <= h.trace && (!ok ==> r != Created && Ended(r))
      ensures ok ==>
        Building() && cleanups != [] && Closed() && Bearing(rec.uid, ManagedMark(plan.generation)) &&
        h.s.row == Some(rec) && h.s.older == [] && !rec.pending && AccountID(rec.uid) && (h.s.sudo ==> rec.sudo) && rec.sudo == plan.wantSudo &&
        rec.autoUnit != "" && h.s.auto == Some((rec.uid, rec.generation))
    {
      hide Safe, LawfulBut, Retired, Fold, Tallied, NoneBack, Meanwhile, MatchesNow, Usable, Bears, Reachable,
        RowShape, Undone;
      ok, r := false, Cut;
      ghost var before := rec;
      rec := rec.(autoUnit := unit);
      ShapeKept(h.user, plan, before, rec);
      var o := RecordRow();
      if o == Killed { return; }
      if o != Done { ok, r := Fail(); return; }
      ok := true;
    }

    /** From here on the holder may have changed the entry. */
    method OpenLogin() returns (o: Outcome)
      requires Building() && cleanups != [] && Bearing(rec.uid, ManagedMark(plan.generation)) && OnRecord() &&
        h.s.older == []
      modifies this`loginActivationStarted, h
      ensures Valid() && Own() && old(h.trace) <= h.trace && o != NotDurable && OnRecord()
    {
      hide Safe, LawfulBut, Retired, Fold, Tallied, NoneBack, Meanwhile, MatchesNow, Usable, Bears, Reachable,
        RowShape, Hosts.Complete;
      loginActivationStarted := true;
      if !h.s.tampering { ReadyToOpen(h.s, rec, plan.generation); }
      o := OpenAndReport(h);
    }

    method Activate() returns (r: Invitation)
      requires Building() && cleanups != [] && Bearing(rec.uid, ManagedMark(plan.generation)) && OnRecord() &&
        h.s.older == []
      modifies this, h, h.breaches
      ensures Sound() && old(h.trace) <= h.trace && Ended(r)
      ensures r == Created ==> OnRecord()
    {
      hide Safe, LawfulBut, Retired, Fold, Tallied, NoneBack, Meanwhile, MatchesNow, Usable, Bears, Reachable,
        RowShape, Undone;
      r := Cut;
      var ok;
      var o := h.Ask();
      if o == Killed { return; }
      if o != Done { ok, r := Fail(); return; }
      o := OpenLogin();
      if o == Killed { return; }
      if o != Done { ok, r := Fail(); return; }
      r := Created;
    }

    /** A new run, with a generation nobody bears. */
    method Begin()
      requires h.Valid() && Fresh() && Username(h.user) && Port(plan.port) && Generation(plan.generation)
      requires h.s.account.Some? ==> !GenerationOf(h.s.account.value.marker, {plan.generation})
      modifies h
      ensures Valid() && Fresh() && RowShape(h.user, plan, rec) && Own() && old(h.trace) + [RunStarted] <= h.trace
    {
      hide Safe, LawfulBut, Retired, Fold, Meanwhile, MatchesNow, Usable, Bears, Reachable, GenerationOf;
      h.Note(RunStarted);
      h.Mint(plan.generation);
    }

    method RunPhases() returns (r: Invitation)
      requires h.Valid() && Fresh() && Username(h.user) && Port(plan.port) && Generation(plan.generation)
      requires h.s.account.Some? ==> !GenerationOf(h.s.account.value.marker, {plan.generation})
      modifies this, h, h.breaches
      ensures Sound() && old(h.trace) + [RunStarted] <= h.trace && Ended(r)
      ensures r == Created ==> OnRecord()
    {
      hide Safe, LawfulBut, Retired, Fold, Tallied, NoneBack, Meanwhile, MatchesNow, Usable, Bears, Reachable,
        GenerationOf, RowShape;
      Begin();
      var ok;
      ok, r := ClearReusedUsername();
      if !ok { return; }
      ok, r := ReserveAndCreatePendingIdentity();
      if !ok { return; }
      ok, r := DrainAndFinalizeIdentity();
      if !ok { return; }
      ok, r := InstallCredentialsAndGrants();
      if !ok { return; }
      r := ScheduleActivateAndReport();
    }

    /**
     One invite. At every step, and wherever it is killed, an account that can
     authenticate is completely on record; a failed one undoes what it did. A
     step without leave is taken exactly where the deletion of a vanished account
     found it back and outran its gates, so never without tampering.
     */
    method Run() returns (r: Invitation)
      requires h.Valid() && Fresh() && Username(h.user) && Port(plan.port) && Generation(plan.generation)
      requires h.s.account.Some? ==> !GenerationOf(h.s.account.value.marker, {plan.generation})
      modifies this, h, h.breaches
      ensures Sound() && old(h.trace) + [RunStarted] <= h.trace && Ended(r)
      ensures r == Created ==> OnRecord()
      ensures h.breaches.at == old(h.breaches.at) <==> AllGated(looks)
      ensures h.s.tampering || h.breaches.at == old(h.breaches.at)
    {
      hide Safe, LawfulBut, Retired, Fold, NoneBack, AllGated, Meanwhile, MatchesNow, Usable, Bears, Reachable,
        GenerationOf, RowShape;
      r := RunPhases();
      NothingOutran(before, h.breaches.at, looks);
    }
  }

  /** The login opens; the error of either step is reported, whatever took effect. */
  method OpenAndReport(h: Host) returns (o: Outcome)
    requires h.Valid() && (h.s.tampering || Hosts.Complete(h.s))
    modifies h
    ensures h.Valid() && old(h.trace) <= h.trace && o != NotDurable && SameRegistry(old(h.s), h.s)
    ensures h.s.sudo == old(h.s).sudo && h.s.sshd == old(h.s).sshd && h.s.auto == old(h.s).auto
    ensures h.s.minted == old(h.s).minted && h.s.tampering == old(h.s).tampering
    ensures h.seen.sudoGone == old(h.seen).sudoGone && h.seen.sshdGone == old(h.seen).sshdGone
  {
    hide Safe, LawfulBut, Retired, Fold, Meanwhile, MatchesNow, Usable, Bears, Reachable, Hosts.Complete, SameButLogin;
    o := h.ActivateLogin();
    LoginIsAllThatMoved(old(h.s), h.s);
    if o != Done { return; }
    o := h.Ask();
  }

  /** One probe and one exact look. */
  method AskAndLook(h: Host, expected: Passwd) returns (o: Outcome)
    requires h.Valid()
    modifies h
    ensures h.Valid() && old(h.trace) <= h.trace && Steady(old(h.s), h.s) && Keeps(old(h.seen), h.seen) &&
      o != NotDurable
    ensures o == Done ==> h.s.account == Some(expected)
  {
    hide Safe, LawfulBut, Retired, Fold, Meanwhile, Steady, Keeps;
    Unmoved(h.s, h.seen);
    o := h.Ask();
    if o != Done { return; }
    ghost var s1 := h.s;
    o := StillMatches(h, expected, true);
    SteadyOn(old(h.s), s1, h.s);
  }

  /** The account's entry, its Home and the entry again. */
  method LookTwice(h: Host, expected: Passwd) returns (o: Outcome)
    requires h.Valid()
    modifies h
    ensures h.Valid() && old(h.trace) <= h.trace && Steady(old(h.s), h.s) && Keeps(old(h.seen), h.seen) &&
      o != NotDurable
    ensures o == Done ==> h.s.account == Some(expected)
  {
    hide Safe, LawfulBut, Retired, Fold, Meanwhile, Steady, Keeps;
    o := AskAndLook(h, expected);
    if o != Done { return; }
    ghost var s1, seen1 := h.s, h.seen;
    o := AskAndLook(h, expected);
    SteadyOn(old(h.s), s1, h.s);
    KeepsOn(old(h.seen), seen1, h.seen);
  }

  /** Whatever still runs under the identity ends; only a fresh isolated one needs no drain. */
  method SettleIdentity(h: Host, pw: Passwd, isolated: bool) returns (o: Outcome)
    requires h.Valid()
    modifies h
    ensures h.Valid() && old(h.trace) <= h.trace && Steady(old(h.s), h.s) && Keeps(old(h.seen), h.seen) &&
      o != NotDurable
    ensures o == Done ==> h.s.account == Some(pw)
    ensures o == Done && old(h.seen).disabled ==> h.seen.passed && (isolated || h.seen.drained)
  {
    hide Safe, LawfulBut, Retired, Fold, Meanwhile, Steady;
    if isolated {
      o := QuiesceImmediate(h, pw, true);
    } else {
      o := Quiesce(h, pw, true);
    }
    if o != Done { return; }
    ghost var s1, seen1 := h.s, h.seen;
    o := h.Ask();
    SteadyOn(old(h.s), s1, h.s);
    if o != Done { return; }
    s1 := h.s;
    o := LookTwice(h, pw);
    SteadyOn(old(h.s), s1, h.s);
    KeepsOn(old(h.seen), seen1, h.seen);
  }

  /** The account is not there, and the jobs and mail of its name are asked after. */
  method LookGone(h: Host) returns (o: Outcome)
    requires h.Valid()
    modifies h
    ensures h.Valid() && old(h.trace) <= h.trace && Steady(old(h.s), h.s) && Keeps(old(h.seen), h.seen) &&
      o != NotDurable
  {
    hide Safe, LawfulBut, Retired, Fold, Meanwhile, Steady, Keeps;
    Unmoved(h.s, h.seen);
    var account;
    o, account := h.ReadAccount();
    if o != Done { return; }
    if account.Some? { return Outcome.Failed; }
    ghost var s1 := h.s;
    o := h.Ask();
    SteadyOn(old(h.s), s1, h.s);
  }

  /** The traces of an account that never appeared, under a deletion that names only its UID. */
  method SweepNothing(h: Host, uid: int) returns (o: Outcome)
    requires h.Valid() && (h.s.tampering || !Usable(h.s))
    modifies h
    ensures h.Valid() && old(h.trace) <= h.trace && SteadyButRow(old(h.s), h.s) && KeepsButDeadline(old(h.seen), h.seen)
    ensures o != NotDurable
  {
    hide Safe, LawfulBut, Retired, Fold, Meanwhile, Usable, MayBecome, RowNext, Steady, SteadyButRow;
    o := LookGone(h);
    ghost var s1 := h.s;
    SteadyButRowOn(old(h.s), s1, s1);
    if o != Done { return; }
    o := CommitWitness(h, uid, "");
    SteadyButRowOn(old(h.s), s1, h.s);
    if o == NotDurable { o := Outcome.Failed; }
    if o != Done { return; }
    s1 := h.s;
    var row;
    o, row := h.ReadRow();
    SteadyButRowOn(old(h.s), s1, h.s);
    if o != Done { return; }
    if row == None || !row.value.deletionStarted || !row.value.sequentialID || row.value.identityBound ||
      row.value.pending || row.value.uid != uid
    {
      return Outcome.Failed;
    }
    s1 := h.s;
    o := h.Ask();
    SteadyButRowOn(old(h.s), s1, h.s);
  }

  lemma UnreachableIsNotUsable(s: HostState)
    requires !Reachable(s)
    ensures !Usable(s)
  {
  }

  /** What is only displayed, or decided late, is no part of the shape. */
  lemma ShapeKept(user: string, plan: Plan, a: Row, b: Row)
    requires RowShape(user, plan, a)
    requires b == a.(created := b.created, expires := b.expires, sudo := b.sudo, autoUnit := b.autoUnit)
    ensures RowShape(user, plan, b)
  {
  }

  lemma CompletedShape(user: string, plan: Plan, r: Row)
    requires !r.pending && AccountID(r.uid) && RowShape(user, plan, r.(pending := true))
    ensures RowShape(user, plan, r)
  {
  }

  lemma NoUnitYet(user: string, plan: Plan, r: Row)
    requires RowShape(user, plan, r)
    ensures r.quarantineUntil == "" && r.generation == plan.generation && r.identityBound && !r.deletionStarted
    ensures r.autoRevoke == plan.wantAuto
  {
  }

  /** The row says everything that opening the login will make the account answerable for. */
  lemma ReadyToOpen(s: HostState, r: Row, generation: string)
    requires s.row == Some(r) && s.older == [] && Bears(s, r.uid, ManagedMark(generation)) && r.generation == generation
    requires r.identityBound && !r.pending && !r.deletionStarted && (s.sudo ==> r.sudo)
    requires r.autoRevoke ==> r.autoUnit != "" && s.auto == Some((r.uid, r.generation))
    ensures Hosts.Complete(s)
  {
  }

  lemma PendingNeedsNothing(user: string, plan: Plan, s: HostState, r: Row)
    requires RowShape(user, plan, r) && r.pending
    ensures TasksFor(r, s.auto, s.finalizer)
  {
  }

  lemma ReservedShape(user: string, plan: Plan, r: Row)
    requires AccountID(r.uid) && r.sequentialID && RowShape(user, plan, r.(uid := 0, sequentialID := false))
    ensures RowShape(user, plan, r)
  {
  }

  lemma OwnRowMayBe(user: string, plan: Plan, s: HostState, r: Row)
    requires RowShape(user, plan, r) && (s.tampering || !Usable(s)) && Safe(user, s)
    requires s.row.Some? ==> !Needy(s.row.value)
    requires r.autoUnit != "" && !r.pending ==> s.auto == Some((r.uid, r.generation))
    ensures MayBecome(user, s, Some(r))
    ensures var c := RowNext(s.row, Record(r)); c == Refuse || c == Become(Some(r))
  {
    ShapeIsValid(user, plan, r);
  }

  /** The fields of an invite's row that its validity hangs on. */
  predicate RowShape(user: string, plan: Plan, r: Row) {
    r.user == user && Username(user) && Port(r.port) && Generation(r.generation) && r.generation == plan.generation &&
    r.identityBound && !r.deletionStarted && r.quarantineUntil == "" && r.quarantineUnit == "" &&
    (r.uid == 0 || AccountID(r.uid)) && (r.sequentialID ==> AccountID(r.uid)) && (!r.pending ==> AccountID(r.uid)) &&
    r.autoRevoke == plan.wantAuto
  }

  lemma ShapeIsValid(user: string, plan: Plan, r: Row)
    requires RowShape(user, plan, r)
    ensures ValidRow(r)
  {
  }

  lemma NobodyThere(s: HostState)
    ensures s.account == None ==> Bears(s, 0, NoMarker) && !Usable(s) && !MatchesNow(s)
  {
  }

  lemma NobodyIsNotUsable(s: HostState)
    requires Bears(s, 0, NoMarker)
    ensures !Usable(s)
  {
  }

  lemma MintedHere(m: Marker, generation: string, minted: set<string>)
    requires GenerationOf(m, {generation}) && generation in minted
    ensures GenerationOf(m, minted)
  {
  }
}
