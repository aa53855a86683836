/**
 The calls a revoke or an invite makes on the host, each with every outcome it
 can have: success, an error with or without its effect, or a kill.
 */
module Hosts {
  import opened Wrappers
  import opened Storage
  import opened Records
  import opened Transitions
  import opened Sequences
  import opened Lifecycle

  /** Where a history has removed a Home or an account without leave. */
  class Breaches {
    ghost var at: set<nat>

    constructor ()
      ensures at == {}
    {
      at := {};
    }
  }

  /**
   `atRisk`: the host was found with a row that may come back without its task.
   `tampered`: somebody forges identities or opens logins on it.
   */
  class Host {
    const user: string
    const atRisk: bool
    const tampered: bool
    const breaches: Breaches
    var s: HostState
    ghost var trace: seq<Event>
    ghost var seen: Seen

    ghost predicate Valid()
      reads this, breaches
    {
      Safe(user, s) && LawfulBut(trace, breaches.at) && seen == Fold(trace) && seen.now <= s.clock &&
      s.tampering == tampered &&
      (!s.tampering && seen.disabled ==> !Reachable(s) && !Usable(s)) &&
      (s.exposed || s.stranded ==> atRisk || Retired(trace))
    }

    constructor (user: string, s: HostState)
      requires Safe(user, s) && s.clock >= 0
      ensures this.user == user && this.s == s && trace == [] && Valid()
      ensures atRisk == (s.exposed || s.stranded) && tampered == s.tampering && fresh(breaches) && breaches.at == {}
    {
      this.user, this.s, atRisk, tampered := user, s, s.exposed || s.stranded, s.tampering;
      trace, seen := [], NOTHING;
      breaches := new Breaches();
    }

    ghost method Emit(e: Event)
      requires Valid() && Allowed(seen, e)
      requires e.LoginDisabled? && !s.tampering ==> !Reachable(s) && !Usable(s)
      requires e.ClockRead? ==> e.t <= s.clock
      modifies this`trace, this`seen
      ensures Valid() && trace == old(trace) + [e] && seen == Next(old(seen), e)
    {
      hide Safe, LawfulBut, Allowed, Fold;
      LawfulOn(trace, breaches.at, e);
      FoldOn(trace, e);
      assert breaches.at + {} == breaches.at;
      RetiredOn(trace, e);
      trace := trace + [e];
      seen := Next(seen, e);
    }

    /** An event that asks for nothing. */
    ghost method Note(e: Event)
      requires Valid() && Unconditional(e)
      requires e.LoginDisabled? && !s.tampering ==> !Reachable(s) && !Usable(s)
      modifies this`trace, this`seen
      ensures Valid() && trace == old(trace) + [e] && seen == Next(old(seen), e)
    {
      Emit(e);
    }

    /** A destructive step is taken whether or not it is permitted. */
    ghost method EmitUngated(e: Event)
      requires Valid() && (e == HomeRemoval || e == Event.Userdel)
      modifies this`trace, this`seen, breaches
      ensures Valid() && trace == old(trace) + [e] && seen == old(seen)
      ensures breaches.at == old(breaches.at) + if Allowed(old(seen), e) then {} else {|old(trace)|}
      ensures |old(trace)| !in old(breaches.at)
    {
      hide Safe, LawfulBut, Allowed, Fold;
      LawfulOn(trace, breaches.at, e);
      FoldOn(trace, e);
      RetiredOn(trace, e);
      breaches.at := breaches.at + if Allowed(seen, e) then {} else {|trace|};
      trace := trace + [e];
    }

    method Elapse()
      requires Valid()
      modifies this`s
      ensures Valid() && Meanwhile(old(s), s) && Steady(old(s), s)
    {
      hide ValidRow, Matches;
      assert Meanwhile(s, s);
      var s' :| Meanwhile(s, s');
      MeanwhileIsSafe(user, s, s');
      MeanwhileIsSteady(s, s');
      s := s';
    }

    /** A probe or helper whose result this model leaves open; it changes nothing of the state. */
    method Ask() returns (o: Outcome)
      requires Valid()
      modifies this`s
      ensures Valid() && Meanwhile(old(s), s) && Steady(old(s), s) && o != NotDurable
    {
      Elapse();
      o :| o in {Done, Failed, Killed};
    }

    method ReadRow() returns (o: Outcome, row: Option<Row>)
      requires Valid()
      modifies this
      ensures Valid() && Meanwhile(old(s), s) && Steady(old(s), s) && old(trace) <= trace && o != NotDurable
      ensures row == s.row && seen == if o == Done then Next(old(seen), RowRead(row, s.handoff)) else old(seen)
    {
      hide Safe, Usable, Reachable, Bears, MatchesNow, Meanwhile, LawfulBut, Retired, Fold;
      o := Ask();
      row := s.row;
      RowFits(user, s);
      if o == Done { Emit(RowRead(row, s.handoff)); }
    }

    method ReadAccount() returns (o: Outcome, pw: Option<Passwd>)
      requires Valid()
      modifies this
      ensures Valid() && Meanwhile(old(s), s) && Steady(old(s), s) && old(trace) <= trace && o != NotDurable
      ensures pw == s.account && seen == if o == Done then Next(old(seen), AccountRead(pw)) else old(seen)
      ensures Keeps(old(seen), seen) && (o == Done ==> seen.account == Some(pw))
    {
      hide Safe, Usable, Reachable, Bears, MatchesNow, Meanwhile, LawfulBut, Retired, Fold;
      o := Ask();
      pw := s.account;
      if o == Done { Note(AccountRead(pw)); }
    }

    method ReadClock() returns (t: int)
      requires Valid()
      modifies this
      ensures Valid() && Meanwhile(old(s), s) && Steady(old(s), s) && old(trace) <= trace && t == s.clock &&
        seen == Next(old(seen), ClockRead(t))
    {
      hide Safe, Usable, Reachable, Bears, MatchesNow, Meanwhile, LawfulBut, Retired, Fold;
      Elapse();
      t := s.clock;
      Emit(ClockRead(t));
    }

    method RemoveSudoGrant() returns (o: Outcome)
      requires Valid()
      modifies this
      ensures Drift(old(s), s) && SameRegistry(old(s), s) && s.sshd == old(s).sshd && s.auto == old(s).auto &&
        s.finalizer == old(s).finalizer
      ensures Valid() && (s.sudo ==> old(s).sudo)
      ensures old(trace) <= trace && o != NotDurable
      ensures o == Done ==> !s.sudo
      ensures seen == if o == Done then Next(old(seen), SudoRemoved) else old(seen)
    {
      hide Safe, Usable, Reachable, LawfulBut, Retired, Fold, Next, Meanwhile, Bears, MatchesNow, MatchesRow,
        Drift, Steady, SteadyButRow, SameRegistry, Carrying, Allowed;
      ghost var s0 := s;
      o := Ask();
      var effective := *;
      SudoMayGo(user, s);
      var left := if o == Done || effective then false else s.sudo;
      Carries(user, s, left, s.sshd, s.auto, s.finalizer);
      Touched(s0, s, left, s.sshd, s.auto, s.finalizer);
      s := Carrying(s, left, s.sshd, s.auto, s.finalizer);
      if o == Done { Note(SudoRemoved); }
    }

    method RemoveSSHDException() returns (o: Outcome)
      requires Valid()
      modifies this
      ensures Drift(old(s), s) && SameRegistry(old(s), s) && s.sudo == old(s).sudo && s.auto == old(s).auto &&
        s.finalizer == old(s).finalizer
      ensures Valid() && (s.sshd ==> old(s).sshd)
      ensures old(trace) <= trace && o != NotDurable
      ensures o == Done ==> !s.sshd
      ensures seen == if o == Done then Next(old(seen), SSHDRemoved) else old(seen)
    {
      hide Safe, Usable, Reachable, LawfulBut, Retired, Fold, Next, Meanwhile, Bears, MatchesNow, MatchesRow,
        Drift, Steady, SteadyButRow, SameRegistry, Carrying, Allowed;
      ghost var s0 := s;
      o := Ask();
      var effective := *;
      var left := if o == Done || effective then false else s.sshd;
      SSHDMayChange(user, s, left);
      Carries(user, s, s.sudo, left, s.auto, s.finalizer);
      Touched(s0, s, s.sudo, left, s.auto, s.finalizer);
      s := Carrying(s, s.sudo, left, s.auto, s.finalizer);
      if o == Done { Note(SSHDRemoved); }
    }

    method GrantSudo() returns (o: Outcome)
      requires Valid() && (s.tampering || !Usable(s))
      modifies this
      ensures Drift(old(s), s) && SameRegistry(old(s), s) && s.sshd == old(s).sshd && s.auto == old(s).auto &&
        s.finalizer == old(s).finalizer
      ensures Valid() && old(trace) <= trace && o != NotDurable
      ensures o == Done ==> s.sudo
      ensures seen == Next(old(seen), SudoGranting)
    {
      hide Safe, Usable, Reachable, LawfulBut, Retired, Fold, Next, Meanwhile, Bears, MatchesNow, MatchesRow,
        Drift, Steady, SteadyButRow, SameRegistry, Carrying, Allowed;
      Note(SudoGranting);
      ghost var s0 := s;
      o := Ask();
      var effective := *;
      StaysUnusable(s0, s);
      SudoMayCome(user, s);
      var left := if o == Done || effective then true else s.sudo;
      Carries(user, s, left, s.sshd, s.auto, s.finalizer);
      Touched(s0, s, left, s.sshd, s.auto, s.finalizer);
      s := Carrying(s, left, s.sshd, s.auto, s.finalizer);
    }

    method GrantSSHD() returns (o: Outcome)
      requires Valid()
      modifies this
      ensures Drift(old(s), s) && SameRegistry(old(s), s) && s.sudo == old(s).sudo && s.auto == old(s).auto &&
        s.finalizer == old(s).finalizer
      ensures Valid() && old(trace) <= trace && o != NotDurable
      ensures seen == Next(old(seen), SSHDGranting)
    {
      hide Safe, Usable, Reachable, LawfulBut, Retired, Fold, Next, Meanwhile, Bears, MatchesNow, MatchesRow,
        Drift, Steady, SteadyButRow, SameRegistry, Carrying, Allowed;
      Note(SSHDGranting);
      ghost var s0 := s;
      o := Ask();
      var effective := *;
      var left := if o == Done || effective then true else s.sshd;
      SSHDMayChange(user, s, left);
      Carries(user, s, s.sudo, left, s.auto, s.finalizer);
      Touched(s0, s, s.sudo, left, s.auto, s.finalizer);
      s := Carrying(s, s.sudo, left, s.auto, s.finalizer);
    }

    /** Expiry and password lock; only both together count. */
    method DisableLogin() returns (o: Outcome)
      requires Valid()
      modifies this
      ensures Valid() && Meanwhile(old(s), s) && Steady(old(s), s) && old(trace) <= trace && o != NotDurable
      ensures o == Done ==> s.tampering || !Reachable(s)
      ensures seen == if o == Done then Next(old(seen), LoginDisabled) else old(seen)
      ensures Keeps(old(seen), seen) && (o == Done ==> seen.disabled)
    {
      hide Safe, Usable, LawfulBut, Retired, Fold;
      ghost var s0 := s;
      o := Ask();
      var effective := *;
      LoginMayClose(user, s);
      ghost var s1 := s;
      if o == Done || effective { s := s.(open := false); }
      ClosedMeanwhile(s0, s1);
      MeanwhileIsSteady(s0, s);
      if o == Done { Note(LoginDisabled); }
    }

    /** The last step of an invite; it may take effect and still report an error. */
    method ActivateLogin() returns (o: Outcome)
      requires Valid() && (s.tampering || Complete(s))
      modifies this
      ensures Valid() && old(trace) <= trace && o != NotDurable && seen == Next(old(seen), LoginActivating)
      ensures SameButLogin(old(s), s)
    {
      hide ValidRow, Matches, LawfulBut, Retired, Fold, GenerationOf, Safe, Usable, Reachable, Bears, MatchesNow,
        Complete;
      ghost var s0 := s;
      Note(LoginActivating);
      o := Ask();
      var effective := *;
      if o == Done || effective {
        OpeningIsSafe(user, s0, s);
        s := s.(open := true);
      }
    }

    method TerminateProcesses() returns (o: Outcome)
      requires Valid()
      modifies this
      ensures Valid() && Meanwhile(old(s), s) && Steady(old(s), s) && old(trace) <= trace && o != NotDurable
      ensures seen == if o == Done then Next(old(seen), ProcessesTerminated) else old(seen)
      ensures Keeps(old(seen), seen) && (o == Done && seen.disabled ==> seen.terminated)
    {
      hide Safe, Usable, Reachable, Bears, MatchesNow, Meanwhile, LawfulBut, Retired, Fold;
      o := Ask();
      if o == Done { Note(ProcessesTerminated); }
    }

    method ClearJobs() returns (o: Outcome)
      requires Valid()
      modifies this
      ensures Valid() && Meanwhile(old(s), s) && Steady(old(s), s) && old(trace) <= trace && o != NotDurable
      ensures seen == if o == Done then Next(old(seen), JobsCleared) else old(seen)
      ensures Keeps(old(seen), seen) && (o == Done && seen.terminated ==> seen.passed)
    {
      hide Safe, Usable, Reachable, Bears, MatchesNow, Meanwhile, LawfulBut, Retired, Fold;
      o := Ask();
      if o == Done { Note(JobsCleared); }
    }

    method DrainJobs() returns (o: Outcome)
      requires Valid()
      modifies this
      ensures Valid() && Meanwhile(old(s), s) && Steady(old(s), s) && old(trace) <= trace && o != NotDurable
      ensures seen == if o == Done then Next(old(seen), JobsDrained) else old(seen)
      ensures Keeps(old(seen), seen) && (o == Done && seen.disabled ==> seen.drained)
    {
      hide Safe, Usable, Reachable, Bears, MatchesNow, Meanwhile, LawfulBut, Retired, Fold;
      o := Ask();
      if o == Done { Note(JobsDrained); }
    }

    /** Owner-checked removal of the Home tree. */
    method RemoveHome() returns (o: Outcome)
      requires Valid()
      modifies this, breaches
      ensures Valid() && Meanwhile(old(s), s) && Steady(old(s), s) && old(trace) <= trace && o != NotDurable
      ensures seen == old(seen)
      ensures breaches.at == old(breaches.at) + if MayDestroy(old(seen)) then {} else {|old(trace)|}
      ensures !MayDestroy(old(seen)) ==> Breached(old(breaches.at), breaches.at, trace, HomeRemoval)
    {
      hide Safe, LawfulBut, Retired, Fold, Usable, Reachable, Meanwhile, Bears, MatchesNow;
      EmitUngated(HomeRemoval);
      o := Ask();
    }

    /** By name: whoever holds the name now may be removed, whatever the helper says. */
    method Userdel() returns (o: Outcome)
      requires Valid()
      modifies this, breaches
      ensures Valid() && Meanwhile(old(s), s) && Steady(old(s), s) && old(trace) <= trace && o != NotDurable
      ensures seen == old(seen)
      ensures breaches.at == old(breaches.at) + if Allowed(old(seen), Event.Userdel) then {} else {|old(trace)|}
      ensures !Allowed(old(seen), Event.Userdel) ==> Breached(old(breaches.at), breaches.at, trace, Event.Userdel)
    {
      hide Safe, Usable, LawfulBut, Retired, Fold;
      ghost var s0 := s;
      EmitUngated(Event.Userdel);
      o := Ask();
      var effective := *;
      AccountMayGo(user, s);
      GoneMeanwhile(s0, s);
      if effective { s := s.(account := None); }
      MeanwhileIsSteady(s0, s);
    }

    /**
     One registry mutation of this name's row. NotDurable is visible all the same,
     and what it replaced may come back.
     */
    method Commit(m: Mutation) returns (o: Outcome)
      requires Valid() && !m.Compact?
      requires RowNext(s.row, m).Become? ==> MayBecome(user, s, RowNext(s.row, m).row)
      modifies this
      ensures Valid() && old(trace) <= trace && seen == old(seen)
      ensures o == Done ==> RowNext(old(s).row, m) != Refuse
      ensures o == NotDurable ==> RowNext(old(s).row, m).Become?
      ensures SteadyButRow(old(s), s) && Committed(old(s), RowNext(old(s).row, m), o, s)
    {
      hide Safe, Usable, LawfulBut, Retired, Fold, RowNext, MayBecome, Meanwhile, MatchesNow, Bears, Reachable,
        Steady, SteadyButRow, AfterWrite;
      ghost var s0 := s;
      o := Ask();
      SteadyKeepsRegistry(s0, s);
      var c := RowNext(s.row, m);
      if c == Refuse { o := if o == Done then Failed else o; return; }
      if o == Failed || c == Keep { return; }
      var synced := *;
      if o == Killed {
        var effective := *;
        if !effective { return; }
      } else if !synced {
        o := NotDurable;
      }
      BecomesSafely(user, s0, s, c.row, synced);
      WriteIsQuiet(s0, s, c.row, synced);
      s := AfterWrite(s, c.row, synced);
    }

    /** Lets the row go: the last step, once nothing of the account is left. */
    method ReleaseRow(m: Mutation) returns (o: Outcome)
      requires Valid() && (m.Remove? || m.FinishDeletion?) && m.user == user
      requires Allowed(seen, RowRelease) && (s.tampering || (!Usable(s) && !MatchesNow(s)))
      modifies this
      ensures Valid() && old(trace) <= trace && seen == old(seen)
      ensures SteadyButRow(old(s), s) && Committed(old(s), RowNext(old(s).row, m), o, s)
      ensures s.row == old(s).row || s.row == None
      ensures o == Done && RowNext(old(s).row, m) == Become(None) ==> s.row == None
    {
      Emit(RowRelease);
      o := Commit(m);
    }

    /** Records that the expiry task is to go, and whether the row that replaces it is synced. */
    method NoteRetirement(synced: bool)
      requires Valid()
      modifies this
      ensures Valid() && old(trace) <= trace && seen == old(seen)
      ensures s == old(s).(exposed := old(s).exposed || !synced)
      ensures trace == old(trace) + [ExpiryRetired(synced)]
    {
      hide LawfulBut, Retired, Fold, Matches, ValidRow, DeadlineKept, Allowed;
      PermittedAnyway(seen, synced);
      RetiredOn(trace, ExpiryRetired(synced));
      Note(ExpiryRetired(synced));
      s := s.(exposed := s.exposed || !synced);
    }

    /** The machine goes down and comes back with one of the rows it may have kept. */
    method LosePower()
      requires Valid()
      modifies this
      ensures Valid() && old(trace) <= trace && (Retired(trace) <==> Retired(old(trace)))
      ensures PowerFailed(old(s), s)
    {
      hide LawfulBut, Fold, Retired, Safe, Meanwhile, AfterPowerLoss, Usable, Reachable, Bears, MatchesNow;
      Elapse();
      assert Meanwhile(old(s), s);
      RetiredOn(trace, PowerLost);
      Note(PowerLost);
      ghost var was := s;
      var back := Slot(s.row, s.handoff);
      if s.older != [] {
        var i: nat :| i < |s.older|;
        var keep := *;
        if !keep { back := s.older[i]; }
      }
      PowerLossIsSafe(user, s, back);
      PowerLossKeepsLogin(s, back);
      s := AfterPowerLoss(s, back);
      assert CameBack(was, back, s);
    }

    /** `unit`: the recorded expiry unit must not be on the row yet. */
    method ScheduleAuto(uid: int, generation: string) returns (o: Outcome)
      requires Valid()
      requires s.tampering || (!Usable(s) && (s.row.Some? ==> s.row.value.autoUnit == "" && s.row.value.quarantineUntil == ""))
      modifies this
      ensures Drift(old(s), s) && SameRegistry(old(s), s) && s.sudo == old(s).sudo && s.sshd == old(s).sshd &&
        s.finalizer == old(s).finalizer
      ensures Valid() && old(trace) <= trace && o != NotDurable
      ensures seen == old(seen) && (o == Done ==> s.auto == Some((uid, generation)))
    {
      hide Safe, Usable, Reachable, LawfulBut, Retired, Fold, Next, Meanwhile, Bears, MatchesNow, MatchesRow,
        Drift, Steady, SteadyButRow, SameRegistry, Carrying, Allowed;
      ghost var s0 := s;
      o := Ask();
      var effective := *;
      var left: Task := if o == Done || effective then Some((uid, generation)) else s.auto;
      var lost := *;
      if o != Done && lost { left := None; }
      StaysUnusable(s0, s);
      AutoIsFree(user, s, left);
      Carries(user, s, s.sudo, s.sshd, left, s.finalizer);
      Touched(s0, s, s.sudo, s.sshd, left, s.finalizer);
      s := Carrying(s, s.sudo, s.sshd, left, s.finalizer);
    }

    /** A failed attempt may leave the old unit, the new one or none. */
    method ScheduleQuarantine(uid: int, generation: string) returns (o: Outcome)
      requires Valid()
      requires s.tampering || (s.row.Some? ==> s.row.value.quarantineUntil == "")
      modifies this
      ensures Drift(old(s), s) && SameRegistry(old(s), s) && s.sudo == old(s).sudo && s.sshd == old(s).sshd &&
        s.auto == old(s).auto
      ensures Valid() && old(trace) <= trace && o != NotDurable
      ensures seen == old(seen) && (o == Done ==> s.finalizer == Some((uid, generation)))
    {
      hide Safe, Usable, Reachable, LawfulBut, Retired, Fold, Next, Meanwhile, Bears, MatchesNow, MatchesRow,
        Drift, Steady, SteadyButRow, SameRegistry, Carrying, Allowed;
      ghost var s0 := s;
      o := Ask();
      var effective := *;
      var left: Task := if o == Done || effective then Some((uid, generation)) else s.finalizer;
      var lost := *;
      if o != Done && lost { left := None; }
      StaysUnusable(s0, s);
      FinalizerIsFree(user, s, left);
      Carries(user, s, s.sudo, s.sshd, s.auto, left);
      Touched(s0, s, s.sudo, s.sshd, s.auto, left);
      s := Carrying(s, s.sudo, s.sshd, s.auto, left);
    }

    /** A fresh random generation; 128 bits, so nobody bears it yet. */
    method Mint(generation: string)
      requires Valid() && (s.account.Some? ==> !GenerationOf(s.account.value.marker, {generation}))
      modifies this
      ensures Valid() && old(trace) <= trace && seen == old(seen) &&
        s == old(s).(minted := old(s).minted + {generation})
    {
      hide LawfulBut, Retired, Fold, Matches, ValidRow, Meanwhile;
      s := s.(minted := s.minted + {generation});
    }

    /**
     useradd under a reserved UID, with the pending marker. It may have run
     without leaving an account, or left one and then failed.
     */
    method CreatePendingAccount(uid: int, generation: string) returns (o: Outcome, ran: bool, pw: Option<Passwd>)
      requires Valid() && (s.tampering || (Bears(s, 0, NoMarker) && s.older == []))
      requires s.row.Some? && TasksFor(s.row.value, s.auto, s.finalizer)
      modifies this
      ensures Valid() && old(trace) <= trace && seen == Next(old(seen), AccountCreating) && o != NotDurable &&
        SameButLogin(old(s), s)
      ensures s.tampering || (!Usable(s) && Bears(s, uid, PendingMark(generation)))
      ensures pw.Some? ==> pw.value.uid == uid && pw.value.marker == PendingMark(generation)
      ensures o == Done ==> pw.Some?
      ensures pw == None && o == Failed && !ran ==> s.tampering || Bears(s, 0, NoMarker)
    {
      hide Safe, LawfulBut, Retired, Fold, ValidRow, Matches;
      ghost var s0 := s;
      Note(AccountCreating);
      o := Ask();
      if !s0.tampering { NobodyComes(s0, s, uid, PendingMark(generation)); }
      ran, pw := *, None;
      if s.account.Some? {
        if o == Done { o := Failed; }
        return;
      }
      var look := *;
      var made := Passwd(uid, uid, "/home/" + user, true, PendingMark(generation), true, look);
      var effective := *;
      if o == Done || (ran && effective) {
        CreationIsSafe(user, s, made);
        s := s.(account := Some(made), open := true, credential := false);
        ran := true;
        var proved := *;
        if o == Done || proved { pw := Some(made); }
      }
    }

    /** The pending marker becomes the managed one, on exactly the expected entry. */
    method MarkManaged(expected: Passwd, generation: string) returns (o: Outcome, pw: Passwd)
      requires Valid() && (s.tampering || (!Reachable(s) && s.older == [])) && expected.marker == PendingMark(generation)
      requires s.row.Some? && TasksFor(s.row.value, s.auto, s.finalizer)
      modifies this
      ensures Valid() && old(trace) <= trace && seen == old(seen) && o != NotDurable && SameButLogin(old(s), s)
      ensures s.tampering || !Reachable(s)
      ensures pw == expected.(marker := ManagedMark(generation))
      ensures o == Done ==> s.tampering || Bears(s, expected.uid, ManagedMark(generation))
    {
      hide Safe, LawfulBut, Retired, Fold, ValidRow, Matches;
      o := Ask();
      pw := expected.(marker := ManagedMark(generation));
      var effective := *;
      if s.account != Some(expected) {
        if o == Done { o := Failed; }
        return;
      }
      if o == Done || effective {
        MarkingIsSafe(user, s, pw);
        s := s.(account := Some(pw));
      }
    }

    /** The key or password; the account's expiry still keeps it from being used. */
    method InstallCredential() returns (o: Outcome)
      requires Valid() && (s.tampering || !Reachable(s))
      modifies this
      ensures Valid() && Steady(old(s), s) && old(trace) <= trace && seen == old(seen) && o != NotDurable
    {
      hide Safe, LawfulBut, Retired, Fold, ValidRow, Matches, GenerationOf;
      o := Ask();
      var effective := *;
      if o == Done || effective {
        CredentialIsSafe(user, s);
        s := s.(credential := true);
      }
    }

    /** Fixes the instant the recorded deadline will be counted from. */
    method HandOff(t: int)
      requires Valid() && t == seen.now && seen.disabled && seen.passed
      requires s.row.Some? ==> s.row.value.quarantineUntil == ""
      modifies this
      ensures Valid() && old(trace) <= trace && seen == old(seen) && s == old(s).(handoff := t)
    {
      hide LawfulBut, Retired, Fold, Matches, GenerationOf, ValidRow;
      Emit(HandedOff(QuarantineDeadline(t)));
      s := s.(handoff := t);
    }

    method CancelAuto() returns (o: Outcome)
      requires Valid() && Safe(user, s.(auto := None))
      modifies this
      ensures Drift(old(s), s) && SameRegistry(old(s), s) && s.sudo == old(s).sudo && s.sshd == old(s).sshd &&
        s.finalizer == old(s).finalizer
      ensures Valid() && old(trace) <= trace && o != NotDurable
      ensures seen == old(seen) && (s.auto == old(s).auto || s.auto == None) && (o == Done ==> s.auto == None)
    {
      hide Safe, Usable, Reachable, LawfulBut, Retired, Fold, Next, Meanwhile, Bears, MatchesNow, MatchesRow,
        Drift, Steady, SteadyButRow, SameRegistry, Carrying, Allowed;
      ghost var s0 := s;
      o := Ask();
      var effective := *;
      TasksMayGo(user, s0, s);
      var left: Task := if o == Done || effective then None else s.auto;
      Touched(s0, s, s.sudo, s.sshd, left, s.finalizer);
      s := Carrying(s, s.sudo, s.sshd, left, s.finalizer);
    }

    method CancelQuarantine() returns (o: Outcome)
      requires Valid() && Safe(user, s.(finalizer := None))
      modifies this
      ensures Drift(old(s), s) && SameRegistry(old(s), s) && s.sudo == old(s).sudo && s.sshd == old(s).sshd &&
        s.auto == old(s).auto
      ensures Valid() && old(trace) <= trace && o != NotDurable
      ensures seen == old(seen) && (s.finalizer == old(s).finalizer || s.finalizer == None)
      ensures o == Done ==> s.finalizer == None
    {
      hide Safe, Usable, Reachable, LawfulBut, Retired, Fold, Next, Meanwhile, Bears, MatchesNow, MatchesRow,
        Drift, Steady, SteadyButRow, SameRegistry, Carrying, Allowed;
      ghost var s0 := s;
      o := Ask();
      var effective := *;
      TasksMayGo(user, s0, s);
      var left: Task := if o == Done || effective then None else s.finalizer;
      Touched(s0, s, s.sudo, s.sshd, s.auto, left);
      s := Carrying(s, s.sudo, s.sshd, s.auto, left);
    }
  }

  /** Among the steps taken since without leave there is such an event. */
  ghost predicate Breached(before: set<nat>, after: set<nat>, trace: seq<Event>, e: Event) {
    before <= after && exists i :: i in after && i !in before && i < |trace| && trace[i] == e
  }

  lemma BreachedOn(before: set<nat>, after: set<nat>, trace: seq<Event>, more: set<nat>, longer: seq<Event>, e: Event)
    requires Breached(before, after, trace, e) && after <= more && trace <= longer
    ensures Breached(before, more, longer, e)
  {
    var i :| i in after && i !in before && i < |trace| && trace[i] == e;
    assert longer[i] == e;
  }

  /** Some expiry task was given up behind a row that was not synced. */
  predicate Retired(trace: seq<Event>) { ExpiryRetired(false) in trace }

  lemma RetiredOn(trace: seq<Event>, e: Event)
    ensures Retired(trace + [e]) <==> Retired(trace) || e == ExpiryRetired(false)
  {
  }

  predicate Unconditional(e: Event) {
    !e.RowRead? && !e.ClockRead? && !e.HomeRemoval? && !e.Userdel? && !e.HandedOff? && !e.RowRelease?
  }

  /** One of the rows came back, whatever happened to the account before. */
  ghost predicate PowerFailed(a: HostState, b: HostState) {
    exists was, back :: Meanwhile(a, was) && CameBack(was, back, b)
  }

  predicate CameBack(was: HostState, back: Slot, b: HostState) {
    (back in was.older || back == Slot(was.row, was.handoff)) && b == AfterPowerLoss(was, back)
  }

  /** What a commit leaves of the rows, by its outcome. */
  predicate Committed(a: HostState, c: RowChange, o: Outcome, b: HostState) {
    var kept := a.older + [Slot(a.row, a.handoff)];
    if c.Become? && o == Done then b.row == c.row && b.older == [] && !b.exposed
    else if c.Become? && o == NotDurable then b.row == c.row && b.older == kept
    else SameRegistry(a, b) || (c.Become? && o == Killed && b.row == c.row && (b.older == [] || b.older == kept))
  }

  /** The rows, and whether their tasks are at risk, are as they were. */
  predicate SameRegistry(a: HostState, b: HostState) {
    b.row == a.row && b.older == a.older && b.exposed == a.exposed && b.stranded == a.stranded
  }

  lemma RowFits(user: string, s: HostState)
    requires Safe(user, s)
    ensures DeadlineOf(s.row) == None || DeadlineFits(DeadlineOf(s.row), s.handoff)
  {
  }

  lemma PermittedAnyway(seen: Seen, synced: bool)
    ensures Allowed(seen, ExpiryRetired(synced)) && Next(seen, ExpiryRetired(synced)) == seen
  {
  }

  lemma SteadyKeepsRegistry(a: HostState, b: HostState)
    requires Steady(a, b)
    ensures SameRegistry(a, b)
  {
    hide Drift;
  }

  /** A row change moves nothing else. */
  lemma WriteIsQuiet(a: HostState, b: HostState, row: Option<Row>, synced: bool)
    requires Meanwhile(a, b) && Steady(a, b)
    ensures var s := AfterWrite(b, row, synced);
      SteadyButRow(a, s) && s.clock == b.clock && s.tampering == b.tampering && s.row == row &&
      s.older == (if synced then [] else a.older + [Slot(a.row, a.handoff)]) && (synced ==> !s.exposed) &&
      Usable(s) == Usable(b) && Reachable(s) == Reachable(b) &&
      (s.exposed || s.stranded ==> b.exposed || b.stranded)
  {
    hide Matches, GenerationOf, Meanwhile, Needy, TasksFor;
    var s := AfterWrite(b, row, synced);
    forall uid, marker | Bears(a, uid, marker) ensures s.tampering || Bears(s, uid, marker) {
      assert b.tampering || Bears(b, uid, marker);
    }
    WriteMatchesLess(a, b, s);
  }

  lemma WriteMatchesLess(a: HostState, b: HostState, s: HostState)
    requires Steady(a, b) && s.account == b.account && s.reserved == b.reserved && s.tampering == b.tampering
    ensures s.row == a.row && !MatchesNow(a) ==> s.tampering || !MatchesNow(s)
  {
    hide Matches;
  }

  lemma PowerLossKeepsLogin(s: HostState, back: Slot)
    ensures var t := AfterPowerLoss(s, back);
      t.clock == s.clock && t.tampering == s.tampering && !t.exposed && Usable(t) == Usable(s) && Reachable(t) == Reachable(s)
  {
  }

  /** Only the account and its login state may differ. */
  predicate SameButLogin(a: HostState, b: HostState) {
    b == a.(account := b.account, open := b.open, credential := b.credential, clock := b.clock) && a.clock <= b.clock
  }

  lemma LoginIsAllThatMoved(a: HostState, b: HostState)
    requires SameButLogin(a, b)
    ensures SameRegistry(a, b) && b.sudo == a.sudo && b.sshd == a.sshd && b.auto == a.auto && b.finalizer == a.finalizer
    ensures b.minted == a.minted && b.tampering == a.tampering && b.handoff == a.handoff && b.reserved == a.reserved
  {
  }

  /** The row already says everything a usable account must have on record. */
  predicate Complete(s: HostState) {
    Accounted(s.(open := true))
  }

  /** What a run has established stays established. */
  predicate Keeps(a: Seen, b: Seen) {
    (a.sudoGone ==> b.sudoGone) && (a.sshdGone ==> b.sshdGone) && (a.disabled ==> b.disabled) &&
    (a.drained ==> b.drained) && (a.terminated ==> b.terminated) && (a.passed ==> b.passed) && (a.witnessed ==> b.witnessed) &&
    b.expected == a.expected && b.deadline == a.deadline && a.now <= b.now
  }

  lemma ClosedMeanwhile(s: HostState, s': HostState)
    requires Meanwhile(s, s')
    ensures Meanwhile(s, s'.(open := false))
  {
  }

  lemma GoneMeanwhile(s: HostState, s': HostState)
    requires Meanwhile(s, s')
    ensures Meanwhile(s, s'.(account := None))
  {
  }

  /** The state with these grants and tasks. */
  function Carrying(s: HostState, sudo: bool, sshd: bool, auto: Task, finalizer: Task): HostState {
    s.(sudo := sudo, sshd := sshd, auto := auto, finalizer := finalizer)
  }

  /** Each of them may have moved alone. */
  lemma Carries(user: string, s: HostState, sudo: bool, sshd: bool, auto: Task, finalizer: Task)
    ensures Safe(user, s) ==> Safe(user, Carrying(s, s.sudo, s.sshd, s.auto, s.finalizer))
    ensures Safe(user, s.(sudo := sudo)) ==> Safe(user, Carrying(s, sudo, s.sshd, s.auto, s.finalizer))
    ensures Safe(user, s.(sshd := sshd)) ==> Safe(user, Carrying(s, s.sudo, sshd, s.auto, s.finalizer))
    ensures Safe(user, s.(auto := auto)) ==> Safe(user, Carrying(s, s.sudo, s.sshd, auto, s.finalizer))
    ensures Safe(user, s.(finalizer := finalizer)) ==> Safe(user, Carrying(s, s.sudo, s.sshd, s.auto, finalizer))
  {
    hide Safe;
    assert s.(sudo := s.sudo, sshd := s.sshd, auto := s.auto, finalizer := s.finalizer) == s;
  }

  /** A step that moves only grants or tasks lets nobody in and touches no row. */
  lemma Touched(a: HostState, b: HostState, sudo: bool, sshd: bool, auto: Task, finalizer: Task)
    requires Meanwhile(a, b) && Steady(a, b)
    ensures var t := Carrying(b, sudo, sshd, auto, finalizer);
      Drift(a, t) && SameRegistry(a, t) && Usable(t) == Usable(b) && Reachable(t) == Reachable(b) &&
      t.sudo == sudo && t.sshd == sshd && t.auto == auto && t.finalizer == finalizer &&
      t.clock == b.clock && t.tampering == b.tampering && t.exposed == b.exposed && t.stranded == b.stranded
    ensures b.sudo == a.sudo && b.sshd == a.sshd && b.auto == a.auto && b.finalizer == a.finalizer
  {
    hide Matches, GenerationOf, Meanwhile;
    var t := Carrying(b, sudo, sshd, auto, finalizer);
    forall uid, marker | Bears(a, uid, marker) ensures t.tampering || Bears(t, uid, marker) {
      assert b.tampering || Bears(b, uid, marker);
    }
  }

  /** What was safe to cancel before is still safe to cancel now. */
  lemma TasksMayGo(user: string, a: HostState, b: HostState)
    requires Meanwhile(a, b)
    ensures Safe(user, a.(auto := None)) ==> Safe(user, Carrying(b, b.sudo, b.sshd, None, b.finalizer))
    ensures Safe(user, a.(finalizer := None)) ==> Safe(user, Carrying(b, b.sudo, b.sshd, b.auto, None))
    ensures Safe(user, b) ==> Safe(user, Carrying(b, b.sudo, b.sshd, b.auto, b.finalizer))
  {
    Carries(user, b, b.sudo, b.sshd, None, None);
    AutoMeanwhile(a, b);
    FinalizerMeanwhile(a, b);
    hide Safe, Meanwhile, Carrying;
    if Safe(user, a.(auto := None)) { MeanwhileIsSafe(user, a.(auto := None), b.(auto := None)); }
    if Safe(user, a.(finalizer := None)) { MeanwhileIsSafe(user, a.(finalizer := None), b.(finalizer := None)); }
  }

  lemma AutoMeanwhile(a: HostState, b: HostState)
    requires Meanwhile(a, b)
    ensures Meanwhile(a.(auto := None), b.(auto := None))
  {
    hide Matches, GenerationOf;
  }

  lemma FinalizerMeanwhile(a: HostState, b: HostState)
    requires Meanwhile(a, b)
    ensures Meanwhile(a.(finalizer := None), b.(finalizer := None))
  {
    hide Matches, GenerationOf;
  }

  /** Whatever else a step did, nobody was let in and no identity came back. */
  ghost predicate Drift(a: HostState, b: HostState) {
    b.handoff == a.handoff && b.minted == a.minted && b.reserved == a.reserved && b.tampering == a.tampering &&
    a.clock <= b.clock && (!Usable(a) ==> b.tampering || !Usable(b)) &&
    (!Reachable(a) ==> b.tampering || !Reachable(b)) &&
    (forall uid, marker :: Bears(a, uid, marker) ==> b.tampering || Bears(b, uid, marker)) &&
    (b.row == a.row && !MatchesNow(a) ==> b.tampering || !MatchesNow(b))
  }

  lemma DriftOn(a: HostState, b: HostState, c: HostState)
    requires Drift(a, b) && SameRegistry(a, b) && Drift(b, c) && SameRegistry(b, c)
    ensures Drift(a, c) && SameRegistry(a, c)
  {
    hide Usable, Reachable, Bears, MatchesNow;
    forall uid, marker | Bears(a, uid, marker) ensures c.tampering || Bears(c, uid, marker) {
      assert b.tampering || Bears(b, uid, marker);
    }
  }

  /** Nothing but time, outsiders and perhaps the row moved. */
  ghost predicate SteadyButRow(a: HostState, b: HostState) {
    Drift(a, b) && b.sudo == a.sudo && b.sshd == a.sshd && b.auto == a.auto && b.finalizer == a.finalizer
  }

  /** Nothing but time and outsiders moved. */
  ghost predicate Steady(a: HostState, b: HostState) { SteadyButRow(a, b) && SameRegistry(a, b) }

  lemma MeanwhileIsSteady(a: HostState, b: HostState)
    requires Meanwhile(a, b)
    ensures Steady(a, b)
  {
  }

  lemma NobodyComes(s: HostState, s': HostState, uid: int, marker: Marker)
    requires Meanwhile(s, s') && !s.tampering && Bears(s, 0, NoMarker)
    ensures Bears(s', 0, NoMarker) && Bears(s', uid, marker) && !Usable(s')
  {
  }

  lemma CreationIsSafe(user: string, s: HostState, pw: Passwd)
    requires Safe(user, s) && s.row.Some? && TasksFor(s.row.value, s.auto, s.finalizer) && (s.tampering || s.older == [])
    ensures var s' := s.(account := Some(pw), open := true, credential := false); Safe(user, s') && !Usable(s')
  {
  }

  lemma MarkingIsSafe(user: string, s: HostState, pw: Passwd)
    requires Safe(user, s) && s.row.Some? && TasksFor(s.row.value, s.auto, s.finalizer)
    requires s.account.Some? && (s.tampering || (!Reachable(s) && s.older == []))
    requires s.account.value.marker.PendingMark? && pw.marker == ManagedMark(s.account.value.marker.generation)
    ensures var s' := s.(account := Some(pw)); Safe(user, s') && (s.tampering || !Reachable(s'))
  {
  }

  lemma OpeningIsSafe(user: string, s: HostState, s': HostState)
    requires Safe(user, s) && Meanwhile(s, s') && (s.tampering || Complete(s))
    ensures Safe(user, s'.(open := true)) && s'.tampering == s.tampering
  {
    MeanwhileIsSafe(user, s, s');
    hide ValidRow, Matches, DeadlineKept;
  }

  lemma CredentialIsSafe(user: string, s: HostState)
    requires Safe(user, s) && (s.tampering || !Reachable(s))
    ensures Safe(user, s.(credential := true)) && (s.tampering || !Usable(s.(credential := true)))
  {
  }
}
