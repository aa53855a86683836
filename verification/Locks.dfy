/**
 The two-level lock discipline of internal/cli/cli.go over the advisory locks
 of internal/lifecycle/lock.go, for any number of processes: a reader/writer
 lock per account name, always taken before the one global lock.

 A process that dies at any point has its locks released by the kernel.
 */
module Locks {
  import opened Wrappers

  /** NameOnlyRevoke is the unattended command of releases before generations. */
  datatype Kind = Invite | BoundRevoke | NameOnlyRevoke | Other(allowUninstalled: bool)

  datatype Ending = Ran | Skipped | Uninstalled | Failed | Died

  /** Gated and Running hold the global lock; Holding to Leaving hold the account lock. */
  datatype Phase = Started | Queued | Holding | Gated | Running | Leaving(rc: Ending) | Ended(rc: Ending)

  /** The times are when it asked for, got and gave back its account lock, and when its body began. */
  datatype Process = Process(
    kind: Kind, name: string, phase: Phase,
    asked: Option<nat>, granted: Option<nat>, entered: Option<nat>, released: Option<nat>)
  {
    predicate UsesAccount() { !kind.Other? }

    predicate HoldsAccount() {
      UsesAccount() && (phase.Holding? || phase.Gated? || phase.Running? || phase.Leaving?)
    }

    predicate HoldsGlobal() { phase.Gated? || phase.Running? }

    predicate MayIgnoreMarker() { kind.Other? && kind.allowUninstalled }
  }

  /** One advisory lock. */
  datatype Lock = Free | Exclusive(owner: nat) | Shared(owners: set<nat>) {
    /** Whether a request would be granted without waiting. */
    predicate Grants(exclusive: bool) {
      Free? || (Shared? && !exclusive)
    }

    function Take(p: nat, exclusive: bool): Lock
      requires Grants(exclusive)
    {
      if exclusive then Exclusive(p)
      else if Free? then Shared({p})
      else Shared(owners + {p})
    }

    function Drop(p: nat): Lock {
      match this
      case Free => Free
      case Exclusive(o) => if o == p then Free else this
      case Shared(os) => if os <= {p} then Free else Shared(os - {p})
    }
  }

  datatype System = System(
    now: nat, procs: seq<Process>, accounts: map<string, Lock>, global: Option<nat>, uninstalled: bool)
  {
    function Account(name: string): Lock { LockOf(accounts, name) }
  }

  function LockOf(accounts: map<string, Lock>, name: string): Lock {
    if name in accounts then accounts[name] else Free
  }

  const NOTHING_YET := System(0, [], map[], None, false)

  datatype Step =
    | Spawn(kind: Kind, name: string)
    | Ask(p: nat)
    | TakeAccount(p: nat)
    | TakeGlobal(p: nat)
    | CheckMarker(p: nat)
    | SetMarker(p: nat, value: bool)
    | Finish(p: nat)
    | Release(p: nat)
    | Fail(p: nat)
    | Die(p: nat)

  /** Whether the step can happen now; a process whose lock is held simply waits. */
  predicate Enabled(s: System, step: Step) {
    if step.Spawn? then true
    else if step.p >= |s.procs| then false
    else
      var proc := s.procs[step.p];
      match step
      case Ask(_) => proc.phase.Started?
      case TakeAccount(_) => proc.phase.Queued? && s.Account(proc.name).Grants(proc.kind.Invite?)
      case TakeGlobal(_) => proc.phase.Holding? && s.global == None
      case CheckMarker(_) => proc.phase.Gated?
      case SetMarker(_, _) => proc.phase.Running? && proc.MayIgnoreMarker()
      case Finish(_) => proc.phase.Running?
      case Release(_) => proc.phase.Leaving?
      case Fail(_) => proc.phase.Started? || proc.phase.Queued? || proc.phase.Holding? || proc.phase.Gated?
      case Die(_) => !proc.phase.Ended?
      case Spawn(_, _) => true
  }

  /** flock without waiting is refused exactly when the account is held exclusively. */
  function Asked(s: System, p: nat): System
    requires p < |s.procs|
  {
    var proc := s.procs[p].(asked := Some(s.now));
    match proc.kind
    case Other(_) => s.(procs := s.procs[p := proc.(phase := Holding)])
    case NameOnlyRevoke =>
      if s.Account(proc.name).Grants(false) then Granted(s.(procs := s.procs[p := proc]), p)
      else s.(procs := s.procs[p := proc.(phase := Ended(Skipped))])
    case _ => s.(procs := s.procs[p := proc.(phase := Queued)])
  }

  function Granted(s: System, p: nat): System
    requires p < |s.procs| && s.Account(s.procs[p].name).Grants(s.procs[p].kind.Invite?)
  {
    var proc := s.procs[p];
    s.(procs := s.procs[p := proc.(phase := Holding, granted := Some(s.now))],
       accounts := s.accounts[proc.name := s.Account(proc.name).Take(p, proc.kind.Invite?)])
  }

  /** Gives back the account lock, if it has one, and ends. */
  function End(s: System, p: nat, rc: Ending): System
    requires p < |s.procs|
  {
    var proc := s.procs[p];
    var freed := if s.global == Some(p) then s.(global := None) else s;
    if proc.HoldsAccount() then
      freed.(procs := s.procs[p := proc.(phase := Ended(rc), released := Some(s.now))],
             accounts := s.accounts[proc.name := s.Account(proc.name).Drop(p)])
    else freed.(procs := s.procs[p := proc.(phase := Ended(rc))])
  }

  function After(s: System, step: Step): System
    requires Enabled(s, step)
  {
    Changed(s, step).(now := s.now + 1)
  }

  function Changed(s: System, step: Step): System
    requires Enabled(s, step)
  {
    match step
    case Spawn(kind, name) =>
      s.(procs := s.procs + [Process(kind, name, Started, None, None, None, None)])
    case Ask(p) => Asked(s, p)
    case TakeAccount(p) => Granted(s, p)
    case TakeGlobal(p) => s.(procs := s.procs[p := s.procs[p].(phase := Gated)], global := Some(p))
    case CheckMarker(p) =>
      var proc := s.procs[p];
      if s.uninstalled && !proc.MayIgnoreMarker() then
        s.(procs := s.procs[p := proc.(phase := Leaving(Uninstalled))], global := None)
      else s.(procs := s.procs[p := proc.(phase := Running, entered := Some(s.now))])
    case SetMarker(p, value) => s.(uninstalled := value)
    case Finish(p) => s.(procs := s.procs[p := s.procs[p].(phase := Leaving(Ran))], global := None)
    case Release(p) => End(s, p, s.procs[p].phase.rc)
    case Fail(p) => End(s, p, Failed)
    case Die(p) => End(s, p, Died)
  }

  /** A run from nothing: which steps, in which order, is anybody's choice. */
  function Outcome(steps: seq<Step>): Option<System> {
    if steps == [] then Some(NOTHING_YET)
    else match Outcome(steps[..|steps| - 1])
      case None => None
      case Some(s) =>
        var step := steps[|steps| - 1];
        if Enabled(s, step) then Some(After(s, step)) else None
  }

  // ---- What every step keeps ----

  /** The lock of an account name is held by exactly the processes that think so. */
  ghost predicate AccountsAgree(procs: seq<Process>, accounts: map<string, Lock>) {
    forall p | 0 <= p < |procs| :: Owns(LockOf(accounts, procs[p].name), p, procs[p])
  }

  ghost predicate Owns(lock: Lock, p: nat, proc: Process) {
    if proc.kind.Invite? then (lock == Exclusive(p) <==> proc.HoldsAccount())
    else (lock.Shared? && p in lock.owners <==> proc.HoldsAccount())
  }

  /** Nobody else is on a lock. */
  ghost predicate OwnersExist(procs: seq<Process>, accounts: map<string, Lock>) {
    forall name | name in accounts :: LockOwnersExist(procs, name, accounts[name])
  }

  ghost predicate LockOwnersExist(procs: seq<Process>, name: string, lock: Lock) {
    match lock
    case Free => true
    case Exclusive(o) => o < |procs| && procs[o].name == name && procs[o].HoldsAccount() && procs[o].kind.Invite?
    case Shared(os) => os != {} && forall o | o in os ::
      o < |procs| && procs[o].name == name && procs[o].HoldsAccount() && !procs[o].kind.Invite?
  }

  ghost predicate GlobalAgrees(s: System) {
    (forall p | 0 <= p < |s.procs| :: s.procs[p].HoldsGlobal() <==> s.global == Some(p)) &&
    (s.global.Some? ==> s.global.value < |s.procs|)
  }

  /** No body that must respect the marker runs while it is set. */
  ghost predicate MarkerRespected(s: System) {
    forall p | 0 <= p < |s.procs| ::
      s.procs[p].phase.Running? && !s.procs[p].MayIgnoreMarker() ==> !s.uninstalled
  }

  predicate NotAfter(a: Option<nat>, b: Option<nat>) { b.Some? ==> a.Some? && a.value <= b.value }

  /** One process's own times are in order, and say where it is. */
  predicate TimesInOrder(proc: Process) {
    NotAfter(proc.asked, proc.granted) && NotAfter(proc.granted, proc.released) &&
    (proc.granted.Some? && proc.released.Some? ==> proc.granted.value < proc.released.value) &&
    (proc.UsesAccount() ==> NotAfter(proc.granted, proc.entered)) &&
    (proc.entered.Some? && proc.released.Some? ==> proc.entered.value < proc.released.value) &&
    (proc.HoldsAccount() <==> proc.granted.Some? && proc.released == None) &&
    (proc.phase.Running? ==> proc.entered.Some?) &&
    (proc.phase.Started? ==> proc.asked == None) && (proc.released.Some? ==> proc.phase.Ended?) &&
    (proc.phase.Started? || proc.phase.Queued? ==> proc.granted == None) && proc.phase != Leaving(Skipped) &&
    (proc.entered.Some? ==> proc.phase.Running? || proc.phase.Leaving? || proc.phase.Ended?) &&
    (proc.phase.Queued? ==> proc.UsesAccount() && proc.asked.Some? && !proc.kind.NameOnlyRevoke?) &&
    (proc.kind.NameOnlyRevoke? && proc.granted.Some? ==> proc.asked == proc.granted)
  }

  ghost predicate AllTimesInOrder(s: System) {
    forall p | 0 <= p < |s.procs| :: TimesInOrder(s.procs[p]) && Past(s.now, s.procs[p])
  }

  predicate Past(now: nat, proc: Process) {
    (proc.asked.Some? ==> proc.asked.value < now) && (proc.granted.Some? ==> proc.granted.value < now) &&
    (proc.entered.Some? ==> proc.entered.value < now) && (proc.released.Some? ==> proc.released.value < now)
  }

  predicate Conflict(a: Process, b: Process) {
    a.name == b.name && a.UsesAccount() && b.UsesAccount() && (a.kind.Invite? || b.kind.Invite?)
  }

  predicate GoneBy(a: Process, t: nat) { a.released.Some? && a.released.value <= t }

  /** An invite's hold never overlaps another hold of that name. */
  ghost predicate HoldsAreDisjoint(s: System) {
    forall p, q | 0 <= p < q < |s.procs| :: Disjoint(s.procs[p], s.procs[q])
  }

  predicate Disjoint(a: Process, b: Process) {
    Conflict(a, b) && a.granted.Some? && b.granted.Some? ==>
      GoneBy(a, b.granted.value) || GoneBy(b, a.granted.value)
  }

  /** A dropped command collided with an invite of its name. */
  ghost predicate SkipsCollided(s: System) {
    forall p | 0 <= p < |s.procs| && s.procs[p].phase == Ended(Skipped) :: Collided(s, s.procs[p])
  }

  ghost predicate Collided(s: System, proc: Process) {
    proc.asked.Some? && exists q :: 0 <= q < |s.procs| && HeldAt(s.procs[q], proc.name, proc.asked.value)
  }

  /** An invite of the name held its lock at that time. */
  predicate HeldAt(invite: Process, name: string, t: nat) {
    invite.kind.Invite? && invite.name == name && invite.granted.Some? && invite.granted.value <= t &&
    (invite.released.Some? ==> t < invite.released.value)
  }

  ghost predicate LocksAgree(procs: seq<Process>, accounts: map<string, Lock>) {
    AccountsAgree(procs, accounts) && OwnersExist(procs, accounts)
  }

  ghost predicate Sound(s: System) {
    LocksAgree(s.procs, s.accounts) && GlobalAgrees(s) && MarkerRespected(s) &&
    AllTimesInOrder(s) && HoldsAreDisjoint(s) && SkipsCollided(s)
  }

  lemma {:induction false} OneMoreProcess(procs: seq<Process>, accounts: map<string, Lock>, added: Process)
    requires LocksAgree(procs, accounts) && added.phase.Started?
    ensures LocksAgree(procs + [added], accounts)
  {
    var procs' := procs + [added];
    forall name | name in accounts
      ensures LockOwnersExist(procs', name, accounts[name])
    {
      assert LockOwnersExist(procs, name, accounts[name]);
    }
    forall p | 0 <= p < |procs'|
      ensures Owns(LockOf(accounts, procs'[p].name), p, procs'[p])
    {
      if p == |procs| && added.name in accounts {
        assert LockOwnersExist(procs, added.name, accounts[added.name]);
      } else if p < |procs| {
        assert Owns(LockOf(accounts, procs[p].name), p, procs[p]);
      }
    }
  }

  /** A step of p that leaves p's lock alone. */
  lemma {:induction false} SameHold(procs: seq<Process>, accounts: map<string, Lock>, p: nat, b: Process)
    requires LocksAgree(procs, accounts) && p < |procs|
    requires b.name == procs[p].name && b.kind == procs[p].kind && b.HoldsAccount() == procs[p].HoldsAccount()
    ensures LocksAgree(procs[p := b], accounts)
  {
    var procs' := procs[p := b];
    forall name | name in accounts
      ensures LockOwnersExist(procs', name, accounts[name])
    {
      assert LockOwnersExist(procs, name, accounts[name]);
    }
    forall q | 0 <= q < |procs'|
      ensures Owns(LockOf(accounts, procs'[q].name), q, procs'[q])
    {
      assert Owns(LockOf(accounts, procs[q].name), q, procs[q]);
    }
  }

  /** A step of p that changes only who holds the lock of p's name. */
  lemma {:induction false} OtherHold(
    procs: seq<Process>, accounts: map<string, Lock>, p: nat, b: Process, lock: Lock)
    requires LocksAgree(procs, accounts) && p < |procs|
    requires b.name == procs[p].name && b.kind == procs[p].kind
    requires Owns(lock, p, b) && LockOwnersExist(procs[p := b], b.name, lock)
    requires SameOthers(LockOf(accounts, b.name), lock, p)
    ensures LocksAgree(procs[p := b], accounts[b.name := lock])
  {
    var procs', accounts' := procs[p := b], accounts[b.name := lock];
    forall name | name in accounts'
      ensures LockOwnersExist(procs', name, accounts'[name])
    {
      if name != b.name { assert LockOwnersExist(procs, name, accounts[name]); }
    }
    forall q | 0 <= q < |procs'|
      ensures Owns(LockOf(accounts', procs'[q].name), q, procs'[q])
    {
      assert Owns(LockOf(accounts, procs[q].name), q, procs[q]);
      if q != p { assert OwnerOf(LockOf(accounts, b.name), q) == OwnerOf(lock, q); }
    }
  }

  /** Two states of a lock that differ for nobody but p. */
  ghost predicate SameOthers(a: Lock, b: Lock, p: nat) {
    forall q: nat | q != p :: OwnerOf(a, q) == OwnerOf(b, q)
  }

  ghost function OwnerOf(lock: Lock, q: nat): (bool, bool) {
    (lock == Exclusive(q), lock.Shared? && q in lock.owners)
  }

  lemma {:induction false} GrantKeepsLocks(s: System, p: nat)
    requires LocksAgree(s.procs, s.accounts) && p < |s.procs|
    requires s.procs[p].UsesAccount() && !s.procs[p].HoldsAccount()
    requires s.Account(s.procs[p].name).Grants(s.procs[p].kind.Invite?)
    ensures LocksAgree(Granted(s, p).procs, Granted(s, p).accounts)
  {
    var proc := s.procs[p];
    var lock := s.Account(proc.name).Take(p, proc.kind.Invite?);
    var b := proc.(phase := Holding, granted := Some(s.now));
    assert s.Account(proc.name).Free? || LockOwnersExist(s.procs, proc.name, s.Account(proc.name));
    OtherHold(s.procs, s.accounts, p, b, lock);
  }

  lemma {:induction false} EndKeepsLocks(s: System, p: nat, rc: Ending)
    requires LocksAgree(s.procs, s.accounts) && p < |s.procs|
    ensures LocksAgree(End(s, p, rc).procs, End(s, p, rc).accounts)
  {
    var proc := s.procs[p];
    if proc.HoldsAccount() {
      assert Owns(s.Account(proc.name), p, proc);
      assert LockOwnersExist(s.procs, proc.name, s.Account(proc.name));
      OtherHold(s.procs, s.accounts, p, proc.(phase := Ended(rc), released := Some(s.now)),
        s.Account(proc.name).Drop(p));
    } else {
      SameHold(s.procs, s.accounts, p, proc.(phase := Ended(rc)));
    }
  }

  lemma {:induction false} KeepsLocks(s: System, step: Step)
    requires Sound(s) && Enabled(s, step)
    ensures LocksAgree(After(s, step).procs, After(s, step).accounts)
  {
    hide LocksAgree;
    match step
    case Spawn(kind, name) =>
      OneMoreProcess(s.procs, s.accounts, Process(kind, name, Started, None, None, None, None));
    case Ask(p) =>
      var proc := s.procs[p].(asked := Some(s.now));
      SameHold(s.procs, s.accounts, p, proc);
      if proc.kind.NameOnlyRevoke? && s.Account(proc.name).Grants(false) {
        GrantKeepsLocks(s.(procs := s.procs[p := proc]), p);
      } else if proc.kind.NameOnlyRevoke? {
        SameHold(s.procs, s.accounts, p, proc.(phase := Ended(Skipped)));
      } else if proc.kind.Other? {
        SameHold(s.procs, s.accounts, p, proc.(phase := Holding));
      } else {
        SameHold(s.procs, s.accounts, p, proc.(phase := Queued));
      }
    case TakeAccount(p) => GrantKeepsLocks(s, p);
    case Release(p) => EndKeepsLocks(s, p, s.procs[p].phase.rc);
    case Fail(p) => EndKeepsLocks(s, p, Failed);
    case Die(p) => EndKeepsLocks(s, p, Died);
    case SetMarker(_, _) =>
    case _ => SameHold(s.procs, s.accounts, step.p, After(s, step).procs[step.p]);
  }

  /** Every step but a new process moves just the one it names. */
  lemma {:induction false} OnlyOneMoves(s: System, step: Step)
    requires Enabled(s, step) && !step.Spawn?
    ensures var s' := After(s, step);
      |s'.procs| == |s.procs| && (forall q | 0 <= q < |s.procs| && q != step.p :: s'.procs[q] == s.procs[q])
    ensures var a, b := s.procs[step.p], After(s, step).procs[step.p]; a.name == b.name && a.kind == b.kind
  {
  }

  lemma {:induction false} OnlyOneIsNew(s: System, kind: Kind, name: string)
    ensures var s' := After(s, Spawn(kind, name));
      |s'.procs| == |s.procs| + 1 && (forall q | 0 <= q < |s.procs| :: s'.procs[q] == s.procs[q]) &&
      s'.procs[|s.procs|] == Process(kind, name, Started, None, None, None, None) &&
      s'.accounts == s.accounts && s'.global == s.global && s'.uninstalled == s.uninstalled
  {
  }

  /** The global lock follows the process that moves. */
  lemma {:induction false} GlobalMoves(s: System, step: Step)
    requires Sound(s) && Enabled(s, step) && !step.Spawn?
    ensures var s' := After(s, step);
      (s'.procs[step.p].HoldsGlobal() <==> s'.global == Some(step.p)) &&
      (s'.global != s.global ==> s.global in {None, Some(step.p)} && s'.global in {None, Some(step.p)})
  {
    hide LocksAgree, AllTimesInOrder, HoldsAreDisjoint, SkipsCollided, MarkerRespected;
    assert s.procs[step.p].HoldsGlobal() <==> s.global == Some(step.p);
  }

  lemma {:induction false} KeepsGlobal(s: System, step: Step)
    requires Sound(s) && Enabled(s, step)
    ensures GlobalAgrees(After(s, step))
  {
    hide After, Enabled, LocksAgree, AllTimesInOrder, HoldsAreDisjoint, SkipsCollided, MarkerRespected;
    if step.Spawn? {
      OnlyOneIsNew(s, step.kind, step.name);
    } else {
      OnlyOneMoves(s, step);
      GlobalMoves(s, step);
      NamesAProcess(s, step);
    }
  }

  lemma {:induction false} NamesAProcess(s: System, step: Step)
    requires Enabled(s, step) && !step.Spawn?
    ensures step.p < |s.procs|
  {
  }

  lemma {:induction false} MarkerMoves(s: System, step: Step)
    requires Sound(s) && Enabled(s, step) && !step.Spawn?
    ensures var s' := After(s, step);
      (s'.procs[step.p].phase.Running? && !s'.procs[step.p].MayIgnoreMarker() ==> !s'.uninstalled) &&
      (s'.uninstalled != s.uninstalled ==> s.procs[step.p].phase.Running?)
  {
    hide LocksAgree, AllTimesInOrder, HoldsAreDisjoint, SkipsCollided, GlobalAgrees;
  }

  lemma {:induction false} KeepsMarker(s: System, step: Step)
    requires Sound(s) && Enabled(s, step)
    ensures MarkerRespected(After(s, step))
  {
    hide After, Enabled, LocksAgree, AllTimesInOrder, HoldsAreDisjoint, SkipsCollided;
    if step.Spawn? {
      OnlyOneIsNew(s, step.kind, step.name);
    } else {
      OnlyOneMoves(s, step);
      MarkerMoves(s, step);
      NamesAProcess(s, step);
      if s.procs[step.p].phase.Running? {
        assert s.global == Some(step.p);
      }
    }
  }

  lemma {:induction false} EndInTime(s: System, p: nat, rc: Ending)
    requires p < |s.procs| && TimesInOrder(s.procs[p]) && Past(s.now, s.procs[p]) && rc != Skipped
    ensures var b := End(s, p, rc).procs[p]; TimesInOrder(b) && Past(s.now + 1, b)
  {
  }

  lemma {:induction false} AskInTime(s: System, p: nat)
    requires p < |s.procs| && TimesInOrder(s.procs[p]) && Past(s.now, s.procs[p]) && s.procs[p].phase.Started?
    ensures var b := Asked(s, p).procs[p]; TimesInOrder(b) && Past(s.now + 1, b)
  {
  }

  lemma {:induction false} TimesMove(s: System, step: Step)
    requires Enabled(s, step) && !step.Spawn?
    requires TimesInOrder(s.procs[step.p]) && Past(s.now, s.procs[step.p])
    ensures var s' := After(s, step); TimesInOrder(s'.procs[step.p]) && Past(s'.now, s'.procs[step.p])
  {
    hide End, Asked;
    match step
    case Ask(p) => AskInTime(s, p);
    case Release(p) => EndInTime(s, p, s.procs[p].phase.rc);
    case Fail(p) => EndInTime(s, p, Failed);
    case Die(p) => EndInTime(s, p, Died);
    case _ =>
  }

  lemma {:induction false} KeepsTimes(s: System, step: Step)
    requires Sound(s) && Enabled(s, step)
    ensures AllTimesInOrder(After(s, step))
  {
    hide After, Enabled, LocksAgree, GlobalAgrees, HoldsAreDisjoint, SkipsCollided, MarkerRespected, TimesInOrder;
    assert After(s, step).now == s.now + 1 by { TimePasses(s, step); }
    if step.Spawn? {
      OnlyOneIsNew(s, step.kind, step.name);
      FreshTimes(step.kind, step.name);
    } else {
      NamesAProcess(s, step);
      OnlyOneMoves(s, step);
      TimesMove(s, step);
    }
  }

  lemma {:induction false} TimePasses(s: System, step: Step)
    requires Enabled(s, step)
    ensures After(s, step).now == s.now + 1
  {
  }

  lemma {:induction false} FreshTimes(kind: Kind, name: string)
    ensures TimesInOrder(Process(kind, name, Started, None, None, None, None))
  {
  }

  /** Times once set stay set; a lock is granted only now, and only beside holds it is compatible with. */
  lemma {:induction false} GrantMoves(s: System, step: Step)
    requires Enabled(s, step) && !step.Spawn? && TimesInOrder(s.procs[step.p])
    ensures var a, b := s.procs[step.p], After(s, step).procs[step.p];
      (a.released.Some? ==> b.released == a.released) &&
      (b.granted != a.granted ==>
        a.granted == None && b.granted == Some(s.now) && s.Account(a.name).Grants(a.kind.Invite?) && a.UsesAccount())
  {
  }

  /** Whoever a grant could clash with has let go before. */
  lemma {:induction false} NobodyClashes(s: System, p: nat, q: nat)
    requires Sound(s) && p < |s.procs| && q < |s.procs| && p != q
    requires Conflict(s.procs[p], s.procs[q]) && s.Account(s.procs[p].name).Grants(s.procs[p].kind.Invite?)
    ensures s.procs[q].granted.Some? ==> GoneBy(s.procs[q], s.now)
  {
    assert Owns(s.Account(s.procs[q].name), q, s.procs[q]);
    assert TimesInOrder(s.procs[q]) && Past(s.now, s.procs[q]);
  }

  lemma {:induction false} KeepsDisjoint(s: System, step: Step)
    requires Sound(s) && Enabled(s, step)
    ensures HoldsAreDisjoint(After(s, step))
  {
    hide After, Enabled, LocksAgree, GlobalAgrees, SkipsCollided, MarkerRespected, TimesInOrder;
    if step.Spawn? {
      OnlyOneIsNew(s, step.kind, step.name);
    } else {
      NamesAProcess(s, step);
      OnlyOneMoves(s, step);
      GrantMoves(s, step);
      var s' := After(s, step);
      forall q | 0 <= q < |s.procs| && q != step.p
        ensures Disjoint(s'.procs[step.p], s'.procs[q])
      {
        assert Disjoint(s.procs[step.p], s.procs[q]);
        if s'.procs[step.p].granted != s.procs[step.p].granted && Conflict(s.procs[step.p], s.procs[q]) {
          NobodyClashes(s, step.p, q);
        }
      }
    }
  }

  /** A command is dropped only against an invite that holds the lock right now. */
  lemma {:induction false} SkipMoves(s: System, step: Step)
    requires Enabled(s, step) && !step.Spawn? && TimesInOrder(s.procs[step.p])
    ensures var a, b := s.procs[step.p], After(s, step).procs[step.p];
      b.phase == Ended(Skipped) ==>
        a == b || (a.kind.NameOnlyRevoke? && b.asked == Some(s.now) && s.Account(a.name).Exclusive?)
  {
  }

  lemma {:induction false} KeepsSkips(s: System, step: Step)
    requires Sound(s) && Enabled(s, step)
    ensures SkipsCollided(After(s, step))
  {
    hide After, Enabled, GlobalAgrees, HoldsAreDisjoint, MarkerRespected;
    var s' := After(s, step);
    if step.Spawn? {
      OnlyOneIsNew(s, step.kind, step.name);
      forall p | 0 <= p < |s'.procs| && s'.procs[p].phase == Ended(Skipped)
        ensures Collided(s', s'.procs[p])
      {
        assert Collided(s, s.procs[p]);
        var q :| 0 <= q < |s.procs| && HeldAt(s.procs[q], s.procs[p].name, s.procs[p].asked.value);
        assert HeldAt(s'.procs[q], s'.procs[p].name, s'.procs[p].asked.value);
      }
    } else {
      NamesAProcess(s, step);
      OnlyOneMoves(s, step);
      forall p | 0 <= p < |s'.procs| && s'.procs[p].phase == Ended(Skipped)
        ensures Collided(s', s'.procs[p])
      {
        SkipStands(s, step, p);
      }
    }
  }

  lemma {:induction false} SkipStands(s: System, step: Step, p: nat)
    requires Sound(s) && Enabled(s, step) && !step.Spawn? && p < |s.procs|
    requires After(s, step).procs[p].phase == Ended(Skipped)
    ensures Collided(After(s, step), After(s, step).procs[p])
  {
    hide After, Enabled, GlobalAgrees, HoldsAreDisjoint, MarkerRespected;
    var s' := After(s, step);
    NamesAProcess(s, step);
    OnlyOneMoves(s, step);
    SkipMoves(s, step);
    if s'.procs[p] == s.procs[p] {
      assert Collided(s, s.procs[p]);
      var q :| 0 <= q < |s.procs| && HeldAt(s.procs[q], s.procs[p].name, s.procs[p].asked.value);
      assert TimesInOrder(s.procs[q]) && Past(s.now, s.procs[p]);
      StillHeldThen(s, step, q, s.procs[p].name, s.procs[p].asked.value);
    } else {
      var q := s.Account(s.procs[p].name).owner;
      assert LockOwnersExist(s.procs, s.procs[p].name, s.Account(s.procs[p].name));
      assert TimesInOrder(s.procs[q]) && Past(s.now, s.procs[q]);
      StillHeldThen(s, step, q, s.procs[p].name, s.now);
    }
  }

  /** A hold that covered a moment up to now still does when it is given back. */
  lemma {:induction false} StillHeldThen(s: System, step: Step, q: nat, name: string, t: nat)
    requires Enabled(s, step) && !step.Spawn? && q < |s.procs| && TimesInOrder(s.procs[q])
    requires HeldAt(s.procs[q], name, t) && t <= s.now
    requires t < s.now || step.p != q
    ensures HeldAt(After(s, step).procs[q], name, t)
  {
  }

  // ---- Every run ----

  lemma {:induction false} StepKeepsSound(s: System, step: Step)
    requires Sound(s) && Enabled(s, step)
    ensures Sound(After(s, step))
  {
    hide After, Enabled, LocksAgree, GlobalAgrees, MarkerRespected, AllTimesInOrder, HoldsAreDisjoint, SkipsCollided;
    KeepsLocks(s, step);
    KeepsGlobal(s, step);
    KeepsMarker(s, step);
    KeepsTimes(s, step);
    KeepsDisjoint(s, step);
    KeepsSkips(s, step);
  }

  lemma {:induction false} EveryRunIsSound(steps: seq<Step>)
    requires Outcome(steps).Some?
    ensures Sound(Outcome(steps).value)
  {
    hide After, Enabled;
    if steps != [] {
      var front := steps[..|steps| - 1];
      EveryRunIsSound(front);
      hide Sound;
      StepKeepsSound(Outcome(front).value, steps[|steps| - 1]);
    }
  }

  /** At any time at most one process is past the global lock, and a forbidden body never starts or stays. */
  lemma {:induction false} OneBodyAtATime(steps: seq<Step>, p: nat, q: nat)
    requires Outcome(steps).Some?
    requires p < |Outcome(steps).value.procs| && q < |Outcome(steps).value.procs|
    ensures var s := Outcome(steps).value;
      (s.procs[p].HoldsGlobal() && s.procs[q].HoldsGlobal() ==> p == q) &&
      (s.procs[p].phase.Running? && s.uninstalled ==> s.procs[p].MayIgnoreMarker())
  {
    hide After, Enabled, LocksAgree, AllTimesInOrder, HoldsAreDisjoint, SkipsCollided;
    EveryRunIsSound(steps);
    var s := Outcome(steps).value;
    assert s.procs[p].HoldsGlobal() <==> s.global == Some(p);
    assert s.procs[q].HoldsGlobal() <==> s.global == Some(q);
  }

  /** Neither an error nor a death, nor a new arrival: a process getting on with its work. */
  predicate Progress(step: Step) {
    !step.Spawn? && !step.Fail? && !step.Die? && !step.SetMarker?
  }

  function Rank(phase: Phase): nat {
    match phase
    case Started => 6
    case Queued => 5
    case Holding => 4
    case Gated => 3
    case Running => 2
    case Leaving(_) => 1
    case Ended(_) => 0
  }

  /** How many more steps the processes there can take. */
  function Work(procs: seq<Process>): nat {
    if procs == [] then 0 else Work(procs[..|procs| - 1]) + Rank(procs[|procs| - 1].phase)
  }

  lemma {:induction false} LessWork(procs: seq<Process>, p: nat, b: Process)
    requires p < |procs| && Rank(b.phase) < Rank(procs[p].phase)
    ensures Work(procs[p := b]) < Work(procs)
  {
    var front := procs[..|procs| - 1];
    if p == |procs| - 1 {
      assert procs[p := b][..p] == front;
    } else {
      LessWork(front, p, b);
      assert procs[p := b][..|procs| - 1] == front[p := b];
    }
  }

  /** Every step but an arrival or the marker uses work up, so waiting is never for ever. */
  lemma {:induction false} StepsUseUpWork(s: System, step: Step)
    requires Enabled(s, step) && !step.Spawn? && !step.SetMarker?
    ensures Work(After(s, step).procs) < Work(s.procs)
  {
    var p := step.p;
    var b := After(s, step).procs[p];
    assert After(s, step).procs == s.procs[p := b];
    LessWork(s.procs, p, b);
  }

  /** Without arrivals a run can only go on for so long; with the next lemma, everybody ends. */
  lemma {:induction false} RunsEnd(steps: seq<Step>, more: seq<Step>)
    requires Outcome(steps).Some? && Outcome(steps + more).Some?
    requires forall i | 0 <= i < |more| :: !more[i].Spawn? && !more[i].SetMarker?
    ensures |more| + Work(Outcome(steps + more).value.procs) <= Work(Outcome(steps).value.procs)
    decreases |more|
  {
    hide Work, Enabled, After;
    if more == [] {
      assert steps + more == steps;
    } else {
      var front := more[..|more| - 1];
      var whole := steps + more;
      assert whole[..|whole| - 1] == steps + front;
      RunsEnd(steps, front);
      StepsUseUpWork(Outcome(steps + front).value, more[|more| - 1]);
    }
  }

  /**
   No reachable deadlock: as long as anyone has not ended, somebody can get on
   with its work.
   */
  lemma {:induction false} SomebodyCanMove(steps: seq<Step>, p: nat) returns (step: Step)
    requires Outcome(steps).Some? && p < |Outcome(steps).value.procs|
    requires !Outcome(steps).value.procs[p].phase.Ended?
    ensures Progress(step) && Enabled(Outcome(steps).value, step)
  {
    hide After, MarkerRespected, HoldsAreDisjoint, SkipsCollided, AllTimesInOrder;
    EveryRunIsSound(steps);
    var s := Outcome(steps).value;
    if s.global.Some? {
      step := HolderMoves(s, s.global.value);
    } else {
      step := UnblockedMoves(s, p);
    }
  }

  /** Whoever is past the global lock waits for nobody. */
  lemma {:induction false} HolderMoves(s: System, g: nat) returns (step: Step)
    requires Sound(s) && s.global == Some(g)
    ensures Progress(step) && Enabled(s, step)
  {
    hide MarkerRespected, HoldsAreDisjoint, SkipsCollided, AllTimesInOrder, LocksAgree;
    assert s.procs[g].HoldsGlobal();
    step := if s.procs[g].phase.Gated? then CheckMarker(g) else Finish(g);
  }

  /** With the global lock free only a wait for an account lock can block, and its owner cannot be blocked. */
  lemma {:induction false} UnblockedMoves(s: System, p: nat) returns (step: Step)
    requires Sound(s) && s.global == None && p < |s.procs| && !s.procs[p].phase.Ended?
    ensures Progress(step) && Enabled(s, step)
  {
    hide MarkerRespected, HoldsAreDisjoint, SkipsCollided, AllTimesInOrder;
    var proc := s.procs[p];
    assert !proc.HoldsGlobal();
    match proc.phase
    case Started => step := Ask(p);
    case Holding => step := TakeGlobal(p);
    case Leaving(_) => step := Release(p);
    case Queued =>
      if s.Account(proc.name).Grants(proc.kind.Invite?) {
        step := TakeAccount(p);
      } else {
        var o := AnOwner(s, proc.name);
        step := if s.procs[o].phase.Holding? then TakeGlobal(o) else Release(o);
      }
    case _ =>
  }

  lemma {:induction false} AnOwner(s: System, name: string) returns (o: nat)
    requires Sound(s) && s.global == None && !s.Account(name).Free?
    ensures o < |s.procs| && (s.procs[o].phase.Holding? || s.procs[o].phase.Leaving?)
  {
    hide MarkerRespected, HoldsAreDisjoint, SkipsCollided, AllTimesInOrder;
    assert LockOwnersExist(s.procs, name, s.Account(name));
    match s.Account(name)
    case Exclusive(owner) => o := owner;
    case Shared(owners) => o :| o in owners;
    assert !s.procs[o].HoldsGlobal();
  }

  // ---- The name-only revoke ----

  /**
   A name-only revoke whose body began after that of an invite of the same
   name asked for its lock after that invite had given its own back.
   */
  lemma {:induction false} NameOnlyRevokeNeverQueues(steps: seq<Step>, p: nat, q: nat)
    requires Outcome(steps).Some?
    requires p < |Outcome(steps).value.procs| && q < |Outcome(steps).value.procs|
    requires var revoke, invite := Outcome(steps).value.procs[p], Outcome(steps).value.procs[q];
      revoke.kind.NameOnlyRevoke? && invite.kind.Invite? && revoke.name == invite.name
    ensures var revoke, invite := Outcome(steps).value.procs[p], Outcome(steps).value.procs[q];
      invite.entered.Some? && revoke.entered.Some? && invite.entered.value < revoke.entered.value ==>
        invite.released.Some? && revoke.asked.Some? && invite.released.value <= revoke.asked.value
  {
    hide After, Enabled, LocksAgree, GlobalAgrees, MarkerRespected, SkipsCollided;
    EveryRunIsSound(steps);
    var s := Outcome(steps).value;
    assert TimesInOrder(s.procs[p]) && TimesInOrder(s.procs[q]);
    assert if p < q then Disjoint(s.procs[p], s.procs[q]) else Disjoint(s.procs[q], s.procs[p]);
  }

  /** It is dropped, without waiting, exactly when an invite of its name held the lock as it asked. */
  lemma {:induction false} DroppedExactlyOnCollision(steps: seq<Step>, p: nat)
    requires Outcome(steps).Some? && p < |Outcome(steps).value.procs|
    requires var revoke := Outcome(steps).value.procs[p];
      revoke.kind.NameOnlyRevoke? && (revoke.phase == Ended(Skipped) || revoke.granted.Some?)
    ensures var s := Outcome(steps).value;
      s.procs[p].phase == Ended(Skipped) <==> Collided(s, s.procs[p])
  {
    hide After, Enabled, LocksAgree, GlobalAgrees, MarkerRespected;
    EveryRunIsSound(steps);
    var s := Outcome(steps).value;
    var revoke := s.procs[p];
    assert TimesInOrder(revoke);
    if revoke.phase != Ended(Skipped) {
      forall q | 0 <= q < |s.procs| && s.procs[q].kind.Invite? && s.procs[q].name == revoke.name
        ensures !HeldAt(s.procs[q], revoke.name, revoke.asked.value)
      {
        assert TimesInOrder(s.procs[q]);
        assert if p < q then Disjoint(revoke, s.procs[q]) else Disjoint(s.procs[q], revoke);
      }
    }
  }

  lemma {:induction false} OneMoreStep(steps: seq<Step>, step: Step)
    requires Outcome(steps).Some? && Enabled(Outcome(steps).value, step)
    ensures Outcome(steps + [step]) == Some(After(Outcome(steps).value, step))
  {
    assert (steps + [step])[..|steps|] == steps;
  }

  lemma {:induction false} InviteHolds(name: string) returns (steps: seq<Step>)
    ensures Outcome(steps) == Some(System(4,
      [Process(Invite, name, Holding, Some(2), Some(3), None, None),
       Process(BoundRevoke, name, Started, None, None, None, None)],
      map[name := Exclusive(0)], None, false))
  {
    hide Outcome;
    steps := [];
    assert Outcome([]) == Some(NOTHING_YET) by { NoSteps(); }
    OneMoreStep(steps, Spawn(Invite, name)); steps := steps + [Spawn(Invite, name)];
    OneMoreStep(steps, Spawn(BoundRevoke, name)); steps := steps + [Spawn(BoundRevoke, name)];
    OneMoreStep(steps, Ask(0)); steps := steps + [Ask(0)];
    OneMoreStep(steps, TakeAccount(0)); steps := steps + [TakeAccount(0)];
    var s := Outcome(steps).value;
    assert s.procs ==
      [Process(Invite, name, Holding, Some(2), Some(3), None, None),
       Process(BoundRevoke, name, Started, None, None, None, None)];
    assert s.accounts == map[name := Exclusive(0)];
  }

  /** An invite past the global lock, and a bound revoke of the same name waiting for it. */
  lemma {:induction false} RevokeWaits(name: string) returns (steps: seq<Step>)
    ensures Outcome(steps) == Some(System(7,
      [Process(Invite, name, Running, Some(2), Some(3), Some(6), None),
       Process(BoundRevoke, name, Queued, Some(4), None, None, None)],
      map[name := Exclusive(0)], Some(0), false))
  {
    hide Outcome;
    steps := InviteHolds(name);
    OneMoreStep(steps, Ask(1)); steps := steps + [Ask(1)];
    OneMoreStep(steps, TakeGlobal(0)); steps := steps + [TakeGlobal(0)];
    OneMoreStep(steps, CheckMarker(0)); steps := steps + [CheckMarker(0)];
    var s := Outcome(steps).value;
    assert s.procs ==
      [Process(Invite, name, Running, Some(2), Some(3), Some(6), None),
       Process(BoundRevoke, name, Queued, Some(4), None, None, None)];
    assert s.accounts == map[name := Exclusive(0)];
  }

  lemma {:induction false} NoSteps()
    ensures Outcome([]) == Some(NOTHING_YET)
  {
  }

  /** A revoke bound to its account does queue: asked for during an invite, run after it. */
  lemma {:induction false} BoundRevokeMayQueue(name: string) returns (steps: seq<Step>)
    ensures Outcome(steps).Some?
    ensures var s := Outcome(steps).value;
      |s.procs| == 2 && s.procs[0].kind.Invite? && s.procs[1].kind.BoundRevoke? && s.procs[1].name == name &&
      Collided(s, s.procs[1]) && s.procs[1].entered.Some?
  {
    hide Outcome;
    steps := RevokeWaits(name);
    OneMoreStep(steps, Finish(0)); steps := steps + [Finish(0)];
    OneMoreStep(steps, Release(0)); steps := steps + [Release(0)];
    OneMoreStep(steps, TakeAccount(1)); steps := steps + [TakeAccount(1)];
    OneMoreStep(steps, TakeGlobal(1)); steps := steps + [TakeGlobal(1)];
    OneMoreStep(steps, CheckMarker(1)); steps := steps + [CheckMarker(1)];
    var s := Outcome(steps).value;
    assert HeldAt(s.procs[0], name, 4);
  }
}
