/**
 The orphan sweep of internal/cli/cleanup.go over all names: grants without a
 live account of this tool go first, then tasks nobody needs, then the rows of
 accounts that no longer exist.
 */
module Sweeps {
  import opened Wrappers
  import opened Validate
  import opened Records
  import opened Tables
  import opened Transitions
  import opened Lifecycle

  /** classifyRegisteredAccount, for an account lookup that worked. */
  datatype Standing =
    | Missing | RecoveryAbsent | RecoveryBound | HeldInQuarantine | RecoveryManual | StillPending | IdentityUnverified
    | LegacyIdentity | UIDMismatch | GIDMismatch | MarkerMismatch | HomeMismatch | FirstFieldWitness | InService

  function Classify(r: Row, account: Option<Passwd>): Standing {
    if account == None then (if r.deletionStarted then RecoveryAbsent else Missing)
    else
      var pw := account.value;
      if r.deletionStarted then
        if !Matches(r, pw) then RecoveryManual
        else if r.quarantineUntil != "" then HeldInQuarantine
        else RecoveryBound
      else if !AccountID(pw.uid) || !AccountID(pw.gid) then IdentityUnverified
      else if r.pending then StillPending
      else if !r.identityBound && pw.marker == LegacyMark then LegacyIdentity
      else if !AccountID(r.uid) then IdentityUnverified
      else if pw.uid != r.uid then UIDMismatch
      else if r.sequentialID && pw.gid != r.uid then GIDMismatch
      else if !r.identityBound || pw.marker != ManagedMark(r.generation) then MarkerMismatch
      else if !ManagedHome(r.user, pw.home) then HomeMismatch
      else if !pw.trailing then FirstFieldWitness
      else InService
  }

  predicate LegacyCounts(r: Row, pw: Passwd) { AccountID(r.uid) && r.uid == pw.uid }

  /** The account still is the one this tool's grants were made for. */
  predicate OursAndLive(row: Option<Row>, account: Option<Passwd>) {
    row.Some? &&
    var state := Classify(row.value, account);
    if state == LegacyIdentity then LegacyCounts(row.value, account.value)
    else state in {InService, FirstFieldWitness, HeldInQuarantine}
  }

  /** Somebody still needs the unattended task: a live account, or a deletion it may finish. */
  predicate NeedsTask(row: Option<Row>, account: Option<Passwd>) {
    row.Some? &&
    var state := Classify(row.value, account);
    if state == LegacyIdentity then LegacyCounts(row.value, account.value)
    else state in {InService, FirstFieldWitness, HeldInQuarantine, RecoveryAbsent, RecoveryBound}
  }

  /** Only a present account is ever live, and whatever is live needs its task. */
  lemma LiveNeedsItsTask(row: Option<Row>, account: Option<Passwd>)
    ensures OursAndLive(row, account) ==> account.Some? && NeedsTask(row, account)
    ensures NeedsTask(row, account) && !OursAndLive(row, account) ==> row.Some? && row.value.deletionStarted
  {
  }

  function AccountOf(accounts: Accounts, name: string): Option<Passwd> {
    if name in accounts then Some(accounts[name]) else None
  }

  /** What a scan asks of a name: for grants a live account, for tasks a use. */
  predicate Wanted(rows: seq<Row>, accounts: Accounts, name: string, forTasks: bool) {
    if forTasks then NeedsTask(Lookup(rows, name), AccountOf(accounts, name))
    else OursAndLive(Lookup(rows, name), AccountOf(accounts, name))
  }

  type Accounts = map<string, Passwd>

  /** `past`: the account databases of one sweep, oldest first. At some moment of it: */
  ghost predicate EverWanted(rows: seq<Row>, past: seq<Accounts>, name: string, forTasks: bool) {
    exists i :: 0 <= i < |past| && Wanted(rows, past[i], name, forTasks)
  }

  ghost predicate EverUnwanted(rows: seq<Row>, past: seq<Accounts>, name: string, forTasks: bool) {
    exists i :: 0 <= i < |past| && !Wanted(rows, past[i], name, forTasks)
  }

  ghost predicate EverAbsent(past: seq<Accounts>, name: string) {
    exists i :: 0 <= i < |past| && name !in past[i]
  }

  /** Nobody changed the account database. */
  ghost predicate HeldStill(past: seq<Accounts>) {
    forall i | 0 <= i < |past| :: past[i] == past[|past| - 1]
  }

  lemma EverOn(rows: seq<Row>, a: seq<Accounts>, b: seq<Accounts>, forTasks: bool)
    requires a <= b
    ensures forall n | EverWanted(rows, a, n, forTasks) :: EverWanted(rows, b, n, forTasks)
    ensures forall n | EverUnwanted(rows, a, n, forTasks) :: EverUnwanted(rows, b, n, forTasks)
    ensures forall n | EverAbsent(a, n) :: EverAbsent(b, n)
  {
    hide Wanted;
    forall n | EverWanted(rows, a, n, forTasks) ensures EverWanted(rows, b, n, forTasks) {
      var i :| 0 <= i < |a| && Wanted(rows, a[i], n, forTasks);
      assert Wanted(rows, b[i], n, forTasks);
    }
    forall n | EverUnwanted(rows, a, n, forTasks) ensures EverUnwanted(rows, b, n, forTasks) {
      var i :| 0 <= i < |a| && !Wanted(rows, a[i], n, forTasks);
      assert !Wanted(rows, b[i], n, forTasks);
    }
    forall n | EverAbsent(a, n) ensures EverAbsent(b, n) {
      var i :| 0 <= i < |a| && n !in a[i];
      assert n !in b[i];
    }
  }

  /** What a scan says of the names it has looked at, each at its own moment. */
  ghost predicate Told(
    rows: seq<Row>, past: seq<Accounts>, live: set<string>, orphans: set<string>, forTasks: bool)
  {
    (forall n | n in live :: EverWanted(rows, past, n, forTasks)) &&
    (forall n | n in orphans :: EverUnwanted(rows, past, n, forTasks))
  }

  lemma NobodyTold(rows: seq<Row>, past: seq<Accounts>, forTasks: bool)
    ensures Told(rows, past, {}, {}, forTasks)
  {
  }

  lemma OneMoreTold(
    rows: seq<Row>, a: seq<Accounts>, b: seq<Accounts>, live: set<string>, orphans: set<string>, n: string,
    forTasks: bool)
    requires a <= b && b != [] && Told(rows, a, live, orphans, forTasks)
    ensures if Wanted(rows, b[|b| - 1], n, forTasks) then Told(rows, b, live + {n}, orphans, forTasks)
            else Told(rows, b, live, orphans + {n}, forTasks)
  {
    EverOn(rows, a, b, forTasks);
    hide Wanted;
  }

  /** In a database that holds still an absent name is live at no moment, nor is one without a use. */
  lemma StillMeansGone(rows: seq<Row>, past: seq<Accounts>, name: string)
    requires past != [] && HeldStill(past)
    ensures EverAbsent(past, name) ==> name !in past[|past| - 1] && !EverWanted(rows, past, name, false)
    ensures EverUnwanted(rows, past, name, true) ==>
      !Wanted(rows, past[|past| - 1], name, true) && !EverWanted(rows, past, name, false)
  {
    hide Classify, Matches, Lookup, LegacyCounts;
    LiveNeedsItsTask(Lookup(rows, name), AccountOf(past[|past| - 1], name));
  }

  datatype Outcome = Clean | Incomplete | Stopped

  class Sweeper {
    var rows: seq<Row>
    var accounts: Accounts
    var sudo: set<string>
    var sshd: set<string>
    var tasks: set<string>
    ghost var past: seq<Accounts>

    ghost predicate Valid()
      reads this
    {
      past != [] && past[|past| - 1] == accounts
    }

    constructor (rows: seq<Row>, accounts: Accounts, sudo: set<string>, sshd: set<string>, tasks: set<string>)
      ensures Valid() && this.rows == rows && this.accounts == accounts
      ensures this.sudo == sudo && this.sshd == sshd && this.tasks == tasks
    {
      this.rows, this.accounts, this.sudo, this.sshd, this.tasks := rows, accounts, sudo, sshd, tasks;
      past := [accounts];
    }

    /** Anybody may change the account database at any time. */
    method Elapse()
      requires Valid()
      modifies this`accounts, this`past
      ensures Valid() && past == old(past) + [accounts]
    {
      accounts := *;
      past := past + [accounts];
    }

    /** Scans one kind of artifact; any unreadable name makes the whole scan fail. */
    method Orphans(names: set<string>, forTasks: bool) returns (orphans: Option<set<string>>, ghost live: set<string>)
      requires Valid()
      modifies this`accounts, this`past
      ensures Valid() && old(past) <= past
      ensures orphans.Some? ==> orphans.value + live == names && orphans.value !! live
      ensures orphans.Some? ==> Told(rows, past, live, orphans.value, forTasks)
    {
      hide Wanted, Told;
      var found: set<string>, left := {}, names;
      live := {};
      NobodyTold(rows, past, forTasks);
      while left != {}
        invariant Valid() && old(past) <= past
        invariant left <= names && live <= names - left && found == names - left - live
        invariant Told(rows, past, live, found, forTasks)
        decreases |left|
      {
        var n :| n in left;
        ghost var before := past;
        Elapse();
        OneMoreTold(rows, before, past, live, found, n, forTasks);
        if * { return None, live; }
        left := left - {n};
        if Wanted(rows, accounts, n, forTasks) {
          live := live + {n};
        } else {
          found := found + {n};
        }
      }
      return Some(found), live;
    }

    /** Removes the given exceptions; only a reported success counts. */
    method SweepSSHD(orphans: set<string>) returns (o: Outcome, failed: set<string>)
      requires Valid()
      modifies this`accounts, this`past, this`sshd
      ensures Valid() && old(past) <= past
      ensures old(sshd) - orphans <= sshd <= old(sshd)
      ensures o != Stopped ==> orphans * sshd <= failed && failed <= orphans && (o == Clean <==> failed == {})
    {
      o, failed := Clean, {};
      var left := orphans;
      while left != {}
        invariant left <= orphans && failed <= orphans - left && (o == Clean <==> failed == {}) && o != Stopped
        invariant old(sshd) - orphans <= sshd <= old(sshd) && (orphans - left) * sshd <= failed
        invariant Valid() && old(past) <= past
        decreases |left|
      {
        var n :| n in left;
        left := left - {n};
        Elapse();
        if * { return Stopped, failed; }
        var gone, reported := *, *;
        if gone || reported { sshd := sshd - {n}; }
        if !reported { o, failed := Incomplete, failed + {n}; }
      }
    }

    /** Here the file is the grant: a failed removal only counts while the file may still be there. */
    method SweepSudo(orphans: set<string>) returns (o: Outcome, failed: set<string>)
      requires Valid()
      modifies this`accounts, this`past, this`sudo
      ensures Valid() && old(past) <= past
      ensures old(sudo) - orphans <= sudo <= old(sudo)
      ensures o != Stopped ==> orphans * sudo <= failed && failed <= orphans && (o == Clean ==> failed == {})
    {
      o, failed := Clean, {};
      var left := orphans;
      while left != {}
        invariant left <= orphans && failed <= orphans - left && (o == Clean ==> failed == {}) && o != Stopped
        invariant old(sudo) - orphans <= sudo <= old(sudo) && (orphans - left) * sudo <= failed
        invariant Valid() && old(past) <= past
        decreases |left|
      {
        var n :| n in left;
        left := left - {n};
        Elapse();
        if * { return Stopped, failed; }
        var gone, reported := *, *;
        if gone || reported { sudo := sudo - {n}; }
        if !reported {
          o := Incomplete;
          var unsure := *;
          if n in sudo || unsure { failed := failed + {n}; }
        }
      }
    }

    /** A task stays as long as some grant of its name may still be there. */
    method SweepTasks(orphans: set<string>, incomplete: bool, pinned: set<string>) returns (o: Outcome)
      requires Valid()
      modifies this`accounts, this`past, this`tasks
      ensures Valid() && old(past) <= past
      ensures tasks <= old(tasks)
      ensures old(tasks) - tasks <= (if incomplete then {} else orphans - pinned)
      ensures o == Clean ==> orphans * tasks == {}
    {
      o := Clean;
      var left := orphans;
      while left != {}
        invariant left <= orphans && o != Stopped && tasks <= old(tasks)
        invariant old(tasks) - tasks <= (if incomplete then {} else orphans - pinned)
        invariant Valid() && old(past) <= past
        invariant o == Clean ==> (orphans - left) * tasks == {}
        decreases |left|
      {
        var n :| n in left;
        left := left - {n};
        Elapse();
        if * { return Stopped; }
        if incomplete || n in pinned {
          o := Incomplete;
        } else {
          var gone, reported := *, *;
          if gone || reported { tasks := tasks - {n}; }
          if !reported { o := Incomplete; }
        }
      }
    }

    /** Ordinary rows of accounts that are absent, and whose database leaves no trace of them, are dropped. */
    method CompactRegistry() returns (o: Outcome, ghost gone: set<string>)
      requires Valid() && Tables.Valid(rows)
      modifies this`accounts, this`past, this`rows
      ensures Valid() && old(past) <= past
      ensures rows == old(rows) || rows == Compacted(old(rows), gone)
      ensures forall n | n in gone :: EverAbsent(past, n)
      ensures Tables.Valid(rows)
      ensures o == Clean ==> rows == Compacted(old(rows), gone) && FoundGone(old(rows), past[|old(past)|..], gone)
    {
      hide FoundGone, Tables.Valid, Compacted, NamesIn, EverAbsent, EverWanted, EverUnwanted;
      gone := {};
      NothingScanned();
      var kept := [];
      ghost var looks := [];
      for i := 0 to |rows|
        invariant Valid() && old(past) <= past
        invariant rows == old(rows) && kept == Compacted(rows[..i], gone)
        invariant gone <= NamesIn(rows[..i]) && |kept| <= i && (|kept| == i ==> kept == rows[..i])
        invariant past == old(past) + looks && FoundGone(rows[..i], looks, gone)
        invariant forall n | n in gone :: EverAbsent(past, n)
      {
        var r := rows[i];
        assert rows[..i + 1] == rows[..i] + [r];
        NewName(rows, i);
        ScanOne(rows[..i], r, gone);
        ghost var before, gone0 := past, gone;
        Elapse();
        EverOn(rows, before, past, false);
        if * { return Stopped, gone; }
        if r.deletionStarted || r.user in accounts {
          kept := kept + [r];
        } else {
          if * { return Incomplete, gone; }
          AbsentNow(past, r.user);
          gone := gone + {r.user};
        }
        FoundMore(rows[..i], looks, r, accounts, gone0, gone);
        looks := looks + [accounts];
      }
      assert rows[..|rows|] == rows;
      assert past[|old(past)|..] == looks;
      SmallerIsValid(rows, "", gone);
      if * { return Stopped, gone; }
      if |kept| == |rows| { return Clean, gone; }
      if * { return Incomplete, gone; }
      rows := kept;
      var reported := *;
      return if reported then Clean else Incomplete, gone;
    }

    /**
     The whole sweep. A row is only dropped for a name found absent, a task only
     for a name nobody needs one for; and a grant is left behind for such a name
     only if another moment of this very sweep had the account live.
     */
    method CompactLocked() returns (o: Outcome, ghost gone: set<string>, ghost from: nat)
      requires Tables.Valid(rows)
      modifies this
      ensures Valid() && sudo <= old(sudo) && sshd <= old(sshd) && tasks <= old(tasks)
      ensures rows == old(rows) || rows == Compacted(old(rows), gone)
      ensures rows != old(rows) ==> forall n | n in gone :: EverAbsent(past, n) && Left(old(rows), n)
      ensures forall n | n in old(tasks) - tasks :: EverUnwanted(old(rows), past, n, true) && Left(old(rows), n)
      ensures HeldStill(past) ==>
        (rows != old(rows) ==> forall n | n in gone :: n !in accounts && n !in sudo && n !in sshd) &&
        (forall n | n in old(tasks) - tasks :: !Wanted(old(rows), accounts, n, true) && n !in sudo && n !in sshd)
      ensures from <= |past| && forall n | n in old(sudo) - sudo || n in old(sshd) - sshd ::
        EverUnwanted(old(rows), past[..from], n, false)
      ensures o == Clean ==> rows == Compacted(old(rows), gone) && FoundGone(old(rows), past[from..], gone)
    {
      hide Wanted, EverWanted, EverUnwanted, EverAbsent, HeldStill, Tables.Valid, Compacted;
      past := [accounts];
      gone, from := {}, 0;
      ghost var rows0 := rows;
      var incomplete, clean, pinned := SweepGrants();
      from := |past|;
      assert past[..from] == past;
      if clean == None { return Stopped, gone, from; }
      var tidy := clean.value;
      ghost var past1 := past;
      var orphans;
      ghost var needed;
      orphans, needed := Orphans(tasks, true);
      ghost var past2 := past;
      if orphans.Some? {
        o := SweepTasks(orphans.value, incomplete, pinned);
        tidy := tidy && o == Clean;
      } else {
        o, tidy := Incomplete, false;
      }
      EverOn(rows0, past1, past, false);
      EverOn(rows0, past2, past, true);
      ghost var past3 := past;
      from := |past|;
      EverOn(rows0, past1, past3, false);
      if o != Stopped && tidy {
        o, gone := CompactRegistry();
      } else if o != Stopped {
        o := Incomplete;
      }
      assert past[..from] == past3;
      EverOn(rows0, past3, past, false);
      EverOn(rows0, past3, past, true);
      if HeldStill(past) {
        forall n { StillMeansGone(rows0, past, n); }
      }
    }

    /** A grant that is still there belongs to an account some scan found live. */
    ghost predicate Left(rows0: seq<Row>, name: string)
      reads this
    {
      name in sudo || name in sshd ==> EverWanted(rows0, past, name, false)
    }

    /** Both kinds of grants; `pinned` are the names whose removal did not go through. */
    method SweepGrants() returns (incomplete: bool, clean: Option<bool>, pinned: set<string>)
      requires Valid()
      modifies this`accounts, this`past, this`sudo, this`sshd
      ensures Valid() && old(past) <= past && sudo <= old(sudo) && sshd <= old(sshd)
      ensures clean.Some? && !incomplete ==>
        (forall n | n in sudo && n !in pinned :: EverWanted(rows, past, n, false)) &&
        (forall n | n in sshd && n !in pinned :: EverWanted(rows, past, n, false))
      ensures clean == Some(true) ==> !incomplete && pinned == {}
      ensures forall n | n in old(sudo) - sudo || n in old(sshd) - sshd :: EverUnwanted(rows, past, n, false)
    {
      hide Wanted, EverWanted, EverUnwanted, EverAbsent;
      incomplete, clean, pinned := false, Some(true), {};
      var orphans, failed, o;
      ghost var liveSSHD, liveSudo;
      orphans, liveSSHD := Orphans(sshd, false);
      ghost var past1 := past;
      if orphans.Some? {
        o, failed := SweepSSHD(orphans.value);
        EverOn(rows, past1, past, false);
        if o == Stopped { clean := None; return; }
        pinned, clean := failed, Some(o == Clean);
      } else {
        incomplete, clean := true, Some(false);
      }
      EverOn(rows, past1, past, false);
      ghost var past2 := past;
      orphans, liveSudo := Orphans(sudo, false);
      EverOn(rows, past2, past, false);
      ghost var past3 := past;
      if orphans.Some? {
        o, failed := SweepSudo(orphans.value);
        EverOn(rows, past2, past, false);
        EverOn(rows, past3, past, false);
        if o == Stopped { clean := None; return; }
        pinned, clean := pinned + failed, Some(clean.value && o == Clean);
      } else {
        incomplete, clean := true, Some(false);
      }
      EverOn(rows, past3, past, false);
    }
  }

  lemma AbsentNow(past: seq<Accounts>, n: string)
    requires past != [] && n !in past[|past| - 1]
    ensures EverAbsent(past, n)
  {
  }

  /**
   Why the account database has to hold still. An account that is live at every
   moment until the registry's turn and absent at its row's look: every sweep
   that ends clean leaves its grant and drops its row.
   */
  method SweepVanishing(s: Sweeper, i: nat) returns (o: Outcome, ghost from: nat)
    requires Tables.Valid(s.rows) && i < |s.rows| && !s.rows[i].deletionStarted && s.rows[i].user in s.sudo
    modifies s
    ensures from <= |s.past| && (o == Clean ==> |s.past| == from + |old(s.rows)|)
    ensures var name := old(s.rows[i].user);
      o == Clean && name !in s.past[from + i] &&
      (forall k | 0 <= k < from :: Wanted(old(s.rows), s.past[k], name, false)) ==>
        name in s.sudo && forall r | r in s.rows :: r.user != name
  {
    hide Wanted, Compacted, EverWanted, EverAbsent, HeldStill, Tables.Valid;
    ghost var rows0 := s.rows;
    ghost var gone;
    o, gone, from := s.CompactLocked();
    ghost var name := rows0[i].user;
    if o == Clean {
      assert s.past[from..][i] == s.past[from + i];
      if name in gone { CompactedDrops(rows0, gone, i); }
      if name !in s.sudo {
        assert EverUnwanted(rows0, s.past[..from], name, false);
        var k :| 0 <= k < from && !Wanted(rows0, s.past[..from][k], name, false);
        assert !Wanted(rows0, s.past[k], name, false);
      }
    }
  }

  lemma CompactedDrops(rows: seq<Row>, gone: set<string>, i: nat)
    requires Tables.Valid(rows) && i < |rows| && !rows[i].deletionStarted && rows[i].user in gone
    ensures forall r | r in Compacted(rows, gone) :: r.user != rows[i].user
  {
    CompactedHas(rows, gone);
    forall r | r in rows && r.user == rows[i].user ensures r == rows[i] {
      var j :| 0 <= j < |rows| && rows[j] == r;
    }
  }

  /** `gone` are the ordinary rows whose name was absent when its turn came. */
  ghost predicate FoundGone(rows: seq<Row>, looks: seq<Accounts>, gone: set<string>) {
    |looks| == |rows| && forall i | 0 <= i < |rows| ::
      rows[i].user in gone <==> !rows[i].deletionStarted && rows[i].user !in looks[i]
  }

  lemma FoundMore(rows: seq<Row>, looks: seq<Accounts>, r: Row, now: Accounts, before: set<string>, gone: set<string>)
    requires FoundGone(rows, looks, before) && r.user !in NamesIn(rows) && before <= NamesIn(rows)
    requires gone == before + if r.deletionStarted || r.user in now then {} else {r.user}
    ensures FoundGone(rows + [r], looks + [now], gone)
  {
    forall i | 0 <= i < |rows| ensures rows[i].user != r.user {
      assert rows[i] in rows;
    }
  }

  ghost function NamesIn(rows: seq<Row>): set<string> { set r | r in rows :: r.user }

  lemma NothingScanned()
    ensures Compacted([], {}) == [] && NamesIn([]) == {} && FoundGone([], [], {})
  {
  }

  /** What one more row adds to the table that is kept. */
  lemma ScanOne(rows: seq<Row>, r: Row, gone: set<string>)
    requires gone <= NamesIn(rows) && r.user !in NamesIn(rows)
    ensures Compacted(rows + [r], gone) == Compacted(rows, gone) + [r]
    ensures !r.deletionStarted ==> Compacted(rows + [r], gone + {r.user}) == Compacted(rows, gone)
    ensures NamesIn(rows + [r]) == NamesIn(rows) + {r.user}
  {
    assert (rows + [r])[..|rows|] == rows;
    CompactedMore(rows, gone, r.user);
  }

  lemma NewName(rows: seq<Row>, i: nat)
    requires Tables.Valid(rows) && i < |rows|
    ensures rows[i].user !in NamesIn(rows[..i])
  {
    forall r | r in rows[..i] ensures r.user != rows[i].user {
      var j :| 0 <= j < i && rows[j] == r;
    }
  }

  lemma {:induction false} CompactedMore(rows: seq<Row>, gone: set<string>, name: string)
    requires name !in NamesIn(rows)
    ensures Compacted(rows, gone + {name}) == Compacted(rows, gone)
  {
    if rows != [] {
      assert rows == rows[..|rows| - 1] + [rows[|rows| - 1]];
      assert rows[|rows| - 1] in rows;
      assert name !in NamesIn(rows[..|rows| - 1]);
      CompactedMore(rows[..|rows| - 1], gone, name);
    }
  }
}
