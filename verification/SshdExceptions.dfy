/**
 The per-account sshd exceptions of internal/sshdconf/sshdconf.go: a drop-in
 file, a durable marker for a removal that still owes sshd a reload, and the
 configuration the running daemon has in memory.
 */
module SshdExceptions {
  import opened Storage
  import opened Validate
  import opened Wrappers
  import opened LoginCheck
  import opened DropIn

  const FILE_PREFIX := "10-linux-temp-admin-"
  const CONF := ".conf"
  const PENDING := ".conf.remove-pending"

  function DropInName(user: string): string { FILE_PREFIX + user + CONF }
  function PendingName(user: string): string { FILE_PREFIX + user + PENDING }

  predicate HasSuffix(s: string, suffix: string) {
    |suffix| <= |s| && s[|s| - |suffix|..] == suffix
  }

  function TrimSuffix(s: string, suffix: string): string {
    if HasSuffix(s, suffix) then s[..|s| - |suffix|] else s
  }

  function TrimPrefix(s: string, prefix: string): string {
    if prefix <= s then s[|prefix|..] else s
  }

  /** What a directory entry tells All: not ours, an account, or a broken name. */
  datatype Owner = Unrelated | Account(user: string) | Malformed

  function OwnerOf(name: string): Owner {
    if !(FILE_PREFIX <= name) then Unrelated
    else if HasSuffix(name, PENDING) then Checked(TrimSuffix(TrimPrefix(name, FILE_PREFIX), PENDING))
    else if HasSuffix(name, CONF) then Checked(TrimSuffix(TrimPrefix(name, FILE_PREFIX), CONF))
    else Unrelated
  }

  function Checked(user: string): Owner {
    if Username(user) then Account(user) else Malformed
  }

  lemma TrimAppended(stem: string, suffix: string)
    ensures HasSuffix(stem + suffix, suffix) && TrimSuffix(stem + suffix, suffix) == stem
  {
    assert (stem + suffix)[|stem|..] == suffix && (stem + suffix)[..|stem|] == stem;
  }

  /** The last byte tells a marker from a drop-in. */
  lemma SuffixesDiffer(name: string)
    ensures HasSuffix(name, PENDING) ==> !HasSuffix(name, CONF)
  {
    LastByte(name, PENDING);
    LastByte(name, CONF);
  }

  lemma LastByte(name: string, suffix: string)
    requires suffix != ""
    ensures HasSuffix(name, suffix) ==> name != "" && name[|name| - 1] == suffix[|suffix| - 1]
  {
    if HasSuffix(name, suffix) {
      assert name[|name| - |suffix|..][|suffix| - 1] == name[|name| - 1];
    }
  }

  /** An entry's stem, spelled out: prefix, account, suffix. */
  lemma OwnerOfSpelledOut(user: string, suffix: string)
    requires suffix == CONF || suffix == PENDING
    ensures OwnerOf(FILE_PREFIX + user + suffix) == Checked(user)
  {
    var name := FILE_PREFIX + user + suffix;
    TrimAppended(FILE_PREFIX + user, suffix);
    TrimAppended(user, suffix);
    SuffixesDiffer(name);
    assert name[|FILE_PREFIX|..] == user + suffix;
  }

  /** File names identify their account, and drop-ins are never markers. */
  lemma OwnerOfName(name: string, user: string)
    requires Username(user)
    ensures OwnerOf(name) == Account(user) <==> name == DropInName(user) || name == PendingName(user)
    ensures DropInName(user) != PendingName(user)
  {
    OwnerOfSpelledOut(user, CONF);
    OwnerOfSpelledOut(user, PENDING);
    if OwnerOf(name) == Account(user) {
      var suffix := if HasSuffix(name, PENDING) then PENDING else CONF;
      NameFromOwner(name, user, suffix);
    }
  }

  lemma NameFromOwner(name: string, user: string, suffix: string)
    requires suffix == CONF || suffix == PENDING
    requires FILE_PREFIX <= name && HasSuffix(name, suffix)
    requires TrimSuffix(TrimPrefix(name, FILE_PREFIX), suffix) == user && Username(user)
    ensures name == FILE_PREFIX + user + suffix
  {
    hide Username;
    var rest := TrimPrefix(name, FILE_PREFIX);
    assert name == FILE_PREFIX + rest;
    NoSuffixWithoutDot(user, suffix);
    assert HasSuffix(rest, suffix);
    assert rest == user + suffix;
  }

  lemma NoSuffixWithoutDot(user: string, suffix: string)
    requires suffix == CONF || suffix == PENDING
    requires Username(user)
    ensures !HasSuffix(FILE_PREFIX + user, suffix)
  {
    var name := FILE_PREFIX + user;
    assert forall i | 0 <= i < |name| :: name[i] != '.';
    assert |suffix| <= |name| ==> name[|name| - |suffix|..][0] == name[|name| - |suffix|];
  }

  /** What asking the running daemon to re-read its configuration can report. */
  datatype Reload = Adopted | NoMechanism | ReloadFailed | ReloadKilled

  datatype Granting =
    | Granted(reloaded: bool)
    | Declined     // refused before anything was written
    | RolledBack   // the exception could not be proved and was taken back
    | Unfinished   // taking it back failed too; a retry is owed
    | GrantKilled

  /** One call on behalf of anybody, or the machine going down. */
  datatype Request = ToGrant(user: string, groups: seq<string>, report: Report) | ToRemove(user: string) | LosePower

  datatype Removing = Removed | RemovalFailed | RemovalKilled

  /** Staged: there was something to remove, with or without an older marker. */
  datatype Staging = Nothing | Staged(pendingExisted: bool) | StageFailed | StageKilled

  predicate Free(files: Files, user: string) {
    DropInName(user) !in files && PendingName(user) !in files
  }

  /** Whatever state power loss falls back to, the account has no exception. */
  ghost predicate Lasting(user: string, chain: seq<Files>) { forall files | files in chain :: Free(files, user) }

  /**
   The marker of a removal goes, but the directory is not synced: nothing is
   left to be seen, so the next removal succeeds at once and changes nothing;
   and power loss brings the marker back.
   */
  lemma UnsyncedRemoval(user: string, entries: Files, chain: seq<Files>)
    requires chain != [] && chain[|chain| - 1] == entries
    requires DropInName(user) !in entries && PendingName(user) in entries
    ensures var after := entries - {PendingName(user)};
      Effect(entries, chain, after, NotDurable, after, chain + [after]) && Free(after, user) && !Lasting(user, chain + [after])
  {
    var after := entries - {PendingName(user)};
    assert (chain + [after])[|chain| - 1] == entries;
    assert entries in chain + [after] && !Free(entries, user);
  }

  /** Both directories agree on every entry that is not this account's. */
  ghost predicate SameElsewhere(a: Files, b: Files, user: string) {
    a - {DropInName(user), PendingName(user)} == b - {DropInName(user), PendingName(user)}
  }

  /** Whatever the daemon may still enforce for an account has a file to find it by. */
  ghost predicate Tracked(loaded: Files, entries: Files) {
    forall user | Username(user) && DropInName(user) in loaded :: !Free(entries, user)
  }

  lemma OthersStayFree(a: Files, b: Files, user: string, other: string)
    requires Username(user) && Username(other) && user != other
    requires SameElsewhere(a, b, user)
    ensures Free(a, other) <==> Free(b, other)
    ensures DropInName(other) in a <==> DropInName(other) in b
  {
    hide OwnerOf, DropInName, PendingName, Username;
    OwnerOfName(DropInName(other), other);
    OwnerOfName(PendingName(other), other);
    OwnerOfName(DropInName(other), user);
    OwnerOfName(PendingName(other), user);
    var mine := {DropInName(user), PendingName(user)};
    assert forall name | name !in mine :: name in a <==> name in a - mine;
    assert forall name | name !in mine :: name in b <==> name in b - mine;
  }

  lemma TrackedElsewhere(loaded: Files, before: Files, after: Files, user: string)
    requires Username(user) && Tracked(loaded, before) && SameElsewhere(before, after, user)
    requires DropInName(user) in loaded ==> !Free(after, user)
    ensures Tracked(loaded, after)
  {
    forall other | Username(other) && DropInName(other) in loaded ensures !Free(after, other) {
      if other != user { OthersStayFree(before, after, user, other); }
    }
  }

  datatype State = State(entries: Files, chain: seq<Files>, loaded: Files) {

    /** Every account without a visible exception has none in any state, but for these. */
    ghost predicate Known(unsure: set<string>) {
      forall u | Username(u) && u !in unsure && Free(entries, u) :: Lasting(u, chain)
    }

    /** These accounts are gone from disk and daemon; the durable ones from every fallback state too. */
    ghost predicate Gone(removed: set<string>, durable: set<string>) {
      (forall u | u in removed :: Username(u) && Free(entries, u) && DropInName(u) !in loaded) &&
      durable <= removed &&
      forall u, files | u in durable && files in chain :: Free(files, u)
    }
  }

  /** Settled: visible, or synced away. Untouched: nothing changed. Doubtful: an error or a kill. */
  datatype Knowledge = Settled | Untouched | Doubtful

  lemma KnownOn(user: string, before: State, after: State, unsure: set<string>, k: Knowledge)
    requires OnlyTouches(user, before, after) && before.Known(unsure)
    requires k == Settled && Free(after.entries, user) ==> after.chain == [after.entries]
    requires k == Untouched ==> after == before
    ensures after.Known(match k case Settled => unsure - {user} case Untouched => unsure case Doubtful => unsure + {user})
  {
    if Username(user) && k != Untouched {
      forall u | Username(u) && u != user && u !in unsure && Free(after.entries, u) ensures Lasting(u, after.chain) {
        OthersStayFree(before.entries, after.entries, user, u);
        assert Lasting(u, before.chain);
        forall files | files in after.chain ensures Free(files, u) {
          if files !in before.chain { OthersStayFree(files, after.entries, user, u); }
        }
      }
    }
  }

  /** A call for one account leaves every other account's state as it was. */
  ghost predicate OnlyTouches(user: string, before: State, after: State) {
    if !Username(user) then after == before
    else
      SameElsewhere(before.entries, after.entries, user) &&
      (after.loaded == before.loaded || SameElsewhere(after.loaded, after.entries, user)) &&
      forall files | files in after.chain :: files in before.chain || SameElsewhere(files, after.entries, user)
  }

  lemma OthersKept(user: string, before: State, after: State, removed: set<string>, durable: set<string>)
    requires OnlyTouches(user, before, after) && user !in removed && before.Gone(removed, durable)
    ensures after.Gone(removed, durable)
  {
    if Username(user) {
      forall u | u in removed ensures Free(after.entries, u) && DropInName(u) !in after.loaded {
        OthersStayFree(before.entries, after.entries, user, u);
        if after.loaded != before.loaded { OthersStayFree(after.loaded, after.entries, user, u); }
      }
      forall u, files | u in durable && files in after.chain ensures Free(files, u) {
        if files !in before.chain { OthersStayFree(files, after.entries, user, u); }
      }
    }
  }

  class Manager {
    const dir: Directory
    var loaded: Files

    constructor (dir: Directory)
      requires dir.Valid()
      ensures this.dir == dir && loaded == dir.entries && Safe()
    {
      this.dir := dir;
      loaded := dir.entries;
    }

    ghost predicate Valid()
      reads this, dir
    {
      dir.Valid()
    }

    ghost predicate Safe()
      reads this, dir
    {
      Valid() && Tracked(loaded, dir.entries)
    }

    /** An oracle with no effect on the host: a probe, sshd -t or sshd -T. */
    method Ask() returns (killed: bool, ok: bool) {
      killed := *;
      ok := *;
    }

    method ReloadDaemon() returns (r: Reload)
      requires Safe()
      modifies this`loaded
      ensures Safe()
      ensures r == Adopted ==> loaded == dir.entries
      ensures r == NoMechanism ==> loaded == old(loaded)
      ensures loaded == old(loaded) || loaded == dir.entries
    {
      if * { return NoMechanism; }
      if * { return ReloadKilled; }
      if * { return ReloadFailed; }
      loaded := dir.entries;
      if * { return ReloadKilled; }
      if * { return ReloadFailed; }
      return Adopted;
    }

    ghost function Now(): State
      reads this, dir
    {
      State(dir.entries, dir.chain, loaded)
    }

    method StageRemoval(user: string) returns (s: Staging)
      requires Safe() && Username(user)
      modifies dir
      ensures Safe() && OnlyTouches(user, old(Now()), Now())
      ensures s == Nothing <==> Free(old(dir.entries), user) && !s.StageFailed? && !s.StageKilled?
      ensures Free(dir.entries, user) ==> Free(old(dir.entries), user)
      ensures Free(old(dir.entries), user) ==> dir.entries == old(dir.entries) && dir.chain == old(dir.chain) && !s.Staged?
      ensures s.Staged? ==> s.pendingExisted == (PendingName(user) in old(dir.entries))
      ensures s.Staged? ==> DropInName(user) !in dir.entries && PendingName(user) in dir.entries
    {
      OwnerOfName(DropInName(user), user);
      var path, pending := DropInName(user), PendingName(user);
      var killed, ok := Ask();
      if killed { return StageKilled; }
      if !ok { return StageFailed; }
      var dropInExists, pendingExists := path in dir.entries, pending in dir.entries;
      if !dropInExists && !pendingExists { return Nothing; }
      if pendingExists {
        killed, ok := Ask();
        if killed { return StageKilled; }
        if !ok || dir.entries[pending] != "" { return StageFailed; }
      }
      if !dropInExists { return Staged(pendingExists); }
      if !pendingExists {
        var wrote := dir.AtomicWrite(pending, "");
        TrackedElsewhere(loaded, old(dir.entries), dir.entries, user);
        if wrote == Killed { return StageKilled; }
        if wrote != Done { return StageFailed; }
      }
      var removed := dir.RemoveFile(path);
      TrackedElsewhere(loaded, old(dir.entries), dir.entries, user);
      if removed == Killed { return StageKilled; }
      if removed != Done { return StageFailed; }
      killed, ok := Ask();
      if killed { return StageKilled; }
      if !ok || path in dir.entries { return StageFailed; }
      var synced := dir.Sync();
      if synced == Killed { return StageKilled; }
      if synced != Done { return StageFailed; }
      return Staged(pendingExists);
    }

    method ClearPending(user: string) returns (o: Outcome)
      requires Safe() && Username(user)
      requires DropInName(user) in loaded ==> DropInName(user) in dir.entries
      modifies dir
      ensures Safe() && OnlyTouches(user, old(Now()), Now())
      ensures o == Done ==> dir.entries == old(dir.entries) - {PendingName(user)} && dir.chain == [dir.entries]
      ensures o == Failed ==> dir.entries == old(dir.entries)
      ensures o == NotDurable ==> old(dir.entries) in dir.chain
    {
      OwnerOfName(DropInName(user), user);
      o := dir.RemoveFile(PendingName(user));
      TrackedElsewhere(loaded, old(dir.entries), dir.entries, user);
    }

    method FinishRemoval(user: string) returns (r: Removing)
      requires Safe() && Username(user) && DropInName(user) !in dir.entries
      modifies this`loaded, dir
      ensures Safe() && OnlyTouches(user, old(Now()), Now())
      ensures loaded == old(loaded) || loaded == old(dir.entries)
      ensures r == Removed ==> Free(dir.entries, user) && dir.chain == [dir.entries] && loaded == old(dir.entries)
      ensures r == RemovalFailed && Free(dir.entries, user) ==> dir.entries == old(dir.entries) || old(dir.entries) in dir.chain
    {
      var killed, ok := Ask();
      if killed { return RemovalKilled; }
      if !ok { return RemovalFailed; }
      var reload := ReloadDaemon();
      if reload == ReloadKilled { return RemovalKilled; }
      if reload != Adopted { return RemovalFailed; }
      var cleared := ClearPending(user);
      if cleared == Killed { return RemovalKilled; }
      if cleared != Done { return RemovalFailed; }
      return Removed;
    }

    /**
     Removes whatever exception the account has. Success means no drop-in, no
     marker, and a daemon that does not hold it; it outlives a power loss if this
     call found something to remove. One that fails and leaves nothing to be seen
     does not, and a later call that finds nothing does nothing about it.
     */
    method Remove(user: string) returns (r: Removing)
      requires Safe()
      modifies this`loaded, dir
      ensures Safe() && OnlyTouches(user, old(Now()), Now())
      ensures !Username(user) ==> r == RemovalFailed
      ensures Free(old(dir.entries), user) ==> Now() == old(Now())
      ensures r == Removed ==> Free(dir.entries, user) && DropInName(user) !in loaded
      ensures r == Removed && !Free(old(dir.entries), user) ==> dir.chain == [dir.entries]
      ensures r == RemovalFailed && !Free(old(dir.entries), user) && Free(dir.entries, user) ==> !Lasting(user, dir.chain)
    {
      if !Username(user) { return RemovalFailed; }
      var staging := StageRemoval(user);
      match staging
      case StageKilled => return RemovalKilled;
      case StageFailed => return RemovalFailed;
      case Nothing => return Removed;
      case Staged(_) =>
        r := FinishRemoval(user);
    }

    /**
     A removal that fails is tried again. Its success outlives a power loss if and
     only if the first attempt succeeded or left something to be seen.
     */
    method RemoveAndRetry(user: string) returns (first: Removing, left: bool, r: Removing)
      requires Safe()
      modifies this`loaded, dir
      ensures Safe()
      ensures r == Removed ==> Free(dir.entries, user) && DropInName(user) !in loaded
      ensures r == Removed && !Free(old(dir.entries), user) ==>
        (Lasting(user, dir.chain) <==> first == Removed || left)
    {
      first := Remove(user);
      left := DropInName(user) in dir.entries || PendingName(user) in dir.entries;
      r := first;
      if first == RemovalFailed { r := Remove(user); }
    }

    /** Undoes a grant that could not be proved; `reloadTried` says a reload began. */
    method Rollback(user: string, preexisting: bool, reloadTried: bool) returns (r: Granting)
      requires Safe() && Username(user) && DropInName(user) in dir.entries
      requires !reloadTried && !preexisting && PendingName(user) !in dir.entries ==> DropInName(user) !in loaded
      modifies this`loaded, dir
      ensures Safe() && OnlyTouches(user, old(Now()), Now())
      ensures r in {RolledBack, Unfinished, GrantKilled}
      ensures r == RolledBack ==>
        Free(dir.entries, user) && DropInName(user) !in loaded && dir.chain == [dir.entries]
    {
      var staging := StageRemoval(user);
      match staging
      case StageKilled => return GrantKilled;
      case StageFailed => return Unfinished;
      case Nothing => return RolledBack;
      case Staged(pendingExisted) =>
        if !reloadTried && !pendingExisted && !preexisting {
          var cleared := ClearPending(user);
          if cleared == Killed { return GrantKilled; }
          return if cleared == Done then RolledBack else Unfinished;
        }
        var finished := FinishRemoval(user);
        if finished == RemovalKilled { return GrantKilled; }
        return if finished == Removed then RolledBack else Unfinished;
    }

    /** The written drop-in is validated, found effective and adopted by the daemon, or taken back. */
    method ProveAndAdopt(user: string, groups: seq<string>, preexisting: bool) returns (r: Granting)
      requires Safe() && Username(user) && DropInName(user) in dir.entries
      requires !preexisting && PendingName(user) !in dir.entries ==> DropInName(user) !in loaded
      modifies this`loaded, dir
      ensures Safe() && OnlyTouches(user, old(Now()), Now())
      ensures r != Declined
      ensures r.Granted? ==>
        dir.entries == old(dir.entries) &&
        (r.reloaded ==> loaded == dir.entries) && (!r.reloaded ==> loaded == old(loaded))
      ensures r == RolledBack ==>
        Free(dir.entries, user) && DropInName(user) !in loaded && dir.chain == [dir.entries]
    {
      hide Describes, Username;
      var killed, ok := Ask();
      if killed { return GrantKilled; }
      if !ok { r := Rollback(user, preexisting, false); return; }
      killed, ok := Ask();
      if killed { return GrantKilled; }
      if !ok { r := Rollback(user, preexisting, false); return; }
      var effective: Config := *;
      var proof := CheckKeyLogin(effective, user, groups);
      if !proof.OK() { r := Rollback(user, preexisting, false); return; }
      var reload := ReloadDaemon();
      if reload == ReloadKilled { return GrantKilled; }
      if reload == ReloadFailed { r := Rollback(user, preexisting, true); return; }
      return Granted(reload == Adopted);
    }

    /**
     Writes the exception a report calls for, proves it in the effective
     configuration and asks the daemon to adopt it. A grant that cannot be proved
     is taken back; the reload it then skips is one the daemon does not need.
     */
    method Grant(user: string, groups: seq<string>, report: Report) returns (r: Granting)
      requires Safe()
      modifies this`loaded, dir
      ensures Safe() && OnlyTouches(user, old(Now()), Now())
      ensures r.Granted? ==>
        Username(user) && report.Fixable() &&
        dir.entries == old(dir.entries)[DropInName(user) := FileText(user, groups, report)] &&
        (r.reloaded ==> loaded == dir.entries) && (!r.reloaded ==> loaded == old(loaded))
      ensures r == Declined ==>
        dir.entries == old(dir.entries) && dir.chain == old(dir.chain) && loaded == old(loaded)
      ensures r == RolledBack ==>
        Free(dir.entries, user) && DropInName(user) !in loaded && dir.chain == [dir.entries]
      ensures !(Username(user) && report.Fixable()) ==> r == Declined
    {
      hide FileText, Describes, Username;
      if !Username(user) { return Declined; }
      if report.OK() || !report.Fixable() { return Declined; }
      var rendering := Render(user, groups, report);
      if !rendering.Rendered? { return Declined; }
      OwnerOfName(DropInName(user), user);
      var killed, ok := Ask();
      if killed { return GrantKilled; }
      if !ok { return Declined; }
      killed, ok := Ask();
      if killed { return GrantKilled; }
      if !ok { return Declined; }
      var preexisting := DropInName(user) in dir.entries;
      var wrote := dir.AtomicWrite(DropInName(user), FileText(user, groups, report));
      TrackedElsewhere(loaded, old(dir.entries), dir.entries, user);
      if wrote == Killed { return GrantKilled; }
      if wrote == Failed { return Declined; }
      if wrote == NotDurable {
        r := Rollback(user, preexisting, false);
      } else {
        r := ProveAndAdopt(user, groups, preexisting);
      }
    }

    /** Every account with an artifact; a name that is not an account's is an error. */
    method All() returns (users: Option<set<string>>)
      requires Safe()
      ensures users == None <==> exists name | name in dir.entries :: OwnerOf(name) == Malformed
      ensures users.Some? ==> forall u :: u in users.value <==> Username(u) && !Free(dir.entries, u)
      ensures users.Some? ==> forall u | Username(u) && DropInName(u) in loaded :: u in users.value
    {
      var found := {};
      var left := dir.entries.Keys;
      while left != {}
        invariant left <= dir.entries.Keys
        invariant forall name | name in dir.entries.Keys - left :: OwnerOf(name) != Malformed
        invariant forall u :: u in found <==> exists name | name in dir.entries.Keys - left :: OwnerOf(name) == Account(u)
        decreases |left|
      {
        var name :| name in left;
        left := left - {name};
        match OwnerOf(name)
        case Unrelated =>
        case Malformed => return None;
        case Account(u) => found := found + {u};
      }
      forall u ensures u in found <==> Username(u) && !Free(dir.entries, u) {
        AccountsAreNames(dir.entries, u);
      }
      return Some(found);
    }

    /** Power loss takes the daemon down; it comes back with what is on disk. */
    method Reboot()
      requires Valid()
      modifies this`loaded, dir
      ensures Safe() && dir.entries in old(dir.chain) && dir.chain == [dir.entries] && loaded == dir.entries
    {
      var kept := dir.PowerLoss();
      loaded := dir.entries;
    }

    /** One request, and what its caller may conclude from the result alone. */
    method Handle(request: Request) returns (k: Knowledge)
      requires Safe()
      modifies this`loaded, dir
      ensures Safe()
      ensures request.LosePower? ==> |dir.chain| == 1
      ensures !request.LosePower? ==> OnlyTouches(request.user, old(Now()), Now())
      ensures !request.LosePower? && k == Settled && Free(dir.entries, request.user) ==> dir.chain == [dir.entries]
      ensures k == Untouched ==> Now() == old(Now())
    {
      k := Doubtful;
      match request
      case ToGrant(user, groups, report) =>
        var granting := Grant(user, groups, report);
        if granting == Declined { k := Untouched; }
        if granting.Granted? || granting == RolledBack { k := Settled; }
      case ToRemove(user) =>
        var visible := DropInName(user) in dir.entries || PendingName(user) in dir.entries;
        var removing := Remove(user);
        if removing == Removed { k := if visible then Settled else Untouched; }
      case LosePower =>
        Reboot();
    }

    /**
     Any run of requests, judged by their results alone. Only an account whose
     last request that did anything failed or was killed may have an exception
     that is gone from view and yet comes back with the power.
     */
    method RunKnowing(requests: seq<Request>) returns (unsure: set<string>)
      requires Safe() && Now().Known({})
      modifies this`loaded, dir
      ensures Safe() && Now().Known(unsure)
    {
      hide Safe, Username, Free, OnlyTouches, Lasting;
      unsure := {};
      for n := 0 to |requests|
        invariant Safe() && Now().Known(unsure)
      {
        ghost var before := Now();
        var k := Handle(requests[n]);
        if requests[n].LosePower? {
          unsure := {};
          RebootedIsKnown();
        } else {
          var user := requests[n].user;
          KnownOn(user, before, Now(), unsure, k);
          if k == Settled { unsure := unsure - {user}; }
          if k == Doubtful { unsure := unsure + {user}; }
        }
      }
    }

    lemma RebootedIsKnown()
      requires Safe() && |dir.chain| == 1
      ensures Now().Known({})
    {
      assert dir.chain == [dir.entries];
    }

    /**
     Any run of grants, removals, kills and power losses over any accounts. What
     the daemon may hold always has a file to find it by, and an account whose
     exception is gone stays without one, on disk and in the daemon, until it is
     granted one again; after a power loss, if its removal had outlived that.
     */
    method Run(requests: seq<Request>, ghost removed: set<string>, ghost durable: set<string>)
      requires Safe() && Now().Gone(removed, durable)
      requires forall n | 0 <= n < |requests| && requests[n].ToGrant? :: requests[n].user !in removed
      modifies this`loaded, dir
      ensures Safe()
      ensures Now().Gone(if LosePower in requests then durable else removed, durable)
    {
      ghost var gone := removed;
      for n := 0 to |requests|
        invariant Safe() && Now().Gone(gone, durable)
        invariant gone == if LosePower in requests[..n] then durable else removed
      {
        assert requests[..n + 1] == requests[..n] + [requests[n]];
        match requests[n]
        case ToGrant(user, groups, report) =>
          ghost var before := Now();
          var granting := Grant(user, groups, report);
          OthersKept(user, before, Now(), gone, durable);
        case ToRemove(user) =>
          RemoveInRun(user, gone, durable);
        case LosePower =>
          Reboot();
          gone := durable;
      }
      assert requests[..|requests|] == requests;
    }

    /** Removing again what is gone changes nothing. */
    method RemoveInRun(user: string, ghost removed: set<string>, ghost durable: set<string>)
      requires Safe() && Now().Gone(removed, durable)
      modifies this`loaded, dir
      ensures Safe() && Now().Gone(removed, durable)
    {
      ghost var before := Now();
      var removing := Remove(user);
      if user !in removed { OthersKept(user, before, Now(), removed, durable); }
    }
  }

  lemma AccountsAreNames(files: Files, u: string)
    ensures (exists name | name in files.Keys :: OwnerOf(name) == Account(u)) <==> Username(u) && !Free(files, u)
  {
    if Username(u) {
      forall name { OwnerOfName(name, u); }
    }
  }
}
