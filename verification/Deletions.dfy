/**
 Closing an account down and deleting it: the quiescence passes and teardowns
 of internal/cli/revoke.go and the deletion of internal/user/delete.go.
 */
module Deletions {
  import opened Wrappers
  import opened Storage
  import opened Validate
  import opened Records
  import opened Transitions
  import opened Lifecycle
  import opened Hosts
  import Times

  /** Before activation nothing about the entry may have moved; afterwards only what the holder may edit. */
  predicate Same(exact: bool, expected: Passwd, current: Passwd) {
    if exact then expected == current else SameIdentity(expected, current)
  }

  /** One more look: the account is there and still the one this run is about. */
  method StillMatches(h: Host, expected: Passwd, exact: bool) returns (o: Outcome)
    requires h.Valid()
    modifies h
    ensures h.Valid() && old(h.trace) <= h.trace && Steady(old(h.s), h.s) && Keeps(old(h.seen), h.seen)
    ensures o == Done ==> h.s.account.Some? && Same(exact, expected, h.s.account.value)
    ensures o != NotDurable
  {
    hide Safe, LawfulBut, Retired, Meanwhile;
    var pw;
    o, pw := h.ReadAccount();
    if o == Done && (pw == None || !Same(exact, expected, pw.value)) { o := Failed; }
  }

  /** Identity, processes, identity, jobs: errors of the two passes are only noted. */
  method FirstPass(h: Host, expected: Passwd, exact: bool) returns (o: Outcome, clean: bool)
    requires h.Valid()
    modifies h
    ensures h.Valid() && old(h.trace) <= h.trace && Steady(old(h.s), h.s) && Keeps(old(h.seen), h.seen)
    ensures o != NotDurable
    ensures o == Done && clean && old(h.seen).disabled ==> h.seen.passed
  {
    hide Safe, LawfulBut, Retired, Fold, Meanwhile, Usable, MatchesNow, Bears, Reachable, Next;
    clean := false;
    o := StillMatches(h, expected, exact);
    if o != Done { return; }
    var terminated := h.TerminateProcesses();
    if terminated == Killed { o := Killed; return; }
    o := StillMatches(h, expected, exact);
    if o != Done { return; }
    var cleared := h.ClearJobs();
    if cleared == Killed { o := Killed; return; }
    clean := terminated == Done && cleared == Done;
  }

  /** The same with its closing identity check, and no error tolerated. */
  method FinalPass(h: Host, expected: Passwd, exact: bool) returns (o: Outcome)
    requires h.Valid()
    modifies h
    ensures h.Valid() && old(h.trace) <= h.trace && Steady(old(h.s), h.s) && Keeps(old(h.seen), h.seen)
    ensures o == Done ==> h.s.account.Some? && Same(exact, expected, h.s.account.value)
    ensures o != NotDurable
    ensures o == Done && old(h.seen).disabled ==> h.seen.passed
  {
    hide Safe, LawfulBut, Retired, Fold, Meanwhile, Usable, MatchesNow, Bears, Reachable, Next;
    var clean;
    o, clean := FirstPass(h, expected, exact);
    if o != Done { return; }
    o := StillMatches(h, expected, exact);
    if o == Done && !clean { o := Failed; }
  }

  /**
   Processes and jobs, a wait for what the daemons already hold, then both
   again: only the second pass has to succeed.
   */
  method Quiesce(h: Host, expected: Passwd, exact: bool) returns (o: Outcome)
    requires h.Valid()
    modifies h
    ensures h.Valid() && old(h.trace) <= h.trace && Steady(old(h.s), h.s) && Keeps(old(h.seen), h.seen)
    ensures o == Done ==> h.s.account.Some? && Same(exact, expected, h.s.account.value)
    ensures o != NotDurable
    ensures o == Done && old(h.seen).disabled ==> h.seen.drained && h.seen.passed
  {
    hide Safe, LawfulBut, Retired, Fold, Meanwhile, Usable, MatchesNow, Bears, Reachable, Next;
    var clean;
    o, clean := FirstPass(h, expected, exact);
    if o != Done { return; }
    o := StillMatches(h, expected, exact);
    if o != Done { return; }
    o := h.DrainJobs();
    if o != Done { return; }
    o := FinalPass(h, expected, exact);
  }

  /** Without the wait: for identities no earlier holder can still have work under. */
  method QuiesceImmediate(h: Host, expected: Passwd, exact: bool) returns (o: Outcome)
    requires h.Valid()
    modifies h
    ensures h.Valid() && old(h.trace) <= h.trace && Steady(old(h.s), h.s) && Keeps(old(h.seen), h.seen)
    ensures o == Done ==> h.s.account.Some? && Same(exact, expected, h.s.account.value)
    ensures o != NotDurable
    ensures o == Done && old(h.seen).disabled ==> h.seen.passed
  {
    hide Safe, LawfulBut, Retired, Fold, Meanwhile, Usable, MatchesNow, Bears, Reachable, Next;
    var clean;
    o, clean := FirstPass(h, expected, exact);
    if o != Done { return; }
    o := FinalPass(h, expected, exact);
    if o == Done && !clean { o := Failed; }
  }

  /** The account was looked at again; nothing else a run knows has changed. */
  predicate Looked(a: Seen, b: Seen) { b == a.(account := b.account) }

  lemma SteadyOn(a: HostState, b: HostState, c: HostState)
    requires Steady(a, b) && Steady(b, c)
    ensures Steady(a, c) && b.tampering == a.tampering && c.tampering == a.tampering
  {
    hide Usable, Reachable, Bears, MatchesNow;
    forall uid, marker | Bears(a, uid, marker) ensures c.tampering || Bears(c, uid, marker) {
      assert b.tampering || Bears(b, uid, marker);
    }
  }

  lemma SteadyButRowOn(a: HostState, b: HostState, c: HostState)
    ensures Steady(a, b) ==> SteadyButRow(a, b)
    ensures (Steady(a, b) && SteadyButRow(b, c)) || (SteadyButRow(a, b) && Steady(b, c)) ==> SteadyButRow(a, c)
    ensures SteadyButRow(a, b) && (a.tampering || !Usable(a)) ==> b.tampering || !Usable(b)
  {
    hide Usable, Reachable, Bears, MatchesNow;
    if (Steady(a, b) && SteadyButRow(b, c)) || (SteadyButRow(a, b) && Steady(b, c)) {
      forall uid, marker | Bears(a, uid, marker) ensures c.tampering || Bears(c, uid, marker) {
        assert b.tampering || Bears(b, uid, marker);
      }
    }
  }

  lemma LookedOn(a: Seen, b: Seen, c: Seen)
    requires Looked(a, b) && Looked(b, c)
    ensures Looked(a, c) && Keeps(a, c)
  {
  }

  /** The last read of the account found none, and none of this tool's has been there since. */
  ghost predicate SeenAbsent(h: Host)
    reads h
  {
    h.seen.account == Some(None) && (h.s.tampering || (!MatchesNow(h.s) && !Usable(h.s)))
  }

  /** deletionState: absent everywhere, present and the same, or an error. */
  method DeletionState(h: Host, expected: Passwd, exact: bool) returns (o: Outcome, absent: bool)
    requires h.Valid()
    modifies h
    ensures h.Valid() && old(h.trace) <= h.trace && Steady(old(h.s), h.s) && Looked(old(h.seen), h.seen)
    ensures o != NotDurable
    ensures o == Done && absent ==> SeenAbsent(h)
    ensures o == Done && !absent ==>
      h.seen.account == Some(h.s.account) && h.s.account.Some? && Same(exact, expected, h.s.account.value) &&
      SameIdentity(expected, h.s.account.value)
  {
    hide Safe, LawfulBut, Retired, Fold;
    absent := false;
    var pw;
    o, pw := h.ReadAccount();
    if o != Done { return; }
    if pw == None {
      o := h.Ask();
      absent := true;
    } else if !Same(exact, expected, pw.value) {
      o := Failed;
    }
  }

  lemma Unmoved(s: HostState, seen: Seen)
    ensures Steady(s, s) && Looked(seen, seen) && Keeps(seen, seen)
  {
  }

  /** One sweep of what the name left behind, and another look. */
  method SweepOnce(h: Host, expected: Passwd, exact: bool) returns (o: Outcome)
    requires h.Valid()
    modifies h
    ensures h.Valid() && old(h.trace) <= h.trace && Steady(old(h.s), h.s) && Looked(old(h.seen), h.seen)
    ensures o != NotDurable && (o == Done ==> SeenAbsent(h))
  {
    hide Safe, LawfulBut, Retired, Fold, Next, SameIdentity, Meanwhile, Steady, Looked, Keeps, SeenAbsent;
    Unmoved(h.s, h.seen);
    o := h.Ask();
    if o != Done { return; }
    ghost var s1 := h.s;
    var absent;
    o, absent := DeletionState(h, expected, exact);
    SteadyOn(old(h.s), s1, h.s);
    if o == Done && !absent { o := Failed; }
  }

  /** Mail is the one artifact that may be swept once the entry is gone; absence is rechecked after each sweep. */
  method SweepMail(h: Host, expected: Passwd, exact: bool, sweeps: nat) returns (o: Outcome)
    requires h.Valid() && SeenAbsent(h)
    modifies h
    ensures h.Valid() && old(h.trace) <= h.trace && Steady(old(h.s), h.s) && Looked(old(h.seen), h.seen)
    ensures o != NotDurable && (o == Done ==> SeenAbsent(h))
  {
    hide Safe, LawfulBut, Retired, Fold, Next, SameIdentity, Meanwhile, Steady, Looked, Keeps, Usable, MatchesNow;
    Unmoved(h.s, h.seen);
    for n := 0 to sweeps
      invariant h.Valid() && old(h.trace) <= h.trace && Steady(old(h.s), h.s) && Looked(old(h.seen), h.seen)
      invariant SeenAbsent(h)
    {
      ghost var s1, seen1 := h.s, h.seen;
      o := SweepOnce(h, expected, exact);
      SteadyOn(old(h.s), s1, h.s);
      LookedOn(old(h.seen), seen1, h.seen);
      if o != Done { return; }
    }
    ghost var s1 := h.s;
    o := h.Ask();
    SteadyOn(old(h.s), s1, h.s);
    StillAbsent(s1, h.s);
  }

  lemma StillAbsent(a: HostState, b: HostState)
    requires Steady(a, b)
    ensures !MatchesNow(a) && !Usable(a) ==> b.tampering || (!MatchesNow(b) && !Usable(b))
    ensures a.tampering == b.tampering
  {
    hide Bears, MatchesNow, Usable, Reachable;
  }

  lemma KeepsLeave(a: Seen, b: Seen)
    requires Keeps(a, b)
    ensures MayDestroy(a) ==> MayDestroy(b)
    ensures MayDestroy(a) && Held(a) ==> Held(b)
    ensures b.expected == a.expected
  {
  }

  lemma LookedKeepsLeave(a: Seen, b: Seen)
    requires Looked(a, b)
    ensures Keeps(a, b) && MayDestroy(a) == MayDestroy(b) && Held(a) == Held(b) && b.expected == a.expected
  {
  }

  lemma KeepsOn(a: Seen, b: Seen, c: Seen)
    requires Keeps(a, b) && Keeps(b, c)
    ensures Keeps(a, c)
  {
  }

  /** Home once more, while the name is still bound. */
  method RemoveHomeAgain(h: Host, expected: Passwd, exact: bool) returns (o: Outcome)
    requires h.Valid()
    modifies h, h.breaches
    ensures h.Valid() && old(h.trace) <= h.trace && Steady(old(h.s), h.s) && Looked(old(h.seen), h.seen)
    ensures o != NotDurable && old(h.breaches.at) <= h.breaches.at
    ensures MayDestroy(old(h.seen)) ==> h.breaches.at == old(h.breaches.at)
  {
    hide Safe, LawfulBut, Retired, Fold, Next, SameIdentity, Meanwhile, Steady, Looked, Keeps, SeenAbsent,
      Breached, MayDestroy, Held;
    var absent;
    o, absent := DeletionState(h, expected, exact);
    LookedKeepsLeave(old(h.seen), h.seen);
    if o != Done || absent { return; }
    ghost var s1 := h.s;
    o := h.RemoveHome();
    SteadyOn(old(h.s), s1, h.s);
  }

  /** The last quiescence check, where the caller has one, and Home again. */
  method CheckAndRemoveHomeAgain(h: Host, expected: Passwd, exact: bool, check: bool) returns (o: Outcome)
    requires h.Valid()
    modifies h, h.breaches
    ensures h.Valid() && old(h.trace) <= h.trace && Steady(old(h.s), h.s) && Keeps(old(h.seen), h.seen)
    ensures o != NotDurable && (!check ==> Looked(old(h.seen), h.seen)) && old(h.breaches.at) <= h.breaches.at
    ensures MayDestroy(old(h.seen)) ==> h.breaches.at == old(h.breaches.at)
  {
    hide Safe, LawfulBut, Retired, Fold, Next, SameIdentity, Meanwhile, Steady, Looked, Keeps, Breached,
      MayDestroy, Held;
    Unmoved(h.s, h.seen);
    if check {
      o := FinalPass(h, expected, exact);
      if o != Done { return; }
    }
    KeepsLeave(old(h.seen), h.seen);
    ghost var s1, seen1 := h.s, h.seen;
    o := RemoveHomeAgain(h, expected, exact);
    SteadyOn(old(h.s), s1, h.s);
    LookedKeepsLeave(seen1, h.seen);
    KeepsOn(old(h.seen), seen1, h.seen);
  }

  /** Mail, then Home for the first time. `home`: the removal of Home was reached. */
  method RemoveArtifacts(h: Host, expected: Passwd, exact: bool, check: bool) returns (o: Outcome, home: bool)
    requires h.Valid()
    modifies h, h.breaches
    ensures h.Valid() && old(h.trace) <= h.trace && Steady(old(h.s), h.s) && Keeps(old(h.seen), h.seen)
    ensures o != NotDurable && (!check ==> Looked(old(h.seen), h.seen)) && (o == Done ==> home)
    ensures old(h.breaches.at) <= h.breaches.at
    ensures !home || MayDestroy(old(h.seen)) ==> h.breaches.at == old(h.breaches.at)
    ensures home && !MayDestroy(old(h.seen)) ==> Breached(old(h.breaches.at), h.breaches.at, h.trace, HomeRemoval)
  {
    hide Safe, LawfulBut, Retired, Fold, Next, SameIdentity, Meanwhile, Steady, Looked, Keeps, Breached,
      MayDestroy, Held;
    Unmoved(h.s, h.seen);
    home := false;
    o := h.Ask();
    if o != Done { return; }
    home := true;
    ghost var s1 := h.s;
    o := h.RemoveHome();
    SteadyOn(old(h.s), s1, h.s);
    if o != Done { return; }
    ghost var s2, at2, trace2 := h.s, h.breaches.at, h.trace;
    o := CheckAndRemoveHomeAgain(h, expected, exact, check);
    SteadyOn(old(h.s), s2, h.s);
    if !MayDestroy(old(h.seen)) { BreachedOn(old(h.breaches.at), at2, trace2, h.breaches.at, h.trace, HomeRemoval); }
  }

  /** What is left to do once the helper has run; only a name seen absent counts as removed. */
  method AfterUserdel(h: Host, expected: Passwd, exact: bool, ran: Outcome) returns (o: Outcome)
    requires h.Valid()
    modifies h
    ensures h.Valid() && old(h.trace) <= h.trace && Steady(old(h.s), h.s) && Looked(old(h.seen), h.seen)
    ensures o != NotDurable && (o == Done ==> SeenAbsent(h))
  {
    hide Safe, LawfulBut, Retired, Fold, Next, SameIdentity, Meanwhile, Steady, Looked, Keeps, SeenAbsent;
    Unmoved(h.s, h.seen);
    if ran == Killed { return Killed; }
    var absent;
    o, absent := DeletionState(h, expected, exact);
    if o != Done { return; }
    if !absent { return Failed; }
    ghost var s1, seen1 := h.s, h.seen;
    o := SweepMail(h, expected, exact, 1);
    SteadyOn(old(h.s), s1, h.s);
    LookedOn(old(h.seen), seen1, h.seen);
    if o == Done && ran == Failed { o := Failed; }
  }

  /** userdel right after the entry was read as the expected one. `issued`: the helper was called. */
  method UserdelChecked(h: Host, expected: Passwd, exact: bool) returns (o: Outcome, issued: bool)
    requires h.Valid()
    modifies h, h.breaches
    ensures h.Valid() && old(h.trace) <= h.trace && Steady(old(h.s), h.s) && Looked(old(h.seen), h.seen)
    ensures o != NotDurable && (o == Done ==> SeenAbsent(h) && issued)
    ensures old(h.breaches.at) <= h.breaches.at
    ensures !issued || Allowed(old(h.seen), Event.Userdel) ==> h.breaches.at == old(h.breaches.at)
    ensures issued && !Allowed(old(h.seen), Event.Userdel) ==>
      Breached(old(h.breaches.at), h.breaches.at, h.trace, Event.Userdel)
  {
    hide Safe, LawfulBut, Retired, Fold, Next, SameIdentity, Meanwhile, Steady, Looked, Keeps, SeenAbsent,
      Breached, Allowed;
    Unmoved(h.s, h.seen);
    issued := false;
    o := h.Ask();
    if o != Done { return; }
    issued := true;
    ghost var s1 := h.s;
    var ran := h.Userdel();
    SteadyOn(old(h.s), s1, h.s);
    ghost var at2, trace2 := h.breaches.at, h.trace;
    s1 := h.s;
    o := AfterUserdel(h, expected, exact, ran);
    SteadyOn(old(h.s), s1, h.s);
    if !Allowed(old(h.seen), Event.Userdel) {
      BreachedOn(old(h.breaches.at), at2, trace2, h.breaches.at, h.trace, Event.Userdel);
    }
  }

  /** The account is there and the expected one: its artifacts first, then userdel. */
  method DeletePresent(h: Host, expected: Passwd, exact: bool, check: bool)
    returns (o: Outcome, home: bool, userdel: bool)
    requires h.Valid() && h.seen.expected == Some(expected)
    modifies h, h.breaches
    ensures h.Valid() && old(h.trace) <= h.trace && Steady(old(h.s), h.s) && Keeps(old(h.seen), h.seen)
    ensures o != NotDurable && (o == Done ==> SeenAbsent(h)) && (userdel ==> home)
    ensures old(h.breaches.at) <= h.breaches.at
    ensures MayDestroy(old(h.seen)) && Held(old(h.seen)) ==> h.breaches.at == old(h.breaches.at)
    ensures !check ==>
      (h.breaches.at == old(h.breaches.at) <==>
       (home ==> MayDestroy(old(h.seen))) && (userdel ==> MayDestroy(old(h.seen)) && Held(old(h.seen))))
    ensures home && !MayDestroy(old(h.seen)) ==> Breached(old(h.breaches.at), h.breaches.at, h.trace, HomeRemoval)
    ensures !check && userdel && !(MayDestroy(old(h.seen)) && Held(old(h.seen))) ==>
      Breached(old(h.breaches.at), h.breaches.at, h.trace, Event.Userdel)
  {
    hide Safe, LawfulBut, Retired, Fold, Next, SameIdentity, Meanwhile, Steady, Looked, Keeps, SeenAbsent,
      Breached, MayDestroy, Held, Allowed;
    userdel := false;
    o, home := RemoveArtifacts(h, expected, exact, check);
    KeepsLeave(old(h.seen), h.seen);
    if !check { LookedKeepsLeave(old(h.seen), h.seen); }
    BreachedGrew(old(h.breaches.at), h.breaches.at, h.trace, HomeRemoval);
    if o != Done { return; }
    ghost var s1, seen1, at1, trace1 := h.s, h.seen, h.breaches.at, h.trace;
    o, userdel := UserdelOrSweep(h, expected, exact);
    SteadyOn(old(h.s), s1, h.s);
    LookedKeepsLeave(seen1, h.seen);
    KeepsOn(old(h.seen), seen1, h.seen);
    if !MayDestroy(old(h.seen)) { BreachedOn(old(h.breaches.at), at1, trace1, h.breaches.at, h.trace, HomeRemoval); }
    BreachedGrew(at1, h.breaches.at, h.trace, Event.Userdel);
    if Breached(at1, h.breaches.at, h.trace, Event.Userdel) {
      BreachedSince(old(h.breaches.at), at1, h.breaches.at, h.trace, Event.Userdel);
    }
  }

  lemma BreachedSince(before: set<nat>, mid: set<nat>, after: set<nat>, trace: seq<Event>, e: Event)
    requires before <= mid && Breached(mid, after, trace, e)
    ensures Breached(before, after, trace, e) && after != before
  {
    BreachedGrew(mid, after, trace, e);
    var i :| i in after && i !in mid && i < |trace| && trace[i] == e;
  }

  lemma BreachedGrew(before: set<nat>, after: set<nat>, trace: seq<Event>, e: Event)
    ensures Breached(before, after, trace, e) ==> after != before
  {
  }

  /** The last look before userdel. */
  method UserdelOrSweep(h: Host, expected: Passwd, exact: bool) returns (o: Outcome, userdel: bool)
    requires h.Valid() && h.seen.expected == Some(expected)
    modifies h, h.breaches
    ensures h.Valid() && old(h.trace) <= h.trace && Steady(old(h.s), h.s) && Looked(old(h.seen), h.seen)
    ensures o != NotDurable && (o == Done ==> SeenAbsent(h))
    ensures old(h.breaches.at) <= h.breaches.at
    ensures !userdel || (MayDestroy(old(h.seen)) && Held(old(h.seen))) ==> h.breaches.at == old(h.breaches.at)
    ensures userdel && !(MayDestroy(old(h.seen)) && Held(old(h.seen))) ==>
      Breached(old(h.breaches.at), h.breaches.at, h.trace, Event.Userdel)
  {
    hide Safe, LawfulBut, Retired, Fold, Next, SameIdentity, Meanwhile, Steady, Looked, Keeps, SeenAbsent,
      Breached, MayDestroy, Held, Allowed;
    userdel := false;
    var absent;
    o, absent := DeletionState(h, expected, exact);
    LookedKeepsLeave(old(h.seen), h.seen);
    if o != Done { return; }
    ghost var s1, seen1 := h.s, h.seen;
    if absent {
      o := SweepMail(h, expected, exact, 1);
    } else {
      PermittedUserdel(h.seen, expected);
      o, userdel := UserdelChecked(h, expected, exact);
    }
    SteadyOn(old(h.s), s1, h.s);
    LookedOn(old(h.seen), seen1, h.seen);
  }

  /**
   Deletes the account if it is still the expected one: mail and Home first, a
   last check of processes and jobs where the caller has one, Home again, then
   userdel by name. Success means it was seen absent at the end. The deletion
   itself has no gate: it is lawful exactly as far as its caller's run made it.
   */
  method DeleteExpected(h: Host, expected: Passwd, exact: bool, check: bool)
    returns (o: Outcome, home: bool, userdel: bool)
    requires h.Valid() && h.seen.expected == Some(expected)
    modifies h, h.breaches
    ensures h.Valid() && old(h.trace) <= h.trace && Steady(old(h.s), h.s) && Keeps(old(h.seen), h.seen)
    ensures o != NotDurable && (o == Done ==> SeenAbsent(h)) && (userdel ==> home)
    ensures old(h.breaches.at) <= h.breaches.at
    ensures MayDestroy(old(h.seen)) && Held(old(h.seen)) ==> h.breaches.at == old(h.breaches.at)
    ensures !check ==>
      (h.breaches.at == old(h.breaches.at) <==>
       (home ==> MayDestroy(old(h.seen))) && (userdel ==> MayDestroy(old(h.seen)) && Held(old(h.seen))))
    ensures home && !MayDestroy(old(h.seen)) ==> Breached(old(h.breaches.at), h.breaches.at, h.trace, HomeRemoval)
    ensures !check && userdel && !(MayDestroy(old(h.seen)) && Held(old(h.seen))) ==>
      Breached(old(h.breaches.at), h.breaches.at, h.trace, Event.Userdel)
    ensures home && Bears(old(h.s), 0, NoMarker) && GenerationOf(expected.marker, old(h.s).minted) ==> h.s.tampering
  {
    hide Safe, LawfulBut, Retired, Fold, Next, SameIdentity, Meanwhile, Steady, Looked, Keeps, SeenAbsent,
      Breached, MayDestroy, Held, Allowed, Bears, GenerationOf;
    Unmoved(h.s, h.seen);
    home, userdel := false, false;
    if !AccountID(expected.uid) || !AccountID(expected.gid) || !ManagedHome(h.user, expected.home) {
      o := Failed;
      return;
    }
    var absent;
    o, absent := DeletionState(h, expected, exact);
    LookedKeepsLeave(old(h.seen), h.seen);
    if o != Done { return; }
    ghost var s1, seen1 := h.s, h.seen;
    if absent {
      o := SweepMail(h, expected, exact, 2);
      SteadyOn(old(h.s), s1, h.s);
      LookedOn(old(h.seen), seen1, h.seen);
      return;
    }
    SeenIsBack(old(h.s), h.s, expected);
    o, home, userdel := DeletePresent(h, expected, exact, check);
    SteadyOn(old(h.s), s1, h.s);
    KeepsOn(old(h.seen), seen1, h.seen);
  }

  lemma PermittedUserdel(seen: Seen, expected: Passwd)
    requires seen.expected == Some(expected) && seen.account.Some? && seen.account.value.Some?
    requires SameIdentity(expected, seen.account.value.value)
    ensures Allowed(seen, Event.Userdel) <==> MayDestroy(seen) && Held(seen)
  {
  }

  lemma SeenIsBack(a: HostState, b: HostState, expected: Passwd)
    requires Steady(a, b) && b.account.Some? && SameIdentity(expected, b.account.value)
    ensures Bears(a, 0, NoMarker) && GenerationOf(expected.marker, a.minted) ==> b.tampering
  {
    if Bears(a, 0, NoMarker) && !b.tampering { NotBack(b, expected, a.minted); }
  }

  /** An identity this tool handed out and that is gone is not looked at again. */
  lemma NotBack(s: HostState, expected: Passwd, minted: set<string>)
    ensures Bears(s, 0, NoMarker) && GenerationOf(expected.marker, s.minted) && s.account.Some? ==>
      !SameIdentity(expected, s.account.value)
  {
  }

  /** The fields that say which identity a row stands for and how far its deletion got. */
  predicate SameWitness(a: Row, b: Row) {
    SameBearer(a, b) && a.deletionStarted == b.deletionStarted && a.quarantineUntil == b.quarantineUntil &&
    a.quarantineUnit == b.quarantineUnit
  }

  /**
   The registry still says what the run was authorized on, and the account still
   fits it; then the generation the witness is to carry.
   */
  function WitnessGeneration(
    user: string, reserved: bool, rec: Option<Row>, current: Option<Row>, expected: Passwd): (g: Option<string>)
    ensures g.Some? ==> DeadlineOf(current) == DeadlineOf(rec)
  {
    if reserved then None
    else match (rec, current)
      case (None, None) =>
        if CandidateMatches(BLANK.(user := user, uid := expected.uid), expected) then Some("") else None
      case (Some(r), Some(c)) =>
        if !SameWitness(r, c) then None
        else if c.identityBound then
          var check := if c.pending && c.uid == 0 then c.(uid := expected.uid) else c;
          if !Matches(check, expected) then None
          else Some(if !c.pending || c.deletionStarted then c.generation else "")
        else if CandidateMatches(c, expected) then Some("") else None
      case _ => None
  }

  /** Everything a run knows but the deadline, which is read anew with the row. */
  predicate KeepsButDeadline(a: Seen, b: Seen) { Keeps(a, b.(deadline := a.deadline)) }

  /**
   Commits the deletion witness that has to precede artifact cleanup: the exact
   generation for a completed account, the UID alone otherwise.
   */
  method PersistDeletionStarted(h: Host, rec: Option<Row>, expected: Passwd) returns (o: Outcome)
    requires h.Valid() && (h.s.tampering || !Usable(h.s))
    modifies h
    ensures h.Valid() && old(h.trace) <= h.trace
    ensures SteadyButRow(old(h.s), h.s) && KeepsButDeadline(old(h.seen), h.seen)
    ensures o == Done ==> (old(h.seen).passed ==> h.seen.witnessed) && h.seen.deadline == DeadlineOf(rec)
    ensures h.seen.account == old(h.seen).account
    ensures h.seen.disabled == old(h.seen).disabled && h.seen.passed == old(h.seen).passed
    ensures o == Done ==> h.s.row.Some? && h.s.row.value.deletionStarted
  {
    hide Safe, LawfulBut, Retired, Fold, Meanwhile, Usable, MatchesNow, Bears, Reachable, DeadlineOf, WitnessGeneration;
    var current;
    o, current := h.ReadRow();
    if o != Done { return; }
    var generation := WitnessGeneration(h.user, h.s.reserved, rec, current, expected);
    if generation == None { return Failed; }
    o := CommitWitness(h, expected.uid, generation.value);
  }

  method CommitWitness(h: Host, uid: int, generation: string) returns (o: Outcome)
    requires h.Valid() && (h.s.tampering || !Usable(h.s))
    modifies h
    ensures h.Valid() && old(h.trace) <= h.trace && SteadyButRow(old(h.s), h.s)
    ensures Keeps(old(h.seen), h.seen) && h.seen.account == old(h.seen).account
    ensures h.seen.disabled == old(h.seen).disabled && h.seen.passed == old(h.seen).passed
    ensures o == Done && old(h.seen).passed ==> h.seen.witnessed
    ensures o == Done ==> h.s.row.Some? && h.s.row.value.deletionStarted
    ensures o == Done ==> (h.s.older == [] <==> h.s.row != old(h.s).row || old(h.s).older == [])
  {
    hide Safe, LawfulBut, Retired, Fold, Meanwhile, Usable, MatchesNow, Bears, Reachable, MayBecome, RowNext;
    ghost var s0 := h.s;
    DeletionMayBegin(h.user, h.s, uid, generation);
    o := h.Commit(BeginDeletion(h.user, uid, generation));
    if o == Done {
      BegunIsStarted(h.user, s0, h.s, uid, generation);
      h.Emit(WitnessCommitted);
    }
  }

  lemma BegunIsStarted(user: string, s: HostState, s': HostState, uid: int, generation: string)
    requires Safe(user, s)
    requires var c := RowNext(s.row, BeginDeletion(user, uid, generation));
      (c.Keep? && s'.row == s.row) || c == Become(s'.row)
    ensures s'.row.Some? && s'.row.value.deletionStarted
    ensures RowNext(s.row, BeginDeletion(user, uid, generation)).Become? ==> s'.row != s.row
  {
  }

  datatype Stage = IdentityUnstable | DisablingLogin | Quiescing | Deleting | Removed | StageKilled

  function At(o: Outcome, stage: Stage): Stage { if o == Killed then StageKilled else stage }

  method PersistAndDelete(h: Host, rec: Option<Row>, expected: Passwd, exact: bool) returns (stage: Stage)
    requires h.Valid() && h.seen.expected == Some(expected)
    requires h.seen.sudoGone && h.seen.sshdGone && h.seen.disabled && h.seen.passed
    requires h.seen.drained || Held(h.seen.(deadline := DeadlineOf(rec)))
    modifies h, h.breaches
    ensures h.Valid() && old(h.trace) <= h.trace && h.breaches.at == old(h.breaches.at)
    ensures SteadyButRow(old(h.s), h.s) && KeepsButDeadline(old(h.seen), h.seen)
    ensures stage == Removed ==> SeenAbsent(h)
  {
    hide Safe, LawfulBut, Retired, Fold, Meanwhile, Usable, MatchesNow, Bears, Reachable, DeadlineOf, Next;
    var o := PersistDeletionStarted(h, rec, expected);
    if o != Done { return At(o, Deleting); }
    var home, userdel;
    o, home, userdel := DeleteExpected(h, expected, exact, true);
    if o != Done { return At(o, Deleting); }
    return Removed;
  }

  /** Login shut, then the full drain, with the identity checked around each. */
  method ShutAndDrain(h: Host, expected: Passwd, exact: bool) returns (o: Outcome, at: Stage)
    requires h.Valid()
    modifies h
    ensures h.Valid() && old(h.trace) <= h.trace && Steady(old(h.s), h.s) && Keeps(old(h.seen), h.seen)
    ensures o != NotDurable && at != Removed
    ensures o == Done ==> h.seen.disabled && h.seen.drained && h.seen.passed
    ensures o == Done ==> h.s.account.Some? && Same(exact, expected, h.s.account.value)
  {
    hide Safe, LawfulBut, Retired, Fold, Meanwhile, Usable, MatchesNow, Bears, Reachable, DeadlineOf, Next, Same;
    at := IdentityUnstable;
    o := StillMatches(h, expected, exact);
    if o != Done { return; }
    at := DisablingLogin;
    o := h.DisableLogin();
    if o != Done { return; }
    at := Quiescing;
    o := StillMatches(h, expected, exact);
    if o != Done { return; }
    o := Quiesce(h, expected, exact);
  }

  /** With the full drain, so that no daemon still holds work under the identity that is released. */
  method TeardownLocal(h: Host, rec: Option<Row>, expected: Passwd, exact: bool) returns (stage: Stage)
    requires h.Valid() && h.seen.sudoGone && h.seen.sshdGone && h.seen.expected == Some(expected)
    modifies h, h.breaches
    ensures h.Valid() && old(h.trace) <= h.trace && h.breaches.at == old(h.breaches.at)
    ensures SteadyButRow(old(h.s), h.s) && KeepsButDeadline(old(h.seen), h.seen)
    ensures stage == Removed ==> SeenAbsent(h)
  {
    hide Safe, LawfulBut, Retired, Fold, Meanwhile, Usable, MatchesNow, Bears, Reachable, DeadlineOf, Next, Same;
    var o, at := ShutAndDrain(h, expected, exact);
    if o != Done { return At(o, at); }
    o := StillMatches(h, expected, exact);
    if o != Done { return At(o, Deleting); }
    stage := PersistAndDelete(h, rec, expected, exact);
  }

  /** Past its recorded deadline an identity needs no further wait. */
  method TeardownQuarantined(h: Host, rec: Option<Row>, expected: Passwd) returns (stage: Stage)
    requires h.Valid() && h.seen.sudoGone && h.seen.sshdGone && h.seen.expected == Some(expected)
    requires Held(h.seen.(deadline := DeadlineOf(rec)))
    modifies h, h.breaches
    ensures h.Valid() && old(h.trace) <= h.trace && h.breaches.at == old(h.breaches.at)
    ensures SteadyButRow(old(h.s), h.s) && KeepsButDeadline(old(h.seen), h.seen)
    ensures stage == Removed ==> SeenAbsent(h)
  {
    hide Safe, LawfulBut, Retired, Fold, Meanwhile, Usable, MatchesNow, Bears, Reachable, DeadlineOf, Next;
    var o := StillMatches(h, expected, false);
    if o != Done { return At(o, IdentityUnstable); }
    o := h.DisableLogin();
    if o != Done { return At(o, DisablingLogin); }
    o := QuiesceImmediate(h, expected, false);
    if o != Done { return At(o, Quiescing); }
    stage := PersistAndDelete(h, rec, expected, false);
  }
}
