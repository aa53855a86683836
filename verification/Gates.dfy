/** What a lawful history says about every destructive step, in terms of the events before it. */
module Gates {
  import opened Wrappers
  import opened Lifecycle
  import opened Records
  import opened Sequences

  /** What a run knows does not outlive it, nor a power loss. */
  predicate StartsOver(e: Event) { e == RunStarted || e == PowerLost }

  predicate Reopens(e: Event) { StartsOver(e) || e == LoginActivating || e == AccountCreating }

  /** Event number i of this run, with no new run and no reopened login since. */
  predicate Stands(trace: seq<Event>, i: nat, e: Event) {
    i < |trace| && trace[i] == e && forall k | i < k < |trace| :: !Reopens(trace[k])
  }

  predicate Lasts(trace: seq<Event>, i: nat, e: Event, undone: Event) {
    i < |trace| && trace[i] == e && forall k | i < k < |trace| :: !StartsOver(trace[k]) && trace[k] != undone
  }

  /** How each piece of knowledge comes and goes. */
  lemma Known(s: Seen, e: Event)
    ensures Next(s, e).sudoGone <==> e == SudoRemoved || (s.sudoGone && !StartsOver(e) && e != SudoGranting)
    ensures Next(s, e).sshdGone <==> e == SSHDRemoved || (s.sshdGone && !StartsOver(e) && e != SSHDGranting)
    ensures Next(s, e).disabled <==> e == LoginDisabled || (s.disabled && !Reopens(e))
  {
    hide DeadlineOf;
  }

  lemma KnownBehindLogin(s: Seen, e: Event)
    ensures Next(s, e).terminated ==> (e == ProcessesTerminated && s.disabled) || (s.terminated && !Reopens(e))
    ensures Next(s, e).drained ==> (e == JobsDrained && s.disabled) || (s.drained && !Reopens(e))
    ensures Next(s, e).passed ==> (e == JobsCleared && s.terminated) || (s.passed && !Reopens(e))
    ensures Next(s, e).witnessed ==> (e == WitnessCommitted && s.passed) || (s.witnessed && !Reopens(e))
  {
    hide DeadlineOf;
  }

  lemma KnownAccount(s: Seen, e: Event)
    ensures Next(s, e).account.Some? ==>
      e == AccountRead(Next(s, e).account.value) ||
      (!e.AccountRead? && !StartsOver(e) && Next(s, e).account == s.account)
  {
    hide DeadlineOf;
  }

  /** A history grows by one event at a time; an empty one knows nothing. */
  lemma LastStep(trace: seq<Event>)
    ensures trace == [] ==> Fold(trace) == NOTHING
    ensures trace != [] ==> Fold(trace) == Next(Fold(trace[..|trace| - 1]), trace[|trace| - 1])
  {
    hide Next;
  }

  lemma {:induction false} SudoRemovedAt(trace: seq<Event>) returns (i: nat)
    requires Fold(trace).sudoGone
    ensures Lasts(trace, i, SudoRemoved, SudoGranting)
  {
    hide Next, Fold;
    LastStep(trace);
    var last := |trace| - 1;
    Known(Fold(trace[..last]), trace[last]);
    if trace[last] == SudoRemoved { return last; }
    i := SudoRemovedAt(trace[..last]);
  }

  lemma {:induction false} SSHDRemovedAt(trace: seq<Event>) returns (i: nat)
    requires Fold(trace).sshdGone
    ensures Lasts(trace, i, SSHDRemoved, SSHDGranting)
  {
    hide Next, Fold;
    LastStep(trace);
    var last := |trace| - 1;
    Known(Fold(trace[..last]), trace[last]);
    if trace[last] == SSHDRemoved { return last; }
    i := SSHDRemovedAt(trace[..last]);
  }

  lemma {:induction false} DisabledAt(trace: seq<Event>) returns (a: nat)
    requires Fold(trace).disabled
    ensures Stands(trace, a, LoginDisabled)
  {
    hide Next, Fold;
    LastStep(trace);
    var last := |trace| - 1;
    Known(Fold(trace[..last]), trace[last]);
    if trace[last] == LoginDisabled { return last; }
    a := DisabledAt(trace[..last]);
  }

  lemma {:induction false} TerminatedAt(trace: seq<Event>) returns (a: nat, b: nat)
    requires Fold(trace).terminated
    ensures a < b && Stands(trace, a, LoginDisabled) && Stands(trace, b, ProcessesTerminated)
  {
    hide Next, Fold;
    LastStep(trace);
    var last := |trace| - 1;
    KnownBehindLogin(Fold(trace[..last]), trace[last]);
    if trace[last] == ProcessesTerminated && Fold(trace[..last]).disabled {
      a := DisabledAt(trace[..last]);
      return a, last;
    }
    a, b := TerminatedAt(trace[..last]);
  }

  lemma {:induction false} DrainedAt(trace: seq<Event>) returns (a: nat, b: nat)
    requires Fold(trace).drained
    ensures a < b && Stands(trace, a, LoginDisabled) && Stands(trace, b, JobsDrained)
  {
    hide Next, Fold;
    LastStep(trace);
    var last := |trace| - 1;
    KnownBehindLogin(Fold(trace[..last]), trace[last]);
    if trace[last] == JobsDrained && Fold(trace[..last]).disabled {
      a := DisabledAt(trace[..last]);
      return a, last;
    }
    a, b := DrainedAt(trace[..last]);
  }

  lemma {:induction false} PassedAt(trace: seq<Event>) returns (a: nat, b: nat, c: nat)
    requires Fold(trace).passed
    ensures a < b < c
    ensures Stands(trace, a, LoginDisabled) && Stands(trace, b, ProcessesTerminated) && Stands(trace, c, JobsCleared)
  {
    hide Next, Fold;
    LastStep(trace);
    var last := |trace| - 1;
    KnownBehindLogin(Fold(trace[..last]), trace[last]);
    if trace[last] == JobsCleared && Fold(trace[..last]).terminated {
      a, b := TerminatedAt(trace[..last]);
      return a, b, last;
    }
    a, b, c := PassedAt(trace[..last]);
  }

  lemma {:induction false} WitnessedAt(trace: seq<Event>) returns (a: nat, b: nat, c: nat, d: nat)
    requires Fold(trace).witnessed
    ensures a < b < c < d
    ensures Stands(trace, a, LoginDisabled) && Stands(trace, b, ProcessesTerminated) && Stands(trace, c, JobsCleared)
    ensures Stands(trace, d, WitnessCommitted)
  {
    hide Next, Fold;
    LastStep(trace);
    var last := |trace| - 1;
    KnownBehindLogin(Fold(trace[..last]), trace[last]);
    if trace[last] == WitnessCommitted && Fold(trace[..last]).passed {
      a, b, c := PassedAt(trace[..last]);
      return a, b, c, last;
    }
    a, b, c, d := WitnessedAt(trace[..last]);
  }

  /** The newest read of the account in this run. */
  predicate LastRead(trace: seq<Event>, i: nat, pw: Option<Passwd>) {
    i < |trace| && trace[i] == AccountRead(pw) && forall k | i < k < |trace| :: !trace[k].AccountRead? && !StartsOver(trace[k])
  }

  lemma {:induction false} ReadAt(trace: seq<Event>) returns (i: nat)
    requires Fold(trace).account.Some?
    ensures LastRead(trace, i, Fold(trace).account.value)
  {
    hide Next, Fold;
    LastStep(trace);
    var last := |trace| - 1;
    KnownAccount(Fold(trace[..last]), trace[last]);
    if trace[last].AccountRead? { return last; }
    i := ReadAt(trace[..last]);
  }

  /**
   Before Home is removed the run has removed both grants, shut the login, then
   terminated the processes, cleared the jobs and committed the witness.
   */
  lemma HomeRemovalGate(trace: seq<Event>, at: set<nat>, i: nat) returns (sudo: nat, sshd: nat, a: nat, b: nat, c: nat, d: nat)
    requires LawfulBut(trace, at) && i < |trace| && i !in at && trace[i] == HomeRemoval
    ensures Lasts(trace[..i], sudo, SudoRemoved, SudoGranting) && Lasts(trace[..i], sshd, SSHDRemoved, SSHDGranting)
    ensures a < b < c < d && Stands(trace[..i], a, LoginDisabled) && Stands(trace[..i], b, ProcessesTerminated)
    ensures Stands(trace[..i], c, JobsCleared) && Stands(trace[..i], d, WitnessCommitted)
  {
    assert LawfulAt(trace, i);
    sudo := SudoRemovedAt(trace[..i]);
    sshd := SSHDRemovedAt(trace[..i]);
    a, b, c, d := WitnessedAt(trace[..i]);
  }

  /** Before userdel all of that, and the newest read of the entry is the authorized identity. */
  lemma UserdelGate(trace: seq<Event>, at: set<nat>, i: nat)
    returns (sudo: nat, sshd: nat, a: nat, b: nat, c: nat, d: nat, read: nat, current: Passwd, expected: Passwd)
    requires LawfulBut(trace, at) && i < |trace| && i !in at && trace[i] == Userdel
    ensures Lasts(trace[..i], sudo, SudoRemoved, SudoGranting) && Lasts(trace[..i], sshd, SSHDRemoved, SSHDGranting)
    ensures a < b < c < d && Stands(trace[..i], a, LoginDisabled) && Stands(trace[..i], b, ProcessesTerminated)
    ensures Stands(trace[..i], c, JobsCleared) && Stands(trace[..i], d, WitnessCommitted)
    ensures LastRead(trace[..i], read, Some(current)) && SameIdentity(expected, current)
    ensures Fold(trace[..i]).expected == Some(expected)
  {
    assert LawfulAt(trace, i);
    sudo := SudoRemovedAt(trace[..i]);
    sshd := SSHDRemovedAt(trace[..i]);
    a, b, c, d := WitnessedAt(trace[..i]);
    read := ReadAt(trace[..i]);
    current, expected := Fold(trace[..i]).account.value.value, Fold(trace[..i]).expected.value;
  }

  /** The newest read of the row in this run. */
  predicate LastRow(trace: seq<Event>, i: nat, row: Option<Row>, handoff: int) {
    i < |trace| && trace[i] == RowRead(row, handoff) &&
    forall k | i < k < |trace| :: !trace[k].RowRead? && !StartsOver(trace[k])
  }

  lemma KnownRow(s: Seen, e: Event)
    ensures Next(s, e).deadline.Some? ==>
      (e.RowRead? && Next(s, e).deadline == DeadlineOf(e.row) && Next(s, e).handoff == e.handoff) ||
      (!e.RowRead? && !StartsOver(e) && Next(s, e).deadline == s.deadline && Next(s, e).handoff == s.handoff)
  {
    hide DeadlineOf;
  }

  lemma {:induction false} DeadlineReadAt(trace: seq<Event>) returns (i: nat, row: Option<Row>)
    requires Fold(trace).deadline.Some?
    ensures LastRow(trace, i, row, Fold(trace).handoff) && DeadlineOf(row) == Fold(trace).deadline
  {
    hide Next, Fold, DeadlineOf;
    LastStep(trace);
    var last := |trace| - 1;
    KnownRow(Fold(trace[..last]), trace[last]);
    if trace[last].RowRead? { return last, trace[last].row; }
    i, row := DeadlineReadAt(trace[..last]);
  }

  /**
   An identity is released after a drain behind a shut login, or past a deadline
   read from its row in this run: a whole minute, 65 to 125 seconds after the
   handoff it was counted from.
   */
  lemma UserdelHold(trace: seq<Event>, at: set<nat>, i: nat)
    returns (a: nat, b: nat, read: nat, row: Option<Row>, handoff: int, deadline: int)
    requires LawfulBut(trace, at) && i < |trace| && i !in at && trace[i] == Userdel
    ensures
      (a < b && Stands(trace[..i], a, LoginDisabled) && Stands(trace[..i], b, JobsDrained)) ||
      (LastRow(trace[..i], read, row, handoff) && DeadlineOf(row) == Some(deadline) &&
       deadline % 60 == 0 && 65 * NANOS <= deadline * NANOS - handoff < 125 * NANOS &&
       deadline * NANOS <= Fold(trace[..i]).now)
  {
    hide DeadlineOf;
    assert LawfulAt(trace, i);
    a, b, read, row, handoff, deadline := 0, 0, 0, None, 0, 0;
    if Fold(trace[..i]).drained {
      a, b := DrainedAt(trace[..i]);
    } else {
      read, row := DeadlineReadAt(trace[..i]);
      handoff, deadline := Fold(trace[..i]).handoff, Fold(trace[..i]).deadline.value;
      assert trace[read] == RowRead(row, handoff) && LawfulAt(trace, read);
    }
  }

  /** A row is only let go after both grants are gone and the account was last seen absent. */
  lemma RowReleaseGate(trace: seq<Event>, at: set<nat>, i: nat) returns (sudo: nat, sshd: nat, read: nat)
    requires LawfulBut(trace, at) && i < |trace| && i !in at && trace[i] == RowRelease
    ensures Lasts(trace[..i], sudo, SudoRemoved, SudoGranting) && Lasts(trace[..i], sshd, SSHDRemoved, SSHDGranting)
    ensures LastRead(trace[..i], read, None)
  {
    assert LawfulAt(trace, i);
    sudo := SudoRemovedAt(trace[..i]);
    sshd := SSHDRemovedAt(trace[..i]);
    read := ReadAt(trace[..i]);
  }

  /** A quarantine is counted from an instant at which the login was shut and the account quiet. */
  lemma HandoffGate(trace: seq<Event>, at: set<nat>, i: nat, deadline: int) returns (a: nat, b: nat, c: nat)
    requires LawfulBut(trace, at) && i < |trace| && i !in at && trace[i] == HandedOff(deadline)
    ensures a < b < c && Stands(trace[..i], a, LoginDisabled) && Stands(trace[..i], b, ProcessesTerminated)
    ensures Stands(trace[..i], c, JobsCleared) && deadline == QuarantineDeadline(Fold(trace[..i]).now)
  {
    assert LawfulAt(trace, i);
    a, b, c := PassedAt(trace[..i]);
  }

  /**
   The history of an invite whose account vanishes before its login was shut and
   is brought back before its deletion looks: the run finds the name free, adds
   the user and fails; its rollback finds the account gone, records the deletion
   and deletes the identity that is back.
   */
  function Resurrection(row: Row, before: int, handoff: int, pw: Passwd): seq<Event> {
    [RunStarted, AccountRead(None), RowRead(None, before), SudoRemoved, SSHDRemoved, AccountCreating,
     AccountRead(None), RowRead(Some(row), handoff), WitnessCommitted, Authorized(pw), AccountRead(Some(pw)),
     HomeRemoval, AccountRead(Some(pw)), HomeRemoval, AccountRead(Some(pw)), Userdel]
  }

  /** Exactly its two Home removals and its userdel are unlawful. */
  lemma ResurrectionEscapesTheGates(row: Row, before: int, handoff: int, pw: Passwd)
    requires row.quarantineUntil == ""
    ensures LawfulBut(Resurrection(row, before, handoff, pw), {11, 13, 15})
  {
    hide Fold, Next;
    var trace := Resurrection(row, before, handoff, pw);
    forall i: nat | i < |trace| ensures LawfulAt(trace, i) <==> i !in {11, 13, 15} {
      if trace[i] == HomeRemoval || trace[i] == Userdel {
        if Fold(trace[..i]).disabled {
          var k := DisabledAt(trace[..i]);
          assert false;
        }
      }
    }
  }
}
