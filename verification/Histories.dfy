/** Every history of one account name: invites and revokes one after another, each cut short anywhere. */
module Histories {
  import opened Wrappers
  import opened Validate
  import opened Records
  import opened Lifecycle
  import opened Hosts
  import opened Revokes
  import opened Invites

  datatype Request = Inviting(plan: Plan) | Revoking(opts: Options) | PowerLoss

  /** What the command line and the random source see to before an invite starts. */
  predicate MayInvite(h: Host, plan: Plan)
    reads h
  {
    Username(h.user) && Port(plan.port) && Generation(plan.generation) &&
    (h.s.account.Some? ==> !GenerationOf(h.s.account.value.marker, {plan.generation}))
  }

  /**
   Whatever is asked for, in whatever order, wherever each call fails, is killed
   or loses power, and whoever edits the account in between: the promises of the
   host hold throughout, and without tampering no destructive step was ever taken
   unlawfully. A matching account keeps its task, whatever row comes back, unless
   some expiry task was cancelled behind a row that was not synced.
   */
  method Serve(h: Host, requests: seq<Request>)
    requires h.Valid()
    modifies h, h.breaches
    ensures h.Valid() && old(h.trace) <= h.trace && Safe(h.user, h.s)
    ensures LawfulBut(h.trace, h.breaches.at) && old(h.breaches.at) <= h.breaches.at
    ensures h.s.tampering || h.breaches.at == old(h.breaches.at)
    ensures !h.s.tampering && !h.atRisk && !Retired(h.trace) ==> TasksArmed(h.s) && OlderArmed(h.s)
  {
    hide Safe, LawfulBut, Retired, Fold, Meanwhile, MatchesNow, Usable, Bears, Reachable, GenerationOf, TasksArmed,
      OlderArmed;
    for i := 0 to |requests|
      invariant h.Valid() && old(h.trace) <= h.trace && old(h.breaches.at) <= h.breaches.at
      invariant h.s.tampering == old(h.s).tampering
      invariant h.s.tampering || h.breaches.at == old(h.breaches.at)
    {
      ghost var s0, at0 := h.s, h.breaches.at;
      ServeOne(h, requests[i]);
    }
    ArmedUnlessAtRisk(h.user, h.s);
  }

  method ServeOne(h: Host, request: Request)
    requires h.Valid()
    modifies h, h.breaches
    ensures h.Valid() && old(h.trace) <= h.trace && old(h.breaches.at) <= h.breaches.at
    ensures h.s.tampering == old(h.s).tampering && (h.s.tampering || h.breaches.at == old(h.breaches.at))
  {
    hide Safe, LawfulBut, Retired, Fold, Meanwhile, MatchesNow, Usable, Bears, Reachable, GenerationOf;
    h.Elapse();
    match request
    case Revoking(opts) =>
      var revoke := new Transaction(h, opts);
      var result := revoke.Run();
    case Inviting(plan) =>
      if MayInvite(h, plan) {
        var invite := new Invite(h, plan);
        var result := invite.Run();
      }
    case PowerLoss =>
      h.LosePower();
  }

  lemma ArmedUnlessAtRisk(user: string, s: HostState)
    requires Safe(user, s)
    ensures !s.tampering && !s.exposed && !s.stranded ==> TasksArmed(s) && OlderArmed(s)
  {
    hide TasksArmed, OlderArmed, SoundRows, Lineage, Accounted;
  }
}
