/**
 The admin side of a listing's life: approve, reject, set live, pause, resume. Every accepted action
 writes the listing and one audit row; a refused one writes nothing.
 */
module ListingLifecycle {
  import opened Wrappers

  datatype Status = Draft | Submitted | Approved | Rejected | Live | Paused

  datatype Listing = Listing(status: Status, pausedFrom: Option<Status>)

  datatype AuditAction =
    | ListingApproved
    | ListingRejected(reason: string)
    | ListingSetLive
    | ListingPaused(previousStatus: Status)
    | ListingResumed(restoredStatus: Status)

  datatype AuditRow = AuditRow(listingId: string, action: AuditAction)

  datatype Reply = Now(status: Status) | NotFound | Refused

  datatype Action =
    | Approve(id: string)
    | Reject(id: string, reason: string)
    | SetLive(id: string)
    | Pause(id: string)
    | Resume(id: string, hostFrozen: bool)

  /** What an accepted action does to the listing, and the audit row it leaves; `None` if refused. */
  function Effect(l: Listing, a: Action): Option<(Listing, AuditAction)> {
    match a
    case Approve(_) => if l.status == Submitted then Some((l.(status := Approved), ListingApproved)) else None
    case Reject(_, reason) =>
      if l.status == Submitted then Some((l.(status := Rejected), ListingRejected(reason))) else None
    case SetLive(_) => if l.status == Approved then Some((l.(status := Live), ListingSetLive)) else None
    case Pause(_) =>
      if l.status == Live || l.status == Approved then
        Some((Listing(Paused, Some(if l.status == Approved then Approved else Live)), ListingPaused(l.status)))
      else None
    case Resume(_, hostFrozen) =>
      if l.status == Paused && !hostFrozen then
        var restored := if l.pausedFrom == Some(Approved) then Approved else Live;
        Some((Listing(restored, None), ListingResumed(restored)))
      else None
  }

  datatype State = State(listings: map<string, Listing>, audit: seq<AuditRow>)

  function Act(s: State, a: Action): (Reply, State) {
    if a.id !in s.listings then (NotFound, s)
    else match Effect(s.listings[a.id], a)
         case None => (Refused, s)
         case Some((l, row)) =>
           (Now(l.status), State(s.listings[a.id := l], s.audit + [AuditRow(a.id, row)]))
  }

  class AdminStays {
    var listings: map<string, Listing>
    var audit: seq<AuditRow>

    ghost function Abstract(): State
      reads this
    {
      State(listings, audit)
    }

    constructor (listings: map<string, Listing>)
      ensures Abstract() == State(listings, [])
    {
      this.listings := listings;
      audit := [];
    }

    method ApproveListing(id: string) returns (reply: Reply)
      modifies this
      ensures (reply, Abstract()) == Act(old(Abstract()), Approve(id))
      // The same, spelled out.
      ensures reply == NotFound <==> id !in old(listings)
      ensures reply.Now? <==> id in old(listings) && old(listings)[id].status == Submitted
      ensures reply.Now? ==>
                && reply == Now(Approved)
                && listings == old(listings)[id := Listing(Approved, old(listings)[id].pausedFrom)]
                && audit == old(audit) + [AuditRow(id, ListingApproved)]
      ensures !reply.Now? ==> listings == old(listings) && audit == old(audit)
    {
      if id !in listings { return NotFound; }
      if listings[id].status != Submitted { return Refused; }
      listings := listings[id := listings[id].(status := Approved)];
      audit := audit + [AuditRow(id, ListingApproved)];
      return Now(Approved);
    }

    method RejectListing(id: string, reason: string) returns (reply: Reply)
      modifies this
      ensures (reply, Abstract()) == Act(old(Abstract()), Reject(id, reason))
      // The same, spelled out.
      ensures reply == NotFound <==> id !in old(listings)
      ensures reply.Now? <==> id in old(listings) && old(listings)[id].status == Submitted
      ensures reply.Now? ==>
                && reply == Now(Rejected)
                && listings == old(listings)[id := Listing(Rejected, old(listings)[id].pausedFrom)]
                && audit == old(audit) + [AuditRow(id, ListingRejected(reason))]
      ensures !reply.Now? ==> listings == old(listings) && audit == old(audit)
    {
      if id !in listings { return NotFound; }
      if listings[id].status != Submitted { return Refused; }
      listings := listings[id := listings[id].(status := Rejected)];
      audit := audit + [AuditRow(id, ListingRejected(reason))];
      return Now(Rejected);
    }

    method SetListingLive(id: string) returns (reply: Reply)
      modifies this
      ensures (reply, Abstract()) == Act(old(Abstract()), SetLive(id))
      // The same, spelled out.
      ensures reply == NotFound <==> id !in old(listings)
      ensures reply.Now? <==> id in old(listings) && old(listings)[id].status == Approved
      ensures reply.Now? ==>
                && reply == Now(Live)
                && listings == old(listings)[id := Listing(Live, old(listings)[id].pausedFrom)]
                && audit == old(audit) + [AuditRow(id, ListingSetLive)]
      ensures !reply.Now? ==> listings == old(listings) && audit == old(audit)
    {
      if id !in listings { return NotFound; }
      if listings[id].status != Approved { return Refused; }
      listings := listings[id := listings[id].(status := Live)];
      audit := audit + [AuditRow(id, ListingSetLive)];
      return Now(Live);
    }

    method PauseListing(id: string) returns (reply: Reply)
      modifies this
      ensures (reply, Abstract()) == Act(old(Abstract()), Pause(id))
      // The same, spelled out.
      ensures reply == NotFound <==> id !in old(listings)
      ensures reply.Now? <==> id in old(listings) && old(listings)[id].status in {Live, Approved}
      ensures reply.Now? ==>
                && reply == Now(Paused)
                && listings == old(listings)[id := Listing(Paused, Some(old(listings)[id].status))]
                && audit == old(audit) + [AuditRow(id, ListingPaused(old(listings)[id].status))]
      ensures !reply.Now? ==> listings == old(listings) && audit == old(audit)
    {
      if id !in listings { return NotFound; }
      var listing := listings[id];
      if listing.status !in {Live, Approved} { return Refused; }
      var previous := listing.status;
      listing := listing.(pausedFrom := Some(if previous == Approved then Approved else Live));
      listing := listing.(status := Paused);
      listings := listings[id := listing];
      audit := audit + [AuditRow(id, ListingPaused(previous))];
      return Now(Paused);
    }

    method UnpauseListing(id: string, hostFrozen: bool) returns (reply: Reply)
      modifies this
      ensures (reply, Abstract()) == Act(old(Abstract()), Resume(id, hostFrozen))
      // The same, spelled out.
      ensures reply == NotFound <==> id !in old(listings)
      ensures reply.Now? <==> id in old(listings) && old(listings)[id].status == Paused && !hostFrozen
      ensures reply.Now? ==>
                var restored := if old(listings)[id].pausedFrom == Some(Approved) then Approved else Live;
                && reply == Now(restored)
                && listings == old(listings)[id := Listing(restored, None)]
                && audit == old(audit) + [AuditRow(id, ListingResumed(restored))]
      ensures !reply.Now? ==> listings == old(listings) && audit == old(audit)
    {
      if id !in listings { return NotFound; }
      var listing := listings[id];
      if listing.status != Paused { return Refused; }
      if hostFrozen { return Refused; }
      var restoreTo := if listing.pausedFrom == Some(Approved) then Approved else Live;
      listing := listing.(status := restoreTo);
      listing := listing.(pausedFrom := None);
      listings := listings[id := listing];
      audit := audit + [AuditRow(id, ListingResumed(restoreTo))];
      return Now(restoreTo);
    }
  }

  // ---------------------------------------------------------------------------------------------
  // Runs
  // ---------------------------------------------------------------------------------------------

  function Run(s: State, actions: seq<Action>): State {
    if actions == [] then s else Act(Run(s, actions[..|actions| - 1]), actions[|actions| - 1]).1
  }

  /** The status an auditor derives from the rows of one listing that was SUBMITTED before them. */
  function Replay(audit: seq<AuditRow>, id: string): Status {
    if audit == [] then Submitted
    else
      var last := audit[|audit| - 1];
      if last.listingId != id then Replay(audit[..|audit| - 1], id)
      else match last.action
           case ListingApproved => Approved
           case ListingRejected(_) => Rejected
           case ListingSetLive => Live
           case ListingPaused(_) => Paused
           case ListingResumed(restored) => restored
  }

  function LastAction(audit: seq<AuditRow>, id: string): Option<AuditAction> {
    if audit == [] then None
    else if audit[|audit| - 1].listingId == id then Some(audit[|audit| - 1].action)
    else LastAction(audit[..|audit| - 1], id)
  }

  ghost predicate WasApproved(audit: seq<AuditRow>, id: string) {
    AuditRow(id, ListingApproved) in audit
  }

  /** An approval followed later by a set-live. */
  ghost predicate WasPublished(audit: seq<AuditRow>, id: string) {
    exists i, j :: 0 <= i < j < |audit|
                   && audit[i] == AuditRow(id, ListingApproved) && audit[j] == AuditRow(id, ListingSetLive)
  }

  /** What the status a listing has, or returns to after its pause, needs in the audit log. */
  ghost predicate Justified(status: Status, audit: seq<AuditRow>, id: string) {
    && (status == Approved ==> WasApproved(audit, id))
    && (status == Live ==> WasPublished(audit, id))
  }

  predicate IsDecision(row: AuditRow, id: string) {
    row.listingId == id && (row.action.ListingApproved? || row.action.ListingRejected?)
  }

  /** At most one of the rows approves or rejects the listing. */
  ghost predicate DecidedOnce(audit: seq<AuditRow>, id: string) {
    forall i, j :: 0 <= i < j < |audit| ==> !(IsDecision(audit[i], id) && IsDecision(audit[j], id))
  }

  ghost predicate Untouched(audit: seq<AuditRow>, id: string) {
    forall i :: 0 <= i < |audit| ==> audit[i].listingId != id
  }

  /** The decision was taken while SUBMITTED, and SUBMITTED is left for good with the first audit row. */
  ghost predicate Decided(s: State, id: string) {
    && id in s.listings
    && DecidedOnce(s.audit, id)
    && (s.listings[id].status == Submitted <==> Untouched(s.audit, id))
  }

  ghost predicate Consistent(s: State, id: string) {
    && id in s.listings
    && var l := s.listings[id];
       && l.status == Replay(s.audit, id)
       && (l.pausedFrom.Some? <==> l.status == Paused)
       && (l.status == Paused ==>
             && (l.pausedFrom == Some(Live) || l.pausedFrom == Some(Approved))
             && LastAction(s.audit, id) == Some(ListingPaused(l.pausedFrom.value))
             && Justified(l.pausedFrom.value, s.audit, id))
       && Justified(l.status, s.audit, id)
  }

  lemma JustifiedGrows(status: Status, audit: seq<AuditRow>, row: AuditRow, id: string)
    requires Justified(status, audit, id)
    ensures Justified(status, audit + [row], id)
  {
    if status == Live {
      var i, j :| 0 <= i < j < |audit|
                  && audit[i] == AuditRow(id, ListingApproved) && audit[j] == AuditRow(id, ListingSetLive);
      var audit' := audit + [row];
      assert audit'[i] == audit[i] && audit'[j] == audit[j];
    }
  }

  lemma ActKeepsConsistent(s: State, a: Action, id: string)
    requires Consistent(s, id)
    ensures Consistent(Act(s, a).1, id)
  {
    var s' := Act(s, a).1;
    if s' != s {
      var row := s'.audit[|s.audit|];
      assert s'.audit == s.audit + [row];
      assert s'.audit[..|s.audit|] == s.audit;
      var l := s.listings[id];
      JustifiedGrows(l.status, s.audit, row, id);
      if l.status == Paused {
        JustifiedGrows(l.pausedFrom.value, s.audit, row, id);
      }
      if a.id == id && a.SetLive? {
        assert s'.audit[|s.audit|] == AuditRow(id, ListingSetLive);
        var i :| 0 <= i < |s.audit| && s.audit[i] == AuditRow(id, ListingApproved);
        assert s'.audit[i] == s.audit[i];
      }
    }
  }

  lemma ActKeepsDecided(s: State, a: Action, id: string)
    requires Decided(s, id) && Consistent(s, id)
    ensures Decided(Act(s, a).1, id)
  {
    var s' := Act(s, a).1;
    if s' != s {
      var row := s'.audit[|s.audit|];
      assert row.listingId == a.id;
      assert forall i :: 0 <= i < |s.audit| ==> s.audit[i] == s'.audit[i];
    }
  }

  /**
   For every run of actions, on this listing and on any others, from SUBMITTED: replaying the audit
   rows gives the current status; `paused_from_status` is set exactly while PAUSED; a pause is the
   last thing audited while PAUSED and names the status to return to; LIVE, or paused from LIVE,
   means an approval was followed by a set-live; and the listing was decided on at most once.
   */
  lemma {:induction false} RunIsConsistent(listings: map<string, Listing>, actions: seq<Action>, id: string)
    requires id in listings && listings[id] == Listing(Submitted, None)
    ensures Consistent(Run(State(listings, []), actions), id) && Decided(Run(State(listings, []), actions), id)
    decreases |actions|
  {
    if actions != [] {
      var n := |actions| - 1;
      RunIsConsistent(listings, actions[..n], id);
      ActKeepsConsistent(Run(State(listings, []), actions[..n]), actions[n], id);
      ActKeepsDecided(Run(State(listings, []), actions[..n]), actions[n], id);
    }
  }

  /** A rejection is final: no action changes the listing or audits anything more on it. */
  lemma {:induction false} RejectedIsFinal(s: State, actions: seq<Action>, id: string)
    requires id in s.listings && s.listings[id].status == Rejected
    ensures var s' := Run(s, actions);
            && id in s'.listings && s'.listings[id] == s.listings[id]
            && s.audit <= s'.audit
            && forall i :: |s.audit| <= i < |s'.audit| ==> s'.audit[i].listingId != id
    decreases |actions|
  {
    if actions != [] {
      RejectedIsFinal(s, actions[..|actions| - 1], id);
    }
  }

  /** Pausing and resuming is the identity on every listing that can be paused. */
  lemma PauseThenResume(s: State, id: string)
    requires Consistent(s, id) && Act(s, Pause(id)).0 == Now(Paused)
    ensures var resumed := Act(Act(s, Pause(id)).1, Resume(id, false));
            && resumed.0 == Now(s.listings[id].status)
            && resumed.1.listings == s.listings
  {
  }
}
