/** When the enumeration lists of the compliance registry are complete. */
module ComplianceLists {
  import opened Collections
  import opened ComplianceRegistry
  import opened ComplianceRuns

  // ----- Flagged and pending-review lists -----

  /** What an evicting add pushes out. */
  function Evicted(list: seq<Address>, a: Address, max: nat): set<Address> {
    if a !in list && |list| >= max && list != [] then {list[0]} else {}
  }

  /** The flagged addresses that a run dropped from the list and has not written again. */
  function LostFlagged(ops: seq<Op>): set<Address> {
    if ops == [] then {}
    else
      var s, op := After(ops[..|ops| - 1]), ops[|ops| - 1];
      var before := LostFlagged(ops[..|ops| - 1]);
      match Written(s, op)
      case Some(r) =>
        before - {r.address} +
        (if r.status in {Flagged, Blocked} then Evicted(s.lists.flaggedIds, r.address, MAX_FLAGGED) else {})
      case None => before
  }

  /** The addresses under review that a run dropped from the list and has not written again:
      evicted, or listed before `initialize` emptied the list. */
  function LostPendingReview(ops: seq<Op>): set<Address> {
    if ops == [] then {}
    else
      var s, op := After(ops[..|ops| - 1]), ops[|ops| - 1];
      var before := LostPendingReview(ops[..|ops| - 1]);
      match Written(s, op)
      case Some(r) =>
        before - {r.address} +
        (if r.status == PendingReview then Evicted(s.lists.pendingReviewIds, r.address, MAX_PENDING_REVIEW) else {})
      case None =>
        if op.call.Initialize? && Respond(s, op).1.Accepted? then before + Elements(s.lists.pendingReviewIds)
        else before
  }

  lemma AddedOrEvicted(list: seq<Address>, a: Address, max: nat)
    requires NoDup(list) && max > 0
    ensures forall x :: x in list || x == a <==>
              x in AddedEvicting(list, a, max) || x in Evicted(list, a, max)
    ensures forall x :: x in Evicted(list, a, max) ==> x != a && x !in AddedEvicting(list, a, max)
    ensures Evicted(list, a, max) != {} <==> a !in list && |list| >= max
  {
    if Evicted(list, a, max) != {} {
      assert list == [list[0]] + list[1..];
    }
  }

  /** `list` and `lost` part the addresses whose record has one of the statuses. */
  ghost predicate Parts(list: seq<Address>, lost: set<Address>, l: Ledger, statuses: set<Status>) {
    forall a :: (a in l.records && l.records[a].status in statuses <==> a in list || a in lost)
                && !(a in list && a in lost)
  }

  /** One write keeps the parting. */
  lemma WriteKeepsParting(list: seq<Address>, lost: set<Address>, l: Ledger, r: Record, statuses: set<Status>, max: nat)
    requires NoDup(list) && max > 0 && Parts(list, lost, l, statuses)
    ensures var gets := r.status in statuses;
            Parts(if gets then AddedEvicting(list, r.address, max) else Without(list, r.address),
                  lost - {r.address} + (if gets then Evicted(list, r.address, max) else {}),
                  Logged(l, r), statuses)
  {
    AddedOrEvicted(list, r.address, max);
    WithoutElements(list, r.address);
  }

  /** The addresses with a flagged or blocked record are those on the list and those the run
      lost, and never both.  So the list is exact as long as nothing was lost. */
  lemma {:induction false} FlaggedListIsExact(ops: seq<Op>)
    ensures var s := After(ops);
            Parts(s.lists.flaggedIds, LostFlagged(ops), s.ledger, {Flagged, Blocked})
  {
    if ops != [] {
      var s, op := After(ops[..|ops| - 1]), ops[|ops| - 1];
      FlaggedListIsExact(ops[..|ops| - 1]);
      ReachableIsConsistent(ops[..|ops| - 1]);
      OnlyWritesTouchRecords(s, op);
      if Written(s, op).Some? {
        var r := Written(s, op).value;
        WriteKeepsParting(s.lists.flaggedIds, LostFlagged(ops[..|ops| - 1]), s.ledger, r,
                          {Flagged, Blocked}, MAX_FLAGGED);
      } else {
        FlaggedListKept(s, op);
      }
    }
  }

  lemma FlaggedListKept(s: Registry, op: Op)
    requires ConfigurationAgrees(s) && Written(s, op).None?
    ensures Respond(s, op).0.lists.flaggedIds == s.lists.flaggedIds
    ensures !(op.call.Initialize? && Respond(s, op).1.Accepted?) ==> Respond(s, op).0.lists == s.lists
  {
  }

  /** The same for the addresses under review. */
  lemma {:induction false} PendingReviewListIsExact(ops: seq<Op>)
    ensures var s := After(ops);
            Parts(s.lists.pendingReviewIds, LostPendingReview(ops), s.ledger, {PendingReview})
  {
    if ops != [] {
      var s, op := After(ops[..|ops| - 1]), ops[|ops| - 1];
      PendingReviewListIsExact(ops[..|ops| - 1]);
      ReachableIsConsistent(ops[..|ops| - 1]);
      OnlyWritesTouchRecords(s, op);
      if Written(s, op).Some? {
        var r := Written(s, op).value;
        WriteKeepsParting(s.lists.pendingReviewIds, LostPendingReview(ops[..|ops| - 1]), s.ledger, r,
                          {PendingReview}, MAX_PENDING_REVIEW);
      } else {
        FlaggedListKept(s, op);
      }
    }
  }

  /** Nothing is lost without cause: a flagged address only to a full list, an address under
      review only to a full list or to `initialize`. */
  lemma {:induction false} LossesHaveACause(ops: seq<Op>)
    ensures LostFlagged(ops) != {} ==>
              exists i: nat :: i < |ops| && |After(ops[..i]).lists.flaggedIds| == MAX_FLAGGED
    ensures LostPendingReview(ops) != {} ==>
              exists i: nat :: i < |ops| && (|After(ops[..i]).lists.pendingReviewIds| == MAX_PENDING_REVIEW
                                             || (ops[i].call.Initialize? && Succeeded(ops, i)))
  {
    if ops != [] {
      var init := ops[..|ops| - 1];
      LossesHaveACause(init);
      ReachableIsConsistent(init);
      assert forall i: nat :: i < |init| ==> init[..i] == ops[..i];
      if LostFlagged(init) != {} {
        var i: nat :| i < |init| && |After(init[..i]).lists.flaggedIds| == MAX_FLAGGED;
        assert |After(ops[..i]).lists.flaggedIds| == MAX_FLAGGED;
      }
      if LostPendingReview(init) != {} {
        var i: nat :| i < |init| && (|After(init[..i]).lists.pendingReviewIds| == MAX_PENDING_REVIEW
                                     || (init[i].call.Initialize? && Succeeded(init, i)));
        assert |After(ops[..i]).lists.pendingReviewIds| == MAX_PENDING_REVIEW
               || (ops[i].call.Initialize? && Succeeded(ops, i));
      }
    }
  }

  /** A review asked for before `initialize` leaves an address under review that no list names. */
  lemma ReviewBeforeInitializeIsLost()
    ensures exists ops: seq<Op>, a ::
              IsPendingReview(After(ops).ledger, a) && a !in After(ops).lists.pendingReviewIds
  {
    var review: Op := Op(0, RequestReview(1, 2, [88]));
    var init: Op := Op(0, Initialize(7));
    var ops := [review, init];
    assert ops[..1] == [review] && [review][..0] == [];
    var s := Respond(Fresh, review).0;
    assert After([review]) == s;
    assert s.ledger.records[2].status == PendingReview;
    assert After(ops).lists.pendingReviewIds == [];
  }

  // ----- The list of proposed screeners -----

  /** An accepted proposal is listed exactly when the list had room. */
  lemma ProposalIsListed(ops: seq<Op>, i: nat)
    requires i < |ops| && ops[i].call.RegisterScreener? && Succeeded(ops, i)
    requires After(ops[..i]).config.screenerTimelock > 0
    ensures var s, a := After(ops[..i]), ops[i].call.screener;
            var s' := After(ops[..i + 1]);
            && a in s'.roster.pendingScreeners
            && (a in s'.roster.pendingScreenerIds <==> |s.roster.pendingScreenerIds| < MAX_SCREENERS)
  {
    ReachableIsConsistent(ops[..i]);
    assert ops[..i + 1][..i] == ops[..i];
  }

  /** The proposals a run made while the list was full and has not resolved since. */
  function Unlisted(ops: seq<Op>): set<Address> {
    if ops == [] then {}
    else
      var s, op := After(ops[..|ops| - 1]), ops[|ops| - 1];
      var before := Unlisted(ops[..|ops| - 1]);
      if Respond(s, op).1.Rejected? then before
      else
        match op.call
        case RegisterScreener(_, _, a) =>
          if s.config.screenerTimelock > 0 && |s.roster.pendingScreenerIds| >= MAX_SCREENERS then before + {a} else before
        case ConfirmScreener(_, _, a) => before - {a}
        case DeregisterScreener(_, _, a) => before - {a}
        case _ => before
  }

  lemma RosterStep(s: Registry, op: Op)
    requires ScreenersAgree(s.roster) && ConfigurationAgrees(s)
    ensures var r, r', c := s.roster, Respond(s, op).0.roster, op.call;
            var changed := Respond(s, op).1.Accepted?;
            && (!changed || !(c.RegisterScreener? || c.ConfirmScreener? || c.DeregisterScreener?) ==> r' == r)
            && (changed && (c.ConfirmScreener? || c.DeregisterScreener?) ==>
                  forall x :: (x in r'.pendingScreeners <==> x in r.pendingScreeners && x != c.screener)
                              && (x in r'.pendingScreenerIds <==> x in r.pendingScreenerIds && x != c.screener))
            && (changed && c.RegisterScreener? && s.config.screenerTimelock == 0 ==>
                  r'.pendingScreeners == r.pendingScreeners && r'.pendingScreenerIds == r.pendingScreenerIds)
            && (changed && c.RegisterScreener? && s.config.screenerTimelock > 0 ==>
                  && c.screener !in r.pendingScreeners
                  && (forall x :: x in r'.pendingScreeners <==> x in r.pendingScreeners || x == c.screener)
                  && r'.pendingScreenerIds == AddedIfRoom(r.pendingScreenerIds, c.screener, MAX_SCREENERS))
  {
    if op.call.ConfirmScreener? || op.call.DeregisterScreener? {
      WithoutElements(s.roster.pendingScreenerIds, op.call.screener);
    }
  }

  /** The proposals on file are those listed and those made while the list was full. */
  lemma {:induction false} ProposalListIsExact(ops: seq<Op>)
    ensures var r := After(ops).roster;
            forall a :: (a in r.pendingScreeners <==> a in r.pendingScreenerIds || a in Unlisted(ops))
                        && !(a in r.pendingScreenerIds && a in Unlisted(ops))
  {
    if ops != [] {
      var s, op := After(ops[..|ops| - 1]), ops[|ops| - 1];
      ProposalListIsExact(ops[..|ops| - 1]);
      ReachableIsConsistent(ops[..|ops| - 1]);
      RosterStep(s, op);
    }
  }

  /** Admin 0 initializes the contract and proposes the screeners 1 to n. */
  function Proposals(n: nat): seq<Op> {
    if n == 0 then [Op(0, Initialize(0))]
    else Proposals(n - 1) + [Op(0, RegisterScreener(AdminKey, 0, n))]
  }

  lemma {:induction false} ProposalsFillTheList(n: nat)
    ensures var s := After(Proposals(n));
            && s.config.admin == Some(0) && !s.config.paused
            && s.config.screenerTimelock == DEFAULT_SCREENER_TIMELOCK
            && s.roster.screeners == {}
            && (forall a :: a in s.roster.pendingScreeners <==> 1 <= a <= n)
            && (forall a :: a in s.roster.pendingScreenerIds <==> 1 <= a <= n && a <= MAX_SCREENERS)
            && |s.roster.pendingScreenerIds| == (if n <= MAX_SCREENERS then n else MAX_SCREENERS)
  {
    if n > 0 {
      ProposalsFillTheList(n - 1);
      var ops := Proposals(n);
      assert ops[..|ops| - 1] == Proposals(n - 1);
      assert Respond(After(Proposals(n - 1)), ops[|ops| - 1]).1.Accepted?;
    } else {
      assert Proposals(0)[..0] == [];
    }
  }

  /** One proposal more than the list holds is on file but not listed. */
  lemma AFullListHidesAProposal()
    ensures var r := After(Proposals(MAX_SCREENERS + 1)).roster;
            MAX_SCREENERS + 1 in r.pendingScreeners && MAX_SCREENERS + 1 !in r.pendingScreenerIds
  {
    ProposalsFillTheList(MAX_SCREENERS + 1);
  }
}
