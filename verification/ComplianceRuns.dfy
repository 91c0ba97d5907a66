/** What holds of the compliance registry after every run of entrypoint calls. */
module ComplianceRuns {
  import opened Collections
  import opened ComplianceRegistry

  datatype AnyOp = Op(now: U64, call: Call)

  /** A call of an entrypoint the contract has, at some ledger time. */
  type Op = o: AnyOp | o.call.Exists() witness Op(0, Initialize(0))

  function After(ops: seq<Op>): Registry {
    if ops == [] then Fresh
    else Respond(After(ops[..|ops| - 1]), ops[|ops| - 1]).0
  }

  function Respond(s: Registry, op: Op): Response {
    Apply(s, op.now, op.call)
  }

  /** The i-th call of a run succeeded. */
  predicate Succeeded(ops: seq<Op>, i: nat)
    requires i < |ops|
  {
    Respond(After(ops[..i]), ops[i]).1.Accepted?
  }

  /** Ledger time does not go back. */
  ghost predicate Timely(ops: seq<Op>) {
    forall i, j :: 0 <= i < j < |ops| ==> ops[i].now <= ops[j].now
  }

  /** The record a call stores, if it stores one. */
  function Written(s: Registry, op: Op): Option<Record> {
    if (op.call.SubmitScreening? || op.call.RequestReview?) && Respond(s, op).1.Accepted?
    then Some(RecordOf(s, op.now, op.call)) else None
  }

  // ----- Agreement of the stores -----

  predicate IsFlagged(l: Ledger, a: Address) {
    a in l.records && l.records[a].status in {Flagged, Blocked}
  }

  predicate IsPendingReview(l: Ledger, a: Address) {
    a in l.records && l.records[a].status == PendingReview
  }

  ghost predicate ListsAgree(t: StatusLists, l: Ledger) {
    && NoDup(t.flaggedIds) && |t.flaggedIds| <= MAX_FLAGGED
    && NoDup(t.pendingReviewIds) && |t.pendingReviewIds| <= MAX_PENDING_REVIEW
    && (forall a :: a in t.flaggedIds ==> IsFlagged(l, a))
    && (forall a :: a in t.pendingReviewIds ==> IsPendingReview(l, a))
  }

  /** A clearance always carries an expiry, strictly later than the screening unless the clock
      is at the end of its range. */
  ghost predicate SoundExpiry(r: Record) {
    r.status == Cleared ==> r.expiresAt != 0 && (r.expiresAt > r.screenedAt <==> r.screenedAt < U64_MAX)
  }

  /** The history of an address is bounded and ends with its record. */
  ghost predicate RecordAgrees(l: Ledger, a: Address)
    requires a in l.records && a in l.history
  {
    var log := l.history[a];
    && l.records[a].address == a && SoundExpiry(l.records[a])
    && 0 < |log| <= MAX_HISTORY
    && log[|log| - 1] == AsHistory(l.records[a])
  }

  ghost predicate RecordsAgree(l: Ledger) {
    && l.history.Keys == l.records.Keys
    && (forall a :: a in l.records ==> RecordAgrees(l, a))
    && (forall a :: a in l.submissions ==> 0 < |l.submissions[a]| <= MAX_HISTORY)
  }

  ghost predicate ScreenersAgree(r: Roster) {
    && NoDup(r.screenerIds) && |r.screenerIds| <= MAX_SCREENERS
    && (forall a :: a in r.screenerIds <==> a in r.screeners)
    && NoDup(r.pendingScreenerIds) && |r.pendingScreenerIds| <= MAX_SCREENERS
    && (forall a :: a in r.pendingScreenerIds ==> a in r.pendingScreeners)
    && r.screeners !! r.pendingScreeners.Keys
    && (forall a :: a in r.pendingScreeners ==> r.pendingScreeners[a].address == a)
  }

  /** Before `initialize` nobody can have been appointed or have screened. */
  ghost predicate ConfigurationAgrees(s: Registry) {
    && s.config.rescreeningInterval > 0
    && (s.config.admin.None? ==>
          && s.config.accessControl.None? && s.config.governance.None? && !s.config.paused
          && s.roster == Roster({}, [], map[], []) && s.lists.flaggedIds == [])
  }

  ghost predicate Consistent(s: Registry) {
    ListsAgree(s.lists, s.ledger) && RecordsAgree(s.ledger) && ScreenersAgree(s.roster) && ConfigurationAgrees(s)
  }

  lemma EvictingAddKeepsNoDup(list: seq<Address>, a: Address, max: nat)
    requires NoDup(list) && |list| <= max && max > 0
    ensures var r := AddedEvicting(list, a, max);
            && NoDup(r) && |r| <= max && a in r
            && forall x :: x in r ==> x == a || x in list
  {
  }

  lemma SyncedAddress(t: StatusLists, a: Address, status: Status)
    requires NoDup(t.flaggedIds) && |t.flaggedIds| <= MAX_FLAGGED
    requires NoDup(t.pendingReviewIds) && |t.pendingReviewIds| <= MAX_PENDING_REVIEW
    ensures var t' := Synced(t, a, status);
            && NoDup(t'.flaggedIds) && |t'.flaggedIds| <= MAX_FLAGGED
            && NoDup(t'.pendingReviewIds) && |t'.pendingReviewIds| <= MAX_PENDING_REVIEW
            && (a in t'.flaggedIds <==> status in {Flagged, Blocked})
            && (a in t'.pendingReviewIds <==> status == PendingReview)
            && (forall x :: x in t'.flaggedIds && x != a ==> x in t.flaggedIds)
            && (forall x :: x in t'.pendingReviewIds && x != a ==> x in t.pendingReviewIds)
  {
    EvictingAddKeepsNoDup(t.flaggedIds, a, MAX_FLAGGED);
    EvictingAddKeepsNoDup(t.pendingReviewIds, a, MAX_PENDING_REVIEW);
    WithoutElements(t.flaggedIds, a);
    WithoutElements(t.pendingReviewIds, a);
    WithoutKeepsNoDup(t.flaggedIds, a);
    WithoutKeepsNoDup(t.pendingReviewIds, a);
  }

  lemma StoringKeepsLists(t: StatusLists, l: Ledger, r: Record)
    requires ListsAgree(t, l)
    ensures ListsAgree(Synced(t, r.address, r.status), Logged(l, r))
  {
    SyncedAddress(t, r.address, r.status);
  }

  lemma StoringKeepsRecords(l: Ledger, r: Record)
    requires RecordsAgree(l) && SoundExpiry(r)
    ensures RecordsAgree(Logged(l, r))
  {
    var l' := Logged(l, r);
    assert l'.history.Keys == l.history.Keys + {r.address};
    assert l'.records.Keys == l.records.Keys + {r.address};
    forall a | a in l'.records
      ensures RecordAgrees(l', a)
    {
      assert a != r.address ==> RecordAgrees(l, a);
    }
  }

  lemma RemovingKeepsScreeners(r: Roster, a: Address)
    requires ScreenersAgree(r)
    ensures ScreenersAgree(Unproposed(r, a)) && ScreenersAgree(Deactivated(r, a))
  {
    WithoutElements(r.pendingScreenerIds, a);
    WithoutElements(r.screenerIds, a);
    WithoutKeepsNoDup(r.pendingScreenerIds, a);
    WithoutKeepsNoDup(r.screenerIds, a);
  }

  lemma AddingKeepsScreeners(r: Roster, p: PendingScreener)
    requires ScreenersAgree(r) && p.address !in r.screeners && p.address !in r.pendingScreeners
    ensures ScreenersAgree(Proposed(r, p))
    ensures |r.screenerIds| < MAX_SCREENERS ==> ScreenersAgree(Activated(r, p.address))
  {
  }

  lemma StepKeepsScreeners(s: Registry, op: Op)
    requires ScreenersAgree(s.roster) && ConfigurationAgrees(s)
    ensures ScreenersAgree(Respond(s, op).0.roster)
  {
    if Respond(s, op).1.Accepted? {
      match op.call
      case RegisterScreener(_, _, a) =>
        AddingKeepsScreeners(s.roster, PendingScreener(a, op.now, SaturatingAdd(op.now, s.config.screenerTimelock)));
      case ConfirmScreener(_, _, a) =>
        RemovingKeepsScreeners(s.roster, a);
        AddingKeepsScreeners(Unproposed(s.roster, a), s.roster.pendingScreeners[a]);
      case DeregisterScreener(_, _, a) =>
        RemovingKeepsScreeners(s.roster, a);
      case _ =>
    }
  }

  lemma WrittenExpiryIsSound(s: Registry, op: Op)
    requires s.config.rescreeningInterval > 0 && Written(s, op).Some?
    ensures SoundExpiry(Written(s, op).value)
  {
  }

  /** A call that stores a record stores it everywhere; any other leaves the records and at most
      empties the lists. */
  lemma OnlyWritesTouchRecords(s: Registry, op: Op)
    ensures var s' := Respond(s, op).0;
            match Written(s, op)
            case Some(r) => s'.ledger == Logged(s.ledger, r) && s'.lists == Synced(s.lists, r.address, r.status)
            case None => s'.ledger == s.ledger && (s'.lists == s.lists || s'.lists == StatusLists([], []))
  {
  }

  lemma StepKeepsListsAndRecords(s: Registry, op: Op)
    requires ListsAgree(s.lists, s.ledger) && RecordsAgree(s.ledger) && s.config.rescreeningInterval > 0
    ensures ListsAgree(Respond(s, op).0.lists, Respond(s, op).0.ledger) && RecordsAgree(Respond(s, op).0.ledger)
  {
    OnlyWritesTouchRecords(s, op);
    if Written(s, op).Some? {
      WrittenExpiryIsSound(s, op);
      StoringKeepsLists(s.lists, s.ledger, Written(s, op).value);
      StoringKeepsRecords(s.ledger, Written(s, op).value);
    }
  }

  lemma StepKeepsConfiguration(s: Registry, op: Op)
    requires ConfigurationAgrees(s)
    ensures ConfigurationAgrees(Respond(s, op).0)
  {
    assert forall a :: Without<Address>([], a) == [];
  }

  /** The stores agree in every reachable state: status lists, records, histories, active and
      proposed screeners. */
  lemma {:induction false} ReachableIsConsistent(ops: seq<Op>)
    ensures Consistent(After(ops))
  {
    if ops != [] {
      var s, op := After(ops[..|ops| - 1]), ops[|ops| - 1];
      ReachableIsConsistent(ops[..|ops| - 1]);
      StepKeepsScreeners(s, op);
      StepKeepsListsAndRecords(s, op);
      StepKeepsConfiguration(s, op);
    }
  }

  /** While paused, no call changes a record, a log, a list, a screener or a cooldown; only the
      configuration can change. */
  lemma PausedContractIsFrozen(ops: seq<Op>, op: Op)
    requires After(ops).config.paused
    ensures var s, s' := After(ops), Respond(After(ops), op).0;
            s'.ledger == s.ledger && s'.lists == s.lists && s'.roster == s.roster && s'.cooldowns == s.cooldowns
  {
    ReachableIsConsistent(ops);
  }

  lemma {:induction false} ProposalsInOrder(ids: seq<Address>, proposals: map<Address, PendingScreener>)
    requires forall a :: a in ids ==> a in proposals
    ensures var found := ProposalsOf(ids, proposals);
            |found| == |ids| && forall i :: 0 <= i < |ids| ==> found[i] == proposals[ids[i]]
  {
    if ids != [] {
      ProposalsInOrder(ids[..|ids| - 1], proposals);
    }
  }

  /** In every reachable state the listed proposals are one per listed address, in list order:
      the address a proposal is listed under never lacks its proposal. */
  lemma ListedProposalsAreOnFile(ops: seq<Op>)
    ensures var r := After(ops).roster;
            var found := ProposalsOf(r.pendingScreenerIds, r.pendingScreeners);
            && |found| == |r.pendingScreenerIds|
            && forall i :: 0 <= i < |found| ==>
                 && r.pendingScreenerIds[i] in r.pendingScreeners
                 && found[i] == r.pendingScreeners[r.pendingScreenerIds[i]] && found[i].address == r.pendingScreenerIds[i]
  {
    ReachableIsConsistent(ops);
    ProposalsInOrder(After(ops).roster.pendingScreenerIds, After(ops).roster.pendingScreeners);
  }
}
