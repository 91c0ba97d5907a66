/** The compliance contract as an object whose fields are its storage entries
    (contracts/compliance/src/lib.rs).  Every entrypoint is proved to do exactly what
    `ComplianceRegistry.Apply` says; the list and log loops are proved against closed forms. */
module ComplianceContract {
  import opened Collections
  import opened ComplianceRegistry

  /** The loop that copies all but the first entry. */
  method DropOldest<T>(list: seq<T>) returns (trimmed: seq<T>)
    requires list != []
    ensures trimmed == list[1..]
  {
    trimmed := [];
    for i := 1 to |list|
      invariant trimmed == list[1..i]
    {
      trimmed := trimmed + [list[i]];
    }
  }

  method AppendBounded<T>(log: seq<T>, entry: T) returns (next: seq<T>)
    requires |log| <= MAX_HISTORY
    ensures next == LastN(log + [entry], MAX_HISTORY)
  {
    var kept := log;
    if |log| >= MAX_HISTORY {
      kept := DropOldest(log);
    }
    next := kept + [entry];
  }

  method Contains(list: seq<Address>, a: Address) returns (found: bool)
    ensures found <==> a in list
  {
    for i := 0 to |list|
      invariant a !in list[..i]
    {
      if list[i] == a {
        return true;
      }
    }
    return false;
  }

  /** `evicts` tells the status lists, which drop their oldest entry when full, from the list
      of pending screeners, which then stays as it is. */
  method AddToList(list: seq<Address>, a: Address, max: nat, evicts: bool) returns (next: seq<Address>)
    requires max > 0
    ensures next == if evicts then AddedEvicting(list, a, max) else AddedIfRoom(list, a, max)
  {
    var found := Contains(list, a);
    if found {
      return list;
    }
    next := list;
    if |list| >= max {
      next := DropOldest(list);
      if !evicts {
        return list;
      }
    }
    next := next + [a];
  }

  method RemoveFromList(list: seq<Address>, a: Address) returns (next: seq<Address>)
    ensures next == Without(list, a)
  {
    next := [];
    for i := 0 to |list|
      invariant next == Without(list[..i], a)
    {
      assert list[..i + 1][..i] == list[..i];
      if list[i] != a {
        next := next + [list[i]];
      }
    }
    assert list[..|list|] == list;
  }

  class Contract {
    var admin: Option<Address>
    var accessControl: Option<Address>
    var governance: Option<Address>
    var paused: bool
    var rescreeningInterval: U64
    var screenerTimelock: U64
    var records: map<Address, Record>
    var history: map<Address, seq<HistoryEntry>>
    var submissions: map<Address, seq<SubmissionEntry>>
    var screeners: set<Address>
    var screenerIds: seq<Address>
    var pendingScreeners: map<Address, PendingScreener>
    var pendingScreenerIds: seq<Address>
    var flaggedIds: seq<Address>
    var pendingReviewIds: seq<Address>
    var reviewRequestedAt: map<Address, U64>
    var lastScreenedAt: map<(Address, Address), U64>

    ghost function State(): Registry
      reads this
    {
      Registry(Config(admin, accessControl, governance, paused, rescreeningInterval, screenerTimelock),
               Roster(screeners, screenerIds, pendingScreeners, pendingScreenerIds),
               Ledger(records, history, submissions),
               StatusLists(flaggedIds, pendingReviewIds),
               Cooldowns(reviewRequestedAt, lastScreenedAt))
    }

    /** The bounded logs never outgrow their bound. */
    ghost predicate Valid()
      reads this
    {
      && (forall a :: a in history ==> |history[a]| <= MAX_HISTORY)
      && (forall a :: a in submissions ==> |submissions[a]| <= MAX_HISTORY)
    }

    constructor ()
      ensures Valid() && State() == Fresh
    {
      admin, accessControl, governance, paused := None, None, None, false;
      rescreeningInterval, screenerTimelock := DEFAULT_RESCREENING_INTERVAL, DEFAULT_SCREENER_TIMELOCK;
      records, history, submissions := map[], map[], map[];
      screeners, screenerIds, pendingScreeners, pendingScreenerIds := {}, [], map[], [];
      flaggedIds, pendingReviewIds := [], [];
      reviewRequestedAt, lastScreenedAt := map[], map[];
    }

    method ResetLists()
      modifies this
      ensures State() == old(State()).(
                roster := old(State()).roster.(screenerIds := [], pendingScreenerIds := []),
                lists := StatusLists([], []))
    {
      screenerIds, pendingScreenerIds, flaggedIds, pendingReviewIds := [], [], [], [];
    }

    method Initialize(newAdmin: Address, now: U64) returns (r: Outcome)
      requires Valid()
      modifies this
      ensures Valid() && (State(), r) == Apply(old(State()), now, Call.Initialize(newAdmin))
    {
      if admin.Some? {
        return Rejected(AlreadyInitialized);
      }
      admin, paused := Some(newAdmin), false;
      rescreeningInterval, screenerTimelock := DEFAULT_RESCREENING_INTERVAL, DEFAULT_SCREENER_TIMELOCK;
      ResetLists();
      return Accepted;
    }

    /** require_admin, require_access_control and require_governance. */
    method Require(gate: Gate, caller: Address) returns (refusal: Option<Error>)
      ensures refusal == Refusal(State().config, gate, caller)
    {
      var configured := match gate
                        case AdminKey => admin
                        case AccessControl => accessControl
                        case Governance => governance;
      if configured.None? {
        return Some(match gate
                    case AdminKey => NotInitialized
                    case AccessControl => AccessControlNotConfigured
                    case Governance => GovernanceNotConfigured);
      }
      return if caller != configured.value then Some(Unauthorized) else None;
    }

    method SetPaused(gate: Gate, caller: Address, value: bool, now: U64) returns (r: Outcome)
      requires Valid() && gate != Governance
      modifies this
      ensures Valid() && (State(), r) == Apply(old(State()), now, Call.SetPaused(gate, caller, value))
    {
      var refusal := Require(gate, caller);
      if refusal.Some? {
        return Rejected(refusal.value);
      }
      paused := value;
      return Accepted;
    }

    method DropProposal(a: Address)
      modifies this
      ensures State() == old(State()).(roster := Unproposed(old(State()).roster, a))
    {
      pendingScreeners := pendingScreeners - {a};
      pendingScreenerIds := RemoveFromList(pendingScreenerIds, a);
    }

    method ActivateScreener(a: Address) returns (r: Outcome)
      modifies this
      ensures var roster := old(State()).roster;
              var refusal := ActivationRefusal(roster, a);
              if refusal.Some? then r == Rejected(refusal.value) && State() == old(State())
              else r == Accepted && State() == old(State()).(roster := Activated(roster, a))
    {
      if a in screeners {
        return Rejected(ScreenerAlreadyRegistered);
      }
      if |screenerIds| >= MAX_SCREENERS {
        return Rejected(ListFull);
      }
      screenerIds := screenerIds + [a];
      screeners := screeners + {a};
      return Accepted;
    }

    method RegisterScreener(gate: Gate, caller: Address, a: Address, now: U64) returns (r: Outcome)
      requires Valid() && gate != Governance
      modifies this
      ensures Valid() && (State(), r) == Apply(old(State()), now, Call.RegisterScreener(gate, caller, a))
    {
      var refusal := Require(gate, caller);
      if refusal.Some? {
        return Rejected(refusal.value);
      }
      if paused {
        return Rejected(ContractPaused);
      }
      if a in screeners {
        return Rejected(ScreenerAlreadyRegistered);
      }
      if a in pendingScreeners {
        return Rejected(ScreenerAlreadyRegistered);
      }
      if screenerTimelock == 0 {
        r := ActivateScreener(a);
        return r;
      }
      pendingScreeners := pendingScreeners[a := PendingScreener(a, now, SaturatingAdd(now, screenerTimelock))];
      pendingScreenerIds := AddToList(pendingScreenerIds, a, MAX_SCREENERS, false);
      return Accepted;
    }

    /** A failing activation is rolled back by the host together with the removal before it. */
    method ConfirmScreener(gate: Gate, caller: Address, a: Address, now: U64) returns (r: Outcome)
      requires Valid() && gate != Governance
      modifies this
      ensures Valid() && (State(), r) == Apply(old(State()), now, Call.ConfirmScreener(gate, caller, a))
    {
      var refusal := Require(gate, caller);
      if refusal.Some? {
        return Rejected(refusal.value);
      }
      if paused {
        return Rejected(ContractPaused);
      }
      if a !in pendingScreeners {
        return Rejected(NoPendingScreener);
      }
      if now < pendingScreeners[a].effectiveAt {
        return Rejected(ScreenerTimelockActive);
      }
      var proposals, ids := pendingScreeners, pendingScreenerIds;
      DropProposal(a);
      r := ActivateScreener(a);
      if r.Rejected? {
        pendingScreeners, pendingScreenerIds := proposals, ids;
      }
    }

    method DeregisterScreener(gate: Gate, caller: Address, a: Address, now: U64) returns (r: Outcome)
      requires Valid() && gate != Governance
      modifies this
      ensures Valid() && (State(), r) == Apply(old(State()), now, Call.DeregisterScreener(gate, caller, a))
    {
      var refusal := Require(gate, caller);
      if refusal.Some? {
        return Rejected(refusal.value);
      }
      if paused {
        return Rejected(ContractPaused);
      }
      if a !in screeners {
        if a in pendingScreeners {
          DropProposal(a);
          return Accepted;
        }
        return Rejected(ScreenerNotRegistered);
      }
      screeners := screeners - {a};
      screenerIds := RemoveFromList(screenerIds, a);
      return Accepted;
    }

    method SetRescreeningInterval(gate: Gate, caller: Address, secs: U64, now: U64) returns (r: Outcome)
      requires Valid()
      modifies this
      ensures Valid() && (State(), r) == Apply(old(State()), now, Call.SetRescreeningInterval(gate, caller, secs))
    {
      var refusal := Require(gate, caller);
      if refusal.Some? {
        return Rejected(refusal.value);
      }
      if secs == 0 || (gate == Governance && secs < MIN_GOVERNED_INTERVAL) {
        return Rejected(InvalidConfig);
      }
      rescreeningInterval := secs;
      return Accepted;
    }

    method SetScreenerTimelock(gate: Gate, caller: Address, secs: U64, now: U64) returns (r: Outcome)
      requires Valid()
      modifies this
      ensures Valid() && (State(), r) == Apply(old(State()), now, Call.SetScreenerTimelock(gate, caller, secs))
    {
      var refusal := Require(gate, caller);
      if refusal.Some? {
        return Rejected(refusal.value);
      }
      if gate == Governance && secs < MIN_GOVERNED_TIMELOCK {
        return Rejected(InvalidConfig);
      }
      screenerTimelock := secs;
      return Accepted;
    }

    method SetAccessControl(gate: Gate, caller: Address, address: Address, now: U64) returns (r: Outcome)
      requires Valid() && gate != Governance
      modifies this
      ensures Valid() && (State(), r) == Apply(old(State()), now, Call.SetAccessControl(gate, caller, address))
    {
      var refusal := Require(gate, caller);
      if refusal.Some? {
        return Rejected(refusal.value);
      }
      accessControl := Some(address);
      return Accepted;
    }

    method SetGovernance(caller: Address, address: Address, now: U64) returns (r: Outcome)
      requires Valid()
      modifies this
      ensures Valid() && (State(), r) == Apply(old(State()), now, Call.SetGovernance(caller, address))
    {
      var refusal := Require(AdminKey, caller);
      if refusal.Some? {
        return Rejected(refusal.value);
      }
      governance := Some(address);
      return Accepted;
    }

    method SyncStatusLists(a: Address, status: Status)
      modifies this
      ensures State() == old(State()).(lists := Synced(old(State()).lists, a, status))
    {
      match status
      case Flagged | Blocked =>
        flaggedIds := AddToList(flaggedIds, a, MAX_FLAGGED, true);
        pendingReviewIds := RemoveFromList(pendingReviewIds, a);
      case PendingReview =>
        pendingReviewIds := AddToList(pendingReviewIds, a, MAX_PENDING_REVIEW, true);
        flaggedIds := RemoveFromList(flaggedIds, a);
      case Cleared | Unscreened =>
        flaggedIds := RemoveFromList(flaggedIds, a);
        pendingReviewIds := RemoveFromList(pendingReviewIds, a);
    }

    /** Writes a record, both bounded logs and both status lists. */
    method StoreRecord(r: Record)
      requires Valid()
      modifies this
      ensures Valid() && State() == Stored(old(State()), r)
    {
      records := records[r.address := r];
      var log := AppendBounded(LogOf(history, r.address), AsHistory(r));
      history := history[r.address := log];
      var made := AppendBounded(LogOf(submissions, r.screenedBy), AsSubmission(r));
      submissions := submissions[r.screenedBy := made];
      SyncStatusLists(r.address, r.status);
    }

    method SubmitScreeningResult(screener: Address, subject: Address, status: Status, reasonCode: nat,
                                 riskTier: RiskTier, expiresAt: U64, notesHash: Text, now: U64)
      returns (r: Outcome)
      requires Valid()
      modifies this
      ensures Valid()
      ensures (State(), r) == Apply(old(State()), now,
                SubmitScreening(screener, subject, status, reasonCode, riskTier, expiresAt, notesHash))
    {
      if paused {
        return Rejected(ContractPaused);
      }
      if admin.None? {
        return Rejected(NotInitialized);
      }
      var isAdmin := screener == admin.value;
      if !isAdmin && screener !in screeners {
        return Rejected(Unauthorized);
      }
      if status == Unscreened {
        return Rejected(InvalidStatus);
      }
      if !isAdmin && (screener, subject) in lastScreenedAt {
        if now < SaturatingAdd(lastScreenedAt[(screener, subject)], rescreeningInterval) {
          return Rejected(RescreeningTooSoon);
        }
      }
      var effectiveExpires := expiresAt;
      if expiresAt == 0 {
        effectiveExpires := SaturatingAdd(now, rescreeningInterval);
      } else if expiresAt <= now && status == Cleared {
        return Rejected(InvalidConfig);
      }
      StoreRecord(Record(subject, status, reasonCode, riskTier, now, screener, effectiveExpires, notesHash));
      lastScreenedAt := lastScreenedAt[(screener, subject) := now];
      return Accepted;
    }

    method RequestReviewOf(caller: Address, subject: Address, reason: Text, now: U64) returns (r: Outcome)
      requires Valid()
      modifies this
      ensures Valid() && (State(), r) == Apply(old(State()), now, RequestReview(caller, subject, reason))
    {
      if paused {
        return Rejected(ContractPaused);
      }
      if |reason| == 0 || |reason| > MAX_REASON_LENGTH {
        return Rejected(InvalidReason);
      }
      if subject in reviewRequestedAt {
        if now < SaturatingAdd(reviewRequestedAt[subject], REVIEW_COOLDOWN) {
          return Rejected(ReviewRequestTooSoon);
        }
      }
      reviewRequestedAt := reviewRequestedAt[subject := now];
      var tier := if subject in records then records[subject].riskTier else Medium;
      StoreRecord(Record(subject, PendingReview, 0, tier, now, caller, 0, reason));
      return Accepted;
    }

    /** The batch view agrees with the single view address by address. */
    method EffectiveStatusBatch(addresses: seq<Address>, now: U64) returns (results: seq<Status>)
      ensures |results| == |addresses|
      ensures forall i :: 0 <= i < |addresses| ==> results[i] == EffectiveStatus(State().ledger, now, addresses[i])
    {
      results := [];
      for i := 0 to |addresses|
        invariant |results| == i
        invariant forall j :: 0 <= j < i ==> results[j] == EffectiveStatus(State().ledger, now, addresses[j])
      {
        var status := Unscreened;
        if addresses[i] in records {
          var r := records[addresses[i]];
          status := if r.status == Cleared && r.expiresAt != 0 && now >= r.expiresAt then Unscreened else r.status;
        }
        results := results + [status];
      }
    }

    /** The listed proposals, in list order, without the addresses that have none on file. */
    method ListPendingScreeners() returns (found: seq<PendingScreener>)
      ensures found == ProposalsOf(pendingScreenerIds, pendingScreeners)
    {
      found := [];
      for i := 0 to |pendingScreenerIds|
        invariant found == ProposalsOf(pendingScreenerIds[..i], pendingScreeners)
      {
        assert pendingScreenerIds[..i + 1][..i] == pendingScreenerIds[..i];
        if pendingScreenerIds[i] in pendingScreeners {
          found := found + [pendingScreeners[pendingScreenerIds[i]]];
        }
      }
      assert pendingScreenerIds[..|pendingScreenerIds|] == pendingScreenerIds;
    }
  }
}
