/** Where every stored value of the compliance registry comes from, over whole runs: the screeners
    and proposals, the configuration, the cooldown stamps and the records. */
module ComplianceProvenance {
  import opened Collections
  import opened ComplianceRegistry
  import opened ComplianceRuns

  lemma PrefixSucceeds(ops: seq<Op>, n: nat, i: nat)
    requires i < n <= |ops|
    ensures ops[..n][..i] == ops[..i] && (Succeeded(ops[..n], i) <==> Succeeded(ops, i))
  {
    assert ops[..n][..i] == ops[..i];
  }

  // ----- Screeners -----

  /** The i-th call made `a` an active screener: a confirmation, or a registration at timelock zero. */
  ghost predicate Activates(ops: seq<Op>, i: nat, a: Address)
    requires i < |ops|
  {
    var c := ops[i].call;
    Succeeded(ops, i) &&
    ((c.ConfirmScreener? && c.screener == a)
     || (c.RegisterScreener? && c.screener == a && After(ops[..i]).config.screenerTimelock == 0))
  }

  /** The i-th call proposed `a`, under a timelock that was not zero. */
  ghost predicate Proposes(ops: seq<Op>, i: nat, a: Address)
    requires i < |ops|
  {
    var c := ops[i].call;
    Succeeded(ops, i) && c.RegisterScreener? && c.screener == a && After(ops[..i]).config.screenerTimelock != 0
  }

  ghost predicate Confirms(ops: seq<Op>, i: nat, a: Address)
    requires i < |ops|
  {
    Succeeded(ops, i) && ops[i].call.ConfirmScreener? && ops[i].call.screener == a
  }

  ghost predicate Deregisters(ops: seq<Op>, i: nat, a: Address)
    requires i < |ops|
  {
    Succeeded(ops, i) && ops[i].call.DeregisterScreener? && ops[i].call.screener == a
  }

  ghost predicate SameScreener(r: Roster, r': Roster, x: Address) {
    && (x in r'.screeners <==> x in r.screeners) && (x in r'.screenerIds <==> x in r.screenerIds)
    && (x in r'.pendingScreeners <==> x in r.pendingScreeners)
    && (x in r'.pendingScreenerIds <==> x in r.pendingScreenerIds)
    && (x in r.pendingScreeners ==> r'.pendingScreeners[x] == r.pendingScreeners[x])
  }

  lemma OtherCallsKeepScreeners(s: Registry, op: Op, x: Address)
    requires ConfigurationAgrees(s)
    requires !(op.call.RegisterScreener? || op.call.ConfirmScreener? || op.call.DeregisterScreener?)
             || Respond(s, op).1.Rejected?
    ensures SameScreener(s.roster, Respond(s, op).0.roster, x)
  {
  }

  /** An accepted deregistration takes the address out of the screeners, the proposals and both
      lists, and leaves every other address as it was. */
  lemma DeregistrationRemoves(s: Registry, op: Op, x: Address)
    requires ScreenersAgree(s.roster) && op.call.DeregisterScreener? && Respond(s, op).1.Accepted?
    ensures var r, r', a := s.roster, Respond(s, op).0.roster, op.call.screener;
            && a !in r'.screeners && a !in r'.screenerIds && a !in r'.pendingScreeners && a !in r'.pendingScreenerIds
            && (x != a ==> SameScreener(r, r', x))
  {
    WithoutElements(s.roster.screenerIds, op.call.screener);
    WithoutElements(s.roster.pendingScreenerIds, op.call.screener);
  }

  /** An accepted confirmation turns the proposal into an active, listed screener and leaves every
      other address as it was. */
  lemma ConfirmationActivates(s: Registry, op: Op, x: Address)
    requires ScreenersAgree(s.roster) && op.call.ConfirmScreener? && Respond(s, op).1.Accepted?
    ensures var r, r', a := s.roster, Respond(s, op).0.roster, op.call.screener;
            && a in r.pendingScreeners && a in r'.screeners && r'.screenerIds == r.screenerIds + [a]
            && a !in r'.pendingScreeners && a !in r'.pendingScreenerIds
            && (x != a ==> SameScreener(r, r', x))
  {
    WithoutElements(s.roster.pendingScreenerIds, op.call.screener);
  }

  /** An accepted registration activates the address at timelock zero, and otherwise puts a proposal
      on file that becomes effective after the timelock; every other address stays as it was. */
  lemma RegistrationAdds(s: Registry, op: Op, x: Address)
    requires ScreenersAgree(s.roster) && op.call.RegisterScreener? && Respond(s, op).1.Accepted?
    ensures var r, r', a := s.roster, Respond(s, op).0.roster, op.call.screener;
            && a !in r.screeners && a !in r.pendingScreeners
            && (x != a ==> SameScreener(r, r', x))
            && if s.config.screenerTimelock == 0 then
                 && a in r'.screeners && r'.screenerIds == r.screenerIds + [a] && a !in r'.pendingScreeners
               else
                 && a !in r'.screeners && a in r'.pendingScreeners
                 && r'.pendingScreeners[a].address == a && r'.pendingScreeners[a].proposedAt == op.now
                 && r'.pendingScreeners[a].effectiveAt ==
                      if op.now + s.config.screenerTimelock > U64_MAX then U64_MAX else op.now + s.config.screenerTimelock
  {
  }

  ghost predicate ActiveSince(ops: seq<Op>, i: nat, a: Address)
    requires i < |ops|
  {
    Activates(ops, i, a) && forall j: nat :: i < j < |ops| ==> !Deregisters(ops, j, a)
  }

  ghost predicate ProposedSince(ops: seq<Op>, i: nat, a: Address)
    requires i < |ops|
  {
    Proposes(ops, i, a) && forall j: nat :: i < j < |ops| ==> !Deregisters(ops, j, a) && !Confirms(ops, j, a)
  }

  lemma PrefixScreeners(ops: seq<Op>, a: Address)
    requires ops != []
    ensures var n := |ops| - 1;
            forall i: nat :: i < n ==>
              && (Activates(ops[..n], i, a) <==> Activates(ops, i, a)) && (Proposes(ops[..n], i, a) <==> Proposes(ops, i, a))
              && (Confirms(ops[..n], i, a) <==> Confirms(ops, i, a)) && (Deregisters(ops[..n], i, a) <==> Deregisters(ops, i, a))
  {
    var n := |ops| - 1;
    forall i: nat | i < n
      ensures (Activates(ops[..n], i, a) <==> Activates(ops, i, a)) && (Proposes(ops[..n], i, a) <==> Proposes(ops, i, a))
              && (Confirms(ops[..n], i, a) <==> Confirms(ops, i, a)) && (Deregisters(ops[..n], i, a) <==> Deregisters(ops, i, a))
    {
      PrefixSucceeds(ops, n, i);
    }
  }

  /** The last call decides for one address, or leaves it as it was. */
  lemma ScreenerStep(s: Registry, op: Op, a: Address)
    requires ScreenersAgree(s.roster) && ConfigurationAgrees(s)
    ensures var r, r', c := s.roster, Respond(s, op).0.roster, op.call;
            var accepted := Respond(s, op).1.Accepted?;
            && (accepted && c.DeregisterScreener? && c.screener == a ==> a !in r'.screeners && a !in r'.pendingScreeners)
            && (accepted && c.ConfirmScreener? && c.screener == a ==> a in r'.screeners && a !in r'.pendingScreeners)
            && (accepted && c.RegisterScreener? && c.screener == a ==>
                  (a in r'.screeners <==> s.config.screenerTimelock == 0)
                  && (a in r'.pendingScreeners <==> s.config.screenerTimelock != 0))
            && (!(accepted && (c.DeregisterScreener? || c.ConfirmScreener? || c.RegisterScreener?) && c.screener == a) ==>
                  SameScreener(r, r', a))
  {
    if Respond(s, op).1.Accepted? {
      if op.call.DeregisterScreener? {
        DeregistrationRemoves(s, op, a);
      } else if op.call.ConfirmScreener? {
        ConfirmationActivates(s, op, a);
      } else if op.call.RegisterScreener? {
        RegistrationAdds(s, op, a);
      } else {
        OtherCallsKeepScreeners(s, op, a);
      }
    } else {
      OtherCallsKeepScreeners(s, op, a);
    }
  }

  /** Being active since some call, and having been proposed since some call, over one more call. */
  lemma SinceStep(ops: seq<Op>, i: nat, a: Address)
    requires i + 1 < |ops|
    ensures var n := |ops| - 1;
            && (ActiveSince(ops, i, a) <==> ActiveSince(ops[..n], i, a) && !Deregisters(ops, n, a))
            && (ProposedSince(ops, i, a) <==>
                  ProposedSince(ops[..n], i, a) && !Deregisters(ops, n, a) && !Confirms(ops, n, a))
  {
    PrefixScreeners(ops, a);
  }

  lemma LastCallScreens(ops: seq<Op>, a: Address)
    requires ops != []
    ensures var n := |ops| - 1;
            var r, r' := After(ops[..n]).roster, After(ops).roster;
            && (a in r'.screeners <==> Activates(ops, n, a) || (a in r.screeners && !Deregisters(ops, n, a)))
            && (a in r'.pendingScreeners <==>
                  Proposes(ops, n, a) || (a in r.pendingScreeners && !Deregisters(ops, n, a) && !Confirms(ops, n, a)))
  {
    ReachableIsConsistent(ops[..|ops| - 1]);
    ScreenerStep(After(ops[..|ops| - 1]), ops[|ops| - 1], a);
  }

  /** Over every run: an address is an active screener if and only if an accepted confirmation of it,
      or registration at timelock zero, is later than every accepted deregistration of it. */
  lemma {:induction false} ActiveExactly(ops: seq<Op>, a: Address)
    ensures a in After(ops).roster.screeners <==> exists i: nat :: i < |ops| && ActiveSince(ops, i, a)
  {
    if ops != [] {
      var n := |ops| - 1;
      ActiveExactly(ops[..n], a);
      LastCallScreens(ops, a);
      if i: nat :| i < n && ActiveSince(ops[..n], i, a) {
        SinceStep(ops, i, a);
      }
      if i: nat :| i < |ops| && ActiveSince(ops, i, a) {
        if i < n {
          SinceStep(ops, i, a);
        }
      }
      assert Activates(ops, n, a) ==> ActiveSince(ops, n, a);
    }
  }

  /** The same for proposals, which a confirmation resolves as well. */
  lemma {:induction false} ProposedExactly(ops: seq<Op>, a: Address)
    ensures a in After(ops).roster.pendingScreeners <==> exists i: nat :: i < |ops| && ProposedSince(ops, i, a)
  {
    if ops != [] {
      var n := |ops| - 1;
      ProposedExactly(ops[..n], a);
      LastCallScreens(ops, a);
      if i: nat :| i < n && ProposedSince(ops[..n], i, a) {
        SinceStep(ops, i, a);
      }
      if i: nat :| i < |ops| && ProposedSince(ops, i, a) {
        if i < n {
          SinceStep(ops, i, a);
        }
      }
      assert Proposes(ops, n, a) ==> ProposedSince(ops, n, a);
    }
  }

  // ----- The configuration -----

  // What the last accepted call of its setter gave each value, or its default.

  function LastAdmin(ops: seq<Op>): Option<Address> {
    if ops == [] then None
    else
      var n := |ops| - 1;
      if Succeeded(ops, n) && ops[n].call.Initialize? then Some(ops[n].call.admin) else LastAdmin(ops[..n])
  }

  function LastAccessControl(ops: seq<Op>): Option<Address> {
    if ops == [] then None
    else
      var n := |ops| - 1;
      if Succeeded(ops, n) && ops[n].call.SetAccessControl? then Some(ops[n].call.accessControl) else LastAccessControl(ops[..n])
  }

  function LastGovernance(ops: seq<Op>): Option<Address> {
    if ops == [] then None
    else
      var n := |ops| - 1;
      if Succeeded(ops, n) && ops[n].call.SetGovernance? then Some(ops[n].call.governance) else LastGovernance(ops[..n])
  }

  function LastPause(ops: seq<Op>): bool {
    if ops == [] then false
    else
      var n := |ops| - 1;
      if Succeeded(ops, n) && ops[n].call.SetPaused? then ops[n].call.paused
      else if Succeeded(ops, n) && ops[n].call.Initialize? then false
      else LastPause(ops[..n])
  }

  function LastInterval(ops: seq<Op>): nat {
    if ops == [] then 180 * 86_400
    else
      var n := |ops| - 1;
      if Succeeded(ops, n) && ops[n].call.SetRescreeningInterval? then ops[n].call.secs
      else if Succeeded(ops, n) && ops[n].call.Initialize? then 180 * 86_400
      else LastInterval(ops[..n])
  }

  function LastTimelock(ops: seq<Op>): nat {
    if ops == [] then 86_400
    else
      var n := |ops| - 1;
      if Succeeded(ops, n) && ops[n].call.SetScreenerTimelock? then ops[n].call.secs
      else if Succeeded(ops, n) && ops[n].call.Initialize? then 86_400
      else LastTimelock(ops[..n])
  }

  /** Over every run each configuration value is the one that the last accepted call of its setter
      gave, or the default. */
  lemma {:induction false} ConfigurationIsTheLastWord(ops: seq<Op>)
    ensures var c := After(ops).config;
            && c.admin == LastAdmin(ops) && c.accessControl == LastAccessControl(ops) && c.governance == LastGovernance(ops)
            && c.paused == LastPause(ops) && c.rescreeningInterval == LastInterval(ops) && c.screenerTimelock == LastTimelock(ops)
  {
    if ops != [] {
      ConfigurationIsTheLastWord(ops[..|ops| - 1]);
    }
  }

  /** A deregistered screener who is not the admin and has not become active again is refused. */
  lemma DeregisteredIsRefused(ops: seq<Op>, i: nat, j: nat, a: Address)
    requires i < j < |ops| && Deregisters(ops, i, a)
    requires forall k: nat :: i < k < j ==> !Activates(ops, k, a)
    requires ops[j].call.SubmitScreening? && ops[j].call.screener == a
    requires !After(ops[..j]).config.paused && After(ops[..j]).config.admin != Some(a)
    ensures a !in After(ops[..j]).roster.screeners
    ensures Respond(After(ops[..j]), ops[j]).1 == Rejected(Unauthorized)
  {
    var init := ops[..j];
    ActiveExactly(init, a);
    if k: nat :| k < j && ActiveSince(init, k, a) {
      EarlierIsTheSame(ops, j, i, a);
      EarlierIsTheSame(ops, j, k, a);
      assert false;
    }
    InitializedBefore(ops, i, j);
  }

  lemma EarlierIsTheSame(ops: seq<Op>, j: nat, k: nat, a: Address)
    requires k < j <= |ops|
    ensures (Activates(ops[..j], k, a) <==> Activates(ops, k, a)) && (Deregisters(ops[..j], k, a) <==> Deregisters(ops, k, a))
  {
    PrefixSucceeds(ops, j, k);
  }

  lemma {:induction false} AdminStays(ops: seq<Op>, i: nat, j: nat)
    requires i <= j <= |ops| && After(ops[..i]).config.admin.Some?
    ensures After(ops[..j]).config.admin == After(ops[..i]).config.admin
    decreases j
  {
    if i < j {
      AdminStays(ops, i, j - 1);
      assert ops[..j][..j - 1] == ops[..j - 1];
    }
  }

  lemma InitializedBefore(ops: seq<Op>, i: nat, j: nat)
    requires i < j <= |ops| && Succeeded(ops, i) && ops[i].call.DeregisterScreener?
    ensures After(ops[..j]).config.admin.Some?
  {
    ReachableIsConsistent(ops[..i]);
    AdminStays(ops, i, j);
  }

  // ----- Cooldown stamps -----

  function LastReview(ops: seq<Op>, a: Address): Option<U64> {
    if ops == [] then None
    else
      var n := |ops| - 1;
      if Succeeded(ops, n) && ops[n].call.RequestReview? && ops[n].call.subject == a then Some(ops[n].now)
      else LastReview(ops[..n], a)
  }

  function LastScreening(ops: seq<Op>, who: Address, a: Address): Option<U64> {
    if ops == [] then None
    else
      var n := |ops| - 1;
      if Succeeded(ops, n) && ops[n].call.SubmitScreening? && ops[n].call.screener == who && ops[n].call.subject == a
      then Some(ops[n].now)
      else LastScreening(ops[..n], who, a)
  }

  function StampOf<K(==)>(stamps: map<K, U64>, k: K): Option<U64> {
    if k in stamps then Some(stamps[k]) else None
  }

  /** Over every run the stamps are the times of the last accepted review and screening. */
  lemma {:induction false} StampsAreTheLastTimes(ops: seq<Op>, who: Address, a: Address)
    ensures StampOf(After(ops).cooldowns.reviewRequestedAt, a) == LastReview(ops, a)
    ensures StampOf(After(ops).cooldowns.lastScreenedAt, (who, a)) == LastScreening(ops, who, a)
  {
    if ops != [] {
      StampsAreTheLastTimes(ops[..|ops| - 1], who, a);
    }
  }

  // ----- Records -----

  /** What an accepted screening or review request stores, and that it leaves the records of every
      other address alone. */
  lemma AcceptedCallsStore(s: Registry, op: Op, x: Address)
    requires Respond(s, op).1.Accepted? && (op.call.SubmitScreening? || op.call.RequestReview?)
    ensures var c, l, l' := op.call, s.ledger, Respond(s, op).0.ledger;
            && c.subject in l'.records
            && (x != c.subject ==> (x in l'.records <==> x in l.records) && (x in l.records ==> l'.records[x] == l.records[x]))
            && var r := l'.records[c.subject];
               && r.address == c.subject && r.screenedAt == op.now
               && (c.SubmitScreening? ==>
                     && r.status == c.status && r.reasonCode == c.reasonCode && r.riskTier == c.riskTier
                     && r.screenedBy == c.screener && r.notesHash == c.notesHash
                     && r.expiresAt == if c.expiresAt != 0 then c.expiresAt
                                       else if op.now + s.config.rescreeningInterval > U64_MAX then U64_MAX
                                       else op.now + s.config.rescreeningInterval)
               && (c.RequestReview? ==>
                     && r.status == PendingReview && r.reasonCode == 0 && r.screenedBy == c.caller
                     && r.expiresAt == 0 && r.notesHash == c.reason
                     && r.riskTier == if c.subject in l.records then l.records[c.subject].riskTier else Medium)
  {
  }

  /** Log entries mirror the record. */
  lemma EntriesMirrorTheRecord(r: Record)
    ensures var h := AsHistory(r);
            && h.status == r.status && h.reasonCode == r.reasonCode && h.riskTier == r.riskTier && h.screenedAt == r.screenedAt
            && h.screenedBy == r.screenedBy && h.expiresAt == r.expiresAt && h.notesHash == r.notesHash
    ensures var e := AsSubmission(r);
            && e.subject == r.address && e.status == r.status && e.reasonCode == r.reasonCode && e.riskTier == r.riskTier
            && e.screenedAt == r.screenedAt && e.expiresAt == r.expiresAt && e.notesHash == r.notesHash
  {
  }

  /** The i-th call is an accepted screening or review request of `a`. */
  ghost predicate Stores(ops: seq<Op>, i: nat, a: Address)
    requires i < |ops|
  {
    var c := ops[i].call;
    Succeeded(ops, i) && (c.SubmitScreening? || c.RequestReview?) && c.subject == a
  }

  /** The i-th call stored the record that `a` still has. */
  ghost predicate StoredLast(ops: seq<Op>, i: nat, a: Address)
    requires i < |ops|
  {
    Stores(ops, i, a) && forall j: nat :: i < j < |ops| ==> !Stores(ops, j, a)
  }

  /** The last call decides the record of one address, or leaves it as it was. */
  lemma RecordStep(ops: seq<Op>, a: Address)
    requires ops != []
    ensures var n := |ops| - 1;
            var l, l' := After(ops[..n]).ledger, After(ops).ledger;
            if Stores(ops, n, a) then a in l'.records && l'.records[a] == RecordOf(After(ops[..n]), ops[n].now, ops[n].call)
            else (a in l'.records <==> a in l.records) && (a in l.records ==> l'.records[a] == l.records[a])
  {
    var n := |ops| - 1;
    OnlyWritesTouchRecords(After(ops[..n]), ops[n]);
  }

  lemma {:induction false} StoredLastIsTheRecord(ops: seq<Op>, i: nat, a: Address)
    requires i < |ops| && StoredLast(ops, i, a)
    ensures a in After(ops).ledger.records
    ensures After(ops).ledger.records[a] == RecordOf(After(ops[..i]), ops[i].now, ops[i].call)
  {
    var n := |ops| - 1;
    RecordStep(ops, a);
    if i < n {
      StoredStep(ops, i, a);
      assert !Stores(ops, n, a);
      StoredLastIsTheRecord(ops[..n], i, a);
    }
  }

  lemma {:induction false} RecordWasStored(ops: seq<Op>, a: Address) returns (i: nat)
    requires a in After(ops).ledger.records
    ensures i < |ops| && StoredLast(ops, i, a)
  {
    var n := |ops| - 1;
    RecordStep(ops, a);
    i := n;
    if !Stores(ops, n, a) {
      i := RecordWasStored(ops[..n], a);
      StoredStep(ops, i, a);
    }
  }

  /** Over every run the record of an address is what its last accepted screening or review request
      stored. */
  lemma RecordIsTheLastStored(ops: seq<Op>, a: Address)
    ensures a in After(ops).ledger.records <==> exists i: nat :: i < |ops| && StoredLast(ops, i, a)
    ensures forall i: nat :: i < |ops| && StoredLast(ops, i, a) ==>
              a in After(ops).ledger.records && After(ops).ledger.records[a] == RecordOf(After(ops[..i]), ops[i].now, ops[i].call)
  {
    if a in After(ops).ledger.records {
      var i := RecordWasStored(ops, a);
    }
    forall i: nat | i < |ops| && StoredLast(ops, i, a)
      ensures a in After(ops).ledger.records && After(ops).ledger.records[a] == RecordOf(After(ops[..i]), ops[i].now, ops[i].call)
    {
      StoredLastIsTheRecord(ops, i, a);
    }
  }

  lemma PrefixStores(ops: seq<Op>, n: nat, i: nat, a: Address)
    requires i < n <= |ops|
    ensures Stores(ops[..n], i, a) <==> Stores(ops, i, a)
  {
    PrefixSucceeds(ops, n, i);
  }

  lemma StoredStep(ops: seq<Op>, i: nat, a: Address)
    requires i + 1 < |ops|
    ensures ops[..|ops| - 1][..i] == ops[..i]
    ensures StoredLast(ops, i, a) <==> StoredLast(ops[..|ops| - 1], i, a) && !Stores(ops, |ops| - 1, a)
  {
    var n := |ops| - 1;
    var init := ops[..n];
    forall j: nat | j < n
      ensures Stores(init, j, a) <==> Stores(ops, j, a)
    {
      PrefixStores(ops, n, j, a);
    }
  }

  /** The status of an address at any time: what the last accepted screening or review request of it
      gave, except that a clearance has run out at its expiry; without any it is unscreened. */
  lemma EffectiveStatusIsTheLastWord(ops: seq<Op>, now: U64, a: Address)
    ensures (forall i: nat :: i < |ops| ==> !StoredLast(ops, i, a)) ==>
              EffectiveStatus(After(ops).ledger, now, a) == Unscreened
    ensures forall i: nat :: i < |ops| && StoredLast(ops, i, a) ==>
              var c, r := ops[i].call, EffectiveStatus(After(ops).ledger, now, a);
              && (c.RequestReview? ==> r == PendingReview)
              && (c.SubmitScreening? && c.status != Cleared ==> r == c.status)
              && (c.SubmitScreening? && c.status == Cleared ==>
                    r == if now < EffectiveExpiry(After(ops[..i]), ops[i].now, c.expiresAt) then Cleared else Unscreened)
  {
    RecordIsTheLastStored(ops, a);
    ReachableIsConsistent(ops);
    assert a in After(ops).ledger.records ==> RecordAgrees(After(ops).ledger, a);
  }

  // ----- Which calls are accepted -----

  /** The caller is the one that the key belongs to. */
  predicate HoldsKey(c: Config, gate: Gate, caller: Address) {
    match gate
    case AdminKey => c.admin == Some(caller)
    case AccessControl => c.accessControl == Some(caller)
    case Governance => c.governance == Some(caller)
  }

  /** More than `wait` seconds have passed, where the end of the clock ends every wait. */
  predicate Waited(since: U64, wait: U64, now: U64) {
    if since + wait > U64_MAX then now == U64_MAX else now >= since + wait
  }

  /** When an administrative call is accepted. */
  lemma AdministrationIsAcceptedExactly(s: Registry, op: Op)
    ensures var c, r, accepted := op.call, s.roster, Respond(s, op).1.Accepted?;
            && (c.Initialize? ==> (accepted <==> s.config.admin.None?))
            && (c.SetPaused? || c.SetAccessControl? ==> (accepted <==> HoldsKey(s.config, c.gate, c.caller)))
            && (c.SetGovernance? ==> (accepted <==> s.config.admin == Some(c.caller)))
            && (c.SetRescreeningInterval? ==>
                  (accepted <==> HoldsKey(s.config, c.gate, c.caller) && c.secs > 0 && (c.gate == Governance ==> c.secs >= 86_400)))
            && (c.SetScreenerTimelock? ==>
                  (accepted <==> HoldsKey(s.config, c.gate, c.caller) && (c.gate == Governance ==> c.secs >= 3_600)))
            && (c.DeregisterScreener? ==>
                  (accepted <==> HoldsKey(s.config, c.gate, c.caller) && !s.config.paused
                                 && (c.screener in r.screeners || c.screener in r.pendingScreeners)))
            && (c.RegisterScreener? ==>
                  (accepted <==> HoldsKey(s.config, c.gate, c.caller) && !s.config.paused
                                 && c.screener !in r.screeners && c.screener !in r.pendingScreeners
                                 && (s.config.screenerTimelock == 0 ==> |r.screenerIds| < 64)))
            && (c.ConfirmScreener? ==>
                  (accepted <==> HoldsKey(s.config, c.gate, c.caller) && !s.config.paused
                                 && c.screener in r.pendingScreeners && op.now >= r.pendingScreeners[c.screener].effectiveAt
                                 && c.screener !in r.screeners && |r.screenerIds| < 64))
  {
  }

  /** When a screening or a review request is accepted. */
  lemma SubmissionsAreAcceptedExactly(s: Registry, op: Op)
    ensures var c, d, accepted := op.call, s.cooldowns, Respond(s, op).1.Accepted?;
            && (c.SubmitScreening? ==>
                  (accepted <==>
                     && !s.config.paused && s.config.admin.Some? && c.status != Unscreened
                     && (Some(c.screener) == s.config.admin || c.screener in s.roster.screeners)
                     && (Some(c.screener) != s.config.admin && (c.screener, c.subject) in d.lastScreenedAt ==>
                           Waited(d.lastScreenedAt[(c.screener, c.subject)], s.config.rescreeningInterval, op.now))
                     && (c.status == Cleared && c.expiresAt != 0 ==> c.expiresAt > op.now)))
            && (c.RequestReview? ==>
                  (accepted <==>
                     && !s.config.paused && 0 < |c.reason| <= 1024
                     && (c.subject in d.reviewRequestedAt ==> Waited(d.reviewRequestedAt[c.subject], 86_400, op.now))))
  {
  }

  /** A refusal changes nothing, and what it says of the setup, the pause and the caller is true. */
  lemma CallersAreRefusedForAReason(s: Registry, op: Op)
    requires Respond(s, op).1.Rejected?
    ensures var c, r, e := op.call, s.roster, Respond(s, op).1.error;
            && Respond(s, op).0 == s
            && (e == AlreadyInitialized ==> c.Initialize? && s.config.admin.Some?)
            && (e == NotInitialized ==> s.config.admin.None?)
            && (e == AccessControlNotConfigured ==> s.config.accessControl.None?)
            && (e == GovernanceNotConfigured ==> s.config.governance.None?)
            && (e == ContractPaused ==> s.config.paused)
            && (s.config.paused && (c.SubmitScreening? || c.RequestReview?) ==> e == ContractPaused)
            && (e == Unauthorized ==>
                  if c.SubmitScreening? then Some(c.screener) != s.config.admin && c.screener !in r.screeners
                  else if c.SetGovernance? then Some(c.caller) != s.config.admin
                  else !c.Initialize? && !c.RequestReview? && !HoldsKey(s.config, c.gate, c.caller))
  {
  }

  /** What a refusal says of screeners and their proposals is true. */
  lemma ScreenersAreRefusedForAReason(s: Registry, op: Op)
    requires Respond(s, op).1.Rejected?
    ensures var c, r, e := op.call, s.roster, Respond(s, op).1.error;
            && (e == ScreenerAlreadyRegistered ==>
                  (c.RegisterScreener? || c.ConfirmScreener?) && (c.screener in r.screeners || c.screener in r.pendingScreeners))
            && (e == ScreenerNotRegistered ==>
                  c.DeregisterScreener? && c.screener !in r.screeners && c.screener !in r.pendingScreeners)
            && (e == NoPendingScreener ==> c.ConfirmScreener? && c.screener !in r.pendingScreeners)
            && (e == ScreenerTimelockActive ==>
                  c.ConfirmScreener? && c.screener in r.pendingScreeners && op.now < r.pendingScreeners[c.screener].effectiveAt)
            && (e == ListFull ==> (c.RegisterScreener? || c.ConfirmScreener?) && |r.screenerIds| >= 64)
  {
  }

  /** What a refusal says of the values given and of the time since the last call is true. */
  lemma ValuesAreRefusedForAReason(s: Registry, op: Op)
    requires Respond(s, op).1.Rejected?
    ensures var c, d, e := op.call, s.cooldowns, Respond(s, op).1.error;
            && (e == InvalidStatus ==> c.SubmitScreening? && c.status == Unscreened)
            && (e == RescreeningTooSoon ==>
                  c.SubmitScreening? && (c.screener, c.subject) in d.lastScreenedAt
                  && !Waited(d.lastScreenedAt[(c.screener, c.subject)], s.config.rescreeningInterval, op.now))
            && (e == InvalidReason ==> c.RequestReview? && (|c.reason| == 0 || |c.reason| > 1024))
            && (e == ReviewRequestTooSoon ==>
                  c.RequestReview? && c.subject in d.reviewRequestedAt && !Waited(d.reviewRequestedAt[c.subject], 86_400, op.now))
            && (e == InvalidConfig ==>
                  || (c.SubmitScreening? && c.status == Cleared && 0 < c.expiresAt <= op.now)
                  || (c.SetRescreeningInterval? && (c.secs == 0 || (c.gate == Governance && c.secs < 86_400)))
                  || (c.SetScreenerTimelock? && c.gate == Governance && c.secs < 3_600))
  {
  }

  /** An accepted `initialize` names the admin, sets the defaults of half a year and of a day, unpauses
      and empties all four lists; everything else stays. */
  lemma InitializeSetsUp(s: Registry, op: Op)
    requires op.call.Initialize? && Respond(s, op).1.Accepted?
    ensures Respond(s, op).0 ==
            Registry(Config(Some(op.call.admin), s.config.accessControl, s.config.governance, false, 15_552_000, 86_400),
                     Roster(s.roster.screeners, [], s.roster.pendingScreeners, []),
                     s.ledger, StatusLists([], []), s.cooldowns)
  {
  }

  /** A status list keeps its order: a new address goes to the end, and when the list is full its
      oldest address leaves from the front. */
  lemma ListsKeepTheirOrder(list: seq<Address>, a: Address, max: nat)
    requires a !in list && |list| <= max && max > 0
    ensures |list| < max ==> AddedEvicting(list, a, max) == list + [a] == AddedIfRoom(list, a, max)
    ensures |list| == max ==> AddedEvicting(list, a, max) == list[1..] + [a] && AddedIfRoom(list, a, max) == list
  {
  }
}
