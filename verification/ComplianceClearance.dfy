/** Where clearances come from and what the bounded logs still hold. */
module ComplianceClearance {
  import opened Collections
  import opened ComplianceRegistry
  import opened ComplianceRuns

  // ----- The bounded logs -----

  /** Every history entry ever written for `a`, oldest first. */
  function WritesTo(ops: seq<Op>, a: Address): seq<HistoryEntry> {
    if ops == [] then []
    else
      var w := Written(After(ops[..|ops| - 1]), ops[|ops| - 1]);
      var before := WritesTo(ops[..|ops| - 1], a);
      if w.Some? && w.value.address == a then before + [AsHistory(w.value)] else before
  }

  /** Every submission ever made by `who`, oldest first. */
  function WritesBy(ops: seq<Op>, who: Address): seq<SubmissionEntry> {
    if ops == [] then []
    else
      var w := Written(After(ops[..|ops| - 1]), ops[|ops| - 1]);
      var before := WritesBy(ops[..|ops| - 1], who);
      if w.Some? && w.value.screenedBy == who then before + [AsSubmission(w.value)] else before
  }

  lemma LoggedHistory(l: Ledger, r: Record, a: Address)
    ensures LogOf(Logged(l, r).history, a) ==
            if r.address == a then LastN(LogOf(l.history, a) + [AsHistory(r)], MAX_HISTORY) else LogOf(l.history, a)
    ensures LogOf(Logged(l, r).submissions, a) ==
            if r.screenedBy == a then LastN(LogOf(l.submissions, a) + [AsSubmission(r)], MAX_HISTORY)
            else LogOf(l.submissions, a)
  {
  }

  /** The stored logs are exactly the last MAX_HISTORY writes, for every address and every run. */
  lemma {:induction false} LogsAreLastWrites(ops: seq<Op>, a: Address)
    ensures LogOf(After(ops).ledger.history, a) == LastN(WritesTo(ops, a), MAX_HISTORY)
    ensures LogOf(After(ops).ledger.submissions, a) == LastN(WritesBy(ops, a), MAX_HISTORY)
  {
    if ops != [] {
      var init, op := ops[..|ops| - 1], ops[|ops| - 1];
      var s := After(init);
      LogsAreLastWrites(init, a);
      OnlyWritesTouchRecords(s, op);
      if Written(s, op).Some? {
        var r := Written(s, op).value;
        LoggedHistory(s.ledger, r, a);
        LastNOfAppend(WritesTo(init, a), AsHistory(r), MAX_HISTORY);
        LastNOfAppend(WritesBy(init, a), AsSubmission(r), MAX_HISTORY);
      }
    }
  }

  // ----- Provenance of a clearance -----

  ghost predicate Writes(ops: seq<Op>, i: nat, a: Address)
    requires i < |ops|
  {
    var w := Written(After(ops[..i]), ops[i]);
    w.Some? && w.value.address == a
  }

  /** The i-th call was an accepted clearance of `a` by the admin or a screener registered at
      that moment, while the contract was not paused. */
  ghost predicate Clears(ops: seq<Op>, i: nat, a: Address)
    requires i < |ops|
  {
    var s, c := After(ops[..i]), ops[i].call;
    && c.SubmitScreening? && c.subject == a && c.status == Cleared
    && MayScreen(s, c.screener) && !s.config.paused
    && Written(s, ops[i]).Some?
  }

  /** The index of the last call that stored a record of `a`, or -1. */
  ghost function LastWrite(ops: seq<Op>, a: Address): int {
    if ops == [] then -1
    else if Writes(ops, |ops| - 1, a) then |ops| - 1
    else LastWrite(ops[..|ops| - 1], a)
  }

  lemma LastCallDecides(ops: seq<Op>, a: Address)
    requires ops != []
    ensures var n := |ops| - 1;
            var w := Written(After(ops[..n]), ops[n]);
            if Writes(ops, n, a) then a in After(ops).ledger.records && After(ops).ledger.records[a] == w.value
            else (a in After(ops).ledger.records <==> a in After(ops[..n]).ledger.records)
                 && (a in After(ops).ledger.records ==>
                       After(ops).ledger.records[a] == After(ops[..n]).ledger.records[a])
  {
    OnlyWritesTouchRecords(After(ops[..|ops| - 1]), ops[|ops| - 1]);
  }

  /** `i` is the last call that stored a record of `a`, whose record is the stored one; -1 says
      that there is none. */
  ghost predicate Last(ops: seq<Op>, a: Address, i: int) {
    && -1 <= i < |ops|
    && (i == -1 <==> a !in After(ops).ledger.records)
    && (i >= 0 ==> Writes(ops, i, a)
                   && Written(After(ops[..i]), ops[i]).value == After(ops).ledger.records[a])
    && forall j :: i < j < |ops| ==> !Writes(ops, j, a)
  }

  lemma LastStays(ops: seq<Op>, a: Address, i: int)
    requires ops != [] && !Writes(ops, |ops| - 1, a) && Last(ops[..|ops| - 1], a, i)
    ensures Last(ops, a, i)
  {
    LastCallDecides(ops, a);
    PrefixWrites(ops, a);
  }

  lemma {:induction false} LastWriteIsTheRecord(ops: seq<Op>, a: Address)
    ensures Last(ops, a, LastWrite(ops, a))
  {
    if ops != [] {
      if Writes(ops, |ops| - 1, a) {
        LastCallDecides(ops, a);
      } else {
        var init := ops[..|ops| - 1];
        LastWriteIsTheRecord(init, a);
        LastStays(ops, a, LastWrite(init, a));
      }
    }
  }

  /** Dropping the last call does not change what the earlier ones wrote. */
  lemma PrefixWrites(ops: seq<Op>, a: Address)
    requires ops != []
    ensures var init := ops[..|ops| - 1];
            forall j: nat :: j < |init| ==>
              init[..j] == ops[..j] && (Writes(init, j, a) <==> Writes(ops, j, a))
  {
    var init := ops[..|ops| - 1];
    forall j: nat | j < |init|
      ensures init[..j] == ops[..j] && (Writes(init, j, a) <==> Writes(ops, j, a))
    {
      assert init[..j] == ops[..j];
    }
  }

  /** An address is cleared exactly when the last accepted write to it was a clearance by the
      admin or a then-registered screener, and that clearance has not expired; so time alone can
      only end a clearance.  The effective status says the same. */
  lemma ClearanceProvenance(ops: seq<Op>, now: U64, a: Address)
    ensures IsCleared(After(ops).ledger, now, a) <==>
            exists i: nat :: i < |ops| && Clears(ops, i, a)
              && now < Written(After(ops[..i]), ops[i]).value.expiresAt
              && forall j :: i < j < |ops| ==> !Writes(ops, j, a)
    ensures IsCleared(After(ops).ledger, now, a) <==> EffectiveStatus(After(ops).ledger, now, a) == Cleared
  {
    LastWriteIsTheRecord(ops, a);
    ReachableIsConsistent(ops);
    var l, last := After(ops).ledger, LastWrite(ops, a);
    if IsCleared(l, now, a) {
      assert RecordAgrees(l, a);
      WrittenClearance(ops, last, a);
    }
    forall i: nat | i < |ops| && Clears(ops, i, a)
                    && now < Written(After(ops[..i]), ops[i]).value.expiresAt
                    && forall j :: i < j < |ops| ==> !Writes(ops, j, a)
      ensures IsCleared(l, now, a)
    {
      assert Writes(ops, i, a);
      assert i == last;
    }
  }

  lemma WrittenClearance(ops: seq<Op>, i: nat, a: Address)
    requires i < |ops| && Writes(ops, i, a)
    requires Written(After(ops[..i]), ops[i]).value.status == Cleared
    ensures Clears(ops, i, a)
  {
  }

  /** A call that turns a clearance on is itself an accepted clearance. */
  lemma OnlyClearancesClear(ops: seq<Op>, i: nat, now: U64, a: Address)
    requires i < |ops|
    requires !IsCleared(After(ops[..i]).ledger, now, a) && IsCleared(After(ops[..i + 1]).ledger, now, a)
    ensures Clears(ops, i, a)
  {
    assert ops[..i + 1][..i] == ops[..i];
    OnlyWritesTouchRecords(After(ops[..i]), ops[i]);
    WrittenClearance(ops, i, a);
  }

  // ----- Provenance of a block -----

  predicate IsBlocked(l: Ledger, a: Address) {
    a in l.records && l.records[a].status == Blocked
  }

  /** The i-th call was an accepted screening of `a` as blocked by the admin or a screener registered
      at that moment, while the contract was not paused. */
  ghost predicate Blocks(ops: seq<Op>, i: nat, a: Address)
    requires i < |ops|
  {
    var s, c := After(ops[..i]), ops[i].call;
    && c.SubmitScreening? && c.subject == a && c.status == Blocked
    && MayScreen(s, c.screener) && !s.config.paused
    && Written(s, ops[i]).Some?
  }

  lemma WrittenBlock(ops: seq<Op>, i: nat, a: Address)
    requires i < |ops| && Writes(ops, i, a)
    ensures Written(After(ops[..i]), ops[i]).value.status == Blocked <==> Blocks(ops, i, a)
  {
  }

  /** An address is blocked exactly when the last accepted write to it was a block. */
  lemma BlockProvenance(ops: seq<Op>, a: Address)
    ensures IsBlocked(After(ops).ledger, a) <==>
            exists i: nat :: i < |ops| && Blocks(ops, i, a) && forall j :: i < j < |ops| ==> !Writes(ops, j, a)
  {
    var last := LastWrite(ops, a);
    LastWriteIsTheRecord(ops, a);
    if last >= 0 {
      WrittenBlock(ops, last, a);
    }
    forall i: nat | i < |ops| && Blocks(ops, i, a) && forall j :: i < j < |ops| ==> !Writes(ops, j, a)
      ensures i == last
    {
      assert Writes(ops, i, a);
    }
  }

  /** The i-th call was an accepted review request for `a`, whoever made it, or an accepted screening
      with another status by the admin or a then-registered screener. */
  ghost predicate LiftsBlock(ops: seq<Op>, i: nat, a: Address)
    requires i < |ops|
  {
    var s, c := After(ops[..i]), ops[i].call;
    && !s.config.paused && Written(s, ops[i]).Some?
    && ((c.RequestReview? && c.subject == a)
        || (c.SubmitScreening? && c.subject == a && c.status != Blocked && MayScreen(s, c.screener)))
  }

  /** A call ends a block exactly in those two ways. */
  lemma OnlyTheseLiftABlock(ops: seq<Op>, i: nat, a: Address)
    requires i < |ops| && IsBlocked(After(ops[..i]).ledger, a)
    ensures !IsBlocked(After(ops[..i + 1]).ledger, a) <==> LiftsBlock(ops, i, a)
  {
    assert ops[..i + 1][..i] == ops[..i];
    OnlyWritesTouchRecords(After(ops[..i]), ops[i]);
  }

  /** Over a run, a blocked address that is not blocked at the end was lifted in between. */
  lemma {:induction false} LiftedBlocksHaveACause(ops: seq<Op>, k: nat, a: Address)
    requires k <= |ops| && IsBlocked(After(ops[..k]).ledger, a)
    ensures IsBlocked(After(ops).ledger, a) || exists i: nat :: k <= i < |ops| && LiftsBlock(ops, i, a)
    decreases |ops| - k
  {
    if k == |ops| {
      assert ops[..k] == ops;
    } else {
      OnlyTheseLiftABlock(ops, k, a);
      if IsBlocked(After(ops[..k + 1]).ledger, a) {
        LiftedBlocksHaveACause(ops, k + 1, a);
      }
    }
  }

  /** In every reachable state anyone can lift a block by asking for a review, and takes the address
      off the flagged list: it needs only an unpaused contract, a reason of allowed length and no
      review asked for within the cooldown. */
  lemma AnyoneCanLiftABlock(ops: seq<Op>, now: U64, caller: Address, a: Address, reason: Text)
    requires IsBlocked(After(ops).ledger, a)
    ensures var s := After(ops);
            var s' := Respond(s, Op(now, RequestReview(caller, a, reason))).0;
            var asked := s.cooldowns.reviewRequestedAt;
            (!IsBlocked(s'.ledger, a) <==>
              && !s.config.paused && 0 < |reason| <= MAX_REASON_LENGTH
              && (a in asked ==> now >= SaturatingAdd(asked[a], REVIEW_COOLDOWN)))
            && (!IsBlocked(s'.ledger, a) ==> s'.ledger.records[a].status == PendingReview && a !in s'.lists.flaggedIds)
  {
    var op: Op := Op(now, RequestReview(caller, a, reason));
    OnlyWritesTouchRecords(After(ops), op);
    WithoutElements(After(ops).lists.flaggedIds, a);
  }
}
