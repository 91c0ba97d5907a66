/** How long screeners wait and how screenings and reviews are spaced, over whole runs. */
module ComplianceScreeners {
  import opened Collections
  import opened ComplianceRegistry
  import opened ComplianceRuns

  /** The i-th call was an accepted proposal of `a`. */
  ghost predicate Proposes(ops: seq<Op>, i: nat, a: Address)
    requires i < |ops|
  {
    ops[i].call.RegisterScreener? && ops[i].call.screener == a && Succeeded(ops, i)
  }

  /** The timelock in force when the i-th call was made. */
  ghost function TimelockAt(ops: seq<Op>, i: nat): U64
    requires i < |ops|
  {
    After(ops[..i]).config.screenerTimelock
  }

  lemma PrefixProposes(ops: seq<Op>, i: nat, a: Address)
    requires i + 1 < |ops|
    ensures var init := ops[..|ops| - 1];
            (Proposes(init, i, a) <==> Proposes(ops, i, a)) && TimelockAt(init, i) == TimelockAt(ops, i)
  {
    assert ops[..|ops| - 1][..i] == ops[..i];
  }

  lemma ProposalStep(s: Registry, op: Op, a: Address)
    requires ScreenersAgree(s.roster)
    ensures var before, after := s.roster.pendingScreeners, Respond(s, op).0.roster.pendingScreeners;
            a in after ==>
              || (a in before && after[a] == before[a])
              || (op.call.RegisterScreener? && op.call.screener == a && Respond(s, op).1.Accepted?
                  && s.config.screenerTimelock > 0 && after[a].proposedAt == op.now
                  && after[a].effectiveAt == SaturatingAdd(op.now, s.config.screenerTimelock))
  {
  }

  /** Every proposal on file is an accepted one, frozen with the timelock then in force. */
  lemma {:induction false} ProposalsAreFrozen(ops: seq<Op>, a: Address) returns (i: nat)
    requires a in After(ops).roster.pendingScreeners
    ensures i < |ops| && Proposes(ops, i, a) && TimelockAt(ops, i) > 0
    ensures var p := After(ops).roster.pendingScreeners[a];
            p.proposedAt == ops[i].now && p.effectiveAt == SaturatingAdd(ops[i].now, TimelockAt(ops, i))
  {
    var init, op := ops[..|ops| - 1], ops[|ops| - 1];
    ReachableIsConsistent(init);
    ProposalStep(After(init), op, a);
    if a in After(init).roster.pendingScreeners
       && After(init).roster.pendingScreeners[a] == After(ops).roster.pendingScreeners[a] {
      i := ProposalsAreFrozen(init, a);
      PrefixProposes(ops, i, a);
    } else {
      i := |ops| - 1;
    }
  }

  /** Every screener that a confirmation activates had been proposed, and the timelock in force
      at that proposal has run out, whatever the timelock was set to in between. */
  lemma ConfirmationsWaited(ops: seq<Op>, j: nat)
    requires j < |ops| && ops[j].call.ConfirmScreener? && Succeeded(ops, j)
    ensures exists i: nat :: i < j && Proposes(ops, i, ops[j].call.screener)
              && ops[j].now >= SaturatingAdd(ops[i].now, TimelockAt(ops, i))
    ensures ops[j].call.screener in After(ops[..j + 1]).roster.screeners
  {
    var a := ops[j].call.screener;
    assert ops[..j + 1][..j] == ops[..j];
    var i := ProposalsAreFrozen(ops[..j], a);
    assert ops[..j][..i] == ops[..i];
    assert Proposes(ops, i, a);
  }

  lemma ScreenerStep(s: Registry, op: Op, a: Address)
    ensures a in Respond(s, op).0.roster.screeners ==>
              || a in s.roster.screeners
              || (Respond(s, op).1.Accepted? && op.call.ConfirmScreener? && op.call.screener == a)
              || (Respond(s, op).1.Accepted? && op.call.RegisterScreener? && op.call.screener == a
                  && s.config.screenerTimelock == 0)
  {
  }

  /** The j-th call activated `a`, which the i-th call had proposed, once its timelock had run out. */
  ghost predicate ActivatesAfterWaiting(ops: seq<Op>, i: nat, j: nat, a: Address)
    requires i <= j < |ops|
  {
    && Proposes(ops, i, a) && Succeeded(ops, j)
    && ops[j].now >= SaturatingAdd(ops[i].now, TimelockAt(ops, i))
    && a !in After(ops[..j]).roster.screeners && a in After(ops[..j + 1]).roster.screeners
  }

  lemma PrefixActivates(ops: seq<Op>, i: nat, j: nat, a: Address)
    requires i <= j < |ops| - 1 && ActivatesAfterWaiting(ops[..|ops| - 1], i, j, a)
    ensures ActivatesAfterWaiting(ops, i, j, a)
  {
    var init := ops[..|ops| - 1];
    PrefixProposes(ops, i, a);
    assert init[..j] == ops[..j] && init[..j + 1] == ops[..j + 1];
  }

  /** Every active screener was proposed by an accepted call and became active only once the
      timelock in force at that proposal had run out. */
  lemma {:induction false} ActiveScreenersWaited(ops: seq<Op>, a: Address)
    requires a in After(ops).roster.screeners
    ensures exists i: nat, j: nat :: i <= j < |ops| && ActivatesAfterWaiting(ops, i, j, a)
  {
    var n := |ops| - 1;
    var init, op := ops[..n], ops[n];
    assert ops[..n + 1] == ops;
    ScreenerStep(After(init), op, a);
    if a in After(init).roster.screeners {
      ActiveScreenersWaited(init, a);
      var i: nat, j: nat :| i <= j < |init| && ActivatesAfterWaiting(init, i, j, a);
      PrefixActivates(ops, i, j, a);
    } else if op.call.ConfirmScreener? {
      ConfirmationsWaited(ops, n);
      var i: nat :| i < n && Proposes(ops, i, a) && op.now >= SaturatingAdd(ops[i].now, TimelockAt(ops, i));
      assert ActivatesAfterWaiting(ops, i, n, a);
    } else {
      assert ActivatesAfterWaiting(ops, n, n, a);
    }
  }

  // ----- Spacing -----

  lemma CooldownStep(s: Registry, op: Op)
    ensures var d, d' := s.cooldowns, Respond(s, op).0.cooldowns;
            && (d' == d || (Respond(s, op).1.Accepted? && (op.call.SubmitScreening? || op.call.RequestReview?)
                            && d' == Stamped(d, op.now, op.call)))
  {
  }

  /** After an accepted review or screening its stamp stays, and never moves back. */
  lemma {:induction false} StampsStay(ops: seq<Op>, i: nat)
    requires Timely(ops) && i < |ops| && Succeeded(ops, i)
    ensures var c, d := ops[i].call, After(ops).cooldowns;
            && (c.RequestReview? ==> c.subject in d.reviewRequestedAt && d.reviewRequestedAt[c.subject] >= ops[i].now)
            && (c.SubmitScreening? ==> (c.screener, c.subject) in d.lastScreenedAt
                                       && d.lastScreenedAt[(c.screener, c.subject)] >= ops[i].now)
  {
    var n := |ops| - 1;
    CooldownStep(After(ops[..n]), ops[n]);
    if i < n {
      assert ops[..n][..i] == ops[..i];
      StampsStay(ops[..n], i);
    }
  }

  /** Accepted reviews of one address are at least the cooldown apart, whoever asks. */
  lemma ReviewsAreSpaced(ops: seq<Op>, i: nat, j: nat)
    requires Timely(ops) && i < j < |ops|
    requires ops[i].call.RequestReview? && Succeeded(ops, i)
    requires ops[j].call.RequestReview? && Succeeded(ops, j)
    requires ops[i].call.subject == ops[j].call.subject
    ensures ops[j].now >= SaturatingAdd(ops[i].now, REVIEW_COOLDOWN)
  {
    assert ops[..j][..i] == ops[..i];
    StampsStay(ops[..j], i);
  }

  /** Accepted screenings of one subject by one screener who is not the admin are at least the
      rescreening interval apart that is in force at the later one. */
  lemma ScreeningsAreSpaced(ops: seq<Op>, i: nat, j: nat)
    requires Timely(ops) && i < j < |ops|
    requires ops[i].call.SubmitScreening? && Succeeded(ops, i)
    requires ops[j].call.SubmitScreening? && Succeeded(ops, j)
    requires ops[i].call.subject == ops[j].call.subject && ops[i].call.screener == ops[j].call.screener
    requires After(ops[..j]).config.admin != Some(ops[j].call.screener)
    ensures ops[j].now >= SaturatingAdd(ops[i].now, After(ops[..j]).config.rescreeningInterval)
  {
    assert ops[..j][..i] == ops[..i];
    StampsStay(ops[..j], i);
  }
}
