/** Two reconstructions of a verification round's status from the oracle registry's events: the
    live tracker of oracle-service/src/consensus.ts and the indexer's replay in
    indexer/src/api.ts. */
module ConsensusReplay {
  import opened Collections

  /** A decoded event value.  An object is known only by the text it converts to. */
  datatype Json =
    | Undefined
    | Null
    | Bool(flag: bool)
    | Number(number: int)
    | Text(text: string)
    | List(items: seq<Json>)
    | Object(shown: string)

  function Digits(n: nat): string {
    var d := ["0", "1", "2", "3", "4", "5", "6", "7", "8", "9"][n % 10];
    if n < 10 then d else Digits(n / 10) + d
  }

  /** `String(value)`. */
  function ToText(j: Json): string
    decreases j, 1
  {
    match j
    case Undefined => "undefined"
    case Null => "null"
    case Bool(b) => if b then "true" else "false"
    case Number(n) => if n < 0 then "-" + Digits(-n) else Digits(n)
    case Text(t) => t
    case List(items) => Joined(items)
    case Object(shown) => shown
  }

  function Joined(items: seq<Json>): string
    decreases items, 0
  {
    if items == [] then ""
    else
      var head := if items[0].Null? || items[0].Undefined? then "" else ToText(items[0]);
      if |items| == 1 then head else head + "," + Joined(items[1..])
  }

  predicate Truthy(j: Json) {
    match j
    case Undefined => false
    case Null => false
    case Bool(b) => b
    case Number(n) => n != 0
    case Text(t) => t != ""
    case List(_) => true
    case Object(_) => true
  }

  function AsArray(j: Json): seq<Json> { if j.List? then j.items else [j] }

  function At(items: seq<Json>, i: nat): Json { if i < |items| then items[i] else Undefined }

  datatype Topic = RndOpen | Voted | Consensus | RndExp | Fallback | Paused | Unpaused | OtherTopic

  datatype Event = Event(topic: Topic, value: Json, ledger: int)

  datatype Status = Unknown | Open | ConsensusApproved | ConsensusRejected | Expired

  function Verdict(approved: bool): Status { if approved then ConsensusApproved else ConsensusRejected }

  // ----- The tracker -----

  datatype Round = Round(status: Status, votedByThisNode: bool)

  datatype Tracker = Tracker(rounds: map<string, Round>, votedByMe: set<string>, paused: bool)

  const NewTracker: Tracker := Tracker(map[], {}, false)

  function Upserted(t: Tracker, id: string, status: Status): Tracker {
    t.(rounds := t.rounds[id := Round(status, id in t.votedByMe)])
  }

  function SubjectOf(value: Json): string { ToText(At(AsArray(value), 0)) }

  function Handled(t: Tracker, me: string, e: Event): Tracker {
    var id := SubjectOf(e.value);
    match e.topic
    case Paused => t.(paused := true)
    case Unpaused => t.(paused := false)
    case RndOpen => Upserted(t, id, Open)
    case Voted =>
      var u := if ToText(At(AsArray(e.value), 1)) == me then t.(votedByMe := t.votedByMe + {id}) else t;
      Upserted(u, id, if id in t.rounds then t.rounds[id].status else Open)
    case Consensus => Upserted(t, id, Verdict(Truthy(At(AsArray(e.value), 1))))
    case RndExp => Upserted(t, id, Expired)
    case Fallback => Upserted(t, id, Verdict(Truthy(At(AsArray(e.value), 1))))
    case OtherTopic => t
  }

  class ConsensusTracker {
    var rounds: map<string, Round>
    var votedByMe: set<string>
    var paused: bool
    const oraclePublicKey: string

    ghost function State(): Tracker
      reads this
    {
      Tracker(rounds, votedByMe, paused)
    }

    constructor (key: string)
      ensures State() == NewTracker && oraclePublicKey == key
    {
      rounds, votedByMe, paused := map[], {}, false;
      oraclePublicKey := key;
    }

    method Upsert(id: string, status: Status)
      modifies this
      ensures State() == Upserted(old(State()), id, status)
    {
      rounds := rounds[id := Round(status, id in votedByMe)];
    }

    method HandleEvent(e: Event)
      modifies this
      ensures State() == Handled(old(State()), oraclePublicKey, e)
    {
      var entries := AsArray(e.value);
      var id := ToText(At(entries, 0));
      match e.topic
      case Paused => paused := true;
      case Unpaused => paused := false;
      case RndOpen => Upsert(id, Open);
      case Voted =>
        if ToText(At(entries, 1)) == oraclePublicKey {
          votedByMe := votedByMe + {id};
        }
        Upsert(id, if id in rounds then rounds[id].status else Open);
      case Consensus => Upsert(id, Verdict(Truthy(At(entries, 1))));
      case RndExp => Upsert(id, Expired);
      case Fallback => Upsert(id, Verdict(Truthy(At(entries, 1))));
      case OtherTopic =>
    }

    method MarkPaused()
      modifies this
      ensures State() == old(State()).(paused := true)
    {
      paused := true;
    }

    /** Answers by the set alone; the set and the tracked rounds agree. */
    method HasVoted(id: string) returns (voted: bool)
      requires VotesAgree(State())
      ensures voted <==> id in rounds && rounds[id].votedByThisNode
    {
      return id in votedByMe;
    }
  }

  /** What the tracker hears: an event streamed by the listener, or the verifier reporting that a
      call of the registry failed because it is paused. */
  datatype Signal = Seen(event: Event) | FoundPaused

  function Heard(t: Tracker, me: string, signal: Signal): Tracker {
    match signal
    case Seen(e) => Handled(t, me, e)
    case FoundPaused => t.(paused := true)
  }

  function Tracked(me: string, signals: seq<Signal>): Tracker {
    if signals == [] then NewTracker else Heard(Tracked(me, signals[..|signals| - 1]), me, signals[|signals| - 1])
  }

  function EventsOf(signals: seq<Signal>): seq<Event> {
    if signals == [] then []
    else
      var init, last := EventsOf(signals[..|signals| - 1]), signals[|signals| - 1];
      if last.Seen? then init + [last.event] else init
  }

  ghost predicate VotesAgree(t: Tracker) {
    && (forall id :: id in t.rounds ==> (t.rounds[id].votedByThisNode <==> id in t.votedByMe))
    && (forall id :: id in t.votedByMe ==> id in t.rounds)
  }

  predicate VoteByMe(me: string, signal: Signal, id: string) {
    && signal.Seen? && signal.event.topic == Voted
    && SubjectOf(signal.event.value) == id && ToText(At(AsArray(signal.event.value), 1)) == me
  }

  ghost predicate VoteSeen(me: string, signals: seq<Signal>, id: string) {
    exists i :: 0 <= i < |signals| && VoteByMe(me, signals[i], id)
  }

  lemma VoteSeenStep(me: string, init: seq<Signal>, last: Signal, id: string)
    ensures VoteSeen(me, init + [last], id) <==> VoteSeen(me, init, id) || VoteByMe(me, last, id)
  {
    var signals := init + [last];
    if VoteSeen(me, init, id) {
      var i :| 0 <= i < |init| && VoteByMe(me, init[i], id);
      assert VoteByMe(me, signals[i], id);
    }
    if VoteByMe(me, last, id) {
      assert VoteByMe(me, signals[|init|], id);
    }
  }

  /** The round of one invoice is written anew; the others agree already. */
  lemma UpsertedVotes(t: Tracker, id: string, status: Status)
    requires forall x :: x in t.rounds && x != id ==> (t.rounds[x].votedByThisNode <==> x in t.votedByMe)
    requires forall x :: x in t.votedByMe ==> x in t.rounds || x == id
    ensures VotesAgree(Upserted(t, id, status)) && Upserted(t, id, status).votedByMe == t.votedByMe
  {
  }

  lemma HandledVote(t: Tracker, me: string, e: Event)
    requires VotesAgree(t) && e.topic == Voted
    ensures VotesAgree(Handled(t, me, e))
    ensures Handled(t, me, e).votedByMe ==
            if ToText(At(AsArray(e.value), 1)) == me then t.votedByMe + {SubjectOf(e.value)} else t.votedByMe
  {
    var id := SubjectOf(e.value);
    var u := if ToText(At(AsArray(e.value), 1)) == me then t.(votedByMe := t.votedByMe + {id}) else t;
    UpsertedVotes(u, id, if id in t.rounds then t.rounds[id].status else Open);
  }

  lemma HandledOther(t: Tracker, me: string, e: Event)
    requires VotesAgree(t) && e.topic != Voted
    ensures VotesAgree(Handled(t, me, e)) && Handled(t, me, e).votedByMe == t.votedByMe
  {
    if SetsStatus(e) {
      UpsertedVotes(t, SubjectOf(e.value), Handled(t, me, e).rounds[SubjectOf(e.value)].status);
    }
  }

  lemma HeardVotes(t: Tracker, me: string, signal: Signal)
    requires VotesAgree(t)
    ensures VotesAgree(Heard(t, me, signal))
    ensures forall id :: id in Heard(t, me, signal).votedByMe <==> id in t.votedByMe || VoteByMe(me, signal, id)
  {
    if signal.Seen? {
      if signal.event.topic == Voted {
        HandledVote(t, me, signal.event);
      } else {
        HandledOther(t, me, signal.event);
      }
    }
  }

  /** At every step the flag of a round equals membership in the vote set, and an invoice is in
      the set exactly when a vote by this node has been seen, so the set only grows. */
  lemma {:induction false} VotesAreRemembered(me: string, signals: seq<Signal>)
    ensures VotesAgree(Tracked(me, signals))
    ensures forall id :: id in Tracked(me, signals).votedByMe <==> VoteSeen(me, signals, id)
  {
    if signals != [] {
      var init, last := signals[..|signals| - 1], signals[|signals| - 1];
      VotesAreRemembered(me, init);
      HeardVotes(Tracked(me, init), me, last);
      assert signals == init + [last];
      forall id
        ensures id in Tracked(me, signals).votedByMe <==> VoteSeen(me, signals, id)
      {
        VoteSeenStep(me, init, last, id);
      }
    }
  }

  predicate SaysPaused(signal: Signal) { signal.FoundPaused? || signal.event.topic == Paused }

  predicate SaysResumed(signal: Signal) { signal.Seen? && signal.event.topic == Unpaused }

  /** The i-th signal says that the registry is paused, and no later one that it has resumed. */
  ghost predicate PausedSince(signals: seq<Signal>, i: nat)
    requires i < |signals|
  {
    SaysPaused(signals[i]) && forall j :: i < j < |signals| ==> !SaysResumed(signals[j])
  }

  lemma PausedSinceStep(signals: seq<Signal>, i: nat)
    requires i < |signals|
    ensures var n := |signals| - 1;
            PausedSince(signals, i) <==>
              if i == n then SaysPaused(signals[n]) else PausedSince(signals[..n], i) && !SaysResumed(signals[n])
  {
  }

  /** The registry counts as paused exactly when an event or a failed call of this node has said so
      and no event since that it has resumed. */
  lemma {:induction false} PausedIsTheLatestWord(me: string, signals: seq<Signal>)
    ensures Tracked(me, signals).paused <==> exists i: nat :: i < |signals| && PausedSince(signals, i)
  {
    if signals != [] {
      var n := |signals| - 1;
      var init := signals[..n];
      PausedIsTheLatestWord(me, init);
      if i: nat :| i < n && PausedSince(init, i) {
        PausedSinceStep(signals, i);
      }
      if i: nat :| i < |signals| && PausedSince(signals, i) {
        PausedSinceStep(signals, i);
      }
      PausedSinceStep(signals, n);
    }
  }

  // ----- The indexer's replay -----

  /** extractInvoiceId: absent, null and structured identifiers give none. */
  function ExtractInvoiceId(value: Json): Option<string> {
    if value.Null? || value.Undefined? then None
    else
      var candidate := At(AsArray(value), 0);
      if candidate.Null? || candidate.Undefined? || candidate.List? || candidate.Object? then None
      else Some(ToText(candidate))
  }

  predicate RoundApproved(value: Json) {
    value.List? && |value.items| >= 2 && Truthy(value.items[1])
  }

  function MatchesOf(events: seq<Event>, id: string): seq<Event> {
    if events == [] then []
    else
      var init, last := MatchesOf(events[..|events| - 1], id), events[|events| - 1];
      if ExtractInvoiceId(last.value) == Some(id) then init + [last] else init
  }

  function NextStatus(status: Status, e: Event): Status {
    match e.topic
    case RndOpen => Open
    case Consensus => Verdict(RoundApproved(e.value))
    case Fallback => Verdict(RoundApproved(e.value))
    case RndExp => Expired
    case _ => status
  }

  function ReplayStatus(matches: seq<Event>): Status {
    if matches == [] then Unknown else NextStatus(ReplayStatus(matches[..|matches| - 1]), matches[|matches| - 1])
  }

  /** The handler's loop over the sorted matches. */
  method Replay(matches: seq<Event>) returns (status: Status)
    ensures status == ReplayStatus(matches)
  {
    status := Unknown;
    for i := 0 to |matches|
      invariant status == ReplayStatus(matches[..i])
    {
      assert matches[..i + 1][..i] == matches[..i];
      match matches[i].topic
      case RndOpen => status := Open;
      case Consensus | Fallback =>
        status := if RoundApproved(matches[i].value) then ConsensusApproved else ConsensusRejected;
      case RndExp => status := Expired;
      case _ =>
    }
    assert matches[..|matches|] == matches;
  }

  // ----- The sort -----

  /** Whether a sort by ledger, rising or falling, leaves `a` in front of `b`. */
  predicate Leads(a: Event, b: Event, rising: bool) {
    if rising then a.ledger <= b.ledger else a.ledger >= b.ledger
  }

  ghost predicate Ordered(s: seq<Event>, rising: bool) {
    forall i, j :: 0 <= i < j < |s| ==> Leads(s[i], s[j], rising)
  }

  /** Puts an event behind those that may stay in front of it. */
  function Insert(sorted: seq<Event>, e: Event, rising: bool): seq<Event> {
    if sorted == [] || Leads(sorted[|sorted| - 1], e, rising) then sorted + [e]
    else Insert(sorted[..|sorted| - 1], e, rising) + [sorted[|sorted| - 1]]
  }

  /** The stable sort by ledger. */
  function Sort(events: seq<Event>, rising: bool): seq<Event> {
    if events == [] then [] else Insert(Sort(events[..|events| - 1], rising), events[|events| - 1], rising)
  }

  function OfLedger(events: seq<Event>, ledger: int): seq<Event> {
    if events == [] then []
    else
      var init, last := OfLedger(events[..|events| - 1], ledger), events[|events| - 1];
      if last.ledger == ledger then init + [last] else init
  }

  lemma OfLedgerAppend(s: seq<Event>, e: Event, ledger: int)
    ensures OfLedger(s + [e], ledger) == if e.ledger == ledger then OfLedger(s, ledger) + [e] else OfLedger(s, ledger)
  {
    assert (s + [e])[..|s|] == s;
  }

  lemma {:induction false} InsertKeepsEvents(s: seq<Event>, e: Event, rising: bool)
    ensures multiset(Insert(s, e, rising)) == multiset(s) + multiset{e}
  {
    if s != [] && !Leads(s[|s| - 1], e, rising) {
      var init, last := s[..|s| - 1], s[|s| - 1];
      InsertKeepsEvents(init, e, rising);
      assert s == init + [last];
    }
  }

  lemma OrderedAppend(s: seq<Event>, e: Event, rising: bool)
    requires Ordered(s, rising) && forall x :: x in s ==> Leads(x, e, rising)
    ensures Ordered(s + [e], rising)
  {
  }

  lemma LastIsBehind(s: seq<Event>, rising: bool)
    requires Ordered(s, rising) && s != []
    ensures Ordered(s[..|s| - 1], rising) && forall x :: x in s ==> Leads(x, s[|s| - 1], rising)
  {
  }

  lemma InsertedOnes(s: seq<Event>, e: Event, rising: bool)
    ensures forall x :: x in Insert(s, e, rising) ==> x in s || x == e
  {
    InsertKeepsEvents(s, e, rising);
    forall x | x in Insert(s, e, rising)
      ensures x in s || x == e
    {
      assert x in multiset(Insert(s, e, rising));
    }
  }

  lemma {:induction false} InsertSorts(s: seq<Event>, e: Event, rising: bool)
    requires Ordered(s, rising)
    ensures Ordered(Insert(s, e, rising), rising)
  {
    if s == [] {
    } else if Leads(s[|s| - 1], e, rising) {
      LastIsBehind(s, rising);
      OrderedAppend(s, e, rising);
    } else {
      var init, last := s[..|s| - 1], s[|s| - 1];
      LastIsBehind(s, rising);
      InsertSorts(init, e, rising);
      InsertedOnes(init, e, rising);
      OrderedAppend(Insert(init, e, rising), last, rising);
    }
  }

  lemma {:induction false} InsertIsStable(s: seq<Event>, e: Event, rising: bool, ledger: int)
    ensures OfLedger(Insert(s, e, rising), ledger) ==
            if e.ledger == ledger then OfLedger(s, ledger) + [e] else OfLedger(s, ledger)
  {
    if s == [] || Leads(s[|s| - 1], e, rising) {
      OfLedgerAppend(s, e, ledger);
    } else {
      var init, last := s[..|s| - 1], s[|s| - 1];
      InsertIsStable(init, e, rising, ledger);
      OfLedgerAppend(Insert(init, e, rising), last, ledger);
    }
  }

  lemma {:induction false} SortSorts(events: seq<Event>, rising: bool)
    ensures Ordered(Sort(events, rising), rising) && multiset(Sort(events, rising)) == multiset(events)
  {
    if events != [] {
      var init, last := events[..|events| - 1], events[|events| - 1];
      SortSorts(init, rising);
      InsertSorts(Sort(init, rising), last, rising);
      InsertKeepsEvents(Sort(init, rising), last, rising);
      assert events == init + [last];
    }
  }

  /** The result is in ledger order, holds the same events, and keeps the order of the events of
      each ledger. */
  lemma {:induction false} SortIsStable(events: seq<Event>, rising: bool, ledger: int)
    ensures Ordered(Sort(events, rising), rising) && multiset(Sort(events, rising)) == multiset(events)
    ensures var s := Sort(events, rising);
            forall i, j :: 0 <= i < j < |s| ==> if rising then s[i].ledger <= s[j].ledger else s[i].ledger >= s[j].ledger
    ensures OfLedger(Sort(events, rising), ledger) == OfLedger(events, ledger)
  {
    SortSorts(events, rising);
    if events != [] {
      var init, last := events[..|events| - 1], events[|events| - 1];
      SortIsStable(init, rising, ledger);
      InsertIsStable(Sort(init, rising), last, rising, ledger);
    }
  }

  // ----- Which event decides -----

  predicate SetsStatus(e: Event) {
    e.topic == RndOpen || e.topic == Consensus || e.topic == Fallback || e.topic == RndExp
  }

  /** The status that an event sets. */
  function SetBy(e: Event): Status { NextStatus(Unknown, e) }

  /** The last event that sets the status among those of the highest ledger of such events. */
  function Decider(events: seq<Event>): (d: Option<Event>)
    ensures d.Some? ==> SetsStatus(d.value)
  {
    if events == [] then None
    else
      var before, last := Decider(events[..|events| - 1]), events[|events| - 1];
      if SetsStatus(last) && (before.Some? ==> before.value.ledger <= last.ledger) then Some(last) else before
  }

  function Decided(d: Option<Event>): Status { if d.Some? then SetBy(d.value) else Unknown }

  lemma DeciderAppend(s: seq<Event>, e: Event)
    ensures Decider(s + [e]) ==
            if SetsStatus(e) && (Decider(s).Some? ==> Decider(s).value.ledger <= e.ledger) then Some(e) else Decider(s)
  {
    assert (s + [e])[..|s|] == s;
  }

  /** The decider is one of the events, and no event that sets the status has a higher ledger. */
  lemma {:induction false} DeciderIsTop(s: seq<Event>)
    ensures Decider(s).Some? ==> Decider(s).value in s
    ensures forall e :: e in s && SetsStatus(e) ==> Decider(s).Some? && e.ledger <= Decider(s).value.ledger
  {
    if s != [] {
      var init, last := s[..|s| - 1], s[|s| - 1];
      DeciderIsTop(init);
      assert s == init + [last];
    }
  }

  lemma {:induction false} DeciderOfInsert(s: seq<Event>, e: Event)
    requires Ordered(s, true)
    ensures Decider(Insert(s, e, true)) == Decider(s + [e])
  {
    if s != [] && !Leads(s[|s| - 1], e, true) {
      var init, last := s[..|s| - 1], s[|s| - 1];
      assert s == init + [last];
      DeciderOfInsert(init, e);
      DeciderAppend(init, e);
      DeciderAppend(Insert(init, e, true), last);
      DeciderAppend(init, last);
      DeciderAppend(s, e);
      DeciderIsTop(init);
    }
  }

  /** In ledger order the replay ends with what the decider sets. */
  lemma {:induction false} SortedReplayIsDecided(s: seq<Event>)
    requires Ordered(s, true)
    ensures ReplayStatus(s) == Decided(Decider(s))
  {
    if s != [] {
      var init, last := s[..|s| - 1], s[|s| - 1];
      SortedReplayIsDecided(init);
      DeciderIsTop(init);
      if Decider(init).Some? {
        var i :| 0 <= i < |init| && init[i] == Decider(init).value;
        assert s[i].ledger <= last.ledger;
      }
    }
  }

  lemma SameDeciderGrows(a: seq<Event>, b: seq<Event>, e: Event)
    requires Decider(a) == Decider(b)
    ensures Decider(a + [e]) == Decider(b + [e])
  {
    DeciderAppend(a, e);
    DeciderAppend(b, e);
  }

  lemma SortAppend(s: seq<Event>, e: Event, rising: bool)
    ensures Sort(s + [e], rising) == Insert(Sort(s, rising), e, rising)
  {
    assert (s + [e])[..|s|] == s;
  }

  lemma DeciderOfSortStep(s: seq<Event>, e: Event)
    requires Decider(Sort(s, true)) == Decider(s)
    ensures Decider(Sort(s + [e], true)) == Decider(s + [e])
  {
    SortAppend(s, e, true);
    SortSorts(s, true);
    DeciderOfInsert(Sort(s, true), e);
    SameDeciderGrows(Sort(s, true), s, e);
  }

  lemma {:induction false} DeciderOfSort(events: seq<Event>)
    ensures Decider(Sort(events, true)) == Decider(events)
  {
    if events == [] {
    } else {
      DeciderOfSort(events[..|events| - 1]);
      DeciderOfSortStep(events[..|events| - 1], events[|events| - 1]);
      assert events == events[..|events| - 1] + [events[|events| - 1]];
    }
  }

  /** The status that the handler answers for rows that come back from the database. */
  function Answered(rows: seq<Event>, id: string): Status {
    ReplayStatus(Sort(MatchesOf(rows, id), true))
  }

  /** It is what the last of the highest-ledger rows that set the status sets. */
  lemma AnswerIsDecided(rows: seq<Event>, id: string)
    ensures Answered(rows, id) == Decided(Decider(MatchesOf(rows, id)))
  {
    SortSorts(MatchesOf(rows, id), true);
    SortedReplayIsDecided(Sort(MatchesOf(rows, id), true));
    DeciderOfSort(MatchesOf(rows, id));
  }

  // ----- The rows -----

  /** The query returns the stored events newest ledger first, and those of one ledger in any order. */
  ghost predicate Returned(rows: seq<Event>, stream: seq<Event>) {
    multiset(rows) == multiset(stream) && forall i, j :: 0 <= i < j < |rows| ==> rows[i].ledger >= rows[j].ledger
  }

  lemma {:induction false} MatchesCount(events: seq<Event>, id: string, e: Event)
    ensures multiset(MatchesOf(events, id))[e] ==
            if ExtractInvoiceId(e.value) == Some(id) then multiset(events)[e] else 0
  {
    if events != [] {
      var init, last := events[..|events| - 1], events[|events| - 1];
      MatchesCount(init, id, e);
      assert events == init + [last];
    }
  }

  lemma SameMatches(rows: seq<Event>, stream: seq<Event>, id: string)
    requires multiset(rows) == multiset(stream)
    ensures forall e :: e in MatchesOf(rows, id) <==> e in MatchesOf(stream, id)
  {
    forall e
      ensures e in MatchesOf(rows, id) <==> e in MatchesOf(stream, id)
    {
      MatchesCount(rows, id, e);
      MatchesCount(stream, id, e);
      assert e in MatchesOf(rows, id) <==> e in multiset(MatchesOf(rows, id));
      assert e in MatchesOf(stream, id) <==> e in multiset(MatchesOf(stream, id));
    }
  }

  lemma MatchesAppend(s: seq<Event>, e: Event, id: string)
    ensures MatchesOf(s + [e], id) ==
            if ExtractInvoiceId(e.value) == Some(id) then MatchesOf(s, id) + [e] else MatchesOf(s, id)
  {
    assert (s + [e])[..|s|] == s;
  }

  lemma {:induction false} InsertedDecides(rows: seq<Event>, e: Event, id: string)
    requires ExtractInvoiceId(e.value) == Some(id) && SetsStatus(e)
    requires forall f :: f in MatchesOf(rows, id) && SetsStatus(f) ==> f.ledger <= e.ledger
    ensures Decider(MatchesOf(Insert(rows, e, false), id)) == Some(e)
  {
    if rows == [] || Leads(rows[|rows| - 1], e, false) {
      MatchesAppend(rows, e, id);
      DeciderAppend(MatchesOf(rows, id), e);
      DeciderIsTop(MatchesOf(rows, id));
    } else {
      var init, last := rows[..|rows| - 1], rows[|rows| - 1];
      InsertedDecides(init, e, id);
      MatchesAppend(Insert(init, e, false), last, id);
      DeciderAppend(MatchesOf(Insert(init, e, false), id), last);
    }
  }

  /** Any of the highest-ledger events that set the status can be the last of them to come back. */
  lemma AnyTopEventCanDecide(stream: seq<Event>, id: string, e: Event) returns (rows: seq<Event>)
    requires e in MatchesOf(stream, id) && SetsStatus(e)
    requires forall f :: f in MatchesOf(stream, id) && SetsStatus(f) ==> f.ledger <= e.ledger
    ensures Returned(rows, stream) && Decider(MatchesOf(rows, id)) == Some(e)
  {
    MatchesCount(stream, id, e);
    assert e in multiset(MatchesOf(stream, id)) && e in multiset(stream);
    var i :| 0 <= i < |stream| && stream[i] == e;
    var rest := stream[..i] + stream[i + 1..];
    assert stream == stream[..i] + [e] + stream[i + 1..];
    OneMore(stream[..i], e, stream[i + 1..]);
    rows := Insert(Sort(rest, false), e, false);
    SortSorts(rest, false);
    InsertSorts(Sort(rest, false), e, false);
    InsertKeepsEvents(Sort(rest, false), e, false);
    forall f | f in MatchesOf(Sort(rest, false), id) && SetsStatus(f)
      ensures f.ledger <= e.ledger
    {
      RestMatches(stream, rest, e, id, f);
    }
    InsertedDecides(Sort(rest, false), e, id);
  }

  lemma RestMatches(stream: seq<Event>, rest: seq<Event>, e: Event, id: string, f: Event)
    requires multiset(stream) == multiset(rest) + multiset{e} && f in MatchesOf(Sort(rest, false), id)
    ensures f in MatchesOf(stream, id)
  {
    SortSorts(rest, false);
    MatchesCount(Sort(rest, false), id, f);
    MatchesCount(stream, id, f);
    assert f in multiset(MatchesOf(Sort(rest, false), id));
    assert f in multiset(MatchesOf(stream, id));
  }

  // ----- Agreement -----

  /** No absent or structured identifier happens to read like the invoice asked for. */
  ghost predicate PlainIds(events: seq<Event>, id: string) {
    forall e :: e in events && SubjectOf(e.value) == id ==> ExtractInvoiceId(e.value) == Some(id)
  }

  function TrackedStatus(t: Tracker, id: string): Option<Status> {
    if id in t.rounds then Some(t.rounds[id].status) else None
  }

  lemma ExtractedIsSubject(value: Json)
    ensures ExtractInvoiceId(value).Some? ==> ExtractInvoiceId(value).value == SubjectOf(value)
    ensures RoundApproved(value) == Truthy(At(AsArray(value), 1))
  {
  }

  predicate AnySetsStatus(events: seq<Event>) {
    events != [] && (AnySetsStatus(events[..|events| - 1]) || SetsStatus(events[|events| - 1]))
  }

  predicate AnyVote(events: seq<Event>) {
    events != [] && (AnyVote(events[..|events| - 1]) || events[|events| - 1].topic == Voted)
  }

  lemma {:induction false} AnySetsStatusIsExists(events: seq<Event>)
    ensures AnySetsStatus(events) <==> exists e :: e in events && SetsStatus(e)
  {
    if events != [] {
      var init := events[..|events| - 1];
      AnySetsStatusIsExists(init);
      assert events == init + [events[|events| - 1]];
    }
  }

  /** What the tracker knows of an invoice whose replay would give `status`. */
  function Known(matches: seq<Event>): Option<Status> {
    if AnySetsStatus(matches) then Some(ReplayStatus(matches))
    else if AnyVote(matches) then Some(Open) else None
  }

  lemma KnownAppend(matches: seq<Event>, e: Event)
    ensures Known(matches + [e]) ==
            if SetsStatus(e) then Some(NextStatus(ReplayStatus(matches), e))
            else if AnySetsStatus(matches) then Some(ReplayStatus(matches))
            else if AnyVote(matches) || e.topic == Voted then Some(Open) else None
  {
    assert (matches + [e])[..|matches + [e]| - 1] == matches;
  }

  lemma OwnEventTracks(t: Tracker, me: string, e: Event, id: string, matches: seq<Event>)
    requires SubjectOf(e.value) == id && TrackedStatus(t, id) == Known(matches)
    ensures TrackedStatus(Handled(t, me, e), id) == Known(matches + [e])
  {
    ExtractedIsSubject(e.value);
    KnownAppend(matches, e);
  }

  lemma OtherEventTracks(t: Tracker, me: string, e: Event, id: string)
    requires SubjectOf(e.value) != id
    ensures TrackedStatus(Handled(t, me, e), id) == TrackedStatus(t, id)
  {
  }

  /** Before any event sets the status the replay in arrival order knows nothing and the tracker
      assumes an open round as soon as it sees a vote; from then on they are equal. */
  lemma {:induction false} StatusesTrack(me: string, signals: seq<Signal>, id: string)
    requires PlainIds(EventsOf(signals), id)
    ensures TrackedStatus(Tracked(me, signals), id) == Known(MatchesOf(EventsOf(signals), id))
  {
    if signals != [] {
      var init, last := signals[..|signals| - 1], signals[|signals| - 1];
      var before := EventsOf(init);
      if last.Seen? {
        assert forall e :: e in before ==> e in EventsOf(signals);
        assert last.event in EventsOf(signals);
        StatusesTrack(me, init, id);
        ExtractedIsSubject(last.event.value);
        MatchesAppend(before, last.event, id);
        if SubjectOf(last.event.value) == id {
          OwnEventTracks(Tracked(me, init), me, last.event, id, MatchesOf(before, id));
        } else {
          OtherEventTracks(Tracked(me, init), me, last.event, id);
        }
      } else {
        StatusesTrack(me, init, id);
      }
    }
  }

  lemma {:induction false} UnknownUntilSet(matches: seq<Event>)
    ensures ReplayStatus(matches) == Unknown <==> !AnySetsStatus(matches)
    ensures Decider(matches).Some? <==> AnySetsStatus(matches)
  {
    if matches != [] {
      UnknownUntilSet(matches[..|matches| - 1]);
    }
  }

  /** An event that sets the status, of the highest ledger of such events. */
  ghost predicate SetsAtTheTop(matches: seq<Event>, e: Event) {
    e in matches && SetsStatus(e) && forall f :: f in matches && SetsStatus(f) ==> f.ledger <= e.ledger
  }

  /** Some event sets the status, and all of the highest such ledger set what the last one to arrive
      set. */
  ghost predicate TopIsSettled(matches: seq<Event>) {
    AnySetsStatus(matches) && forall e :: SetsAtTheTop(matches, e) ==> SetBy(e) == ReplayStatus(matches)
  }

  ghost predicate AgreeOn(me: string, signals: seq<Signal>, rows: seq<Event>, id: string) {
    TrackedStatus(Tracked(me, signals), id) == Some(Answered(rows, id))
  }

  /** Where the status is settled, any rows give the tracker's. */
  lemma SettledAgrees(me: string, signals: seq<Signal>, rows: seq<Event>, id: string)
    requires PlainIds(EventsOf(signals), id) && Returned(rows, EventsOf(signals))
    requires TopIsSettled(MatchesOf(EventsOf(signals), id))
    ensures AgreeOn(me, signals, rows, id)
  {
    var m, n := MatchesOf(EventsOf(signals), id), MatchesOf(rows, id);
    StatusesTrack(me, signals, id);
    AnswerIsDecided(rows, id);
    SameMatches(rows, EventsOf(signals), id);
    AnySetsStatusIsExists(m);
    DeciderIsTop(n);
    assert SetsAtTheTop(m, Decider(n).value);
  }

  /** An event at the top that sets another status comes back last in some order. */
  lemma UnsettledDisagrees(me: string, signals: seq<Signal>, id: string, e: Event) returns (rows: seq<Event>)
    requires PlainIds(EventsOf(signals), id)
    requires var m := MatchesOf(EventsOf(signals), id);
             SetsAtTheTop(m, e) && SetBy(e) != ReplayStatus(m)
    ensures Returned(rows, EventsOf(signals)) && !AgreeOn(me, signals, rows, id)
  {
    var m := MatchesOf(EventsOf(signals), id);
    rows := AnyTopEventCanDecide(EventsOf(signals), id, e);
    AnswerIsDecided(rows, id);
    StatusesTrack(me, signals, id);
    AnySetsStatusIsExists(m);
  }

  lemma UnsetDisagrees(me: string, signals: seq<Signal>, id: string) returns (rows: seq<Event>)
    requires PlainIds(EventsOf(signals), id) && !AnySetsStatus(MatchesOf(EventsOf(signals), id))
    ensures Returned(rows, EventsOf(signals)) && !AgreeOn(me, signals, rows, id)
  {
    rows := Sort(EventsOf(signals), false);
    SortSorts(EventsOf(signals), false);
    StatusesTrack(me, signals, id);
    AnswerIsDecided(rows, id);
    SameMatches(rows, EventsOf(signals), id);
    DeciderIsTop(MatchesOf(rows, id));
    AnySetsStatusIsExists(MatchesOf(EventsOf(signals), id));
  }

  /** The two reconstructions agree on an invoice in every order in which the database may return
      the rows, if and only if some event of it sets a status and all such events of the highest
      such ledger set the status that the last one to arrive set. */
  lemma ReplaysAgree(me: string, signals: seq<Signal>, id: string)
    requires PlainIds(EventsOf(signals), id)
    ensures (forall rows :: Returned(rows, EventsOf(signals)) ==> AgreeOn(me, signals, rows, id)) <==>
            TopIsSettled(MatchesOf(EventsOf(signals), id))
  {
    var stream := EventsOf(signals);
    var m := MatchesOf(stream, id);
    if TopIsSettled(m) {
      forall rows | Returned(rows, stream)
        ensures AgreeOn(me, signals, rows, id)
      {
        SettledAgrees(me, signals, rows, id);
      }
    } else if !AnySetsStatus(m) {
      var rows := UnsetDisagrees(me, signals, id);
    } else {
      var e :| SetsAtTheTop(m, e) && SetBy(e) != ReplayStatus(m);
      var rows := UnsettledDisagrees(me, signals, id, e);
    }
  }

  /** Events arrive in ledger order. */
  ghost predicate ArrivesInOrder(matches: seq<Event>) { Ordered(matches, true) }

  /** When events arrive in ledger order the condition is that the events at the top set one status;
      that they do in particular when there is only one of them. */
  lemma OneStatusAtTheTop(matches: seq<Event>)
    requires ArrivesInOrder(matches)
    ensures TopIsSettled(matches) <==>
              AnySetsStatus(matches)
              && forall e, f :: SetsAtTheTop(matches, e) && SetsAtTheTop(matches, f) ==> SetBy(e) == SetBy(f)
  {
    SortedReplayIsDecided(matches);
    UnknownUntilSet(matches);
    DeciderIsTop(matches);
    if AnySetsStatus(matches) {
      assert SetsAtTheTop(matches, Decider(matches).value);
    }
  }

  /** Without the condition they can differ: a round opened and decided in one ledger counts as
      decided in the tracker and as open in the replay, when the opening comes back last. */
  lemma SharedLedgerDisagrees(me: string, id: string, open: Event, decide: Event)
    requires open.topic == RndOpen && decide.topic == Consensus && open.ledger == decide.ledger
    requires ExtractInvoiceId(open.value) == Some(id) == ExtractInvoiceId(decide.value)
    ensures Returned([decide, open], EventsOf([Seen(open), Seen(decide)]))
    ensures TrackedStatus(Tracked(me, [Seen(open), Seen(decide)]), id) == Some(Verdict(RoundApproved(decide.value)))
    ensures Answered([decide, open], id) == Open
  {
    TwoEvents(open, decide);
    OpeningReadLast(decide, open, id);
    DecisionHeardLast(me, open, decide, id);
    assert multiset([decide, open]) == multiset([open, decide]);
  }

  lemma OpeningReadLast(decide: Event, open: Event, id: string)
    requires open.topic == RndOpen && decide.topic == Consensus && open.ledger == decide.ledger
    requires ExtractInvoiceId(open.value) == Some(id) == ExtractInvoiceId(decide.value)
    ensures Answered([decide, open], id) == Open
  {
    TwoMatches(decide, open, id);
    AnswerIsDecided([decide, open], id);
  }

  lemma DecisionHeardLast(me: string, open: Event, decide: Event, id: string)
    requires open.topic == RndOpen && decide.topic == Consensus
    requires ExtractInvoiceId(open.value) == Some(id) == ExtractInvoiceId(decide.value)
    ensures TrackedStatus(Tracked(me, [Seen(open), Seen(decide)]), id) == Some(Verdict(RoundApproved(decide.value)))
  {
    TwoEvents(open, decide);
    TwoMatches(open, decide, id);
    ExtractedIsSubject(open.value);
    ExtractedIsSubject(decide.value);
    StatusesTrack(me, [Seen(open), Seen(decide)], id);
  }

  lemma TwoEvents(a: Event, b: Event)
    ensures EventsOf([Seen(a), Seen(b)]) == [a, b]
  {
    assert [Seen(a), Seen(b)][..1] == [Seen(a)] && [Seen(a)][..0] == [];
    assert EventsOf([Seen(a)]) == [a];
  }

  lemma TwoMatches(a: Event, b: Event, id: string)
    requires ExtractInvoiceId(a.value) == Some(id) == ExtractInvoiceId(b.value)
    ensures MatchesOf([a, b], id) == [a, b]
    ensures SetsStatus(a) && SetsStatus(b) && a.ledger <= b.ledger ==> Decider([a, b]) == Some(b)
    ensures SetsStatus(b) ==> Known([a, b]) == Some(NextStatus(ReplayStatus([a]), b))
  {
    MatchesAppend([], a, id);
    MatchesAppend([a], b, id);
    DeciderAppend([], a);
    DeciderAppend([a], b);
    KnownAppend([a], b);
    assert [] + [a] == [a] && [a] + [b] == [a, b];
  }

  // ----- What the events mean -----

  /** JavaScript's falsy values. */
  predicate Falsy(j: Json) {
    j == Undefined || j == Null || j == Bool(false) || j == Number(0) || j == Text("")
  }

  /** The event carries an approval: a second entry that is not falsy. */
  predicate Approves(e: Event) {
    e.value.List? && |e.value.items| > 1 && !Falsy(e.value.items[1])
  }

  predicate EndsRound(e: Event) { e.topic == Consensus || e.topic == Fallback }

  lemma TruthyMeans(j: Json)
    ensures Truthy(j) <==> !Falsy(j)
  {
  }

  /** What an event does to the status of its invoice in the tracker, and that it leaves every other
      invoice alone. */
  lemma EventIsTracked(t: Tracker, me: string, e: Event)
    ensures var id, after := SubjectOf(e.value), Heard(t, me, Seen(e));
            && (e.topic == RndOpen ==> TrackedStatus(after, id) == Some(Open))
            && (EndsRound(e) && Approves(e) ==> TrackedStatus(after, id) == Some(ConsensusApproved))
            && (EndsRound(e) && !Approves(e) ==> TrackedStatus(after, id) == Some(ConsensusRejected))
            && (e.topic == RndExp ==> TrackedStatus(after, id) == Some(Expired))
            && (e.topic == Voted ==>
                  TrackedStatus(after, id) == if id in t.rounds then Some(t.rounds[id].status) else Some(Open))
            && (e.topic == Paused || e.topic == Unpaused || e.topic == OtherTopic ==> after.rounds == t.rounds)
            && forall other :: other != id ==> TrackedStatus(after, other) == TrackedStatus(t, other)
  {
    if EndsRound(e) {
      TruthyMeans(At(AsArray(e.value), 1));
    }
  }

  /** The i-th event opens, decides or expires the round, and no later one does. */
  ghost predicate LastWord(events: seq<Event>, i: nat) {
    && i < |events| && (events[i].topic == RndOpen || EndsRound(events[i]) || events[i].topic == RndExp)
    && forall j :: i < j < |events| ==> events[j].topic != RndOpen && !EndsRound(events[j]) && events[j].topic != RndExp
  }

  lemma LastWordIsOne(events: seq<Event>, i: nat, j: nat)
    requires LastWord(events, i) && LastWord(events, j)
    ensures i == j
  {
  }

  lemma WordStatus(status: Status, e: Event)
    ensures e.topic == RndOpen ==> NextStatus(status, e) == Open
    ensures EndsRound(e) && Approves(e) ==> NextStatus(status, e) == ConsensusApproved
    ensures EndsRound(e) && !Approves(e) ==> NextStatus(status, e) == ConsensusRejected
    ensures e.topic == RndExp ==> NextStatus(status, e) == Expired
  {
    if RoundApproved(e.value) {
      TruthyMeans(e.value.items[1]);
    }
    if Approves(e) {
      TruthyMeans(e.value.items[1]);
    }
  }

  /** The status that the last word of a round leaves. */
  ghost predicate Leaves(events: seq<Event>, i: nat, status: Status)
    requires i < |events|
  {
    && (events[i].topic == RndOpen ==> status == Open)
    && (EndsRound(events[i]) && Approves(events[i]) ==> status == ConsensusApproved)
    && (EndsRound(events[i]) && !Approves(events[i]) ==> status == ConsensusRejected)
    && (events[i].topic == RndExp ==> status == Expired)
  }

  lemma {:induction false} LastWordDecides(events: seq<Event>)
    ensures ReplayStatus(events) == Unknown ==> forall i: nat :: !LastWord(events, i)
    ensures ReplayStatus(events) != Unknown ==>
              exists i: nat :: LastWord(events, i) && Leaves(events, i, ReplayStatus(events))
  {
    if events != [] {
      var n := |events| - 1;
      var init, last := events[..n], events[n];
      LastWordDecides(init);
      WordStatus(ReplayStatus(init), last);
      if last.topic == RndOpen || EndsRound(last) || last.topic == RndExp {
        assert LastWord(events, n);
      } else {
        forall i: nat | LastWord(events, i)
          ensures LastWord(init, i)
        {
        }
        if i: nat :| LastWord(init, i) && Leaves(init, i, ReplayStatus(init)) {
          assert LastWord(events, i) && Leaves(events, i, ReplayStatus(events));
        }
      }
    }
  }

  /** The replay of events in ledger order answers each status exactly when the last event that
      opens, decides or expires the round is of that kind and, for a decision, carries that verdict. */
  lemma ReplayIsTheLastWord(events: seq<Event>)
    ensures ReplayStatus(events) == Open <==> exists i: nat :: LastWord(events, i) && events[i].topic == RndOpen
    ensures ReplayStatus(events) == ConsensusApproved <==>
              exists i: nat :: LastWord(events, i) && EndsRound(events[i]) && Approves(events[i])
    ensures ReplayStatus(events) == ConsensusRejected <==>
              exists i: nat :: LastWord(events, i) && EndsRound(events[i]) && !Approves(events[i])
    ensures ReplayStatus(events) == Expired <==> exists i: nat :: LastWord(events, i) && events[i].topic == RndExp
  {
    LastWordDecides(events);
    forall i: nat | LastWord(events, i)
      ensures Leaves(events, i, ReplayStatus(events))
    {
      if k: nat :| LastWord(events, k) && Leaves(events, k, ReplayStatus(events)) {
        LastWordIsOne(events, i, k);
      }
    }
  }

  /** So does the tracker over every run of signals, which besides says that a round is open when
      only votes have been seen. */
  lemma TrackerIsTheLastWord(me: string, signals: seq<Signal>, id: string)
    requires PlainIds(EventsOf(signals), id)
    ensures var m, now := MatchesOf(EventsOf(signals), id), TrackedStatus(Tracked(me, signals), id);
            && (now == Some(ConsensusApproved) <==> exists i: nat :: LastWord(m, i) && EndsRound(m[i]) && Approves(m[i]))
            && (now == Some(ConsensusRejected) <==> exists i: nat :: LastWord(m, i) && EndsRound(m[i]) && !Approves(m[i]))
            && (now == Some(Expired) <==> exists i: nat :: LastWord(m, i) && m[i].topic == RndExp)
            && now != Some(Unknown)
  {
    var m := MatchesOf(EventsOf(signals), id);
    StatusesTrack(me, signals, id);
    UnknownUntilSet(m);
    ReplayIsTheLastWord(m);
  }

  // ----- Identifiers -----

  /** The number that a string of decimal digits denotes. */
  function ValueOf(digits: string): int {
    if digits == "" then 0
    else 10 * ValueOf(digits[..|digits| - 1]) + (digits[|digits| - 1] as int - '0' as int)
  }

  /** The text of a number is its decimal representation, so different numbers have different texts. */
  lemma {:induction false} DigitsReadBack(n: nat)
    ensures ValueOf(Digits(n)) == n && Digits(n) != "" && Digits(n)[0] != '-'
    ensures n > 0 ==> Digits(n)[0] != '0'
  {
    if n >= 10 {
      DigitsReadBack(n / 10);
      var front := Digits(n / 10);
      assert Digits(n)[..|front|] == front;
    } else {
      assert Digits(n)[..0] == "";
    }
  }

  lemma NumberReadsBack(n: int)
    ensures var text := ToText(Number(n));
            && text != [] && (text[0] == '-' <==> n < 0)
            && text[if n < 0 then 1 else 0..] == Digits(if n < 0 then -n else n)
  {
    DigitsReadBack(if n < 0 then -n else n);
  }

  lemma NumbersAreTellApart(m: int, n: int)
    requires ToText(Number(m)) == ToText(Number(n))
    ensures m == n
  {
    NumberReadsBack(m);
    NumberReadsBack(n);
    DigitsReadBack(if m < 0 then -m else m);
    DigitsReadBack(if n < 0 then -n else n);
  }

  /** How everything but numbers and arrays reads. */
  lemma ValuesRead(text: string, shown: string)
    ensures ToText(Undefined) == "undefined" && ToText(Null) == "null"
    ensures ToText(Bool(true)) == "true" && ToText(Bool(false)) == "false"
    ensures ToText(Text(text)) == text && ToText(Object(shown)) == shown
  {
  }

  /** The entries of an array are joined by commas, absent ones as nothing. */
  lemma {:induction false} JoinedAppend(items: seq<Json>, last: Json)
    ensures Joined(items + [last]) ==
            (if items == [] then "" else Joined(items) + ",") + (if last.Null? || last.Undefined? then "" else ToText(last))
    decreases |items|
  {
    var all := items + [last];
    if items != [] {
      assert all[0] == items[0] && all[1..] == items[1..] + [last];
      JoinedAppend(items[1..], last);
    }
  }

  /** An event belongs to an invoice exactly when its value, or the first entry of its array, is a
      truth value, number or text that reads like it. */
  lemma BelongsExactly(value: Json, id: string)
    ensures ExtractInvoiceId(value) == Some(id) <==>
              exists c: Json ::
                && (c.Bool? || c.Number? || c.Text?) && ToText(c) == id
                && (value == c || (value.List? && |value.items| > 0 && value.items[0] == c))
  {
    if value.List? && |value.items| > 0 {
      assert ExtractInvoiceId(value) == Some(id) ==> ToText(value.items[0]) == id;
    } else {
      assert ExtractInvoiceId(value) == Some(id) ==> ToText(value) == id;
    }
  }

  /** A matching event is where it was among the matches: those of a prefix are a prefix. */
  lemma MatchesAreFiltered(events: seq<Event>, e: Event, id: string)
    ensures MatchesOf([], id) == []
    ensures ExtractInvoiceId(e.value) == Some(id) ==> MatchesOf(events + [e], id) == MatchesOf(events, id) + [e]
    ensures ExtractInvoiceId(e.value) != Some(id) ==> MatchesOf(events + [e], id) == MatchesOf(events, id)
  {
    MatchesAppend(events, e, id);
  }
}
