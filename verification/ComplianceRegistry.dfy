/** The storage of the compliance contract (contracts/compliance/src/lib.rs) and what each
    entrypoint does to it, as functions of the stored state, the ledger time and the caller.
    An entrypoint that fails leaves the state unchanged, because the host rolls it back. */
module ComplianceRegistry {
  import opened Collections

  const U64_MAX: nat := 0xFFFF_FFFF_FFFF_FFFF
  const DEFAULT_RESCREENING_INTERVAL: U64 := 180 * 24 * 60 * 60
  const DEFAULT_SCREENER_TIMELOCK: U64 := 24 * 60 * 60
  const REVIEW_COOLDOWN: U64 := 24 * 60 * 60
  const MIN_GOVERNED_INTERVAL: U64 := 86_400
  const MIN_GOVERNED_TIMELOCK: U64 := 3_600
  const MAX_HISTORY: nat := 64
  const MAX_FLAGGED: nat := 256
  const MAX_PENDING_REVIEW: nat := 256
  const MAX_SCREENERS: nat := 64
  const MAX_REASON_LENGTH: nat := 1024

  type U64 = n: nat | n <= U64_MAX
  type Address = nat
  type Byte = b: nat | b < 256

  /** The host's strings, whose length is a number of bytes. */
  type Text = seq<Byte>

  function SaturatingAdd(a: U64, b: U64): U64 {
    if a + b <= U64_MAX then a + b else U64_MAX
  }

  datatype Status = Unscreened | Cleared | Flagged | Blocked | PendingReview
  datatype RiskTier = Low | Medium | High

  datatype Error =
    | AlreadyInitialized | NotInitialized | Unauthorized | ContractPaused | InvalidConfig
    | ScreenerAlreadyRegistered | ScreenerNotRegistered | ScreenerTimelockActive | NoPendingScreener
    | InvalidStatus | ListFull | InvalidReason | ReviewRequestTooSoon | RescreeningTooSoon
    | AccessControlNotConfigured | GovernanceNotConfigured

  datatype Outcome = Accepted | Rejected(error: Error)

  datatype Record = Record(
    address: Address,
    status: Status,
    reasonCode: nat,
    riskTier: RiskTier,
    screenedAt: U64,
    screenedBy: Address,
    expiresAt: U64,
    notesHash: Text
  )

  datatype HistoryEntry = HistoryEntry(
    status: Status,
    reasonCode: nat,
    riskTier: RiskTier,
    screenedAt: U64,
    screenedBy: Address,
    expiresAt: U64,
    notesHash: Text
  )

  datatype SubmissionEntry = SubmissionEntry(
    subject: Address,
    status: Status,
    reasonCode: nat,
    riskTier: RiskTier,
    screenedAt: U64,
    expiresAt: U64,
    notesHash: Text
  )

  datatype PendingScreener = PendingScreener(address: Address, proposedAt: U64, effectiveAt: U64)

  datatype Config = Config(
    admin: Option<Address>,
    accessControl: Option<Address>,
    governance: Option<Address>,
    paused: bool,
    rescreeningInterval: U64,
    screenerTimelock: U64
  )

  /** Active and proposed screeners, each with its list for enumeration. */
  datatype Roster = Roster(
    screeners: set<Address>,
    screenerIds: seq<Address>,
    pendingScreeners: map<Address, PendingScreener>,
    pendingScreenerIds: seq<Address>
  )

  datatype Ledger = Ledger(
    records: map<Address, Record>,
    history: map<Address, seq<HistoryEntry>>,
    submissions: map<Address, seq<SubmissionEntry>>
  )

  datatype StatusLists = StatusLists(flaggedIds: seq<Address>, pendingReviewIds: seq<Address>)

  datatype Cooldowns = Cooldowns(
    reviewRequestedAt: map<Address, U64>,
    lastScreenedAt: map<(Address, Address), U64>
  )

  datatype Registry = Registry(
    config: Config,
    roster: Roster,
    ledger: Ledger,
    lists: StatusLists,
    cooldowns: Cooldowns
  )

  /** Storage before `initialize`; unset configuration reads as its default. */
  const Fresh: Registry := Registry(
    Config(None, None, None, false, DEFAULT_RESCREENING_INTERVAL, DEFAULT_SCREENER_TIMELOCK),
    Roster({}, [], map[], []),
    Ledger(map[], map[], map[]),
    StatusLists([], []),
    Cooldowns(map[], map[]))

  function AsHistory(r: Record): HistoryEntry {
    HistoryEntry(r.status, r.reasonCode, r.riskTier, r.screenedAt, r.screenedBy, r.expiresAt, r.notesHash)
  }

  function AsSubmission(r: Record): SubmissionEntry {
    SubmissionEntry(r.address, r.status, r.reasonCode, r.riskTier, r.screenedAt, r.expiresAt, r.notesHash)
  }

  /** The proposals of the listed addresses that have one. */
  function ProposalsOf(ids: seq<Address>, proposals: map<Address, PendingScreener>): seq<PendingScreener> {
    if ids == [] then []
    else
      var before, last := ProposalsOf(ids[..|ids| - 1], proposals), ids[|ids| - 1];
      if last in proposals then before + [proposals[last]] else before
  }

  function LogOf<K(==), V>(m: map<K, seq<V>>, k: K): seq<V> {
    if k in m then m[k] else []
  }

  // ----- Bounded lists -----

  /** Appends with eviction of the oldest entry. */
  function AddedEvicting(list: seq<Address>, a: Address, max: nat): seq<Address> {
    if a in list then list
    else if |list| >= max && list != [] then list[1..] + [a]
    else list + [a]
  }

  /** Appends unless the list is full. */
  function AddedIfRoom(list: seq<Address>, a: Address, max: nat): seq<Address> {
    if a in list || |list| >= max then list else list + [a]
  }

  /** The flagged and pending-review lists after `a` got `status`. */
  function SyncedFlagged(list: seq<Address>, a: Address, status: Status): seq<Address> {
    if status in {Flagged, Blocked} then AddedEvicting(list, a, MAX_FLAGGED) else Without(list, a)
  }

  function SyncedPendingReview(list: seq<Address>, a: Address, status: Status): seq<Address> {
    if status == PendingReview then AddedEvicting(list, a, MAX_PENDING_REVIEW) else Without(list, a)
  }

  function Synced(l: StatusLists, a: Address, status: Status): StatusLists {
    StatusLists(SyncedFlagged(l.flaggedIds, a, status), SyncedPendingReview(l.pendingReviewIds, a, status))
  }

  /** The record and both bounded logs after `r` is stored. */
  function Logged(l: Ledger, r: Record): Ledger {
    Ledger(
      l.records[r.address := r],
      l.history[r.address := LastN(LogOf(l.history, r.address) + [AsHistory(r)], MAX_HISTORY)],
      l.submissions[r.screenedBy := LastN(LogOf(l.submissions, r.screenedBy) + [AsSubmission(r)], MAX_HISTORY)])
  }

  // ----- Callers -----

  /** Through which key an administrative call comes. */
  datatype Gate = AdminKey | AccessControl | Governance

  function Refusal(c: Config, gate: Gate, caller: Address): Option<Error> {
    match gate
    case AdminKey =>
      if c.admin.None? then Some(NotInitialized)
      else if caller != c.admin.value then Some(Unauthorized) else None
    case AccessControl =>
      if c.accessControl.None? then Some(AccessControlNotConfigured)
      else if caller != c.accessControl.value then Some(Unauthorized) else None
    case Governance =>
      if c.governance.None? then Some(GovernanceNotConfigured)
      else if caller != c.governance.value then Some(Unauthorized) else None
  }

  predicate MayScreen(s: Registry, who: Address) {
    s.config.admin.Some? && (who == s.config.admin.value || who in s.roster.screeners)
  }

  // ----- Entrypoints -----

  datatype Call =
    | Initialize(admin: Address)
    | SetPaused(gate: Gate, caller: Address, paused: bool)
    | RegisterScreener(gate: Gate, caller: Address, screener: Address)
    | ConfirmScreener(gate: Gate, caller: Address, screener: Address)
    | DeregisterScreener(gate: Gate, caller: Address, screener: Address)
    | SetRescreeningInterval(gate: Gate, caller: Address, secs: U64)
    | SetScreenerTimelock(gate: Gate, caller: Address, secs: U64)
    | SetAccessControl(gate: Gate, caller: Address, accessControl: Address)
    | SetGovernance(caller: Address, governance: Address)
    | SubmitScreening(screener: Address, subject: Address, status: Status, reasonCode: nat,
                      riskTier: RiskTier, expiresAt: U64, notesHash: Text)
    | RequestReview(caller: Address, subject: Address, reason: Text)
  {
    /** Only interval and timelock have a governance entrypoint. */
    predicate Exists() {
      (SetPaused? || RegisterScreener? || ConfirmScreener? || DeregisterScreener? || SetAccessControl?)
        ==> gate != Governance
    }
  }

  type Response = (Registry, Outcome)

  /** Why `activate_screener` refuses. */
  function ActivationRefusal(r: Roster, a: Address): Option<Error> {
    if a in r.screeners then Some(ScreenerAlreadyRegistered)
    else if |r.screenerIds| >= MAX_SCREENERS then Some(ListFull)
    else None
  }

  function Activated(r: Roster, a: Address): Roster {
    r.(screeners := r.screeners + {a}, screenerIds := r.screenerIds + [a])
  }

  function Unproposed(r: Roster, a: Address): Roster {
    r.(pendingScreeners := r.pendingScreeners - {a}, pendingScreenerIds := Without(r.pendingScreenerIds, a))
  }

  function Proposed(r: Roster, p: PendingScreener): Roster {
    r.(pendingScreeners := r.pendingScreeners[p.address := p],
       pendingScreenerIds := AddedIfRoom(r.pendingScreenerIds, p.address, MAX_SCREENERS))
  }

  function Deactivated(r: Roster, a: Address): Roster {
    r.(screeners := r.screeners - {a}, screenerIds := Without(r.screenerIds, a))
  }

  function RegistrationRefusal(s: Registry, a: Address): Option<Error> {
    if s.config.paused then Some(ContractPaused)
    else if a in s.roster.screeners || a in s.roster.pendingScreeners then Some(ScreenerAlreadyRegistered)
    else if s.config.screenerTimelock == 0 then ActivationRefusal(s.roster, a)
    else None
  }

  function ConfirmationRefusal(s: Registry, now: U64, a: Address): Option<Error> {
    if s.config.paused then Some(ContractPaused)
    else if a !in s.roster.pendingScreeners then Some(NoPendingScreener)
    else if now < s.roster.pendingScreeners[a].effectiveAt then Some(ScreenerTimelockActive)
    else ActivationRefusal(s.roster, a)
  }

  function DeregistrationRefusal(s: Registry, a: Address): Option<Error> {
    if s.config.paused then Some(ContractPaused)
    else if a !in s.roster.screeners && a !in s.roster.pendingScreeners then Some(ScreenerNotRegistered)
    else None
  }

  /** The roster after an accepted screener call. */
  function RosterAfter(s: Registry, now: U64, c: Call): Roster
    requires c.RegisterScreener? || c.ConfirmScreener? || c.DeregisterScreener?
  {
    var a := c.screener;
    match c
    case RegisterScreener(_, _, _) =>
      if s.config.screenerTimelock == 0 then Activated(s.roster, a)
      else Proposed(s.roster, PendingScreener(a, now, SaturatingAdd(now, s.config.screenerTimelock)))
    case ConfirmScreener(_, _, _) => Activated(Unproposed(s.roster, a), a)
    case DeregisterScreener(_, _, _) =>
      if a in s.roster.screeners then Deactivated(s.roster, a) else Unproposed(s.roster, a)
  }

  /** The configuration after an accepted configuration call. */
  function ConfigAfter(cfg: Config, c: Call): Config
    requires c.SetPaused? || c.SetRescreeningInterval? || c.SetScreenerTimelock? || c.SetAccessControl? || c.SetGovernance?
  {
    match c
    case SetPaused(_, _, paused) => cfg.(paused := paused)
    case SetRescreeningInterval(_, _, secs) => cfg.(rescreeningInterval := secs)
    case SetScreenerTimelock(_, _, secs) => cfg.(screenerTimelock := secs)
    case SetAccessControl(_, _, address) => cfg.(accessControl := Some(address))
    case SetGovernance(_, address) => cfg.(governance := Some(address))
  }

  /** Why a screening is refused, in the order the entrypoint checks. */
  function ScreeningRefusal(s: Registry, now: U64, who: Address, subject: Address, status: Status,
                            expiresAt: U64): Option<Error> {
    var last := s.cooldowns.lastScreenedAt;
    if s.config.paused then Some(ContractPaused)
    else if s.config.admin.None? then Some(NotInitialized)
    else if !MayScreen(s, who) then Some(Unauthorized)
    else if status == Unscreened then Some(InvalidStatus)
    else if who != s.config.admin.value && (who, subject) in last
            && now < SaturatingAdd(last[(who, subject)], s.config.rescreeningInterval) then Some(RescreeningTooSoon)
    else if expiresAt != 0 && expiresAt <= now && status == Cleared then Some(InvalidConfig)
    else None
  }

  function ReviewRefusal(s: Registry, now: U64, subject: Address, reason: Text): Option<Error> {
    var last := s.cooldowns.reviewRequestedAt;
    if s.config.paused then Some(ContractPaused)
    else if |reason| == 0 || |reason| > MAX_REASON_LENGTH then Some(InvalidReason)
    else if subject in last && now < SaturatingAdd(last[subject], REVIEW_COOLDOWN) then Some(ReviewRequestTooSoon)
    else None
  }

  function EffectiveExpiry(s: Registry, now: U64, expiresAt: U64): U64 {
    if expiresAt == 0 then SaturatingAdd(now, s.config.rescreeningInterval) else expiresAt
  }

  /** The record that an accepted screening or review request stores. */
  function RecordOf(s: Registry, now: U64, c: Call): Record
    requires c.SubmitScreening? || c.RequestReview?
  {
    match c
    case SubmitScreening(who, subject, status, reasonCode, riskTier, expiresAt, notesHash) =>
      Record(subject, status, reasonCode, riskTier, now, who, EffectiveExpiry(s, now, expiresAt), notesHash)
    case RequestReview(caller, subject, reason) =>
      var tier := if subject in s.ledger.records then s.ledger.records[subject].riskTier else Medium;
      Record(subject, PendingReview, 0, tier, now, caller, 0, reason)
  }

  function Stamped(d: Cooldowns, now: U64, c: Call): Cooldowns
    requires c.SubmitScreening? || c.RequestReview?
  {
    match c
    case SubmitScreening(who, subject, _, _, _, _, _) =>
      d.(lastScreenedAt := d.lastScreenedAt[(who, subject) := now])
    case RequestReview(_, subject, _) =>
      d.(reviewRequestedAt := d.reviewRequestedAt[subject := now])
  }

  /** Storing a record: the record, both bounded logs and both status lists. */
  function Stored(s: Registry, r: Record): Registry {
    s.(ledger := Logged(s.ledger, r), lists := Synced(s.lists, r.address, r.status))
  }

  /** Why the entrypoint `c`, called at ledger time `now`, fails, if it does. */
  function RefusalOf(s: Registry, now: U64, c: Call): Option<Error> {
    match c
    case Initialize(_) => if s.config.admin.Some? then Some(AlreadyInitialized) else None
    case SubmitScreening(who, subject, status, _, _, expiresAt, _) =>
      ScreeningRefusal(s, now, who, subject, status, expiresAt)
    case RequestReview(_, subject, reason) => ReviewRefusal(s, now, subject, reason)
    case SetGovernance(caller, _) => Refusal(s.config, AdminKey, caller)
    case _ =>
      var refusal := Refusal(s.config, c.gate, c.caller);
      if refusal.Some? then refusal
      else
        match c
        case RegisterScreener(_, _, a) => RegistrationRefusal(s, a)
        case ConfirmScreener(_, _, a) => ConfirmationRefusal(s, now, a)
        case DeregisterScreener(_, _, a) => DeregistrationRefusal(s, a)
        case SetRescreeningInterval(gate, _, secs) =>
          if secs == 0 || (gate == Governance && secs < MIN_GOVERNED_INTERVAL) then Some(InvalidConfig) else None
        case SetScreenerTimelock(gate, _, secs) =>
          if gate == Governance && secs < MIN_GOVERNED_TIMELOCK then Some(InvalidConfig) else None
        case _ => None
  }

  /** What an accepted entrypoint call leaves behind. */
  function Effect(s: Registry, now: U64, c: Call): Registry {
    match c
    case Initialize(admin) =>
      Registry(s.config.(admin := Some(admin), paused := false,
                         rescreeningInterval := DEFAULT_RESCREENING_INTERVAL,
                         screenerTimelock := DEFAULT_SCREENER_TIMELOCK),
               s.roster.(screenerIds := [], pendingScreenerIds := []),
               s.ledger, StatusLists([], []), s.cooldowns)
    case RegisterScreener(_, _, _) => s.(roster := RosterAfter(s, now, c))
    case ConfirmScreener(_, _, _) => s.(roster := RosterAfter(s, now, c))
    case DeregisterScreener(_, _, _) => s.(roster := RosterAfter(s, now, c))
    case SubmitScreening(_, _, _, _, _, _, _) =>
      Stored(s, RecordOf(s, now, c)).(cooldowns := Stamped(s.cooldowns, now, c))
    case RequestReview(_, _, _) =>
      Stored(s, RecordOf(s, now, c)).(cooldowns := Stamped(s.cooldowns, now, c))
    case _ => s.(config := ConfigAfter(s.config, c))
  }

  /** The answer of an entrypoint call and the state it leaves. */
  function Apply(s: Registry, now: U64, c: Call): Response {
    var refusal := RefusalOf(s, now, c);
    if refusal.Some? then (s, Rejected(refusal.value)) else (Effect(s, now, c), Accepted)
  }

  // ----- Views -----

  predicate IsCleared(l: Ledger, now: U64, a: Address) {
    a in l.records && l.records[a].status == Cleared
    && (l.records[a].expiresAt == 0 || now < l.records[a].expiresAt)
  }

  function EffectiveStatus(l: Ledger, now: U64, a: Address): Status {
    if a !in l.records then Unscreened
    else if l.records[a].status == Cleared && l.records[a].expiresAt != 0 && now >= l.records[a].expiresAt then Unscreened
    else l.records[a].status
  }
}
