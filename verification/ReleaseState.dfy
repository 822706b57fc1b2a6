/**
 * The durable v2 promotion record, its audit rows and the structural checks
 * that every store read and write performs.
 *
 * A serving pair and its runtime fingerprint are always written together, so
 * `stable`/`stable_fingerprint` and `pair`/`fingerprint` are one value here.
 */
module ReleaseState {
  import opened Bounded

  type Time = real
  type Digest = string
  type Owner = string

  const HISTORY: nat := 100
  const MAX_PENDING: nat := 20

  datatype Pair = Pair(version: nat, runtime: string, uri: string)
  datatype Serving = Serving(pair: Pair, fingerprint: Digest)

  /** `rest` stands for the event fields that only take part in event equality. */
  datatype Event = Event(version: nat, uri: string, run: string, rest: string)
  datatype Identity = Identity(version: nat, uri: string, run: string)

  datatype Status =
    | Accepted | ResolutionRetry | ResolutionBlocked | BuildRequired | ReadyForRelease | ApprovedForRelease

  datatype Request = Request(fingerprint: Digest, canonical: bool)

  /** What an approval is about: the candidate and the idle baseline it was reviewed against. */
  datatype Candidate = Candidate(serving: Serving, event: Identity)
  datatype Basis = Basis(candidate: Candidate, stable: Serving, highest: nat)

  /** `wellFormed` stands for the ticket, source and digest format checks. */
  datatype Evidence = Evidence(basis: Basis, supersedes: Option<Hash>, runId: string, created: Time,
                               other: string, wellFormed: bool)

  /** An ideal digest: distinct evidence has distinct hashes. Raw is any other digest-shaped text. */
  datatype Hash = Of(evidence: Evidence) | Raw(text: string)

  datatype Auth = Auth(evidence: Evidence, hash: Hash, authorizedAt: Time, expiresAt: Time)

  datatype Item = Item(event: Event, status: Status, attempts: nat, nextAttempt: Time,
                       pair: Option<Pair>, fingerprint: Option<Digest>, request: Option<Request>,
                       auth: Option<Auth>, error: Option<string>)

  datatype Phase = Preparing | Ramp | Finalizing | Draining | Rollback | Blocked

  datatype Active = Active(target: Serving, previous: Serving, phase: Phase, reason: Option<string>,
                           deadline: Time, stageSince: Option<Time>, auth: Auth)

  datatype Failure = Failure(pair: Pair, reason: string)
  datatype Route = Route(weight: nat, revision: nat)
  datatype Lease = Lease(owner: Owner, until: Time)

  datatype IngestResult = Accept | Duplicate | IdentityConflict | Stale

  /** Audit rows by reason; row times are not modelled, since no modelled reader looks at them. */
  datatype Row =
    | Ingested(result: IngestResult, version: nat)
    | Resolution(status: Status, version: nat)
    | Recovered(version: nat)
    | Bootstrapped(serving: Serving)
    | Authorized(version: nat, authId: Hash, replaced: Option<Hash>)
    | Started(pair: Pair, authId: Hash)
    | RollbackRequested(detail: string)
    | StagePromoted(previousWeight: nat)
    | StableCommitted(pair: Pair)
    | Completed(pair: Pair, authId: Hash)
    | RolledBack(previousStable: Pair, authId: Hash)

  datatype State = State(highest: nat, pending: seq<Item>, active: Option<Active>, stable: Option<Serving>,
                         processed: seq<Pair>, failed: seq<Failure>, identities: seq<Identity>,
                         audit: seq<Row>, route: Route, lease: Option<Lease>)

  function IdentityOf(e: Event): Identity {
    Identity(e.version, e.uri, e.run)
  }

  function InitialState(stable: Option<Serving>): State {
    State(if stable.Some? then stable.value.pair.version else 0, [], None, stable, [], [], [], [], Route(0, 0), None)
  }

  function Audit(s: State, row: Row): State {
    s.(audit := Last(s.audit + [row], HISTORY))
  }

  /** A weight change takes a fresh revision; an unchanged weight keeps the old one. */
  function SetRoute(s: State, weight: nat): State {
    if s.route.weight != weight then s.(route := Route(weight, s.route.revision + 1)) else s
  }

  /** The parts of the record that only a lease holder (or bootstrap) may change. */
  datatype View = View(active: Option<Active>, route: Route, stable: Option<Serving>,
                       processed: seq<Pair>, failed: seq<Failure>)

  function ViewOf(s: State): View {
    View(s.active, s.route, s.stable, s.processed, s.failed)
  }

  predicate IsStage(weight: nat) {
    weight == 10 || weight == 25 || weight == 50 || weight == 100
  }
}
