/** Bounded release authorizations: evidence snapshots, validation and the claim test. */
module Authorization {
  import opened Bounded
  import opened ReleaseState

  const TTL: Time := 900.0
  const EVIDENCE_TTL: Time := 86400.0

  function WithVersion(items: seq<Item>, version: nat): (r: seq<Item>)
    ensures forall x :: x in r ==> x in items && x.event.version == version
  {
    if items == [] then [] else
    (if items[0].event.version == version then [items[0]] else []) + WithVersion(items[1..], version)
  }

  /** Index of the first pending item with this version, or the length when there is none. */
  function FindVersion(items: seq<Item>, version: nat): (i: nat)
    ensures i <= |items|
    ensures i < |items| ==> items[i].event.version == version
    ensures forall k :: 0 <= k < i ==> items[k].event.version != version
  {
    if items == [] || items[0].event.version == version then 0 else 1 + FindVersion(items[1..], version)
  }

  function CandidateOf(item: Item): Option<Candidate> {
    if item.pair.Some? && item.fingerprint.Some? && item.pair.value.version == item.event.version
       && item.pair.value.uri == item.event.uri
    then Some(Candidate(Serving(item.pair.value, item.fingerprint.value), IdentityOf(item.event)))
    else None
  }

  /** None stands for every error raised while taking the release snapshot. */
  function Snapshot(s: State, version: nat): Option<Basis> {
    if s.active.Some? || s.route.weight != 0 || s.stable.None? then None
    else if version != s.highest || version <= s.stable.value.pair.version then None
    else
      var matches := WithVersion(s.pending, version);
      if |matches| != 1 || matches[0].status !in {ReadyForRelease, ApprovedForRelease} then None
      else
        var item := matches[0];
        if item.request.None? || !item.request.value.canonical
           || Some(item.request.value.fingerprint) != item.fingerprint then None
        else
          match CandidateOf(item)
          case None => None
          case Some(c) => Some(Basis(c, s.stable.value, s.highest))
  }

  predicate ValidAuth(auth: Auth, candidate: Option<Candidate>) {
    var ev := auth.evidence;
    && candidate == Some(ev.basis.candidate)
    && ev.wellFormed
    && ev.basis.highest == ev.basis.candidate.serving.pair.version
    && 0.0 <= auth.authorizedAt - ev.created <= EVIDENCE_TTL
    && auth.expiresAt == auth.authorizedAt + TTL
    && auth.hash == Of(ev)
  }

  /** The candidate that a running release is checked against on every tick. */
  function ActiveCandidate(a: Active): Option<Candidate> {
    var event := a.auth.evidence.basis.candidate.event;
    if a.target.pair.version == event.version && a.target.pair.uri == event.uri
    then Some(Candidate(a.target, event))
    else None
  }

  predicate Claimable(s: State, item: Item, now: Time) {
    && item.status == ApprovedForRelease
    && item.auth.Some?
    && ValidAuth(item.auth.value, CandidateOf(item))
    && item.auth.value.authorizedAt <= now < item.auth.value.expiresAt
    && Snapshot(s, item.pair.value.version) == Some(item.auth.value.evidence.basis)
  }

  /** Binding of a claimed release; None stands for the raised error. */
  datatype Bound = Bound(target: Serving, authId: Hash, previous: Pair)

  function Binding(a: Active): Option<Bound> {
    if ValidAuth(a.auth, ActiveCandidate(a)) && a.previous == a.auth.evidence.basis.stable
    then Some(Bound(a.target, a.auth.hash, a.previous.pair))
    else None
  }

  /** The record checks made around every store read and write; the byte bound is not modelled. */
  predicate ValidItem(item: Item) {
    && (item.status in {ReadyForRelease, ApprovedForRelease} ==>
          item.pair.Some? && item.pair.value.version == item.event.version && item.pair.value.uri == item.event.uri)
    && (item.auth.Some? || item.status == ApprovedForRelease ==>
          item.status == ApprovedForRelease && item.auth.Some? && ValidAuth(item.auth.value, CandidateOf(item)))
  }

  predicate Validated(s: State) {
    && (s.route.weight == 0 || IsStage(s.route.weight))
    && (forall x :: x in s.pending ==> ValidItem(x))
    && |s.pending| <= MAX_PENDING
    && |s.audit| <= HISTORY && |s.identities| <= HISTORY && |s.processed| <= HISTORY && |s.failed| <= HISTORY
  }
}
