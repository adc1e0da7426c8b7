// How much of a source line may still be turned into target documents: temporary claims, committed
// consumption, and the proposals that consume.
module Capacity {
  import opened Wrappers
  import opened Seqs

  /** A source line as seen by one metric. Quantities count units of the sixth decimal. */
  datatype LineKey = LineKey(documentType: string, lineId: string, metric: string)

  datatype MovementKind = Consume | Release | ReverseConsumption | Adjust
  datatype LineLink = LineLink(line: LineKey, code: string, kind: MovementKind, quantity: int, proposal: nat)

  datatype ClaimStatus = ActiveClaim | CommittedClaim | ReleasedClaim | ExpiredClaim
  datatype Claim = Claim(line: LineKey, quantity: int, status: ClaimStatus, expiresAt: Option<int>)

  datatype ProposalStatus = Generated | Accepted | Expired | Stale | CancelledProposal
  datatype ProposalLine = ProposalLine(lineId: string, metric: string, quantity: int)
  datatype Proposal = Proposal(documentType: string, code: string, lines: seq<ProposalLine>, snapshotHash: string,
                               status: ProposalStatus, expiresAt: Option<int>)

  /** The tables, a row's position being its id, and the clock in milliseconds. */
  datatype Store = Store(links: seq<LineLink>, claims: seq<Claim>, proposals: seq<Proposal>, now: int)

  const EMPTY := Store([], [], [], 0)

  /** What the source module's own adapter answers; None when no adapter is registered. */
  type Eligibility = LineKey -> Option<int>

  datatype Error = NotFound | Conflict | NoAdapter | ExceedsRemaining | NoSource

  // ----- the one formula -----

  function Consumption(line: LineKey, code: string): LineLink -> int {
    (link: LineLink) =>
      if link.line != line || link.code != code then 0
      else if link.kind.Consume? then link.quantity
      else if link.kind.Adjust? then 0
      else -link.quantity
  }

  function Committed(links: seq<LineLink>, line: LineKey, code: string): int {
    SumBy(links, Consumption(line, code))
  }

  predicate Live(claim: Claim, now: int) {
    claim.status.ActiveClaim? && (claim.expiresAt.Some? ==> claim.expiresAt.value > now)
  }

  function Claimed(line: LineKey, now: int): Claim -> int {
    (claim: Claim) => if claim.line == line && Live(claim, now) then claim.quantity else 0
  }

  /** Live claims of any transformation count against the line. */
  function ActiveClaims(claims: seq<Claim>, line: LineKey, now: int): int {
    SumBy(claims, Claimed(line, now))
  }

  function ComputeRemaining(store: Store, eligible: Eligibility, line: LineKey, code: string): Result<int, Error> {
    var capacity := eligible(line);
    if capacity.None? then
      Failure(NoAdapter)
    else
      var remaining := capacity.value - Committed(store.links, line, code) - ActiveClaims(store.claims, line, store.now);
      Success(if remaining < 0 then 0 else remaining)
  }

  // ----- claims -----

  /** A missing or zero time to live means the claim never expires. */
  function ExpiryOf(now: int, ttlMinutes: Option<int>): Option<int> {
    if ttlMinutes.Some? && ttlMinutes.value != 0 then Some(now + ttlMinutes.value * 60000) else None
  }

  function MakeClaim(store: Store, eligible: Eligibility, line: LineKey, code: string, quantity: int, ttlMinutes: Option<int>)
    : Result<Store, Error>
  {
    var remaining := ComputeRemaining(store, eligible, line, code);
    if remaining.Failure? then Failure(remaining.error)
    else if quantity > remaining.value then Failure(ExceedsRemaining)
    else Success(store.(claims := store.claims + [Claim(line, quantity, ActiveClaim, ExpiryOf(store.now, ttlMinutes))]))
  }

  function ReleaseClaim(store: Store, id: nat): Result<Store, Error> {
    if id >= |store.claims| then Failure(NotFound)
    else if !store.claims[id].status.ActiveClaim? then Success(store)
    else Success(store.(claims := store.claims[id := store.claims[id].(status := ReleasedClaim)]))
  }

  /** Whatever the claim's status was. */
  function CommitClaim(store: Store, id: nat): Result<Store, Error> {
    if id >= |store.claims| then Failure(NotFound)
    else Success(store.(claims := store.claims[id := store.claims[id].(status := CommittedClaim)]))
  }

  function Due(now: int): Claim -> bool {
    (claim: Claim) => claim.status.ActiveClaim? && claim.expiresAt.Some? && claim.expiresAt.value < now
  }

  function Swept(claim: Claim, now: int): Claim {
    if claim.status.ActiveClaim? && claim.expiresAt.Some? && claim.expiresAt.value < now
    then claim.(status := ExpiredClaim) else claim
  }

  function SweepClaims(claims: seq<Claim>, now: int): seq<Claim> {
    seq(|claims|, i requires 0 <= i < |claims| => Swept(claims[i], now))
  }

  function ExpireDueClaims(store: Store): Store {
    store.(claims := SweepClaims(store.claims, store.now))
  }

  // ----- proposals -----

  function ProposedLines(store: Store, eligible: Eligibility, documentType: string, code: string, metric: string,
                         requests: seq<(string, Option<int>)>): Result<seq<ProposalLine>, Error>
  {
    if requests == [] then
      Success([])
    else
      var remaining := ComputeRemaining(store, eligible, LineKey(documentType, requests[0].0, metric), code);
      if remaining.Failure? then
        Failure(remaining.error)
      else
        var requested := if requests[0].1.Some? then requests[0].1.value else remaining.value;
        var proposed := if requested < remaining.value then requested else remaining.value;
        var rest := ProposedLines(store, eligible, documentType, code, metric, requests[1..]);
        if rest.Failure? then rest else Success([ProposalLine(requests[0].0, metric, proposed)] + rest.value)
  }

  function Generate(store: Store, eligible: Eligibility, documentType: string, code: string, metric: string,
                    requests: seq<(string, Option<int>)>, sources: nat, snapshotHash: string, ttlMinutes: Option<int>)
    : Result<Store, Error>
  {
    if sources == 0 then
      Failure(NoSource)
    else
      var lines := ProposedLines(store, eligible, documentType, code, metric, requests);
      if lines.Failure? then Failure(lines.error)
      else Success(store.(proposals := store.proposals +
        [Proposal(documentType, code, lines.value, snapshotHash, Generated, ExpiryOf(store.now, ttlMinutes))]))
  }

  function FinalQuantity(line: ProposalLine, overrides: map<string, int>): int {
    if line.lineId in overrides then overrides[line.lineId] else line.quantity
  }

  /** Line by line against what is left by then, earlier lines of the same proposal included. */
  function ConsumeLines(store: Store, eligible: Eligibility, id: nat, documentType: string, code: string,
                        lines: seq<ProposalLine>, overrides: map<string, int>): (r: Result<Store, Error>)
    ensures r.Success? ==> r.value.claims == store.claims && r.value.proposals == store.proposals && r.value.now == store.now
    decreases |lines|
  {
    if lines == [] then
      Success(store)
    else
      var quantity := FinalQuantity(lines[0], overrides);
      if quantity <= 0 then
        ConsumeLines(store, eligible, id, documentType, code, lines[1..], overrides)
      else
        var key := LineKey(documentType, lines[0].lineId, lines[0].metric);
        var remaining := ComputeRemaining(store, eligible, key, code);
        if remaining.Failure? then Failure(remaining.error)
        else if quantity > remaining.value then Failure(ExceedsRemaining)
        else
          ConsumeLines(store.(links := store.links + [LineLink(key, code, Consume, quantity, id)]), eligible, id,
                       documentType, code, lines[1..], overrides)
  }

  function WithStatus(store: Store, id: nat, status: ProposalStatus): Store
    requires id < |store.proposals|
  {
    store.(proposals := store.proposals[id := store.proposals[id].(status := status)])
  }

  /** The store afterwards and the error, if any: noticing expiry or a changed source is recorded although
      the call fails. A STALE proposal may still be accepted once its hash fits again. */
  function Accept(store: Store, eligible: Eligibility, id: nat, currentHash: string, sourceExists: bool,
                  overrides: map<string, int>): (Store, Option<Error>)
  {
    if id >= |store.proposals| then (store, Some(NotFound)) else
    var proposal := store.proposals[id];
    if proposal.status.Accepted? || proposal.status.Expired? || proposal.status.CancelledProposal? then (store, Some(Conflict))
    else if proposal.expiresAt.Some? && proposal.expiresAt.value < store.now then (WithStatus(store, id, Expired), Some(Conflict))
    else if currentHash != proposal.snapshotHash then (WithStatus(store, id, Stale), Some(Conflict))
    else if !sourceExists then (store, Some(NotFound))
    else
      var consumed := ConsumeLines(store, eligible, id, proposal.documentType, proposal.code, proposal.lines, overrides);
      if consumed.Failure? then (store, Some(consumed.error)) else (WithStatus(consumed.value, id, Accepted), None)
  }

  function CancelProposal(store: Store, id: nat): Result<Store, Error> {
    if id >= |store.proposals| then Failure(NotFound)
    else if store.proposals[id].status.Accepted? then Failure(Conflict)
    else Success(WithStatus(store, id, CancelledProposal))
  }

  // ----- runs -----

  datatype Command =
    | ClaimCommand(line: LineKey, code: string, quantity: int, ttlMinutes: Option<int>)
    | ReleaseCommand(id: nat)
    | CommitCommand(id: nat)
    | ExpireCommand
    | AdvanceClock(milliseconds: nat)
    | GenerateCommand(documentType: string, code: string, metric: string, requests: seq<(string, Option<int>)>,
                      sources: nat, snapshotHash: string, ttlMinutes: Option<int>)
    | AcceptCommand(id: nat, currentHash: string, sourceExists: bool, overrides: map<string, int>)
    | CancelCommand(id: nat)

  function OrElse(r: Result<Store, Error>, store: Store): Store {
    if r.Success? then r.value else store
  }

  function Step(store: Store, eligible: Eligibility, command: Command): Store {
    match command
    case ClaimCommand(line, code, quantity, ttl) => OrElse(MakeClaim(store, eligible, line, code, quantity, ttl), store)
    case ReleaseCommand(id) => OrElse(ReleaseClaim(store, id), store)
    case CommitCommand(id) => OrElse(CommitClaim(store, id), store)
    case ExpireCommand => ExpireDueClaims(store)
    case AdvanceClock(ms) => store.(now := store.now + ms)
    case GenerateCommand(documentType, code, metric, requests, sources, hash, ttl) =>
      OrElse(Generate(store, eligible, documentType, code, metric, requests, sources, hash, ttl), store)
    case AcceptCommand(id, hash, exists_, overrides) => Accept(store, eligible, id, hash, exists_, overrides).0
    case CancelCommand(id) => OrElse(CancelProposal(store, id), store)
  }

  ghost function Run(store: Store, eligible: Eligibility, commands: seq<Command>): Store
    decreases |commands|
  {
    if commands == [] then store else Run(Step(store, eligible, commands[0]), eligible, commands[1..])
  }

  // ----- the services -----

  lemma OneMoreDue(claims: seq<Claim>, i: nat, now: int)
    requires i < |claims|
    ensures |Filter(claims[..i + 1], Due(now))| == |Filter(claims[..i], Due(now))| + if Due(now)(claims[i]) then 1 else 0
    ensures SweepClaims(claims[..i + 1], now) == SweepClaims(claims[..i], now) + [Swept(claims[i], now)]
  {
    assert claims[..i + 1] == claims[..i] + [claims[i]];
    FilterAppend(claims[..i], [claims[i]], Due(now));
  }

  class DocumentChainStore {
    var links: seq<LineLink>
    var claims: seq<Claim>
    var proposals: seq<Proposal>
    var now: int

    ghost function State(): Store
      reads this
    {
      Store(links, claims, proposals, now)
    }

    constructor ()
      ensures State() == EMPTY
    {
      links, claims, proposals, now := [], [], [], 0;
    }

    method PlaceClaim(eligible: Eligibility, line: LineKey, code: string, quantity: int, ttlMinutes: Option<int>)
      returns (r: Result<nat, Error>)
      modifies this`claims
      ensures State() == OrElse(MakeClaim(old(State()), eligible, line, code, quantity, ttlMinutes), old(State()))
      ensures r.Success? <==> MakeClaim(old(State()), eligible, line, code, quantity, ttlMinutes).Success?
      ensures r.Success? ==> r.value == |old(claims)|
    {
      var remaining := ComputeRemaining(Store(links, claims, proposals, now), eligible, line, code);
      if remaining.Failure? { return Failure(remaining.error); }
      if quantity > remaining.value { return Failure(ExceedsRemaining); }
      claims := claims + [Claim(line, quantity, ActiveClaim, ExpiryOf(now, ttlMinutes))];
      return Success(|claims| - 1);
    }

    method Release(id: nat) returns (r: Result<ClaimStatus, Error>)
      modifies this`claims
      ensures State() == OrElse(ReleaseClaim(old(State()), id), old(State()))
      ensures r.Success? <==> id < |old(claims)|
      ensures r.Success? ==> r.value == claims[id].status && !claims[id].status.ActiveClaim?
    {
      if id >= |claims| { return Failure(NotFound); }
      if claims[id].status.ActiveClaim? {
        claims := claims[id := claims[id].(status := ReleasedClaim)];
      }
      return Success(claims[id].status);
    }

    method Commit(id: nat) returns (r: Result<ClaimStatus, Error>)
      modifies this`claims
      ensures State() == OrElse(CommitClaim(old(State()), id), old(State()))
      ensures r.Success? <==> id < |old(claims)|
    {
      if id >= |claims| { return Failure(NotFound); }
      claims := claims[id := claims[id].(status := CommittedClaim)];
      return Success(CommittedClaim);
    }

    method ExpireDue() returns (expiredCount: nat)
      modifies this`claims
      ensures State() == ExpireDueClaims(old(State()))
      ensures expiredCount == |Filter(old(claims), Due(now))|
    {
      expiredCount := 0;
      var swept := [];
      for i := 0 to |claims|
        invariant claims == old(claims) && swept == SweepClaims(claims[..i], now)
        invariant expiredCount == |Filter(claims[..i], Due(now))|
      {
        OneMoreDue(claims, i, now);
        if claims[i].status.ActiveClaim? && claims[i].expiresAt.Some? && claims[i].expiresAt.value < now {
          expiredCount := expiredCount + 1;
        }
        swept := swept + [Swept(claims[i], now)];
      }
      assert claims[..|claims|] == claims;
      claims := swept;
    }

    method GenerateProposal(eligible: Eligibility, documentType: string, code: string, metric: string,
                            requests: seq<(string, Option<int>)>, sources: nat, snapshotHash: string, ttlMinutes: Option<int>)
      returns (r: Result<nat, Error>)
      modifies this`proposals
      ensures State() == OrElse(Generate(old(State()), eligible, documentType, code, metric, requests, sources, snapshotHash,
                                         ttlMinutes), old(State()))
      ensures r.Success? ==> r.value == |old(proposals)|
    {
      if sources == 0 { return Failure(NoSource); }
      var lines: seq<ProposalLine> := [];
      ghost var all := ProposedLines(State(), eligible, documentType, code, metric, requests);
      assert requests[0..] == requests;
      assert all.Success? ==> [] + all.value == all.value;
      for i := 0 to |requests|
        invariant match ProposedLines(State(), eligible, documentType, code, metric, requests[i..])
                  case Success(rest) => all == Success(lines + rest)
                  case Failure(error) => all == Failure(error)
      {
        assert requests[i..][1..] == requests[i + 1..];
        var remaining := ComputeRemaining(Store(links, claims, proposals, now), eligible,
                                          LineKey(documentType, requests[i].0, metric), code);
        if remaining.Failure? { return Failure(remaining.error); }
        var requested := if requests[i].1.Some? then requests[i].1.value else remaining.value;
        var proposed := if requested < remaining.value then requested else remaining.value;
        ghost var tail := ProposedLines(State(), eligible, documentType, code, metric, requests[i + 1..]);
        var line := ProposalLine(requests[i].0, metric, proposed);
        assert tail.Success? ==> (lines + [line]) + tail.value == lines + ([line] + tail.value);
        lines := lines + [line];
      }
      assert requests[|requests|..] == [] && lines + [] == lines;
      proposals := proposals + [Proposal(documentType, code, lines, snapshotHash, Generated, ExpiryOf(now, ttlMinutes))];
      return Success(|proposals| - 1);
    }

    method AcceptProposal(eligible: Eligibility, id: nat, currentHash: string, sourceExists: bool, overrides: map<string, int>)
      returns (error: Option<Error>)
      modifies this`links, this`proposals
      ensures (State(), error) == Accept(old(State()), eligible, id, currentHash, sourceExists, overrides)
    {
      if id >= |proposals| { return Some(NotFound); }
      var proposal := proposals[id];
      if proposal.status.Accepted? { return Some(Conflict); }
      if proposal.status.Expired? || proposal.status.CancelledProposal? { return Some(Conflict); }
      if proposal.expiresAt.Some? && proposal.expiresAt.value < now {
        proposals := proposals[id := proposal.(status := Expired)];
        return Some(Conflict);
      }
      if currentHash != proposal.snapshotHash {
        proposals := proposals[id := proposal.(status := Stale)];
        return Some(Conflict);
      }
      if !sourceExists { return Some(NotFound); }
      var savedLinks := links;
      ghost var before := State();
      assert proposal.lines[0..] == proposal.lines;
      for i := 0 to |proposal.lines|
        invariant proposals == old(proposals)
        invariant ConsumeLines(before, eligible, id, proposal.documentType, proposal.code, proposal.lines, overrides)
               == ConsumeLines(State(), eligible, id, proposal.documentType, proposal.code, proposal.lines[i..], overrides)
      {
        var line := proposal.lines[i];
        assert proposal.lines[i..][1..] == proposal.lines[i + 1..];
        var finalQuantity := FinalQuantity(line, overrides);
        if finalQuantity <= 0 { continue; }
        var key := LineKey(proposal.documentType, line.lineId, line.metric);
        var recheck := ComputeRemaining(Store(links, claims, proposals, now), eligible, key, proposal.code);
        if recheck.Failure? {
          links := savedLinks;
          return Some(recheck.error);
        }
        if finalQuantity > recheck.value {
          links := savedLinks;
          return Some(ExceedsRemaining);
        }
        links := links + [LineLink(key, proposal.code, Consume, finalQuantity, id)];
      }
      assert proposal.lines[|proposal.lines|..] == [];
      proposals := proposals[id := proposal.(status := Accepted)];
      return None;
    }

    method Cancel(id: nat) returns (error: Option<Error>)
      modifies this`proposals
      ensures State() == OrElse(CancelProposal(old(State()), id), old(State()))
      ensures error.None? <==> CancelProposal(old(State()), id).Success?
    {
      if id >= |proposals| { return Some(NotFound); }
      if proposals[id].status.Accepted? { return Some(Conflict); }
      proposals := proposals[id := proposals[id].(status := CancelledProposal)];
      return None;
    }
  }
}
