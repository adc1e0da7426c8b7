// The rules of the document chain in terms of its tables: what counts against a source line, and what each operation
// demands and leaves behind.
module CapacityRules {
  import opened Wrappers
  import opened Seqs
  import opened Capacity
  import opened CapacityInvariant

  // ----- what counts -----

  /** A consuming link of the line, its metric and the code uses its quantity up; a release or a reversal gives it back; an
      adjustment, and any link of another line, metric or code, changes nothing. */
  lemma OneMoreLinkCounts(links: seq<LineLink>, link: LineLink, line: LineKey, code: string)
    ensures Committed([], line, code) == 0
    ensures Committed(links + [link], line, code) == Committed(links, line, code) +
      if link.line != line || link.code != code || link.kind == Adjust then 0
      else if link.kind == Consume then link.quantity
      else -link.quantity
  {
    OneMoreLink(links, link, line, code);
  }

  /** A claim counts while it is active and its time is not up, whatever code made it. */
  lemma OneMoreClaimCounts(claims: seq<Claim>, claim: Claim, line: LineKey, now: int)
    ensures ActiveClaims([], line, now) == 0
    ensures ActiveClaims(claims + [claim], line, now) == ActiveClaims(claims, line, now) +
      if claim.line == line && claim.status == ActiveClaim && (claim.expiresAt == None || now < claim.expiresAt.value)
      then claim.quantity else 0
  {
    OneMoreClaim(claims, claim, line, now);
  }

  /** What is left of a line: its capacity less what is committed and claimed, and never less than nothing. */
  ghost predicate Left(store: Store, eligible: Eligibility, line: LineKey, code: string, remaining: int) {
    && eligible(line).Some?
    && var free := eligible(line).value - Committed(store.links, line, code) - ActiveClaims(store.claims, line, store.now);
       remaining >= 0 && remaining >= free && (remaining == 0 || remaining == free)
  }

  lemma RemainingIff(store: Store, eligible: Eligibility, line: LineKey, code: string)
    ensures match ComputeRemaining(store, eligible, line, code)
            case Success(remaining) => Left(store, eligible, line, code, remaining)
            case Failure(error) => eligible(line) == None && error == NoAdapter
  {}

  // ----- claims -----

  /** Never, when no time is given or it is zero; else so many minutes from now. */
  ghost predicate EndsAt(now: int, minutes: Option<int>, expiresAt: Option<int>) {
    if minutes == None || minutes == Some(0) then expiresAt == None else expiresAt == Some(now + 60000 * minutes.value)
  }

  /** A claim is recorded, after the others, exactly when the line has that much left; nothing else changes. */
  lemma ClaimIsMadeIff(store: Store, eligible: Eligibility, line: LineKey, code: string, quantity: int, minutes: Option<int>)
    ensures var r := MakeClaim(store, eligible, line, code, quantity, minutes);
      && (r.Success? <==> exists remaining :: Left(store, eligible, line, code, remaining) && quantity <= remaining)
      && (r.Failure? ==> r.error == if eligible(line) == None then NoAdapter else ExceedsRemaining)
      && (r.Success? ==>
            && r.value == store.(claims := r.value.claims) && |r.value.claims| == |store.claims| + 1
            && r.value.claims[..|store.claims|] == store.claims
            && var claim := r.value.claims[|store.claims|];
               claim.line == line && claim.quantity == quantity && claim.status == ActiveClaim
               && EndsAt(store.now, minutes, claim.expiresAt))
  {
    RemainingIff(store, eligible, line, code);
  }

  /** Every claim but one is as it was, and that one but for its status. */
  ghost predicate OnlyClaim(before: Store, after: Store, id: nat, status: ClaimStatus) {
    && after == before.(claims := after.claims) && |after.claims| == |before.claims| && id < |before.claims|
    && after.claims[id] == before.claims[id].(status := status)
    && forall i | 0 <= i < |before.claims| && i != id :: after.claims[i] == before.claims[i]
  }

  /** Only an active claim is released; any known claim is committed. */
  lemma ClaimIsSettled(store: Store, id: nat)
    ensures var r := ReleaseClaim(store, id);
      if id >= |store.claims| then r == Failure(NotFound)
      else if store.claims[id].status != ActiveClaim then r == Success(store)
      else r.Success? && OnlyClaim(store, r.value, id, ReleasedClaim)
    ensures var r := CommitClaim(store, id);
      if id >= |store.claims| then r == Failure(NotFound) else r.Success? && OnlyClaim(store, r.value, id, CommittedClaim)
  {}

  /** Exactly the active claims whose time is over by the clock expire. */
  lemma ClaimsExpireIff(store: Store, i: nat)
    requires i < |store.claims|
    ensures var after := ExpireDueClaims(store);
      && after == store.(claims := after.claims) && |after.claims| == |store.claims|
      && var claim := store.claims[i];
         after.claims[i] == claim.(status :=
           if claim.status == ActiveClaim && claim.expiresAt != None && claim.expiresAt.value < store.now then ExpiredClaim
           else claim.status)
  {}

  // ----- proposals -----

  /** For each requested line what was asked for, or all that is left when nothing was said or less is left. */
  ghost predicate Proposes(store: Store, eligible: Eligibility, documentType: string, code: string, metric: string,
                           request: (string, Option<int>), line: ProposalLine)
  {
    exists remaining :: Left(store, eligible, LineKey(documentType, request.0, metric), code, remaining)
      && line.lineId == request.0 && line.metric == metric
      && line.quantity <= remaining && (request.1.Some? ==> line.quantity <= request.1.value)
      && (line.quantity == remaining || Some(line.quantity) == request.1)
  }

  ghost predicate AllAdapted(eligible: Eligibility, documentType: string, metric: string, requests: seq<(string, Option<int>)>) {
    forall i | 0 <= i < |requests| :: eligible(LineKey(documentType, requests[i].0, metric)).Some?
  }

  ghost predicate AllProposed(store: Store, eligible: Eligibility, documentType: string, code: string, metric: string,
                              requests: seq<(string, Option<int>)>, lines: seq<ProposalLine>)
  {
    |lines| == |requests| && forall i | 0 <= i < |requests| :: Proposes(store, eligible, documentType, code, metric, requests[i], lines[i])
  }

  lemma OneMoreProposed(store: Store, eligible: Eligibility, documentType: string, code: string, metric: string,
                        requests: seq<(string, Option<int>)>, first: ProposalLine, rest: seq<ProposalLine>)
    requires requests != [] && Proposes(store, eligible, documentType, code, metric, requests[0], first)
    requires AllProposed(store, eligible, documentType, code, metric, requests[1..], rest)
    ensures AllProposed(store, eligible, documentType, code, metric, requests, [first] + rest)
  {
    forall i | 0 <= i < |requests| ensures Proposes(store, eligible, documentType, code, metric, requests[i], ([first] + rest)[i]) {
      if i > 0 {
        assert Proposes(store, eligible, documentType, code, metric, requests[1..][i - 1], rest[i - 1]);
        assert requests[1..][i - 1] == requests[i] && ([first] + rest)[i] == rest[i - 1];
      }
    }
  }

  lemma FirstAdapted(eligible: Eligibility, documentType: string, metric: string, requests: seq<(string, Option<int>)>)
    requires requests != []
    ensures AllAdapted(eligible, documentType, metric, requests)
       <==> eligible(LineKey(documentType, requests[0].0, metric)).Some? && AllAdapted(eligible, documentType, metric, requests[1..])
  {
    if AllAdapted(eligible, documentType, metric, requests) {
      forall i | 0 <= i < |requests[1..]| ensures eligible(LineKey(documentType, requests[1..][i].0, metric)).Some? {
        assert requests[1..][i] == requests[i + 1];
      }
    }
    if eligible(LineKey(documentType, requests[0].0, metric)).Some? && AllAdapted(eligible, documentType, metric, requests[1..]) {
      forall i | 0 <= i < |requests| ensures eligible(LineKey(documentType, requests[i].0, metric)).Some? {
        assert i > 0 ==> requests[1..][i - 1] == requests[i];
      }
    }
  }

  lemma {:induction false} LinesAreProposed(store: Store, eligible: Eligibility, documentType: string, code: string, metric: string,
                                            requests: seq<(string, Option<int>)>)
    ensures match ProposedLines(store, eligible, documentType, code, metric, requests)
            case Success(lines) => AllProposed(store, eligible, documentType, code, metric, requests, lines)
                                   && AllAdapted(eligible, documentType, metric, requests)
            case Failure(error) => !AllAdapted(eligible, documentType, metric, requests) && error == NoAdapter
  {
    if requests != [] {
      var key := LineKey(documentType, requests[0].0, metric);
      RemainingIff(store, eligible, key, code);
      FirstAdapted(eligible, documentType, metric, requests);
      LinesAreProposed(store, eligible, documentType, code, metric, requests[1..]);
      var lines := ProposedLines(store, eligible, documentType, code, metric, requests);
      if lines.Success? {
        assert Left(store, eligible, key, code, ComputeRemaining(store, eligible, key, code).value);
        assert Proposes(store, eligible, documentType, code, metric, requests[0], lines.value[0]);
        OneMoreProposed(store, eligible, documentType, code, metric, requests, lines.value[0],
                        ProposedLines(store, eligible, documentType, code, metric, requests[1..]).value);
      }
    }
  }

  /** A proposal is recorded, after the others, exactly when there is a source and every line's module is known. */
  lemma ProposalIsGeneratedIff(store: Store, eligible: Eligibility, documentType: string, code: string, metric: string,
                               requests: seq<(string, Option<int>)>, sources: nat, hash: string, minutes: Option<int>)
    ensures var r := Generate(store, eligible, documentType, code, metric, requests, sources, hash, minutes);
      && (r.Success? <==> sources > 0 && AllAdapted(eligible, documentType, metric, requests))
      && (r.Failure? ==> r.error == if sources == 0 then NoSource else NoAdapter)
      && (r.Success? ==>
            && r.value == store.(proposals := r.value.proposals) && |r.value.proposals| == |store.proposals| + 1
            && r.value.proposals[..|store.proposals|] == store.proposals
            && var proposal := r.value.proposals[|store.proposals|];
            && proposal.documentType == documentType && proposal.code == code && proposal.snapshotHash == hash
            && proposal.status == Generated && EndsAt(store.now, minutes, proposal.expiresAt)
            && AllProposed(store, eligible, documentType, code, metric, requests, proposal.lines))
  {
    LinesAreProposed(store, eligible, documentType, code, metric, requests);
  }

  /** What an acceptance takes: the quantity given at acceptance for the line, else the proposed one, when it is positive. */
  lemma OneMoreAsked(documentType: string, lines: seq<ProposalLine>, line: ProposalLine, overrides: map<string, int>, key: LineKey)
    ensures AllAsked(documentType, [], overrides, key) == 0
    ensures AllAsked(documentType, lines + [line], overrides, key) == AllAsked(documentType, lines, overrides, key) +
      var quantity := if line.lineId in overrides then overrides[line.lineId] else line.quantity;
      if key.documentType == documentType && key.lineId == line.lineId && key.metric == line.metric && quantity > 0 then quantity else 0
  {
    SumAppend(lines, [line], Asked(documentType, overrides, key));
    assert [line][1..] == [];
  }

  /** Every proposal but one is as it was, and that one but for its status. */
  ghost predicate OnlyProposal(before: Store, after: Store, id: nat, status: ProposalStatus) {
    && |after.proposals| == |before.proposals| && id < |before.proposals| && after.claims == before.claims && after.now == before.now
    && after.proposals[id] == before.proposals[id].(status := status)
    && forall i | 0 <= i < |before.proposals| && i != id :: after.proposals[i] == before.proposals[i]
  }

  /** The outcome of an acceptance that does not go through, in order: a decided proposal and one whose time is over are refused,
      the latter marked EXPIRED; one whose source has changed is marked STALE; a missing source, an unknown module or too
      little left changes nothing. */
  lemma AcceptanceFails(store: Store, eligible: Eligibility, id: nat, hash: string, sourceExists: bool, overrides: map<string, int>)
    requires Accept(store, eligible, id, hash, sourceExists, overrides).1.Some?
    ensures var outcome := Accept(store, eligible, id, hash, sourceExists, overrides);
      var after, error := outcome.0, outcome.1.value;
      && after.links == store.links
      && if id >= |store.proposals| then after == store && error == NotFound
         else
           var p := store.proposals[id];
           if p.status == Accepted || p.status == Expired || p.status == CancelledProposal then after == store && error == Conflict
           else if p.expiresAt != None && p.expiresAt.value < store.now then OnlyProposal(store, after, id, Expired) && error == Conflict
           else if hash != p.snapshotHash then OnlyProposal(store, after, id, Stale) && error == Conflict
           else if !sourceExists then after == store && error == NotFound
           else after == store && (error == NoAdapter || error == ExceedsRemaining)
  {
    if id < |store.proposals| {
      var p := store.proposals[id];
      ConsumptionFails(store, eligible, id, p.documentType, p.code, p.lines, overrides);
    }
  }

  lemma {:induction false} ConsumptionFails(store: Store, eligible: Eligibility, id: nat, documentType: string, code: string,
                                            lines: seq<ProposalLine>, overrides: map<string, int>)
    ensures var r := ConsumeLines(store, eligible, id, documentType, code, lines, overrides);
      r.Failure? ==> r.error == NoAdapter || r.error == ExceedsRemaining
    decreases |lines|
  {
    if lines != [] {
      var quantity := FinalQuantity(lines[0], overrides);
      var key := LineKey(documentType, lines[0].lineId, lines[0].metric);
      var one := store.(links := store.links + [LineLink(key, code, Consume, quantity, id)]);
      ConsumptionFails(one, eligible, id, documentType, code, lines[1..], overrides);
      ConsumptionFails(store, eligible, id, documentType, code, lines[1..], overrides);
    }
  }

  /** The links that an acceptance writes: one per line with something to take, under the proposal, in order. */
  ghost predicate Writes(before: seq<LineLink>, after: seq<LineLink>, id: nat, documentType: string, code: string,
                         lines: seq<ProposalLine>, overrides: map<string, int>)
    decreases |lines|
  {
    if lines == [] then after == before
    else
      var quantity := if lines[0].lineId in overrides then overrides[lines[0].lineId] else lines[0].quantity;
      if quantity <= 0 then Writes(before, after, id, documentType, code, lines[1..], overrides)
      else
        var link := LineLink(LineKey(documentType, lines[0].lineId, lines[0].metric), code, Consume, quantity, id);
        Writes(before + [link], after, id, documentType, code, lines[1..], overrides)
  }

  lemma {:induction false} ConsumptionWrites(store: Store, eligible: Eligibility, id: nat, documentType: string, code: string,
                                             lines: seq<ProposalLine>, overrides: map<string, int>)
    requires ConsumeLines(store, eligible, id, documentType, code, lines, overrides).Success?
    ensures var next := ConsumeLines(store, eligible, id, documentType, code, lines, overrides).value;
      Writes(store.links, next.links, id, documentType, code, lines, overrides)
    decreases |lines|
  {
    if lines != [] {
      var quantity := FinalQuantity(lines[0], overrides);
      if quantity <= 0 {
        ConsumptionWrites(store, eligible, id, documentType, code, lines[1..], overrides);
      } else {
        var link := LineLink(LineKey(documentType, lines[0].lineId, lines[0].metric), code, Consume, quantity, id);
        ConsumptionWrites(store.(links := store.links + [link]), eligible, id, documentType, code, lines[1..], overrides);
      }
    }
  }

  /** An accepted proposal is marked so, its links are written, and nothing else changes. */
  lemma AcceptanceWrites(store: Store, eligible: Eligibility, id: nat, hash: string, sourceExists: bool, overrides: map<string, int>)
    requires Accept(store, eligible, id, hash, sourceExists, overrides).1.None?
    ensures var after := Accept(store, eligible, id, hash, sourceExists, overrides).0;
      && OnlyProposal(store, after, id, Accepted)
      && var p := store.proposals[id];
         Writes(store.links, after.links, id, p.documentType, p.code, p.lines, overrides)
  {
    var p := store.proposals[id];
    ConsumptionWrites(store, eligible, id, p.documentType, p.code, p.lines, overrides);
  }

  /** Any known proposal that was not accepted is cancelled. */
  lemma ProposalIsCancelledIff(store: Store, id: nat)
    ensures var r := CancelProposal(store, id);
      if id >= |store.proposals| then r == Failure(NotFound)
      else if store.proposals[id].status == Accepted then r == Failure(Conflict)
      else r.Success? && r.value.links == store.links && OnlyProposal(store, r.value, id, CancelledProposal)
  {}
}
