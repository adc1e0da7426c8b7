// No source line is consumed beyond its capacity, over any run of claims, expiries and acceptances.
module CapacityInvariant {
  import opened Wrappers
  import opened Seqs
  import opened Capacity

  /** Capacities are fixed during the run and not negative. */
  ghost predicate FixedCapacity(eligible: Eligibility) {
    forall line :: eligible(line).Some? ==> eligible(line).value >= 0
  }

  ghost function Cap(eligible: Eligibility, line: LineKey): int {
    if eligible(line).Some? then eligible(line).value else 0
  }

  /** No claim has a negative quantity. Nothing in the code checks this. */
  ghost predicate ClaimsCount(claims: seq<Claim>) {
    forall claim | claim in claims :: claim.quantity >= 0
  }

  predicate CountsUp(command: Command) {
    command.ClaimCommand? ==> command.quantity >= 0
  }

  ghost predicate WithinCapacity(store: Store, eligible: Eligibility) {
    && ClaimsCount(store.claims)
    && forall line, code :: Committed(store.links, line, code) <= Cap(eligible, line)
  }

  // ----- sums -----

  lemma {:induction false} LiveIsNotNegative(claims: seq<Claim>, line: LineKey, now: int)
    requires ClaimsCount(claims)
    ensures ActiveClaims(claims, line, now) >= 0
  {
    if claims != [] {
      assert claims[0] in claims;
      LiveIsNotNegative(claims[1..], line, now);
    }
  }

  lemma OneMoreLink(links: seq<LineLink>, link: LineLink, line: LineKey, code: string)
    ensures Committed(links + [link], line, code) == Committed(links, line, code) + Consumption(line, code)(link)
  {
    SumAppend(links, [link], Consumption(line, code));
  }

  lemma OneMoreClaim(claims: seq<Claim>, claim: Claim, line: LineKey, now: int)
    ensures ActiveClaims(claims + [claim], line, now) == ActiveClaims(claims, line, now) + Claimed(line, now)(claim)
  {
    SumAppend(claims, [claim], Claimed(line, now));
  }

  /** Release, commit, expiry and the clock only ever take live claims away. */
  ghost predicate Fewer(after: seq<Claim>, later: int, before: seq<Claim>, now: int) {
    && |after| == |before|
    && forall i | 0 <= i < |after| :: after[i].line == before[i].line && after[i].quantity == before[i].quantity
         && (Live(after[i], later) ==> Live(before[i], now))
  }

  lemma FewerClaims(after: seq<Claim>, later: int, before: seq<Claim>, now: int, line: LineKey)
    requires Fewer(after, later, before, now) && ClaimsCount(before)
    ensures ClaimsCount(after) && ActiveClaims(after, line, later) <= ActiveClaims(before, line, now)
  {
    forall i | 0 <= i < |after|
      ensures after[i].quantity >= 0
      ensures Claimed(line, later)(after[i]) <= Claimed(line, now)(before[i])
    {
      assert before[i] in before;
    }
    SumMonotone(after, before, Claimed(line, later), Claimed(line, now));
  }

  // ----- consuming -----

  /** A proposal of one code adds to that code only, and never past what the check left. */
  lemma {:induction false} ConsumeKeeps(store: Store, eligible: Eligibility, id: nat, documentType: string, code: string,
                                        lines: seq<ProposalLine>, overrides: map<string, int>)
    requires FixedCapacity(eligible) && WithinCapacity(store, eligible)
    requires ConsumeLines(store, eligible, id, documentType, code, lines, overrides).Success?
    ensures var next := ConsumeLines(store, eligible, id, documentType, code, lines, overrides).value;
      WithinCapacity(next, eligible) && next.claims == store.claims && next.now == store.now && next.proposals == store.proposals
    decreases |lines|
  {
    if lines != [] {
      var quantity := FinalQuantity(lines[0], overrides);
      if quantity > 0 {
        var key := LineKey(documentType, lines[0].lineId, lines[0].metric);
        var link := LineLink(key, code, Consume, quantity, id);
        var one := store.(links := store.links + [link]);
        LiveIsNotNegative(store.claims, key, store.now);
        forall line, c ensures Committed(one.links, line, c) <= Cap(eligible, line) {
          OneMoreLink(store.links, link, line, c);
        }
        ConsumeKeeps(one, eligible, id, documentType, code, lines[1..], overrides);
      } else {
        ConsumeKeeps(store, eligible, id, documentType, code, lines[1..], overrides);
      }
    }
  }

  lemma StepFewer(store: Store, eligible: Eligibility, command: Command)
    requires !command.ClaimCommand?
    ensures var next := Step(store, eligible, command);
      command.AcceptCommand? || (next.links == store.links && Fewer(next.claims, next.now, store.claims, store.now))
  {}

  lemma StepKeepsCapacity(store: Store, eligible: Eligibility, command: Command)
    requires FixedCapacity(eligible) && WithinCapacity(store, eligible) && CountsUp(command)
    ensures WithinCapacity(Step(store, eligible, command), eligible)
  {
    var next := Step(store, eligible, command);
    if command.AcceptCommand? {
      if Accept(store, eligible, command.id, command.currentHash, command.sourceExists, command.overrides).1.None? {
        var p := store.proposals[command.id];
        ConsumeKeeps(store, eligible, command.id, p.documentType, p.code, p.lines, command.overrides);
      }
    } else if !command.ClaimCommand? {
      StepFewer(store, eligible, command);
      FewerClaims(next.claims, next.now, store.claims, store.now, LineKey("", "", ""));
    }
  }

  /** Whatever codes share a line, what one code has committed never passes the line's capacity,
      proposals that name a line twice included. */
  lemma {:induction false} RunKeepsCapacity(store: Store, eligible: Eligibility, commands: seq<Command>)
    requires FixedCapacity(eligible) && WithinCapacity(store, eligible)
    requires forall command | command in commands :: CountsUp(command)
    ensures WithinCapacity(Run(store, eligible, commands), eligible)
    decreases |commands|
  {
    if commands != [] {
      StepKeepsCapacity(store, eligible, commands[0]);
      RunKeepsCapacity(Step(store, eligible, commands[0]), eligible, commands[1..]);
    }
  }

  // ----- one code on a line -----

  /** Proposals that name the line and metric are of one code. */
  ghost predicate ProposalsUse(proposals: seq<Proposal>, line: LineKey, code: string) {
    forall p, l | p in proposals && l in p.lines :: LineKey(p.documentType, l.lineId, l.metric) == line ==> p.code == code
  }

  /** A command that claims or proposes on the line does so for the one code, and claims no negative quantity of it.
      Nothing is asked of commands on other lines. */
  ghost predicate UsesOnly(command: Command, line: LineKey, code: string) {
    match command
    case ClaimCommand(l, c, quantity, _) => l == line ==> c == code && quantity >= 0
    case GenerateCommand(documentType, c, metric, requests, _, _, _) =>
      forall r | r in requests :: LineKey(documentType, r.0, metric) == line ==> c == code
    case _ => true
  }

  ghost function Used(store: Store, line: LineKey, code: string): int {
    Committed(store.links, line, code) + ActiveClaims(store.claims, line, store.now)
  }

  ghost predicate ClaimsOnLineCount(claims: seq<Claim>, line: LineKey) {
    forall claim | claim in claims && claim.line == line :: claim.quantity >= 0
  }

  /** Committed consumption and live claims of the line together stay within its capacity. */
  ghost predicate Reserved(store: Store, eligible: Eligibility, line: LineKey, code: string) {
    && ClaimsOnLineCount(store.claims, line)
    && ProposalsUse(store.proposals, line, code)
    && Used(store, line, code) <= Cap(eligible, line)
  }

  lemma {:induction false} ConsumeKeepsUsed(store: Store, eligible: Eligibility, id: nat, documentType: string, code: string,
                                            lines: seq<ProposalLine>, overrides: map<string, int>, line: LineKey, c: string)
    requires Used(store, line, c) <= Cap(eligible, line)
    requires forall l | l in lines :: LineKey(documentType, l.lineId, l.metric) == line ==> code == c
    requires ConsumeLines(store, eligible, id, documentType, code, lines, overrides).Success?
    ensures Used(ConsumeLines(store, eligible, id, documentType, code, lines, overrides).value, line, c) <= Cap(eligible, line)
    decreases |lines|
  {
    if lines != [] {
      var quantity := FinalQuantity(lines[0], overrides);
      if quantity > 0 {
        var key := LineKey(documentType, lines[0].lineId, lines[0].metric);
        var link := LineLink(key, code, Consume, quantity, id);
        assert lines[0] in lines;
        OneMoreLink(store.links, link, line, c);
        ConsumeKeepsUsed(store.(links := store.links + [link]), eligible, id, documentType, code, lines[1..], overrides, line, c);
      } else {
        ConsumeKeepsUsed(store, eligible, id, documentType, code, lines[1..], overrides, line, c);
      }
    }
  }

  lemma {:induction false} ProposedAreRequested(store: Store, eligible: Eligibility, documentType: string, code: string,
                                                metric: string, requests: seq<(string, Option<int>)>, line: ProposalLine)
    requires ProposedLines(store, eligible, documentType, code, metric, requests).Success?
    requires line in ProposedLines(store, eligible, documentType, code, metric, requests).value
    ensures line.metric == metric && exists r :: r in requests && r.0 == line.lineId
    decreases |requests|
  {
    if requests != [] {
      var rest := ProposedLines(store, eligible, documentType, code, metric, requests[1..]).value;
      if line in rest {
        ProposedAreRequested(store, eligible, documentType, code, metric, requests[1..], line);
        var r :| r in requests[1..] && r.0 == line.lineId;
        assert r in requests;
      } else {
        assert requests[0] in requests;
      }
    }
  }

  lemma GenerateKeepsUse(store: Store, eligible: Eligibility, command: Command, line: LineKey, code: string)
    requires command.GenerateCommand? && UsesOnly(command, line, code)
    requires ProposalsUse(store.proposals, line, code)
    ensures ProposalsUse(Step(store, eligible, command).proposals, line, code)
  {
    var next := Step(store, eligible, command);
    if |next.proposals| > |store.proposals| {
      var p := next.proposals[|store.proposals|];
      forall l | l in p.lines && LineKey(p.documentType, l.lineId, l.metric) == line ensures p.code == code {
        ProposedAreRequested(store, eligible, command.documentType, command.code, command.metric, command.requests, l);
      }
    }
  }

  lemma StatusKeepsUse(store: Store, id: nat, status: ProposalStatus, line: LineKey, code: string)
    requires id < |store.proposals| && ProposalsUse(store.proposals, line, code)
    ensures ProposalsUse(WithStatus(store, id, status).proposals, line, code)
  {
    var next := WithStatus(store, id, status).proposals;
    forall p, l | p in next && l in p.lines && LineKey(p.documentType, l.lineId, l.metric) == line ensures p.code == code {
      var i :| 0 <= i < |next| && next[i] == p;
      assert store.proposals[i] in store.proposals && store.proposals[i].lines == p.lines;
    }
  }

  lemma AcceptKeepsReserved(store: Store, eligible: Eligibility, command: Command, line: LineKey, code: string)
    requires Reserved(store, eligible, line, code) && command.AcceptCommand?
    ensures Reserved(Step(store, eligible, command), eligible, line, code)
  {
    var id := command.id;
    var outcome := Accept(store, eligible, id, command.currentHash, command.sourceExists, command.overrides);
    if id < |store.proposals| {
      var p := store.proposals[id];
      assert p in store.proposals;
      if outcome.1.None? {
        ConsumeKeepsUsed(store, eligible, id, p.documentType, p.code, p.lines, command.overrides, line, code);
        var consumed := ConsumeLines(store, eligible, id, p.documentType, p.code, p.lines, command.overrides).value;
        StatusKeepsUse(consumed, id, Accepted, line, code);
      } else {
        StatusKeepsUse(store, id, Expired, line, code);
        StatusKeepsUse(store, id, Stale, line, code);
      }
    }
  }

  lemma ClaimKeepsReserved(store: Store, eligible: Eligibility, command: Command, line: LineKey, code: string)
    requires Reserved(store, eligible, line, code) && command.ClaimCommand? && UsesOnly(command, line, code)
    requires Cap(eligible, line) >= 0
    ensures Reserved(Step(store, eligible, command), eligible, line, code)
  {
    if MakeClaim(store, eligible, command.line, command.code, command.quantity, command.ttlMinutes).Success? {
      var claim := Claim(command.line, command.quantity, ActiveClaim, ExpiryOf(store.now, command.ttlMinutes));
      OneMoreClaim(store.claims, claim, line, store.now);
    }
  }

  lemma FewerOnLine(after: seq<Claim>, later: int, before: seq<Claim>, now: int, line: LineKey)
    requires Fewer(after, later, before, now) && ClaimsOnLineCount(before, line)
    ensures ClaimsOnLineCount(after, line) && ActiveClaims(after, line, later) <= ActiveClaims(before, line, now)
  {
    forall i | 0 <= i < |after|
      ensures after[i].line == line ==> after[i].quantity >= 0
      ensures Claimed(line, later)(after[i]) <= Claimed(line, now)(before[i])
    {
      assert before[i] in before;
    }
    SumMonotone(after, before, Claimed(line, later), Claimed(line, now));
  }

  lemma StepKeepsReserved(store: Store, eligible: Eligibility, command: Command, line: LineKey, code: string)
    requires Reserved(store, eligible, line, code) && Cap(eligible, line) >= 0 && UsesOnly(command, line, code)
    ensures Reserved(Step(store, eligible, command), eligible, line, code)
  {
    var next := Step(store, eligible, command);
    if command.AcceptCommand? {
      AcceptKeepsReserved(store, eligible, command, line, code);
    } else if command.ClaimCommand? {
      ClaimKeepsReserved(store, eligible, command, line, code);
    } else {
      StepFewer(store, eligible, command);
      FewerOnLine(next.claims, next.now, store.claims, store.now, line);
      if command.GenerateCommand? {
        GenerateKeepsUse(store, eligible, command, line, code);
      } else if command.CancelCommand? && command.id < |store.proposals| {
        StatusKeepsUse(store, command.id, CancelledProposal, line, code);
      }
    }
  }

  /** When one transformation code uses a line and metric, the line's committed consumption plus its live claims never
      passes its capacity, whatever goes on on other lines. */
  lemma {:induction false} RunKeepsReserved(store: Store, eligible: Eligibility, commands: seq<Command>, line: LineKey, code: string)
    requires Reserved(store, eligible, line, code) && Cap(eligible, line) >= 0
    requires forall command | command in commands :: UsesOnly(command, line, code)
    ensures Reserved(Run(store, eligible, commands), eligible, line, code)
    decreases |commands|
  {
    if commands != [] {
      assert commands[0] in commands;
      StepKeepsReserved(store, eligible, commands[0], line, code);
      RunKeepsReserved(Step(store, eligible, commands[0]), eligible, commands[1..], line, code);
    }
  }

  // ----- where the bounds end -----

  /** A negative claim passes the check and opens room that is really there no longer once it is released: any store,
      any line, any negative quantity that keeps the books within capacity so far. */
  lemma NegativeClaimOverruns(store: Store, eligible: Eligibility, line: LineKey, code: string, quantity: int)
    requires eligible(line).Some? && quantity < 0
    requires Used(store, line, code) <= Cap(eligible, line)
    ensures var first := Step(store, eligible, ClaimCommand(line, code, quantity, None));
      var room := Cap(eligible, line) - Used(first, line, code);
      var second := Step(first, eligible, ClaimCommand(line, code, room, None));
      var third := Step(second, eligible, ReleaseCommand(|store.claims|));
      Used(third, line, code) == Cap(eligible, line) - quantity
  {
    var negative := Claim(line, quantity, ActiveClaim, None);
    var first := Step(store, eligible, ClaimCommand(line, code, quantity, None));
    OneMoreClaim(store.claims, negative, line, store.now);
    assert first.claims == store.claims + [negative];
    var room := Cap(eligible, line) - Used(first, line, code);
    var positive := Claim(line, room, ActiveClaim, None);
    var second := Step(first, eligible, ClaimCommand(line, code, room, None));
    OneMoreClaim(first.claims, positive, line, first.now);
    assert second.claims == first.claims + [positive];
    var n := |store.claims|;
    assert second.claims[n] == negative;
    SumUpdated(second.claims, n, negative.(status := ReleasedClaim), Claimed(line, second.now));
  }

  lemma ConsumeOne(store: Store, eligible: Eligibility, id: nat, line: LineKey, code: string, quantity: int)
    requires eligible(line).Some? && 0 < quantity <= Cap(eligible, line) - Used(store, line, code)
    ensures ConsumeLines(store, eligible, id, line.documentType, code, [ProposalLine(line.lineId, line.metric, quantity)], map[])
         == Success(store.(links := store.links + [LineLink(line, code, Consume, quantity, id)]))
  {
    var only := [ProposalLine(line.lineId, line.metric, quantity)];
    assert only[1..] == [];
    assert FinalQuantity(only[0], map[]) == quantity;
  }

  /** The commands by which one code takes what is left of a line: propose all of it, and accept. */
  function TakeAll(line: LineKey, code: string, id: nat): seq<Command> {
    [GenerateCommand(line.documentType, code, line.metric, [(line.lineId, None)], 1, "", None), AcceptCommand(id, "", true, map[])]
  }

  lemma ProposedAll(store: Store, eligible: Eligibility, line: LineKey, code: string)
    requires eligible(line).Some? && Used(store, line, code) < Cap(eligible, line)
    ensures var all := [ProposalLine(line.lineId, line.metric, Cap(eligible, line) - Used(store, line, code))];
      Step(store, eligible, TakeAll(line, code, |store.proposals|)[0])
        == store.(proposals := store.proposals + [Proposal(line.documentType, code, all, "", Generated, None)])
  {
    var all := ProposalLine(line.lineId, line.metric, Cap(eligible, line) - Used(store, line, code));
    var requests: seq<(string, Option<int>)> := [(line.lineId, None)];
    assert requests[1..] == [] && [all] + [] == [all];
    assert ProposedLines(store, eligible, line.documentType, code, line.metric, requests[1..]) == Success([]);
    assert LineKey(line.documentType, requests[0].0, line.metric) == line;
    assert ProposedLines(store, eligible, line.documentType, code, line.metric, requests) == Success([all]);
  }

  lemma AcceptedAll(store: Store, eligible: Eligibility, line: LineKey, code: string, quantity: int, id: nat)
    requires eligible(line).Some? && 0 < quantity <= Cap(eligible, line) - Used(store, line, code)
    requires id < |store.proposals|
    requires store.proposals[id]
          == Proposal(line.documentType, code, [ProposalLine(line.lineId, line.metric, quantity)], "", Generated, None)
    ensures Step(store, eligible, AcceptCommand(id, "", true, map[]))
         == WithStatus(store.(links := store.links + [LineLink(line, code, Consume, quantity, id)]), id, Accepted)
  {
    ConsumeOne(store, eligible, id, line, code, quantity);
  }

  lemma RunTwo(store: Store, eligible: Eligibility, commands: seq<Command>)
    requires |commands| == 2
    ensures Run(store, eligible, commands) == Step(Step(store, eligible, commands[0]), eligible, commands[1])
  {
    var one := Step(store, eligible, commands[0]);
    assert commands[1..][1..] == [];
    assert Run(one, eligible, commands[1..]) == Run(Step(one, eligible, commands[1]), eligible, commands[1..][1..]);
  }

  /** All that was left of a line has gone to one code, by the proposal next in order. */
  ghost predicate Took(store: Store, next: Store, eligible: Eligibility, line: LineKey, code: string) {
    && next.links == store.links + [LineLink(line, code, Consume, Cap(eligible, line) - Used(store, line, code), |store.proposals|)]
    && next.claims == store.claims && next.now == store.now && |next.proposals| == |store.proposals| + 1
  }

  lemma TakenAll(store: Store, eligible: Eligibility, line: LineKey, code: string, commands: seq<Command>)
    requires eligible(line).Some? && Used(store, line, code) < Cap(eligible, line)
    requires commands == TakeAll(line, code, |store.proposals|)
    ensures Took(store, Run(store, eligible, commands), eligible, line, code)
  {
    var id, all := |store.proposals|, Cap(eligible, line) - Used(store, line, code);
    var proposed := Step(store, eligible, commands[0]);
    ProposedAll(store, eligible, line, code);
    AcceptedAll(proposed, eligible, line, code, all, id);
    var accepted := Step(proposed, eligible, commands[1]);
    assert Took(store, accepted, eligible, line, code);
    RunTwo(store, eligible, commands);
  }

  lemma {:induction false} RunAppend(store: Store, eligible: Eligibility, a: seq<Command>, b: seq<Command>)
    ensures Run(store, eligible, a + b) == Run(Run(store, eligible, a), eligible, b)
    decreases |a|
  {
    if a == [] {
      assert a + b == b;
    } else {
      assert (a + b)[1..] == a[1..] + b;
      RunAppend(Step(store, eligible, a[0]), eligible, a[1..], b);
    }
  }

  lemma TookLeavesOthers(store: Store, next: Store, eligible: Eligibility, line: LineKey, code: string, other: string)
    requires code != other && Took(store, next, eligible, line, code)
    ensures Committed(next.links, line, code) == Committed(store.links, line, code) + Cap(eligible, line) - Used(store, line, code)
    ensures Committed(next.links, line, other) == Committed(store.links, line, other)
    ensures Used(next, line, other) == Used(store, line, other)
  {
    var quantity := Cap(eligible, line) - Used(store, line, code);
    OneMoreLink(store.links, LineLink(line, code, Consume, quantity, |store.proposals|), line, code);
    OneMoreLink(store.links, LineLink(line, code, Consume, quantity, |store.proposals|), line, other);
  }

  lemma TookTwice(store: Store, once: Store, twice: Store, eligible: Eligibility, line: LineKey, a: string, b: string)
    requires a != b && Used(store, line, a) == 0 && Used(store, line, b) == 0
    requires Took(store, once, eligible, line, a) && Took(once, twice, eligible, line, b)
    ensures Committed(twice.links, line, a) + Committed(twice.links, line, b)
         == Committed(store.links, line, a) + Committed(store.links, line, b) + 2 * Cap(eligible, line)
  {
    TookLeavesOthers(store, once, eligible, line, a, b);
    TookLeavesOthers(once, twice, eligible, line, b, a);
  }

  lemma RunTakesTwice(store: Store, eligible: Eligibility, line: LineKey, a: string, b: string, first: seq<Command>, second: seq<Command>)
    requires a != b && eligible(line).Some? && Used(store, line, a) < Cap(eligible, line) && Used(store, line, b) < Cap(eligible, line)
    requires first == TakeAll(line, a, |store.proposals|) && second == TakeAll(line, b, |store.proposals| + 1)
    ensures var once := Run(store, eligible, first);
      Took(store, once, eligible, line, a) && Took(once, Run(store, eligible, first + second), eligible, line, b)
  {
    var once := Run(store, eligible, first);
    TakenAll(store, eligible, line, a, first);
    TookLeavesOthers(store, once, eligible, line, a, b);
    TakenAll(once, eligible, line, b, second);
    RunAppend(store, eligible, first, second);
  }

  /** Codes do not see one another's consumption: two transformations, each proposing and accepting all that is left
      of a free line, together consume it twice over. */
  lemma TwoCodesOverrun(store: Store, eligible: Eligibility, line: LineKey, a: string, b: string)
    requires a != b && eligible(line).Some? && Cap(eligible, line) > 0
    requires Used(store, line, a) == 0 && Used(store, line, b) == 0
    ensures var id := |store.proposals|;
      var later := Run(store, eligible, TakeAll(line, a, id) + TakeAll(line, b, id + 1));
      Committed(later.links, line, a) + Committed(later.links, line, b)
        == Committed(store.links, line, a) + Committed(store.links, line, b) + 2 * Cap(eligible, line)
  {
    var first, second := TakeAll(line, a, |store.proposals|), TakeAll(line, b, |store.proposals| + 1);
    RunTakesTwice(store, eligible, line, a, b, first, second);
    TookTwice(store, Run(store, eligible, first), Run(store, eligible, first + second), eligible, line, a, b);
  }

  // ----- when an acceptance goes through -----

  function KeyOf(documentType: string, line: ProposalLine): LineKey {
    LineKey(documentType, line.lineId, line.metric)
  }

  /** What a line of a proposal takes from a source line. */
  function Asked(documentType: string, overrides: map<string, int>, key: LineKey): ProposalLine -> int {
    (line: ProposalLine) =>
      if KeyOf(documentType, line) == key && FinalQuantity(line, overrides) > 0 then FinalQuantity(line, overrides) else 0
  }

  function AllAsked(documentType: string, lines: seq<ProposalLine>, overrides: map<string, int>, key: LineKey): int {
    SumBy(lines, Asked(documentType, overrides, key))
  }

  /** A source line has an adapter and room for all that the proposal takes from it. */
  ghost predicate Bears(store: Store, eligible: Eligibility, code: string, key: LineKey, asked: int) {
    eligible(key).Some? && asked <= Cap(eligible, key) - Used(store, key, code)
  }

  /** Every source line that something is taken from bears the total. */
  ghost predicate AllBear(store: Store, eligible: Eligibility, documentType: string, code: string,
                          lines: seq<ProposalLine>, overrides: map<string, int>)
  {
    forall key :: AllAsked(documentType, lines, overrides, key) > 0 ==>
      Bears(store, eligible, code, key, AllAsked(documentType, lines, overrides, key))
  }

  lemma {:induction false} AskedIsNotNegative(documentType: string, lines: seq<ProposalLine>, overrides: map<string, int>, key: LineKey)
    ensures AllAsked(documentType, lines, overrides, key) >= 0
  {
    if lines != [] { AskedIsNotNegative(documentType, lines[1..], overrides, key); }
  }

  /** Taking the first line's quantity shifts the books and the total still asked by the same amount. */
  lemma FirstLineShifts(store: Store, id: nat, documentType: string, code: string, lines: seq<ProposalLine>,
                        overrides: map<string, int>, key: LineKey)
    requires lines != [] && FinalQuantity(lines[0], overrides) > 0
    ensures var link := LineLink(KeyOf(documentType, lines[0]), code, Consume, FinalQuantity(lines[0], overrides), id);
      var one := store.(links := store.links + [link]);
      var first := Asked(documentType, overrides, key)(lines[0]);
      && AllAsked(documentType, lines, overrides, key) == first + AllAsked(documentType, lines[1..], overrides, key)
      && Used(one, key, code) == Used(store, key, code) + first
      && Committed(one.links, key, code) == Committed(store.links, key, code) + first
  {
    OneMoreLink(store.links, LineLink(KeyOf(documentType, lines[0]), code, Consume, FinalQuantity(lines[0], overrides), id), key, code);
  }

  lemma FirstLineBears(store: Store, eligible: Eligibility, id: nat, documentType: string, code: string,
                       lines: seq<ProposalLine>, overrides: map<string, int>)
    requires lines != [] && FinalQuantity(lines[0], overrides) > 0
    ensures var key, quantity := KeyOf(documentType, lines[0]), FinalQuantity(lines[0], overrides);
      var one := store.(links := store.links + [LineLink(key, code, Consume, quantity, id)]);
      var rest := AllBear(one, eligible, documentType, code, lines[1..], overrides);
      AllBear(store, eligible, documentType, code, lines, overrides) <==> Bears(store, eligible, code, key, quantity) && rest
  {
    var key, quantity := KeyOf(documentType, lines[0]), FinalQuantity(lines[0], overrides);
    var one := store.(links := store.links + [LineLink(key, code, Consume, quantity, id)]);
    forall k
      ensures AllAsked(documentType, lines, overrides, k)
           == Asked(documentType, overrides, k)(lines[0]) + AllAsked(documentType, lines[1..], overrides, k)
      ensures AllAsked(documentType, lines[1..], overrides, k) >= 0
      ensures Used(one, k, code) == Used(store, k, code) + Asked(documentType, overrides, k)(lines[0])
    {
      FirstLineShifts(store, id, documentType, code, lines, overrides, k);
      AskedIsNotNegative(documentType, lines[1..], overrides, k);
    }
    if AllBear(store, eligible, documentType, code, lines, overrides) {
      assert AllAsked(documentType, lines, overrides, key) > 0;
      forall k | AllAsked(documentType, lines[1..], overrides, k) > 0
        ensures Bears(one, eligible, code, k, AllAsked(documentType, lines[1..], overrides, k))
      {
        assert Bears(store, eligible, code, k, AllAsked(documentType, lines, overrides, k));
      }
    }
    if Bears(store, eligible, code, key, quantity) && AllBear(one, eligible, documentType, code, lines[1..], overrides) {
      forall k | AllAsked(documentType, lines, overrides, k) > 0
        ensures Bears(store, eligible, code, k, AllAsked(documentType, lines, overrides, k))
      {
        if AllAsked(documentType, lines[1..], overrides, k) > 0 {
          assert Bears(one, eligible, code, k, AllAsked(documentType, lines[1..], overrides, k));
        }
      }
    }
  }

  /** The re-checks line by line come to one check per source line, of all that the proposal takes from it; what is then
      consumed is exactly that. */
  lemma {:induction false} ConsumeSucceedsIff(store: Store, eligible: Eligibility, id: nat, documentType: string, code: string,
                                              lines: seq<ProposalLine>, overrides: map<string, int>, key: LineKey)
    ensures var r := ConsumeLines(store, eligible, id, documentType, code, lines, overrides);
      var after := Committed(store.links, key, code) + AllAsked(documentType, lines, overrides, key);
      && (r.Success? <==> AllBear(store, eligible, documentType, code, lines, overrides))
      && (r.Success? ==> Committed(r.value.links, key, code) == after)
    decreases |lines|
  {
    if lines != [] {
      var quantity := FinalQuantity(lines[0], overrides);
      if quantity > 0 {
        var one := store.(links := store.links + [LineLink(KeyOf(documentType, lines[0]), code, Consume, quantity, id)]);
        FirstLineBears(store, eligible, id, documentType, code, lines, overrides);
        FirstLineShifts(store, id, documentType, code, lines, overrides, key);
        ConsumeSucceedsIff(one, eligible, id, documentType, code, lines[1..], overrides, key);
      } else {
        forall k ensures AllAsked(documentType, lines, overrides, k) == AllAsked(documentType, lines[1..], overrides, k) {}
        ConsumeSucceedsIff(store, eligible, id, documentType, code, lines[1..], overrides, key);
      }
    }
  }

  /** When an acceptance goes through: nothing decided yet, not expired, the source as it was when the proposal was made
      and still there, and room on every source line for all that is taken from it, which is then consumed to the unit.
      Having been marked STALE makes no difference. */
  lemma AcceptSucceedsIff(store: Store, eligible: Eligibility, id: nat, hash: string, sourceExists: bool,
                          overrides: map<string, int>, key: LineKey)
    ensures var outcome := Accept(store, eligible, id, hash, sourceExists, overrides);
      && (outcome.1.None? <==>
            && id < |store.proposals|
            && var p := store.proposals[id];
            && (p.status.Generated? || p.status.Stale?)
            && (p.expiresAt.Some? ==> store.now <= p.expiresAt.value)
            && hash == p.snapshotHash && sourceExists
            && AllBear(store, eligible, p.documentType, p.code, p.lines, overrides))
      && (outcome.1.None? ==>
            var p := store.proposals[id];
            Committed(outcome.0.links, key, p.code)
              == Committed(store.links, key, p.code) + AllAsked(p.documentType, p.lines, overrides, key))
  {
    if id < |store.proposals| {
      var p := store.proposals[id];
      ConsumeSucceedsIff(store, eligible, id, p.documentType, p.code, p.lines, overrides, key);
    }
  }

  // ----- a stale proposal -----

  lemma {:induction false} ConsumeIgnoresStatus(store: Store, eligible: Eligibility, id: nat, status: ProposalStatus,
                                                documentType: string, code: string, lines: seq<ProposalLine>,
                                                overrides: map<string, int>)
    requires id < |store.proposals|
    ensures var plain := ConsumeLines(store, eligible, id, documentType, code, lines, overrides);
      ConsumeLines(WithStatus(store, id, status), eligible, id, documentType, code, lines, overrides)
        == if plain.Success? then Success(WithStatus(plain.value, id, status)) else plain
    decreases |lines|
  {
    if lines != [] {
      var quantity := FinalQuantity(lines[0], overrides);
      var key := LineKey(documentType, lines[0].lineId, lines[0].metric);
      var one := store.(links := store.links + [LineLink(key, code, Consume, quantity, id)]);
      ConsumeIgnoresStatus(one, eligible, id, status, documentType, code, lines[1..], overrides);
      ConsumeIgnoresStatus(store, eligible, id, status, documentType, code, lines[1..], overrides);
    }
  }

  /** An acceptance that failed because the source had changed leaves nothing behind: once the source is back to what it
      was, the next acceptance ends exactly as it would have without the failed one. */
  lemma StaleIsForgotten(store: Store, eligible: Eligibility, id: nat, changed: string, sourceExists: bool,
                         overrides: map<string, int>, hash: string, existsLater: bool, later: map<string, int>)
    requires id < |store.proposals| && (store.proposals[id].status.Generated? || store.proposals[id].status.Stale?)
    requires hash == store.proposals[id].snapshotHash != changed
    requires store.proposals[id].expiresAt.Some? ==> store.now <= store.proposals[id].expiresAt.value
    ensures var marked := Accept(store, eligible, id, changed, sourceExists, overrides).0;
      var direct, after := Accept(store, eligible, id, hash, existsLater, later), Accept(marked, eligible, id, hash, existsLater, later);
      && marked.proposals[id].status.Stale? && after.1 == direct.1
      && (direct.1.None? ==> after.0 == direct.0 && after.0.proposals[id].status.Accepted?)
  {
    var p := store.proposals[id];
    ConsumeIgnoresStatus(store, eligible, id, Stale, p.documentType, p.code, p.lines, later);
    var consumed := ConsumeLines(store, eligible, id, p.documentType, p.code, p.lines, later);
    if existsLater && consumed.Success? {
      assert WithStatus(WithStatus(consumed.value, id, Stale), id, Accepted) == WithStatus(consumed.value, id, Accepted);
    }
  }

  // ----- a proposal consumes once -----

  function OfProposal(id: nat): LineLink -> bool {
    (link: LineLink) => link.proposal == id
  }

  /** Consumption belongs to accepted proposals. */
  ghost predicate ConsumedByAccepted(store: Store) {
    forall link | link in store.links :: link.proposal < |store.proposals| && store.proposals[link.proposal].status.Accepted?
  }

  lemma {:induction false} ConsumeAddsOwn(store: Store, eligible: Eligibility, id: nat, documentType: string, code: string,
                                          lines: seq<ProposalLine>, overrides: map<string, int>) returns (added: seq<LineLink>)
    requires ConsumeLines(store, eligible, id, documentType, code, lines, overrides).Success?
    ensures var next := ConsumeLines(store, eligible, id, documentType, code, lines, overrides).value;
      && next.links == store.links + added && next.proposals == store.proposals
      && forall link | link in added :: link.proposal == id
    decreases |lines|
  {
    added := [];
    if lines != [] {
      var quantity := FinalQuantity(lines[0], overrides);
      if quantity > 0 {
        var link := LineLink(LineKey(documentType, lines[0].lineId, lines[0].metric), code, Consume, quantity, id);
        var rest := ConsumeAddsOwn(store.(links := store.links + [link]), eligible, id, documentType, code, lines[1..], overrides);
        added := [link] + rest;
        assert (store.links + [link]) + rest == store.links + added;
      } else {
        added := ConsumeAddsOwn(store, eligible, id, documentType, code, lines[1..], overrides);
      }
    } else {
      assert store.links + added == store.links;
    }
  }

  lemma AcceptConsumesOwn(store: Store, eligible: Eligibility, command: Command, id: nat)
    requires ConsumedByAccepted(store) && Accepts(store, eligible, command)
    ensures var next := Step(store, eligible, command);
      && ConsumedByAccepted(next)
      && (id != command.id ==> Filter(next.links, OfProposal(id)) == Filter(store.links, OfProposal(id)))
  {
    var p := store.proposals[command.id];
    var added := ConsumeAddsOwn(store, eligible, command.id, p.documentType, p.code, p.lines, command.overrides);
    if id != command.id {
      FilterSkips(added, store.links, OfProposal(id));
    }
  }

  predicate Accepts(store: Store, eligible: Eligibility, command: Command) {
    command.AcceptCommand? &&
    Accept(store, eligible, command.id, command.currentHash, command.sourceExists, command.overrides).1.None?
  }

  /** No command takes an ACCEPTED proposal out of that status or edits it, and only an acceptance writes links. */
  lemma AcceptedStays(store: Store, eligible: Eligibility, command: Command, id: nat)
    requires id < |store.proposals| && store.proposals[id].status.Accepted?
    ensures var next := Step(store, eligible, command);
      id < |next.proposals| && next.proposals[id] == store.proposals[id]
  {}

  lemma OthersConsumeNothing(store: Store, eligible: Eligibility, command: Command)
    requires !Accepts(store, eligible, command)
    ensures Step(store, eligible, command).links == store.links
  {}

  lemma StepConsumesOnce(store: Store, eligible: Eligibility, command: Command, id: nat)
    requires ConsumedByAccepted(store)
    ensures ConsumedByAccepted(Step(store, eligible, command))
    ensures id < |store.proposals| && store.proposals[id].status.Accepted? ==>
      var next := Step(store, eligible, command);
      && id < |next.proposals| && next.proposals[id] == store.proposals[id]
      && Filter(next.links, OfProposal(id)) == Filter(store.links, OfProposal(id))
  {
    var next := Step(store, eligible, command);
    if id < |store.proposals| && store.proposals[id].status.Accepted? {
      AcceptedStays(store, eligible, command, id);
    }
    if Accepts(store, eligible, command) {
      AcceptConsumesOwn(store, eligible, command, id);
    } else {
      OthersConsumeNothing(store, eligible, command);
      forall link | link in next.links
        ensures link.proposal < |next.proposals| && next.proposals[link.proposal].status.Accepted?
      {
        AcceptedStays(store, eligible, command, link.proposal);
      }
    }
  }

  /** Once accepted, a proposal stays accepted and what it consumed never changes; before, it has consumed nothing. */
  lemma {:induction false} RunConsumesOnce(store: Store, eligible: Eligibility, commands: seq<Command>, id: nat)
    requires ConsumedByAccepted(store)
    ensures var next := Run(store, eligible, commands);
      && ConsumedByAccepted(next)
      && (id < |store.proposals| && store.proposals[id].status.Accepted? ==>
            && id < |next.proposals| && next.proposals[id] == store.proposals[id]
            && Filter(next.links, OfProposal(id)) == Filter(store.links, OfProposal(id)))
      && (id < |next.proposals| && !next.proposals[id].status.Accepted? ==> Filter(next.links, OfProposal(id)) == [])
    decreases |commands|
  {
    if commands != [] {
      StepConsumesOnce(store, eligible, commands[0], id);
      RunConsumesOnce(Step(store, eligible, commands[0]), eligible, commands[1..], id);
    } else if id < |store.proposals| && !store.proposals[id].status.Accepted? {
      FilterNone(store.links, OfProposal(id));
    }
  }
}
