/** What the greedy three-phase matching guarantees. */
module MatcherProofs {
  import opened Options
  import opened Matcher
  import StableSort

  ghost predicate DistinctServers(servers: seq<Server>) {
    forall i, j :: 0 <= i < j < |servers| ==> servers[i].id != servers[j].id
  }

  ghost predicate DistinctComponents(components: seq<Component>) {
    forall i, j :: 0 <= i < j < |components| ==> components[i].id != components[j].id
  }

  ghost predicate DistinctLinks(components: seq<Component>) {
    forall i, j :: 0 <= i < j < |components| && components[i].link.Some? ==> components[i].link != components[j].link
  }

  // ---------- bookkeeping ----------

  /** The two guarding sets are exactly the ids of the matched pairs, and no id occurs twice. */
  ghost predicate Coherent(state: State) {
    && state.usedServers == (set p | p in state.matched :: p.server.id)
    && state.usedComponents == (set p | p in state.matched :: p.component.id)
  }

  ghost predicate OneToOne(matched: seq<Pair>) {
    forall i, j :: 0 <= i < j < |matched| ==>
      matched[i].server.id != matched[j].server.id && matched[i].component.id != matched[j].component.id
  }

  lemma AddPairCoherent(state: State, pair: Pair)
    requires Coherent(state)
    ensures Coherent(AddPair(state, pair))
  {}

  lemma AddPairOneToOne(state: State, pair: Pair)
    requires Coherent(state) && OneToOne(state.matched)
    requires pair.server.id !in state.usedServers && pair.component.id !in state.usedComponents
    ensures OneToOne(AddPair(state, pair).matched)
  {}

  lemma {:induction false} LookupFinds(components: seq<Component>, serverId: int)
    ensures var found := LinkedComponent(components, serverId);
            if found.Some? then found.value in components && found.value.link == Some(serverId)
            else forall c <- components :: c.link != Some(serverId)
  {
    if components != [] {
      LookupFinds(components[..|components| - 1], serverId);
    }
  }

  ghost predicate IsLinkPair(p: Pair, servers: seq<Server>, components: seq<Component>, similarity: Similarity) {
    && p.server in servers
    && LinkedComponent(components, p.server.id) == Some(p.component)
    && Admissible(p.server, p.component, similarity)
    && p == LinkedPair(p.server, p.component, ScorePair(p.server, p.component, similarity))
  }

  /** The link phase matches exactly the servers whose linked component is still admissible. */
  lemma {:induction false} LinkPhaseExactly(servers: seq<Server>, components: seq<Component>, similarity: Similarity)
    ensures var state := LinkPhase(servers, components, similarity);
            && Coherent(state)
            && forall p :: p in state.matched <==> IsLinkPair(p, servers, components, similarity)
  {
    if servers != [] {
      var n := |servers| - 1;
      var front, server := servers[..n], servers[n];
      assert servers == front + [server];
      LinkPhaseExactly(front, components, similarity);
      var before, after := LinkPhase(front, components, similarity), LinkPhase(servers, components, similarity);
      var component := LinkedComponent(components, server.id);
      if component.Some? && Admissible(server, component.value, similarity) {
        var pair := LinkedPair(server, component.value, ScorePair(server, component.value, similarity));
        AddPairCoherent(before, pair);
        assert forall p :: p in after.matched <==> p in before.matched || p == pair;
      }
      forall p ensures p in after.matched <==> IsLinkPair(p, servers, components, similarity) {
        assert p.server in servers <==> p.server in front || p.server == server;
      }
    }
  }

  lemma {:induction false} LinkPhaseOneToOne(servers: seq<Server>, components: seq<Component>, similarity: Similarity)
    requires DistinctServers(servers) && DistinctComponents(components)
    ensures OneToOne(LinkPhase(servers, components, similarity).matched)
  {
    if servers != [] {
      var n := |servers| - 1;
      var front, server := servers[..n], servers[n];
      LinkPhaseOneToOne(front, components, similarity);
      LinkPhaseExactly(front, components, similarity);
      var before := LinkPhase(front, components, similarity);
      var component := LinkedComponent(components, server.id);
      if component.Some? && Admissible(server, component.value, similarity) {
        var pair := LinkedPair(server, component.value, ScorePair(server, component.value, similarity));
        LookupFinds(components, server.id);
        forall p <- before.matched ensures p.server.id != server.id && p.component.id != component.value.id {
          assert IsLinkPair(p, front, components, similarity);
          LookupFinds(components, p.server.id);
          SameIdSameComponent(components, p.component, component.value);
        }
        AddPairOneToOne(before, pair);
      }
    }
  }

  lemma SameIdSameComponent(components: seq<Component>, a: Component, b: Component)
    requires DistinctComponents(components) && a in components && b in components
    ensures a.id == b.id ==> a == b
  {}

  lemma {:induction false} RowMembers(server: Server, components: seq<Component>, state: State, batch: set<int>,
                                      similarity: Similarity, endpointClass: bool)
    ensures forall r :: r in RowCandidates(server, components, state, batch, similarity, endpointClass) <==>
              && r.component in components && r == CandidateOf(server, r.component, similarity)
              && IsCandidate(server, r.component, state, batch, similarity)
              && IsEndpointScore(r.points, r.endpoint) == endpointClass
  {
    if components != [] {
      var n := |components| - 1;
      assert components == components[..n] + [components[n]];
      RowMembers(server, components[..n], state, batch, similarity, endpointClass);
    }
  }

  ghost predicate IsCandidateRow(r: Candidate, servers: seq<Server>, components: seq<Component>, state: State, batch: set<int>,
                                 similarity: Similarity, endpointClass: bool) {
    && r.server in servers && r.component in components && r == CandidateOf(r.server, r.component, similarity)
    && IsCandidate(r.server, r.component, state, batch, similarity)
    && IsEndpointScore(r.points, r.endpoint) == endpointClass
  }

  lemma {:induction false} CandidateMembers(servers: seq<Server>, components: seq<Component>, state: State, batch: set<int>,
                                            similarity: Similarity, endpointClass: bool)
    ensures forall r :: r in Candidates(servers, components, state, batch, similarity, endpointClass) <==>
              IsCandidateRow(r, servers, components, state, batch, similarity, endpointClass)
  {
    if servers != [] {
      var n := |servers| - 1;
      assert servers == servers[..n] + [servers[n]];
      CandidateMembers(servers[..n], components, state, batch, similarity, endpointClass);
      RowMembers(servers[n], components, state, batch, similarity, endpointClass);
      forall r ensures r in Candidates(servers, components, state, batch, similarity, endpointClass) <==>
                       IsCandidateRow(r, servers, components, state, batch, similarity, endpointClass)
      {
        assert r.server in servers <==> r.server in servers[..n] || r.server == servers[n];
      }
    }
  }

  // ---------- the greedy pass ----------

  /** The whole order in which candidates are tried. */
  function Order(servers: seq<Server>, components: seq<Component>, similarity: Similarity): seq<Candidate> {
    Ranked(servers, components, similarity, true) + Ranked(servers, components, similarity, false)
  }

  lemma {:induction false} ConsumeAppend(state: State, a: seq<Candidate>, b: seq<Candidate>, batch: set<int>)
    ensures Consume(state, a + b, batch) == Consume(Consume(state, a, batch), b, batch)
  {
    if b == [] {
      assert a + b == a;
    } else {
      var n := |b| - 1;
      assert (a + b)[..|a| + n] == a + b[..n];
      ConsumeAppend(state, a, b[..n], batch);
    }
  }

  lemma FinalIsOnePass(servers: seq<Server>, components: seq<Component>, similarity: Similarity)
    ensures FinalState(servers, components, similarity) ==
            Consume(LinkPhase(servers, components, similarity), Order(servers, components, similarity), Batch(servers))
  {
    ConsumeAppend(LinkPhase(servers, components, similarity), Ranked(servers, components, similarity, true),
                  Ranked(servers, components, similarity, false), Batch(servers));
  }

  /** Every pair of a pass was there before or is one of the candidates tried so far. */
  ghost predicate ComesFrom(p: Pair, state: State, candidates: seq<Candidate>) {
    p in state.matched || exists i :: 0 <= i < |candidates| && p == PairOf(candidates[i])
  }

  lemma {:induction false} ConsumeKeeps(state: State, candidates: seq<Candidate>, batch: set<int>)
    requires Coherent(state)
    ensures var after := Consume(state, candidates, batch);
            && Coherent(after)
            && (OneToOne(state.matched) ==> OneToOne(after.matched))
            && state.matched <= after.matched
            && state.usedServers <= after.usedServers && state.usedComponents <= after.usedComponents
            && forall p <- after.matched :: ComesFrom(p, state, candidates)
  {
    if candidates != [] {
      var n := |candidates| - 1;
      var before := Consume(state, candidates[..n], batch);
      ConsumeKeeps(state, candidates[..n], batch);
      AddPairCoherent(before, PairOf(candidates[n]));
      if CanTake(before, candidates[n], batch) && OneToOne(before.matched) {
        AddPairOneToOne(before, PairOf(candidates[n]));
      }
      var after := Consume(state, candidates, batch);
      forall p <- after.matched ensures ComesFrom(p, state, candidates) {
        if p in before.matched {
          assert ComesFrom(p, state, candidates[..n]);
          if p !in state.matched {
            var i :| 0 <= i < n && p == PairOf(candidates[..n][i]);
            assert p == PairOf(candidates[i]);
          }
        } else {
          assert p == PairOf(candidates[n]);
        }
      }
    }
  }

  /** What stands in the way of matching this server with this component. */
  ghost predicate Conflicts(p: Pair, server: Server, component: Component) {
    p.server.id == server.id || p.component.id == component.id || component.link == Some(p.server.id)
  }

  /** A candidate is taken, or something tried before it conflicts. */
  lemma {:induction false} TakenOrBlocked(state: State, candidates: seq<Candidate>, batch: set<int>, k: nat)
    requires Coherent(state) && k < |candidates|
    requires Available(candidates[k].component, state, batch)
    ensures var after := Consume(state, candidates, batch);
            || PairOf(candidates[k]) in after.matched
            || exists p :: p in after.matched && Conflicts(p, candidates[k].server, candidates[k].component)
                           && ComesFrom(p, state, candidates[..k])
  {
    var before := Consume(state, candidates[..k], batch);
    ConsumeKeeps(state, candidates[..k], batch);
    var after := Consume(state, candidates[..k + 1], batch);
    assert candidates[..k + 1][..k] == candidates[..k];
    ConsumeKeeps(state, candidates[..k + 1], batch);
    ConsumeAppend(state, candidates[..k + 1], candidates[k + 1..], batch);
    assert candidates[..k + 1] + candidates[k + 1..] == candidates;
    ConsumeKeeps(after, candidates[k + 1..], batch);
    if !CanTake(before, candidates[k], batch) {
      var p := Blocker(state, before, candidates[k], batch);
      assert ComesFrom(p, state, candidates[..k]);
    }
  }

  lemma Blocker(start: State, before: State, candidate: Candidate, batch: set<int>) returns (p: Pair)
    requires Coherent(before) && Available(candidate.component, start, batch) && !CanTake(before, candidate, batch)
    ensures p in before.matched && Conflicts(p, candidate.server, candidate.component)
  {
    if candidate.server.id in before.usedServers {
      p :| p in before.matched && p.server.id == candidate.server.id;
    } else if candidate.component.id in before.usedComponents {
      p :| p in before.matched && p.component.id == candidate.component.id;
    } else {
      p :| p in before.matched && candidate.component.link == Some(p.server.id);
    }
  }

  /** `p` stands before the pair of this server and component in the order links, endpoint pairs, other pairs. */
  ghost predicate NoLater(p: Pair, server: Server, component: Component, similarity: Similarity) {
    var score := ScorePair(server, component, similarity);
    || p.alreadyLinked
    || (IsEndpointScore(p.points, p.endpoint) && !IsEndpointScore(score.points, score.endpoint))
    || (IsEndpointScore(p.points, p.endpoint) == IsEndpointScore(score.points, score.endpoint) && p.points >= score.points)
  }

  lemma RankedFacts(servers: seq<Server>, components: seq<Component>, similarity: Similarity, endpointClass: bool)
    ensures var linked := LinkPhase(servers, components, similarity);
            var ranked := Ranked(servers, components, similarity, endpointClass);
            && StableSort.Sorted(ranked, ScoresNoLess)
            && forall r :: r in ranked <==> IsCandidateRow(r, servers, components, linked, Batch(servers), similarity, endpointClass)
  {
    var linked := LinkPhase(servers, components, similarity);
    var rows := Candidates(servers, components, linked, Batch(servers), similarity, endpointClass);
    CandidateMembers(servers, components, linked, Batch(servers), similarity, endpointClass);
    StableSort.SortPermutes(rows, ScoresNoLess);
    assert StableSort.TotalPreorder(ScoresNoLess);
    StableSort.SortSorts(rows, ScoresNoLess);
  }

  /** Earlier in the order means no later class, and within one class no smaller score. */
  lemma OrderIsRanked(servers: seq<Server>, components: seq<Component>, similarity: Similarity, i: nat, k: nat)
    requires i < k < |Order(servers, components, similarity)|
    ensures var order := Order(servers, components, similarity);
            && order[k] == CandidateOf(order[k].server, order[k].component, similarity)
            && NoLater(PairOf(order[i]), order[k].server, order[k].component, similarity)
  {
    var endpointRows, fuzzyRows := Ranked(servers, components, similarity, true), Ranked(servers, components, similarity, false);
    RankedFacts(servers, components, similarity, true);
    RankedFacts(servers, components, similarity, false);
    var order := endpointRows + fuzzyRows;
    var split := |endpointRows|;
    assert order[k] in endpointRows || order[k] in fuzzyRows;
    assert order[i] in endpointRows || order[i] in fuzzyRows;
    if k < split {
      assert ScoresNoLess(endpointRows[i], endpointRows[k]);
      assert order[k] in endpointRows && order[i] in endpointRows;
    } else if i >= split {
      assert ScoresNoLess(fuzzyRows[i - split], fuzzyRows[k - split]);
      assert order[k] in fuzzyRows && order[i] in fuzzyRows;
    } else {
      assert order[i] in endpointRows && order[k] in fuzzyRows;
    }
  }

  ghost predicate IsMatched(server: Server, component: Component, matched: seq<Pair>) {
    exists p :: p in matched && p.server == server && p.component == component
  }

  ghost predicate IsBlocked(server: Server, component: Component, similarity: Similarity, matched: seq<Pair>) {
    exists p :: p in matched && Conflicts(p, server, component) && NoLater(p, server, component, similarity)
  }

  /**
   No blocking pair: an admissible pair whose component was available after the link phase is either in
   the result, or its server, its component or the server linked by it was taken by a pair no later in the order.
   */
  lemma NoBlockingCandidate(servers: seq<Server>, components: seq<Component>, similarity: Similarity,
                       server: Server, component: Component)
    requires server in servers && component in components
    requires Admissible(server, component, similarity)
    requires Available(component, LinkPhase(servers, components, similarity), Batch(servers))
    ensures var matched := Match(servers, components, similarity).matched;
            IsMatched(server, component, matched) || IsBlocked(server, component, similarity, matched)
  {
    var linked, matched := LinkPhase(servers, components, similarity), FinalState(servers, components, similarity).matched;
    if server.id in linked.usedServers {
      LinkPhaseExactly(servers, components, similarity);
      var p :| p in linked.matched && p.server.id == server.id;
      FinalFacts(servers, components, similarity);
      assert IsLinkPair(p, servers, components, similarity);
      assert p in matched && Conflicts(p, server, component) && NoLater(p, server, component, similarity);
    } else {
      var row := CandidateOf(server, component, similarity);
      var k := PlaceInOrder(servers, components, similarity, row);
      CandidateNotBlocked(servers, components, similarity, k);
      if PairOf(row) in matched {
        assert IsMatched(server, component, matched);
      }
    }
  }

  lemma PlaceInOrder(servers: seq<Server>, components: seq<Component>, similarity: Similarity, row: Candidate) returns (k: nat)
    requires IsCandidateRow(row, servers, components, LinkPhase(servers, components, similarity), Batch(servers), similarity,
                            IsEndpointScore(row.points, row.endpoint))
    ensures k < |Order(servers, components, similarity)| && Order(servers, components, similarity)[k] == row
  {
    RankedFacts(servers, components, similarity, IsEndpointScore(row.points, row.endpoint));
    assert row in Ranked(servers, components, similarity, true) + Ranked(servers, components, similarity, false);
    k :| 0 <= k < |Order(servers, components, similarity)| && Order(servers, components, similarity)[k] == row;
  }

  lemma CandidateNotBlocked(servers: seq<Server>, components: seq<Component>, similarity: Similarity, k: nat)
    requires k < |Order(servers, components, similarity)|
    requires Available(Order(servers, components, similarity)[k].component, LinkPhase(servers, components, similarity), Batch(servers))
    ensures var row := Order(servers, components, similarity)[k];
            var matched := Match(servers, components, similarity).matched;
            PairOf(row) in matched || IsBlocked(row.server, row.component, similarity, matched)
  {
    var linked, order := LinkPhase(servers, components, similarity), Order(servers, components, similarity);
    LinkPhaseExactly(servers, components, similarity);
    FinalIsOnePass(servers, components, similarity);
    TakenOrBlocked(linked, order, Batch(servers), k);
    var row, matched := order[k], FinalState(servers, components, similarity).matched;
    if PairOf(row) !in matched {
      var p :| p in matched && Conflicts(p, row.server, row.component) && ComesFrom(p, linked, order[..k]);
      if p in linked.matched {
        assert IsLinkPair(p, servers, components, similarity);
      } else {
        var i :| 0 <= i < k && p == PairOf(order[..k][i]);
        OrderIsRanked(servers, components, similarity, i, k);
      }
      assert NoLater(p, row.server, row.component, similarity);
    }
  }

  /** Nothing admissible is left over: no unmatched server and still available component score enough. */
  lemma NoCandidateLeft(servers: seq<Server>, components: seq<Component>, similarity: Similarity,
                       server: Server, component: Component)
    requires server in servers && component in components
    requires server.id !in FinalState(servers, components, similarity).usedServers
    requires Available(component, FinalState(servers, components, similarity), Batch(servers))
    ensures !Admissible(server, component, similarity)
  {
    FinalFacts(servers, components, similarity);
    if Admissible(server, component, similarity) {
      NoBlockingCandidate(servers, components, similarity, server, component);
    }
  }

  /** Facts about the state after all phases. */
  lemma FinalFacts(servers: seq<Server>, components: seq<Component>, similarity: Similarity)
    ensures var final, linked := FinalState(servers, components, similarity), LinkPhase(servers, components, similarity);
            && Coherent(final)
            && linked.usedServers <= final.usedServers && linked.usedComponents <= final.usedComponents
            && (DistinctServers(servers) && DistinctComponents(components) ==> OneToOne(final.matched))
            && (forall p :: p in final.matched && p.alreadyLinked <==> IsLinkPair(p, servers, components, similarity))
            && (forall p <- final.matched :: p.server in servers && p.component in components
                                             && Admissible(p.server, p.component, similarity))
  {
    var linked, order := LinkPhase(servers, components, similarity), Order(servers, components, similarity);
    LinkPhaseExactly(servers, components, similarity);
    FinalIsOnePass(servers, components, similarity);
    ConsumeKeeps(linked, order, Batch(servers));
    if DistinctServers(servers) && DistinctComponents(components) {
      LinkPhaseOneToOne(servers, components, similarity);
    }
    RankedFacts(servers, components, similarity, true);
    RankedFacts(servers, components, similarity, false);
    var final := FinalState(servers, components, similarity);
    forall p ensures p in final.matched && p.alreadyLinked <==> IsLinkPair(p, servers, components, similarity) {
      if p in final.matched {
        assert ComesFrom(p, linked, order);
      }
      if IsLinkPair(p, servers, components, similarity) {
        assert p in linked.matched;
      }
    }
    forall p <- final.matched
      ensures p.server in servers && p.component in components && Admissible(p.server, p.component, similarity)
    {
      assert ComesFrom(p, linked, order);
      if p in linked.matched {
        assert IsLinkPair(p, servers, components, similarity);
        LookupFinds(components, p.server.id);
      } else {
        var i :| 0 <= i < |order| && p == PairOf(order[i]);
        assert order[i] in Ranked(servers, components, similarity, true) || order[i] in Ranked(servers, components, similarity, false);
      }
    }
  }

  /** A pair that was not linked before carries the score of its server and component. */
  lemma RankedPairScore(servers: seq<Server>, components: seq<Component>, similarity: Similarity, p: Pair)
    requires p in FinalState(servers, components, similarity).matched && !p.alreadyLinked
    ensures p == PairOf(CandidateOf(p.server, p.component, similarity))
  {
    var linked, order := LinkPhase(servers, components, similarity), Order(servers, components, similarity);
    LinkPhaseExactly(servers, components, similarity);
    FinalIsOnePass(servers, components, similarity);
    ConsumeKeeps(linked, order, Batch(servers));
    assert ComesFrom(p, linked, order);
    assert p !in linked.matched;
    var i :| 0 <= i < |order| && p == PairOf(order[i]);
    RankedFacts(servers, components, similarity, true);
    RankedFacts(servers, components, similarity, false);
    assert order[i] in Ranked(servers, components, similarity, true) || order[i] in Ranked(servers, components, similarity, false);
  }

  lemma {:induction false} NewServersExactly(servers: seq<Server>, used: set<int>)
    ensures forall s :: s in NewServers(servers, used) <==> s in servers && s.id !in used
  {
    if servers != [] {
      var n := |servers| - 1;
      assert servers == servers[..n] + [servers[n]];
      NewServersExactly(servers[..n], used);
    }
  }

  lemma {:induction false} UnmatchedExactly(components: seq<Component>, used: set<int>)
    ensures forall c :: c in UnmatchedLocal(components, used) <==> c in components && c.id !in used
  {
    if components != [] {
      var n := |components| - 1;
      assert components == components[..n] + [components[n]];
      UnmatchedExactly(components[..n], used);
    }
  }

  // ---------- the result, told without the matcher's own terms ----------

  /** Equal types, no two different protocols of OpenVPN, and a similarity of at least 40. */
  ghost predicate MayPair(server: Server, component: Component, similarity: Similarity) {
    && server.checkType == component.checkType
    && (server.checkType == OpenVpn && server.proto.Some? && component.proto.Some? ==> server.proto == component.proto)
    && similarity(server.id, component.id).points >= 40.0
  }

  lemma MayPairIsAdmissible(server: Server, component: Component, similarity: Similarity)
    ensures MayPair(server, component, similarity) <==> Admissible(server, component, similarity)
    ensures MayPair(server, component, similarity) ==>
              ScorePair(server, component, similarity) == similarity(server.id, component.id)
  {}

  /** A component is not taken away from a server outside the given ones. */
  ghost predicate IsInBatch(component: Component, servers: seq<Server>) {
    component.link.Some? ==> exists s :: s in servers && s.id == component.link.value
  }

  /** No existing link that was kept concerns the component, or the server it is linked to. */
  ghost predicate IsOffered(component: Component, servers: seq<Server>, matched: seq<Pair>) {
    && IsInBatch(component, servers)
    && forall p <- matched :: p.alreadyLinked ==> p.component.id != component.id && component.link != Some(p.server.id)
  }

  /** No pair at all concerns the component, or the server it is linked to. */
  ghost predicate IsLeft(component: Component, servers: seq<Server>, matched: seq<Pair>) {
    && IsInBatch(component, servers)
    && forall p <- matched :: p.component.id != component.id && component.link != Some(p.server.id)
  }

  /** The order of preference: existing links, then equal endpoints with at least 70 points, then the others by points. */
  ghost predicate IsPreferred(p: Pair, score: Score) {
    || p.alreadyLinked
    || (p.endpoint && p.points >= 70.0 && !(score.endpoint && score.points >= 70.0))
    || ((p.endpoint && p.points >= 70.0 <==> score.endpoint && score.points >= 70.0) && p.points >= score.points)
  }

  lemma UsedIsMatched(state: State, serverId: int, componentId: int)
    requires Coherent(state)
    ensures serverId !in state.usedServers <==> forall p <- state.matched :: p.server.id != serverId
    ensures componentId !in state.usedComponents <==> forall p <- state.matched :: p.component.id != componentId
  {
    assert forall p <- state.matched :: p.component.id in state.usedComponents && p.server.id in state.usedServers;
  }

  lemma LeftIsAvailable(state: State, component: Component, servers: seq<Server>)
    requires Coherent(state)
    ensures IsLeft(component, servers, state.matched) <==> Available(component, state, Batch(servers))
  {
    UsedIsMatched(state, if component.link.Some? then component.link.value else 0, component.id);
  }

  lemma OfferedIsAvailable(servers: seq<Server>, components: seq<Component>, similarity: Similarity, component: Component)
    ensures var matched := Match(servers, components, similarity).matched;
            IsOffered(component, servers, matched) <==>
              Available(component, LinkPhase(servers, components, similarity), Batch(servers))
  {
    FinalFacts(servers, components, similarity);
    LinkPhaseExactly(servers, components, similarity);
    var linked, matched := LinkPhase(servers, components, similarity), FinalState(servers, components, similarity).matched;
    assert forall p :: p in linked.matched <==> p in matched && p.alreadyLinked;
    LeftIsAvailable(linked, component, servers);
  }

  /**
   No server and no component is matched twice. Every pair consists of a given server and a given component that may be
   paired; no component is taken from a server outside the given ones. A pair is marked exactly when it was linked before
   and kept, and carries the points of its similarity, at least 100 when marked.
   */
  lemma MatchIsOneToOne(servers: seq<Server>, components: seq<Component>, similarity: Similarity)
    requires DistinctServers(servers) && DistinctComponents(components)
    ensures var matched := Match(servers, components, similarity).matched;
            && (forall i, j :: 0 <= i < j < |matched| ==>
                  matched[i].server.id != matched[j].server.id && matched[i].component.id != matched[j].component.id)
            && forall p <- matched :: p.server in servers && p.component in components
                                      && MayPair(p.server, p.component, similarity) && IsInBatch(p.component, servers)
                                      && ShowsScore(p, similarity(p.server.id, p.component.id))
  {
    FinalFacts(servers, components, similarity);
    forall p <- FinalState(servers, components, similarity).matched
      ensures MayPair(p.server, p.component, similarity) && IsInBatch(p.component, servers)
      ensures ShowsScore(p, similarity(p.server.id, p.component.id))
    {
      MayPairIsAdmissible(p.server, p.component, similarity);
      if p.alreadyLinked {
        LookupFinds(components, p.server.id);
      } else {
        RankedPairIsOffered(servers, components, similarity, p);
        RankedPairScore(servers, components, similarity, p);
      }
    }
  }

  ghost predicate ShowsScore(p: Pair, score: Score) {
    && p.endpoint == score.endpoint
    && p.points == (if p.alreadyLinked && score.points < 100.0 then 100.0 else score.points)
    && (p.alreadyLinked ==> p.component.link == Some(p.server.id))
  }

  lemma RankedPairIsOffered(servers: seq<Server>, components: seq<Component>, similarity: Similarity, p: Pair)
    requires p in FinalState(servers, components, similarity).matched && !p.alreadyLinked
    ensures IsInBatch(p.component, servers)
  {
    var linked, order := LinkPhase(servers, components, similarity), Order(servers, components, similarity);
    LinkPhaseExactly(servers, components, similarity);
    FinalIsOnePass(servers, components, similarity);
    ConsumeKeeps(linked, order, Batch(servers));
    assert ComesFrom(p, linked, order) && p !in linked.matched;
    var i :| 0 <= i < |order| && p == PairOf(order[i]);
    RankedFacts(servers, components, similarity, true);
    RankedFacts(servers, components, similarity, false);
    assert order[i] in Ranked(servers, components, similarity, true) || order[i] in Ranked(servers, components, similarity, false);
    assert Available(p.component, linked, Batch(servers));
  }

  /** With distinct links, exactly the linked pairs that may be paired are kept as such. */
  lemma LinksAreKept(servers: seq<Server>, components: seq<Component>, similarity: Similarity, server: Server, component: Component)
    requires DistinctServers(servers) && DistinctLinks(components)
    requires server in servers && component in components && component.link == Some(server.id)
    ensures (exists p :: p in Match(servers, components, similarity).matched && p.alreadyLinked
                         && p.server == server && p.component == component)
            <==> MayPair(server, component, similarity)
  {
    FinalFacts(servers, components, similarity);
    MayPairIsAdmissible(server, component, similarity);
    LookupFinds(components, server.id);
    assert LinkedComponent(components, server.id) == Some(component);
    if MayPair(server, component, similarity) {
      var p := LinkedPair(server, component, ScorePair(server, component, similarity));
      assert IsLinkPair(p, servers, components, similarity);
    }
  }

  /**
   No blocking pair: a server and an offered component that may be paired are matched with each other, or a preferred pair
   stands in the way: one with the server, with the component, or with the server the component is linked to.
   */
  lemma NoBlockingPair(servers: seq<Server>, components: seq<Component>, similarity: Similarity,
                       server: Server, component: Component)
    requires server in servers && component in components && MayPair(server, component, similarity)
    requires IsOffered(component, servers, Match(servers, components, similarity).matched)
    ensures exists p :: p in Match(servers, components, similarity).matched
              && ((p.server == server && p.component == component)
                  || ((p.server.id == server.id || p.component.id == component.id || component.link == Some(p.server.id))
                      && IsPreferred(p, similarity(server.id, component.id))))
  {
    OfferedIsAvailable(servers, components, similarity, component);
    MayPairIsAdmissible(server, component, similarity);
    NoBlockingCandidate(servers, components, similarity, server, component);
    var matched := Match(servers, components, similarity).matched;
    if !IsMatched(server, component, matched) {
      var p :| p in matched && Conflicts(p, server, component) && NoLater(p, server, component, similarity);
    }
  }

  /** Nothing is left over: no server without a pair may be paired with a component that is left. */
  lemma MatchIsMaximal(servers: seq<Server>, components: seq<Component>, similarity: Similarity,
                       server: Server, component: Component)
    requires server in servers && component in components
    requires forall p <- Match(servers, components, similarity).matched :: p.server.id != server.id
    requires IsLeft(component, servers, Match(servers, components, similarity).matched)
    ensures !MayPair(server, component, similarity)
  {
    FinalFacts(servers, components, similarity);
    LeftIsAvailable(FinalState(servers, components, similarity), component, servers);
    UsedIsMatched(FinalState(servers, components, similarity), server.id, component.id);
    MayPairIsAdmissible(server, component, similarity);
    NoCandidateLeft(servers, components, similarity, server, component);
  }

  /** The other two lists are the servers and the components without a pair. */
  lemma LeftoversExactly(servers: seq<Server>, components: seq<Component>, similarity: Similarity)
    ensures var buckets := Match(servers, components, similarity);
            && (forall s :: s in buckets.newServers <==> s in servers && forall p <- buckets.matched :: p.server.id != s.id)
            && (forall c :: c in buckets.unmatchedLocal <==>
                  c in components && forall p <- buckets.matched :: p.component.id != c.id)
  {
    FinalFacts(servers, components, similarity);
    var final := FinalState(servers, components, similarity);
    NewServersExactly(servers, final.usedServers);
    UnmatchedExactly(components, final.usedComponents);
    forall s: Server ensures s.id !in final.usedServers <==> forall p <- final.matched :: p.server.id != s.id {
      UsedIsMatched(final, s.id, 0);
    }
    forall c: Component ensures c.id !in final.usedComponents <==> forall p <- final.matched :: p.component.id != c.id {
      UsedIsMatched(final, 0, c.id);
    }
  }
}
