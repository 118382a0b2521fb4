/**
 Matching DataGate servers to local VPN components: existing links first, then pairs with an equal
 endpoint, then the remaining pairs by score. `similarity` is any score that does not read the link.
 */
module Matcher {
  import opened Options
  import StableSort

  datatype CheckType = OpenVpn | Xray
  datatype Proto = Tcp | Udp

  datatype Server = Server(id: int, checkType: CheckType, proto: Option<Proto>)
  datatype Component = Component(id: int, checkType: CheckType, proto: Option<Proto>, link: Option<int>)

  datatype Score = Score(points: real, endpoint: bool)
  type Similarity = (int, int) -> Score

  datatype Candidate = Candidate(points: real, endpoint: bool, server: Server, component: Component)
  datatype Pair = Pair(server: Server, component: Component, points: real, endpoint: bool, alreadyLinked: bool)

  /** The growing result and the two sets guarding it. */
  datatype State = State(matched: seq<Pair>, usedServers: set<int>, usedComponents: set<int>)

  datatype Buckets = Buckets(matched: seq<Pair>, newServers: seq<Server>, unmatchedLocal: seq<Component>)

  const MATCH_THRESHOLD := 40.0
  const ENDPOINT_THRESHOLD := 70.0
  const LINKED_POINTS := 100.0

  predicate Compatible(server: Server, component: Component) {
    && server.checkType == component.checkType
    && !(server.checkType == OpenVpn && server.proto.Some? && component.proto.Some? && server.proto != component.proto)
  }

  function ScorePair(server: Server, component: Component, similarity: Similarity): Score {
    if Compatible(server, component) then similarity(server.id, component.id) else Score(0.0, false)
  }

  predicate Admissible(server: Server, component: Component, similarity: Similarity) {
    ScorePair(server, component, similarity).points >= MATCH_THRESHOLD
  }

  predicate IsEndpointScore(points: real, endpoint: bool) {
    endpoint && points >= ENDPOINT_THRESHOLD
  }

  /** The dictionary from link to component: a later component replaces an earlier one with the same link. */
  function LinkedComponent(components: seq<Component>, serverId: int): Option<Component> {
    if components == [] then None
    else
      var last := components[|components| - 1];
      if last.link == Some(serverId) then Some(last) else LinkedComponent(components[..|components| - 1], serverId)
  }

  function Batch(servers: seq<Server>): set<int> {
    set s | s in servers :: s.id
  }

  function AddPair(state: State, pair: Pair): State {
    State(state.matched + [pair], state.usedServers + {pair.server.id}, state.usedComponents + {pair.component.id})
  }

  function LinkedPair(server: Server, component: Component, score: Score): Pair {
    Pair(server, component, if score.points >= LINKED_POINTS then score.points else LINKED_POINTS, score.endpoint, true)
  }

  function LinkPhase(servers: seq<Server>, components: seq<Component>, similarity: Similarity): State {
    if servers == [] then State([], {}, {})
    else
      var state := LinkPhase(servers[..|servers| - 1], components, similarity);
      var server := servers[|servers| - 1];
      var component := LinkedComponent(components, server.id);
      if component.None? || !Admissible(server, component.value, similarity) then state
      else AddPair(state, LinkedPair(server, component.value, ScorePair(server, component.value, similarity)))
  }

  predicate Available(component: Component, state: State, batch: set<int>) {
    && component.id !in state.usedComponents
    && (component.link.Some? ==> component.link.value in batch && component.link.value !in state.usedServers)
  }

  function CandidateOf(server: Server, component: Component, similarity: Similarity): Candidate {
    var score := ScorePair(server, component, similarity);
    Candidate(score.points, score.endpoint, server, component)
  }

  predicate IsCandidate(server: Server, component: Component, state: State, batch: set<int>, similarity: Similarity) {
    && server.id !in state.usedServers
    && Available(component, state, batch)
    && Admissible(server, component, similarity)
  }

  /** One server's candidates of one class, in component order. */
  function RowCandidates(server: Server, components: seq<Component>, state: State, batch: set<int>,
                         similarity: Similarity, endpointClass: bool): seq<Candidate> {
    if components == [] then []
    else
      var front := RowCandidates(server, components[..|components| - 1], state, batch, similarity, endpointClass);
      var component := components[|components| - 1];
      var candidate := CandidateOf(server, component, similarity);
      if IsCandidate(server, component, state, batch, similarity)
         && IsEndpointScore(candidate.points, candidate.endpoint) == endpointClass
      then front + [candidate] else front
  }

  function Candidates(servers: seq<Server>, components: seq<Component>, state: State, batch: set<int>,
                      similarity: Similarity, endpointClass: bool): seq<Candidate> {
    if servers == [] then []
    else
      Candidates(servers[..|servers| - 1], components, state, batch, similarity, endpointClass)
      + RowCandidates(servers[|servers| - 1], components, state, batch, similarity, endpointClass)
  }

  predicate ScoresNoLess(a: Candidate, b: Candidate) {
    a.points >= b.points
  }

  predicate CanTake(state: State, candidate: Candidate, batch: set<int>) {
    && candidate.server.id !in state.usedServers
    && candidate.component.id !in state.usedComponents
    && Available(candidate.component, state, batch)
  }

  function PairOf(candidate: Candidate): Pair {
    Pair(candidate.server, candidate.component, candidate.points, candidate.endpoint, false)
  }

  function Consume(state: State, candidates: seq<Candidate>, batch: set<int>): State {
    if candidates == [] then state
    else
      var before := Consume(state, candidates[..|candidates| - 1], batch);
      var candidate := candidates[|candidates| - 1];
      if CanTake(before, candidate, batch) then AddPair(before, PairOf(candidate)) else before
  }

  function Ranked(servers: seq<Server>, components: seq<Component>, similarity: Similarity, endpointClass: bool): seq<Candidate> {
    var linked := LinkPhase(servers, components, similarity);
    StableSort.Sort(Candidates(servers, components, linked, Batch(servers), similarity, endpointClass), ScoresNoLess)
  }

  /** The state after all three phases. */
  function FinalState(servers: seq<Server>, components: seq<Component>, similarity: Similarity): State {
    var linked := LinkPhase(servers, components, similarity);
    Consume(Consume(linked, Ranked(servers, components, similarity, true), Batch(servers)),
            Ranked(servers, components, similarity, false), Batch(servers))
  }

  function NewServers(servers: seq<Server>, used: set<int>): seq<Server> {
    if servers == [] then []
    else
      var front, last := NewServers(servers[..|servers| - 1], used), servers[|servers| - 1];
      if last.id in used then front else front + [last]
  }

  function UnmatchedLocal(components: seq<Component>, used: set<int>): seq<Component> {
    if components == [] then []
    else
      var front, last := UnmatchedLocal(components[..|components| - 1], used), components[|components| - 1];
      if last.id in used then front else front + [last]
  }

  function Match(servers: seq<Server>, components: seq<Component>, similarity: Similarity): Buckets {
    var state := FinalState(servers, components, similarity);
    Buckets(state.matched, NewServers(servers, state.usedServers), UnmatchedLocal(components, state.usedComponents))
  }

  method TakeCandidates(state: State, candidates: seq<Candidate>, batch: set<int>) returns (after: State)
    ensures after == Consume(state, StableSort.Sort(candidates, ScoresNoLess), batch)
  {
    var sorted := StableSort.Sort(candidates, ScoresNoLess);
    after := state;
    for i := 0 to |sorted|
      invariant after == Consume(state, sorted[..i], batch)
    {
      assert sorted[..i + 1][..i] == sorted[..i];
      if CanTake(after, sorted[i], batch) {
        after := AddPair(after, PairOf(sorted[i]));
      }
    }
    assert sorted[..|sorted|] == sorted;
  }

  /** Existing links first. */
  method KeepLinks(servers: seq<Server>, components: seq<Component>, similarity: Similarity) returns (state: State)
    ensures state == LinkPhase(servers, components, similarity)
  {
    state := State([], {}, {});
    for i := 0 to |servers|
      invariant state == LinkPhase(servers[..i], components, similarity)
    {
      assert servers[..i + 1][..i] == servers[..i];
      var component := LinkedComponent(components, servers[i].id);
      if component.Some? {
        var score := ScorePair(servers[i], component.value, similarity);
        if score.points >= MATCH_THRESHOLD {
          state := AddPair(state, LinkedPair(servers[i], component.value, score));
        }
      }
    }
    assert servers[..|servers|] == servers;
  }

  method CollectCandidates(servers: seq<Server>, components: seq<Component>, state: State, similarity: Similarity)
    returns (endpointCandidates: seq<Candidate>, fuzzyCandidates: seq<Candidate>)
    ensures endpointCandidates == Candidates(servers, components, state, Batch(servers), similarity, true)
    ensures fuzzyCandidates == Candidates(servers, components, state, Batch(servers), similarity, false)
  {
    var batch := Batch(servers);
    endpointCandidates, fuzzyCandidates := [], [];
    for i := 0 to |servers|
      invariant endpointCandidates == Candidates(servers[..i], components, state, batch, similarity, true)
      invariant fuzzyCandidates == Candidates(servers[..i], components, state, batch, similarity, false)
    {
      assert servers[..i + 1][..i] == servers[..i];
      if servers[i].id in state.usedServers {
        NoRowOfUsedServer(servers[i], components, state, batch, similarity);
      } else {
        var endpointRow, fuzzyRow := CollectRow(servers[i], components, state, batch, similarity);
        endpointCandidates := endpointCandidates + endpointRow;
        fuzzyCandidates := fuzzyCandidates + fuzzyRow;
      }
    }
    assert servers[..|servers|] == servers;
  }

  method MatchServers(servers: seq<Server>, components: seq<Component>, similarity: Similarity) returns (buckets: Buckets)
    ensures buckets == Match(servers, components, similarity)
  {
    var state := KeepLinks(servers, components, similarity);
    var endpointCandidates, fuzzyCandidates := CollectCandidates(servers, components, state, similarity);
    state := TakeCandidates(state, endpointCandidates, Batch(servers));
    state := TakeCandidates(state, fuzzyCandidates, Batch(servers));

    var newServers, unmatchedLocal := [], [];
    for i := 0 to |servers|
      invariant newServers == NewServers(servers[..i], state.usedServers)
    {
      assert servers[..i + 1][..i] == servers[..i];
      if servers[i].id !in state.usedServers {
        newServers := newServers + [servers[i]];
      }
    }
    for i := 0 to |components|
      invariant unmatchedLocal == UnmatchedLocal(components[..i], state.usedComponents)
    {
      assert components[..i + 1][..i] == components[..i];
      if components[i].id !in state.usedComponents {
        unmatchedLocal := unmatchedLocal + [components[i]];
      }
    }
    assert servers[..|servers|] == servers && components[..|components|] == components;
    buckets := Buckets(state.matched, newServers, unmatchedLocal);
  }

  /** The inner loop over components: an available, admissible component joins one of the two classes. */
  method CollectRow(server: Server, components: seq<Component>, state: State, batch: set<int>, similarity: Similarity)
    returns (endpointRow: seq<Candidate>, fuzzyRow: seq<Candidate>)
    requires server.id !in state.usedServers
    ensures endpointRow == RowCandidates(server, components, state, batch, similarity, true)
    ensures fuzzyRow == RowCandidates(server, components, state, batch, similarity, false)
  {
    endpointRow, fuzzyRow := [], [];
    for i := 0 to |components|
      invariant endpointRow == RowCandidates(server, components[..i], state, batch, similarity, true)
      invariant fuzzyRow == RowCandidates(server, components[..i], state, batch, similarity, false)
    {
      assert components[..i + 1][..i] == components[..i];
      if Available(components[i], state, batch) {
        var score := ScorePair(server, components[i], similarity);
        if score.points >= MATCH_THRESHOLD {
          var row := Candidate(score.points, score.endpoint, server, components[i]);
          if score.endpoint && score.points >= ENDPOINT_THRESHOLD {
            endpointRow := endpointRow + [row];
          } else {
            fuzzyRow := fuzzyRow + [row];
          }
        }
      }
    }
    assert components[..|components|] == components;
  }

  lemma {:induction false} NoRowOfUsedServer(server: Server, components: seq<Component>, state: State, batch: set<int>, similarity: Similarity)
    requires server.id in state.usedServers
    ensures forall endpointClass :: RowCandidates(server, components, state, batch, similarity, endpointClass) == []
  {
    if components != [] {
      NoRowOfUsedServer(server, components[..|components| - 1], state, batch, similarity);
    }
  }
}
