/** Matching again after an import in which every fetch succeeded, and matching lists in another order. */
module MatcherRerun {
  import opened Options
  import opened Matcher
  import opened MatcherProofs
  import opened DataGateImport
  import StableSort

  ghost function PairIds(matched: seq<Pair>): set<(int, int)> {
    set p | p in matched :: (p.server.id, p.component.id)
  }

  /** After relinking, looking up a matched server's id in the link dictionary yields its own component. */
  ghost predicate LinksDecide(components: seq<Component>, matched: seq<Pair>) {
    forall p <- matched ::
      var found := LinkedComponent(components, p.server.id);
      found.Some? && found.value.id == p.component.id
  }

  /** With its new name and configuration the component is still admissible for the server it was given. */
  ghost predicate StaysAdmissible(p: Pair, protocols: Protocols, later: Similarity) {
    Admissible(p.server, p.component.(proto := protocols(p.component.id)), later)
  }

  /** Only the texts of matched components change, so the others score as before. */
  ghost predicate LeavesOthers(servers: seq<Server>, components: seq<Component>, similarity: Similarity, later: Similarity) {
    forall s, c :: s in servers && c in components && c.id !in FinalState(servers, components, similarity).usedComponents ==>
      later(s.id, c.id) == similarity(s.id, c.id)
  }

  /** The second result repeats the first: same pairs, all marked already linked, same new servers. */
  ghost predicate SameAgain(first: Buckets, second: Buckets) {
    && PairIds(second.matched) == PairIds(first.matched)
    && (forall p <- second.matched :: p.alreadyLinked)
    && second.newServers == first.newServers
  }

  lemma Origin(components: seq<Component>, matched: seq<Pair>, protocols: Protocols, after: Component) returns (before: Component)
    requires after in Relink(components, matched, protocols)
    ensures before in components && after == Relinked(before, matched, protocols) && after.id == before.id
  {
    var k :| 0 <= k < |components| && after == Relinked(components[k], matched, protocols);
    before := components[k];
    RelinkedShape(before, matched, protocols);
  }

  /** The row found for a matched server is the relinked component. */
  lemma FoundRow(servers: seq<Server>, components: seq<Component>, similarity: Similarity, protocols: Protocols, p: Pair, found: Component)
    requires DistinctServers(servers) && DistinctComponents(components)
    requires var matched := FinalState(servers, components, similarity).matched;
             p in matched && found in Relink(components, matched, protocols) && found.id == p.component.id
    ensures found == p.component.(link := Some(p.server.id), proto := protocols(p.component.id))
  {
    var matched := FinalState(servers, components, similarity).matched;
    FinalFacts(servers, components, similarity);
    var before := Origin(components, matched, protocols, found);
    SameIdSameComponent(components, before, p.component);
    RelinkedExactly(before, matched, protocols);
  }

  /** No unmatched server is admissible for a component left unmatched, while that one is available. */
  lemma LeftoverIsInadmissible(servers: seq<Server>, components: seq<Component>, similarity: Similarity, protocols: Protocols,
                               later: Similarity, server: Server, after: Component)
    requires DistinctServers(servers) && DistinctComponents(components) && server in servers
    requires LeavesOthers(servers, components, similarity, later)
    requires var final := FinalState(servers, components, similarity);
             && after in Relink(components, final.matched, protocols)
             && server.id !in final.usedServers
             && Available(after, final, Batch(servers))
    ensures !Admissible(server, after, later)
  {
    var final := FinalState(servers, components, similarity);
    FinalFacts(servers, components, similarity);
    var before := Origin(components, final.matched, protocols, after);
    RelinkedExactly(before, final.matched, protocols);
    assert forall p <- final.matched :: p.component.id in final.usedComponents;
    assert after == before;
    NoCandidateLeft(servers, components, similarity, server, before);
  }

  /** What the second match finds after the import. */
  ghost predicate Holds(servers: seq<Server>, components: seq<Component>, similarity: Similarity, protocols: Protocols,
                        later: Similarity) {
    var matched := FinalState(servers, components, similarity).matched;
    && DistinctServers(servers) && DistinctComponents(components) && LeavesOthers(servers, components, similarity, later)
    && LinksDecide(Relink(components, matched, protocols), matched)
    && forall p <- matched :: StaysAdmissible(p, protocols, later)
  }

  lemma SecondLinkPhase(servers: seq<Server>, components: seq<Component>, similarity: Similarity, protocols: Protocols,
                        later: Similarity)
    requires Holds(servers, components, similarity, protocols, later)
    ensures var final := FinalState(servers, components, similarity);
            var linked := LinkPhase(servers, Relink(components, final.matched, protocols), later);
            PairIds(linked.matched) == PairIds(final.matched)
            && linked.usedServers == final.usedServers && linked.usedComponents == final.usedComponents
  {
    var final := FinalState(servers, components, similarity);
    var after := Relink(components, final.matched, protocols);
    var linked := LinkPhase(servers, after, later);
    FinalFacts(servers, components, similarity);
    LinkPhaseExactly(servers, after, later);
    forall p <- final.matched ensures (p.server.id, p.component.id) in PairIds(linked.matched) {
      StillLinked(servers, components, similarity, protocols, later, p);
    }
    forall q <- linked.matched ensures (q.server.id, q.component.id) in PairIds(final.matched) {
      NothingNewLinked(servers, components, similarity, protocols, later, q);
    }
    SameIds(linked, final);
  }

  lemma NothingNewLinked(servers: seq<Server>, components: seq<Component>, similarity: Similarity, protocols: Protocols,
                         later: Similarity, q: Pair)
    requires Holds(servers, components, similarity, protocols, later)
    requires IsLinkPair(q, servers, Relink(components, FinalState(servers, components, similarity).matched, protocols), later)
    ensures (q.server.id, q.component.id) in PairIds(FinalState(servers, components, similarity).matched)
  {
    var final := FinalState(servers, components, similarity);
    var after := Relink(components, final.matched, protocols);
    FinalFacts(servers, components, similarity);
    LookupFinds(after, q.server.id);
    if q.component.id in final.usedComponents {
      var p :| p in final.matched && p.component.id == q.component.id;
      FoundRow(servers, components, similarity, protocols, p, q.component);
      assert (p.server.id, p.component.id) in PairIds(final.matched);
    } else {
      assert forall p <- final.matched :: p.component.id in final.usedComponents;
      assert forall p <- final.matched :: p.server.id != q.server.id;
      assert q.server.id in Batch(servers);
      LeftoverIsInadmissible(servers, components, similarity, protocols, later, q.server, q.component);
    }
  }

  lemma StillLinked(servers: seq<Server>, components: seq<Component>, similarity: Similarity, protocols: Protocols,
                    later: Similarity, p: Pair)
    requires Holds(servers, components, similarity, protocols, later)
    requires p in FinalState(servers, components, similarity).matched
    ensures var after := Relink(components, FinalState(servers, components, similarity).matched, protocols);
            (p.server.id, p.component.id) in PairIds(LinkPhase(servers, after, later).matched)
  {
    var matched := FinalState(servers, components, similarity).matched;
    var after := Relink(components, matched, protocols);
    FinalFacts(servers, components, similarity);
    LinkPhaseExactly(servers, after, later);
    var found := LinkedComponent(after, p.server.id).value;
    LookupFinds(after, p.server.id);
    FoundRow(servers, components, similarity, protocols, p, found);
    assert StaysAdmissible(p, protocols, later);
    assert IsLinkPair(LinkedPair(p.server, found, ScorePair(p.server, found, later)), servers, after, later);
  }

  lemma SameIds(a: State, b: State)
    requires Coherent(a) && Coherent(b) && PairIds(a.matched) == PairIds(b.matched)
    ensures a.usedServers == b.usedServers && a.usedComponents == b.usedComponents
  {
    UsedFromIds(a);
    UsedFromIds(b);
  }

  lemma UsedFromIds(a: State)
    requires Coherent(a)
    ensures a.usedServers == (set ids | ids in PairIds(a.matched) :: ids.0)
    ensures a.usedComponents == (set ids | ids in PairIds(a.matched) :: ids.1)
  {
    forall p <- a.matched
      ensures p.server.id in (set ids | ids in PairIds(a.matched) :: ids.0)
      ensures p.component.id in (set ids | ids in PairIds(a.matched) :: ids.1)
    {
      assert (p.server.id, p.component.id) in PairIds(a.matched);
    }
  }

  lemma NothingLeftToRank(servers: seq<Server>, components: seq<Component>, similarity: Similarity, protocols: Protocols,
                          later: Similarity, endpointClass: bool)
    requires Holds(servers, components, similarity, protocols, later)
    ensures Ranked(servers, Relink(components, FinalState(servers, components, similarity).matched, protocols), later, endpointClass) == []
  {
    var final := FinalState(servers, components, similarity);
    var after := Relink(components, final.matched, protocols);
    SecondLinkPhase(servers, components, similarity, protocols, later);
    RankedFacts(servers, after, later, endpointClass);
    var ranked := Ranked(servers, after, later, endpointClass);
    if ranked != [] {
      var row := ranked[0];
      assert row in ranked;
      LeftoverIsInadmissible(servers, components, similarity, protocols, later, row.server, row.component);
    }
  }

  /** A repeated result shows that the links decide and that every pair stayed admissible. */
  lemma RepeatedHolds(servers: seq<Server>, components: seq<Component>, similarity: Similarity, protocols: Protocols,
                      later: Similarity, p: Pair)
    requires DistinctServers(servers) && DistinctComponents(components)
    requires var first := Match(servers, components, similarity);
             p in first.matched && SameAgain(first, Match(servers, Relink(components, first.matched, protocols), later))
    ensures var found := LinkedComponent(Relink(components, Match(servers, components, similarity).matched, protocols), p.server.id);
            found.Some? && found.value.id == p.component.id && StaysAdmissible(p, protocols, later)
  {
    var first := Match(servers, components, similarity);
    var after := Relink(components, first.matched, protocols);
    var second := FinalState(servers, after, later);
    FinalFacts(servers, components, similarity);
    FinalFacts(servers, after, later);
    assert (p.server.id, p.component.id) in PairIds(second.matched);
    var q :| q in second.matched && q.server.id == p.server.id && q.component.id == p.component.id;
    assert IsLinkPair(q, servers, after, later);
    FoundRow(servers, components, similarity, protocols, p, q.component);
  }

  /**
   Whatever the import wrote into the matched components: matching again repeats the result exactly when the link
   dictionary leads from every matched server back to its own component and that one is still admissible.
   */
  lemma FixedPointExactly(servers: seq<Server>, components: seq<Component>, similarity: Similarity, protocols: Protocols,
                          later: Similarity)
    requires DistinctServers(servers) && DistinctComponents(components) && LeavesOthers(servers, components, similarity, later)
    ensures var first := Match(servers, components, similarity);
            var after := Relink(components, first.matched, protocols);
            SameAgain(first, Match(servers, after, later)) <==>
              LinksDecide(after, first.matched) && forall p <- first.matched :: StaysAdmissible(p, protocols, later)
  {
    var first := Match(servers, components, similarity);
    var after := Relink(components, first.matched, protocols);
    if Holds(servers, components, similarity, protocols, later) {
      SecondLinkPhase(servers, components, similarity, protocols, later);
      NothingLeftToRank(servers, components, similarity, protocols, later, true);
      NothingLeftToRank(servers, components, similarity, protocols, later, false);
      LinkPhaseExactly(servers, after, later);
      assert FinalState(servers, after, later) == LinkPhase(servers, after, later);
    }
    if SameAgain(first, Match(servers, after, later)) {
      forall p <- first.matched
        ensures LinkedComponent(after, p.server.id).Some? && LinkedComponent(after, p.server.id).value.id == p.component.id
        ensures StaysAdmissible(p, protocols, later)
      {
        RepeatedHolds(servers, components, similarity, protocols, later, p);
      }
    }
  }

  /** Distinct links afterwards leave only the second condition. */
  lemma DistinctLinksGiveFixedPoint(servers: seq<Server>, components: seq<Component>, similarity: Similarity,
                                    protocols: Protocols, later: Similarity)
    requires DistinctServers(servers) && DistinctComponents(components) && LeavesOthers(servers, components, similarity, later)
    requires DistinctLinks(Relink(components, Match(servers, components, similarity).matched, protocols))
    ensures var first := Match(servers, components, similarity);
            SameAgain(first, Match(servers, Relink(components, first.matched, protocols), later)) <==>
              forall p <- first.matched :: StaysAdmissible(p, protocols, later)
  {
    var matched := FinalState(servers, components, similarity).matched;
    var after := Relink(components, matched, protocols);
    FinalFacts(servers, components, similarity);
    forall p <- matched
      ensures LinkedComponent(after, p.server.id).Some? && LinkedComponent(after, p.server.id).value.id == p.component.id
    {
      RelinkedExactly(p.component, matched, protocols);
      var k :| 0 <= k < |components| && components[k] == p.component;
      assert after[k] in after && after[k].link == Some(p.server.id);
      LookupOfDistinct(after, after[k]);
    }
    FixedPointExactly(servers, components, similarity, protocols, later);
  }

  lemma LookupOfDistinct(components: seq<Component>, c: Component)
    requires DistinctLinks(components) && c in components && c.link.Some?
    ensures LinkedComponent(components, c.link.value) == Some(c)
  {
    LookupFinds(components, c.link.value);
  }

  /** An import that rewrites nothing the score reads - `sync_names` and `refresh_configs` off - needs only the links. */
  lemma UnchangedTextsFixedPoint(servers: seq<Server>, components: seq<Component>, similarity: Similarity, protocols: Protocols)
    requires DistinctServers(servers) && DistinctComponents(components)
    requires forall c <- components :: protocols(c.id) == c.proto
    ensures var first := Match(servers, components, similarity);
            var after := Relink(components, first.matched, protocols);
            SameAgain(first, Match(servers, after, similarity)) <==> LinksDecide(after, first.matched)
  {
    FinalFacts(servers, components, similarity);
    FixedPointExactly(servers, components, similarity, protocols, similarity);
    var matched := FinalState(servers, components, similarity).matched;
    forall p <- matched ensures StaysAdmissible(p, protocols, similarity) {
      assert p.component.(proto := protocols(p.component.id)) == p.component;
    }
  }

  /** One server and one component: the import is repeated only while what it wrote still scores enough. */
  lemma RefreshedTextsDecide(server: Server, component: Component, similarity: Similarity, protocols: Protocols, later: Similarity)
    requires component.link.None? && Admissible(server, component, similarity)
    ensures var first := Match([server], [component], similarity);
            var after := Relink([component], first.matched, protocols);
            && PairIds(first.matched) == {(server.id, component.id)} && DistinctLinks(after)
            && (SameAgain(first, Match([server], after, later)) <==>
                  Admissible(server, component.(proto := protocols(component.id)), later))
  {
    var servers, components := [server], [component];
    var final := FinalState(servers, components, similarity);
    FinalFacts(servers, components, similarity);
    if server.id !in final.usedServers {
      assert forall p <- final.matched :: p.server.id in final.usedServers;
      assert Available(component, final, Batch(servers));
      NoCandidateLeft(servers, components, similarity, server, component);
    }
    var p :| p in final.matched && p.server.id == server.id;
    assert p.server == server && p.component == component;
    assert forall q <- final.matched :: q.server == server && q.component == component;
    assert (p.server.id, p.component.id) in PairIds(final.matched);
    assert component.id in final.usedComponents;
    DistinctLinksGiveFixedPoint(servers, components, similarity, protocols, later);
  }

  /** The table left by the stale link of `DataGateImport.StaleLinkCannotBeStored` would not be a fixed point either. */
  lemma StaleLinkBreaksFixedPoint(server: Server, unlinked: Component, stale: Component, similarity: Similarity,
                                  protocols: Protocols, later: Similarity)
    requires IsStaleLink(server, unlinked, stale, similarity)
    ensures var servers, components := [server], [unlinked, stale];
            var first := Match(servers, components, similarity);
            var after := Relink(components, first.matched, protocols);
            && DistinctLinks(components) && !DistinctLinks(after)
            && first.matched != [] && !SameAgain(first, Match(servers, after, later))
  {
    var servers, components := [server], [unlinked, stale];
    var matched := FinalState(servers, components, similarity).matched;
    OnlyAdmissiblePairIsMatched(server, unlinked, stale, similarity);
    StaleLinkCannotBeStored(server, unlinked, stale, similarity, protocols);
    FinalFacts(servers, components, similarity);
    RelinkedExactly(stale, matched, protocols);
    var after := Relink(components, matched, protocols);
    assert !IsRelinked(stale, matched) && after[|after| - 1] == stale;
    var p :| p in matched && p.server == server && p.component == unlinked;
    assert LinkedComponent(after, p.server.id) == Some(stale);
    if SameAgain(Match(servers, components, similarity), Match(servers, after, later)) {
      RepeatedHolds(servers, components, similarity, protocols, later, p);
    }
  }

  // ---------- order independence ----------

  ghost predicate SameServers(a: seq<Server>, b: seq<Server>) {
    forall s :: s in a <==> s in b
  }

  ghost predicate SameComponents(a: seq<Component>, b: seq<Component>) {
    forall c :: c in a <==> c in b
  }

  /** No two admissible pairs of the same class score the same. */
  ghost predicate NoTies(servers: seq<Server>, components: seq<Component>, similarity: Similarity) {
    forall s1, s2, c1, c2 ::
      s1 in servers && s2 in servers && c1 in components && c2 in components && (s1 != s2 || c1 != c2)
      && Admissible(s1, c1, similarity) && Admissible(s2, c2, similarity)
      && SameClass(ScorePair(s1, c1, similarity), ScorePair(s2, c2, similarity)) ==>
        ScorePair(s1, c1, similarity).points != ScorePair(s2, c2, similarity).points
  }

  predicate SameClass(a: Score, b: Score) {
    IsEndpointScore(a.points, a.endpoint) == IsEndpointScore(b.points, b.endpoint)
  }

  lemma LookupIgnoresOrder(a: seq<Component>, b: seq<Component>, serverId: int)
    requires SameComponents(a, b) && DistinctLinks(a) && DistinctLinks(b)
    ensures LinkedComponent(a, serverId) == LinkedComponent(b, serverId)
  {
    LookupFinds(a, serverId);
    LookupFinds(b, serverId);
  }

  ghost predicate SameState(a: State, b: State) {
    && (forall p :: p in a.matched <==> p in b.matched)
    && a.usedServers == b.usedServers && a.usedComponents == b.usedComponents
  }

  lemma LinkPhaseIgnoresOrder(s1: seq<Server>, s2: seq<Server>, c1: seq<Component>, c2: seq<Component>, similarity: Similarity)
    requires SameServers(s1, s2) && SameComponents(c1, c2) && DistinctLinks(c1) && DistinctLinks(c2)
    ensures SameState(LinkPhase(s1, c1, similarity), LinkPhase(s2, c2, similarity))
  {
    LinkPhaseExactly(s1, c1, similarity);
    LinkPhaseExactly(s2, c2, similarity);
    forall p ensures IsLinkPair(p, s1, c1, similarity) <==> IsLinkPair(p, s2, c2, similarity) {
      LookupIgnoresOrder(c1, c2, p.server.id);
    }
  }

  ghost predicate StrictlyRanked(rows: seq<Candidate>) {
    forall i, j :: 0 <= i < j < |rows| ==> rows[i].points > rows[j].points
  }

  lemma HasMember<T>(s: seq<T>)
    requires s != []
    ensures s[0] in s
  {}

  /** Two strictly ranked lists of the same candidates are the same list. */
  lemma {:induction false} StrictRankingIsUnique(a: seq<Candidate>, b: seq<Candidate>)
    requires StrictlyRanked(a) && StrictlyRanked(b)
    requires forall r :: r in a <==> r in b
    ensures a == b
  {
    if a == [] {
      if b != [] {
        HasMember(b);
      }
    } else {
      HasMember(a);
      assert a[0] in b && b != [] && b[0] in a;
      assert a[0] == b[0];
      assert a == [a[0]] + a[1..] && b == [b[0]] + b[1..];
      forall r ensures r in a[1..] <==> r in b[1..] {
        assert r in a[1..] <==> r in a && r != a[0];
        assert r in b[1..] <==> r in b && r != b[0];
      }
      StrictRankingIsUnique(a[1..], b[1..]);
    }
  }

  function RowIds(r: Candidate): (int, int) {
    (r.server.id, r.component.id)
  }

  lemma {:induction false} RowsAreDistinct(server: Server, components: seq<Component>, state: State, batch: set<int>,
                                           similarity: Similarity, endpointClass: bool)
    requires DistinctComponents(components)
    ensures StableSort.DistinctBy(RowCandidates(server, components, state, batch, similarity, endpointClass), RowIds)
  {
    if components != [] {
      var n := |components| - 1;
      RowsAreDistinct(server, components[..n], state, batch, similarity, endpointClass);
      RowMembers(server, components[..n], state, batch, similarity, endpointClass);
      var front := RowCandidates(server, components[..n], state, batch, similarity, endpointClass);
      forall r <- front ensures RowIds(r) != (server.id, components[n].id) {
        var k :| 0 <= k < n && components[..n][k] == r.component;
      }
    }
  }

  lemma {:induction false} CandidatesAreDistinct(servers: seq<Server>, components: seq<Component>, state: State, batch: set<int>,
                                                 similarity: Similarity, endpointClass: bool)
    requires DistinctServers(servers) && DistinctComponents(components)
    ensures StableSort.DistinctBy(Candidates(servers, components, state, batch, similarity, endpointClass), RowIds)
  {
    if servers != [] {
      var n := |servers| - 1;
      CandidatesAreDistinct(servers[..n], components, state, batch, similarity, endpointClass);
      CandidateMembers(servers[..n], components, state, batch, similarity, endpointClass);
      RowsAreDistinct(servers[n], components, state, batch, similarity, endpointClass);
      RowMembers(servers[n], components, state, batch, similarity, endpointClass);
      var front := Candidates(servers[..n], components, state, batch, similarity, endpointClass);
      var row := RowCandidates(servers[n], components, state, batch, similarity, endpointClass);
      forall r, q | r in front && q in row ensures RowIds(r) != RowIds(q) {
        var k :| 0 <= k < n && servers[..n][k] == r.server;
      }
    }
  }

  lemma RankedIsStrict(servers: seq<Server>, components: seq<Component>, similarity: Similarity, endpointClass: bool)
    requires DistinctServers(servers) && DistinctComponents(components) && NoTies(servers, components, similarity)
    ensures StrictlyRanked(Ranked(servers, components, similarity, endpointClass))
  {
    var linked := LinkPhase(servers, components, similarity);
    var rows := Candidates(servers, components, linked, Batch(servers), similarity, endpointClass);
    var ranked := Ranked(servers, components, similarity, endpointClass);
    CandidatesAreDistinct(servers, components, linked, Batch(servers), similarity, endpointClass);
    StableSort.SortKeepsDistinct(rows, ScoresNoLess, RowIds);
    RankedFacts(servers, components, similarity, endpointClass);
    forall i, j | 0 <= i < j < |ranked| ensures ranked[i].points > ranked[j].points {
      assert ScoresNoLess(ranked[i], ranked[j]);
      assert RowIds(ranked[i]) != RowIds(ranked[j]);
      assert ranked[i] in ranked && ranked[j] in ranked;
      assert IsCandidateRow(ranked[i], servers, components, linked, Batch(servers), similarity, endpointClass);
      assert IsCandidateRow(ranked[j], servers, components, linked, Batch(servers), similarity, endpointClass);
    }
  }

  lemma {:induction false} ConsumeIgnoresListOrder(a: State, b: State, rows: seq<Candidate>, batch: set<int>)
    requires SameState(a, b)
    ensures SameState(Consume(a, rows, batch), Consume(b, rows, batch))
  {
    if rows != [] {
      ConsumeIgnoresListOrder(a, b, rows[..|rows| - 1], batch);
    }
  }

  lemma RankedIgnoresOrder(s1: seq<Server>, s2: seq<Server>, c1: seq<Component>, c2: seq<Component>, similarity: Similarity,
                           endpointClass: bool)
    requires DistinctServers(s1) && DistinctServers(s2) && DistinctComponents(c1) && DistinctComponents(c2)
    requires DistinctLinks(c1) && DistinctLinks(c2)
    requires SameServers(s1, s2) && SameComponents(c1, c2) && NoTies(s1, c1, similarity)
    ensures Ranked(s1, c1, similarity, endpointClass) == Ranked(s2, c2, similarity, endpointClass)
  {
    LinkPhaseIgnoresOrder(s1, s2, c1, c2, similarity);
    RankedIsStrict(s1, c1, similarity, endpointClass);
    RankedIsStrict(s2, c2, similarity, endpointClass);
    RankedFacts(s1, c1, similarity, endpointClass);
    RankedFacts(s2, c2, similarity, endpointClass);
    assert Batch(s1) == Batch(s2);
    StrictRankingIsUnique(Ranked(s1, c1, similarity, endpointClass), Ranked(s2, c2, similarity, endpointClass));
  }

  /** Without ties, permuting the server list and the component list changes no pair and no flag or score of a pair. */
  lemma MatchIgnoresOrder(s1: seq<Server>, s2: seq<Server>, c1: seq<Component>, c2: seq<Component>, similarity: Similarity)
    requires DistinctServers(s1) && DistinctServers(s2) && DistinctComponents(c1) && DistinctComponents(c2)
    requires DistinctLinks(c1) && DistinctLinks(c2)
    requires SameServers(s1, s2) && SameComponents(c1, c2) && NoTies(s1, c1, similarity)
    ensures forall p :: p in Match(s1, c1, similarity).matched <==> p in Match(s2, c2, similarity).matched
    ensures SameServers(Match(s1, c1, similarity).newServers, Match(s2, c2, similarity).newServers)
    ensures SameComponents(Match(s1, c1, similarity).unmatchedLocal, Match(s2, c2, similarity).unmatchedLocal)
  {
    LinkPhaseIgnoresOrder(s1, s2, c1, c2, similarity);
    RankedIgnoresOrder(s1, s2, c1, c2, similarity, true);
    RankedIgnoresOrder(s1, s2, c1, c2, similarity, false);
    assert Batch(s1) == Batch(s2);
    var l1, l2 := LinkPhase(s1, c1, similarity), LinkPhase(s2, c2, similarity);
    ConsumeIgnoresListOrder(l1, l2, Ranked(s1, c1, similarity, true), Batch(s1));
    ConsumeIgnoresListOrder(Consume(l1, Ranked(s1, c1, similarity, true), Batch(s1)),
                            Consume(l2, Ranked(s1, c1, similarity, true), Batch(s1)),
                            Ranked(s1, c1, similarity, false), Batch(s1));
    NewServersExactly(s1, FinalState(s1, c1, similarity).usedServers);
    NewServersExactly(s2, FinalState(s2, c2, similarity).usedServers);
    UnmatchedExactly(c1, FinalState(s1, c1, similarity).usedComponents);
    UnmatchedExactly(c2, FinalState(s2, c2, similarity).usedComponents);
  }
}
