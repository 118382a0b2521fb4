/**
 Importing again after an import in which fetches failed and components were created. The table the import left, whatever
 it wrote into the components it relinked, is matched again with the same servers.
 */
module MatcherRetry {
  import opened Options
  import opened Matcher
  import opened MatcherProofs
  import opened DataGateImport
  import opened MatcherRerun
  import StableSort

  ghost function ServersOf(ids: set<(int, int)>): set<int> {
    set x | x in ids :: x.0
  }

  ghost function ComponentsOf(ids: set<(int, int)>): set<int> {
    set x | x in ids :: x.1
  }

  ghost predicate HasRow(table: seq<Component>, ids: (int, int)) {
    exists c :: c in table && c.id == ids.1 && c.link == Some(ids.0)
  }

  /**
   An import and the match after it: the servers whose configuration could not be fetched, the ids of new servers with the
   components created for them, the table left behind, and the scores of its rows.
   */
  datatype Retry = Retry(servers: seq<Server>, components: seq<Component>, similarity: Similarity, failed: set<int>,
                         created: set<(int, int)>, table: seq<Component>, later: Similarity)
  {
    function First(): Buckets {
      Match(servers, components, similarity)
    }

    function Again(): Buckets {
      Match(servers, table, later)
    }

    ghost function Written(): set<(int, int)> {
      PairIds(Applied(First().matched, failed)) + created
    }

    /** Rows the import did not write keep their order, link and scores; those it wrote may stand anywhere. */
    ghost predicate Valid() {
      && DistinctServers(servers) && DistinctComponents(components) && DistinctLinks(components)
      && DistinctComponents(table) && DistinctLinks(table)
      && UnmatchedLocal(table, ComponentsOf(Written())) == UnmatchedLocal(components, ComponentsOf(Written()))
      && (forall ids <- Written() :: HasRow(table, ids))
      && (forall ids <- created :: IsCreated(ids))
      && (forall s, c :: s in servers && c in components && c.id !in ComponentsOf(Written()) ==>
            later(s.id, c.id) == similarity(s.id, c.id))
    }

    ghost predicate IsCreated(ids: (int, int)) {
      && (exists s :: s in First().newServers && s.id == ids.0)
      && forall c <- components :: c.id != ids.1
    }

    /** Every row written scores enough for the server it was given. */
    ghost predicate StillAdmissible() {
      forall s, c :: s in servers && c in table && (s.id, c.id) in Written() ==> Admissible(s, c, later)
    }

    ghost function FirstLinks(): State {
      LinkPhase(servers, components, similarity)
    }

    ghost function LaterLinks(): State {
      LinkPhase(servers, table, later)
    }
  }

  // ---------- rows ----------

  lemma UnwrittenRow(r: Retry, c: Component)
    requires r.Valid() && c.id !in ComponentsOf(r.Written())
    ensures c in r.table <==> c in r.components
  {
    UnmatchedExactly(r.table, ComponentsOf(r.Written()));
    UnmatchedExactly(r.components, ComponentsOf(r.Written()));
    assert c in UnmatchedLocal(r.table, ComponentsOf(r.Written())) <==> c in r.table;
  }

  lemma WrittenRow(r: Retry, c: Component)
    requires r.Valid() && c in r.table && c.id in ComponentsOf(r.Written())
    ensures c.link.Some? && (c.link.value, c.id) in r.Written()
  {
    var ids :| ids in r.Written() && ids.1 == c.id;
    assert HasRow(r.table, ids);
  }

  /** A row holding a server that was written is the row written for it. */
  lemma HolderOfWritten(r: Retry, c: Component)
    requires r.Valid() && c in r.table && c.link.Some? && c.link.value in ServersOf(r.Written())
    ensures (c.link.value, c.id) in r.Written()
  {
    var ids :| ids in r.Written() && ids.0 == c.link.value;
    assert HasRow(r.table, ids);
    var row :| row in r.table && row.id == ids.1 && row.link == Some(ids.0);
    assert LinkedComponent(r.table, ids.0) == Some(row) by { LookupOfDistinct(r.table, row); }
    LookupOfDistinct(r.table, c);
  }

  lemma WrittenServer(r: Retry, ids: (int, int)) returns (server: Server)
    requires r.Valid() && ids in r.Written()
    ensures server in r.servers && server.id == ids.0
  {
    FinalFacts(r.servers, r.components, r.similarity);
    if ids in r.created {
      NewServersExactly(r.servers, FinalState(r.servers, r.components, r.similarity).usedServers);
      assert r.IsCreated(ids);
      server :| server in r.First().newServers && server.id == ids.0;
    } else {
      AppliedFacts(r.First().matched, r.failed);
      var p :| p in Applied(r.First().matched, r.failed) && (p.server.id, p.component.id) == ids;
      server := p.server;
    }
  }

  lemma CreatedIsOther(r: Retry, p: Pair, ids: (int, int))
    requires r.Valid() && p in r.First().matched && ids in r.created
    ensures ids.0 != p.server.id && ids.1 != p.component.id
  {
    FinalFacts(r.servers, r.components, r.similarity);
    assert r.IsCreated(ids);
    NewServersExactly(r.servers, FinalState(r.servers, r.components, r.similarity).usedServers);
  }

  lemma AppliedIsOther(matched: seq<Pair>, failed: set<int>, p: Pair, ids: (int, int))
    requires OneToOne(matched) && p in matched && p.server.id in failed && ids in PairIds(Applied(matched, failed))
    ensures ids.0 != p.server.id && ids.1 != p.component.id
  {
    AppliedFacts(matched, failed);
    var q :| q in Applied(matched, failed) && (q.server.id, q.component.id) == ids;
    assert q in matched && q.server.id != p.server.id;
  }

  /** A pair whose fetch failed touches nothing that was written. */
  lemma FailedPairIsFree(r: Retry, p: Pair)
    requires r.Valid() && p in r.First().matched && p.server.id in r.failed
    ensures p.server.id !in ServersOf(r.Written()) && p.component.id !in ComponentsOf(r.Written())
  {
    FinalFacts(r.servers, r.components, r.similarity);
    forall ids <- r.Written() ensures ids.0 != p.server.id && ids.1 != p.component.id {
      if ids in r.created {
        CreatedIsOther(r, p, ids);
      } else {
        AppliedIsOther(r.First().matched, r.failed, p, ids);
      }
    }
  }

  /** Nor does the server its component was linked to. */
  lemma FailedLinkIsFree(r: Retry, p: Pair)
    requires r.Valid() && p in r.First().matched && p.server.id in r.failed && p.component.link.Some?
    ensures p.component.link.value !in ServersOf(r.Written())
  {
    FinalFacts(r.servers, r.components, r.similarity);
    FailedPairIsFree(r, p);
    UnwrittenRow(r, p.component);
    if p.component.link.value in ServersOf(r.Written()) {
      HolderOfWritten(r, p.component);
    }
  }

  // ---------- the link phase of the retry ----------

  lemma WrittenIsLinked(r: Retry, ids: (int, int))
    requires r.Valid() && r.StillAdmissible() && ids in r.Written()
    ensures ids in PairIds(r.LaterLinks().matched)
  {
    var server := WrittenServer(r, ids);
    assert HasRow(r.table, ids);
    var row :| row in r.table && row.id == ids.1 && row.link == Some(ids.0);
    LookupOfDistinct(r.table, row);
    LinkPhaseExactly(r.servers, r.table, r.later);
    assert Admissible(server, row, r.later);
    assert IsLinkPair(LinkedPair(server, row, ScorePair(server, row, r.later)), r.servers, r.table, r.later);
  }

  lemma FirstLinkStays(r: Retry, p: Pair)
    requires r.Valid() && r.StillAdmissible() && p in r.FirstLinks().matched
    ensures (p.server.id, p.component.id) in PairIds(r.LaterLinks().matched)
  {
    FinalFacts(r.servers, r.components, r.similarity);
    LinkPhaseExactly(r.servers, r.components, r.similarity);
    AppliedFacts(r.First().matched, r.failed);
    if p.server.id in r.failed {
      FailedPairIsFree(r, p);
      UnwrittenRow(r, p.component);
      LookupFinds(r.components, p.server.id);
      LookupOfDistinct(r.table, p.component);
      LinkPhaseExactly(r.servers, r.table, r.later);
      assert IsLinkPair(LinkedPair(p.server, p.component, ScorePair(p.server, p.component, r.later)), r.servers, r.table, r.later);
    } else {
      assert p in Applied(r.First().matched, r.failed);
      WrittenIsLinked(r, (p.server.id, p.component.id));
    }
  }

  lemma LaterLinkIsOld(r: Retry, q: Pair)
    requires r.Valid() && q in r.LaterLinks().matched
    ensures (q.server.id, q.component.id) in PairIds(r.FirstLinks().matched) + r.Written()
  {
    LinkPhaseExactly(r.servers, r.table, r.later);
    LookupFinds(r.table, q.server.id);
    if q.component.id in ComponentsOf(r.Written()) {
      WrittenRow(r, q.component);
    } else {
      UnwrittenRow(r, q.component);
      LookupOfDistinct(r.components, q.component);
      LinkPhaseExactly(r.servers, r.components, r.similarity);
      var p := LinkedPair(q.server, q.component, ScorePair(q.server, q.component, r.similarity));
      assert IsLinkPair(p, r.servers, r.components, r.similarity);
    }
  }

  /** The state `b` has matched what `a` has, and the ids of `extra`. */
  ghost predicate Extends(b: State, a: State, extra: set<(int, int)>) {
    && Coherent(a) && Coherent(b)
    && PairIds(b.matched) == PairIds(a.matched) + extra
  }

  lemma ExtendsUsed(b: State, a: State, extra: set<(int, int)>)
    requires Extends(b, a, extra)
    ensures b.usedServers == a.usedServers + ServersOf(extra)
    ensures b.usedComponents == a.usedComponents + ComponentsOf(extra)
  {
    UsedFromIds(a);
    UsedFromIds(b);
  }

  lemma LaterLinksExtend(r: Retry)
    requires r.Valid() && r.StillAdmissible()
    ensures Extends(r.LaterLinks(), r.FirstLinks(), r.Written())
  {
    LinkPhaseExactly(r.servers, r.components, r.similarity);
    LinkPhaseExactly(r.servers, r.table, r.later);
    forall p <- r.FirstLinks().matched ensures (p.server.id, p.component.id) in PairIds(r.LaterLinks().matched) {
      FirstLinkStays(r, p);
    }
    forall ids <- r.Written() ensures ids in PairIds(r.LaterLinks().matched) {
      WrittenIsLinked(r, ids);
    }
    forall q <- r.LaterLinks().matched ensures (q.server.id, q.component.id) in PairIds(r.FirstLinks().matched) + r.Written() {
      LaterLinkIsOld(r, q);
    }
  }

  // ---------- the candidates of the retry ----------

  /** The candidates that can still be taken in a given state. */
  function Takable(state: State, batch: set<int>): Candidate -> bool {
    (row: Candidate) => CanTake(state, row, batch)
  }

  function Remaining(rows: seq<Candidate>, state: State, batch: set<int>): seq<Candidate> {
    StableSort.Filter(rows, Takable(state, batch))
  }

  lemma {:induction false} UsedComponentsDrop(server: Server, components: seq<Component>, used: set<int>, state: State,
                                              batch: set<int>, similarity: Similarity, endpointClass: bool)
    requires used <= state.usedComponents
    ensures RowCandidates(server, UnmatchedLocal(components, used), state, batch, similarity, endpointClass)
            == RowCandidates(server, components, state, batch, similarity, endpointClass)
  {
    if components != [] {
      var n := |components| - 1;
      var front := UnmatchedLocal(components[..n], used);
      UsedComponentsDrop(server, components[..n], used, state, batch, similarity, endpointClass);
      assert (front + [components[n]])[..|front|] == front;
    }
  }

  lemma {:induction false} EqualScoresEqualRows(server: Server, components: seq<Component>, state: State, batch: set<int>,
                                                a: Similarity, b: Similarity, endpointClass: bool)
    requires forall c <- components :: a(server.id, c.id) == b(server.id, c.id)
    ensures RowCandidates(server, components, state, batch, a, endpointClass)
            == RowCandidates(server, components, state, batch, b, endpointClass)
  {
    if components != [] {
      EqualScoresEqualRows(server, components[..|components| - 1], state, batch, a, b, endpointClass);
    }
  }

  lemma {:induction false} LaterStateKeepsRows(server: Server, components: seq<Component>, early: State, late: State,
                                               batch: set<int>, similarity: Similarity, endpointClass: bool)
    requires early.usedServers <= late.usedServers && early.usedComponents <= late.usedComponents
    ensures RowCandidates(server, components, late, batch, similarity, endpointClass)
            == Remaining(RowCandidates(server, components, early, batch, similarity, endpointClass), late, batch)
  {
    if components != [] {
      var n := |components| - 1;
      var front := RowCandidates(server, components[..n], early, batch, similarity, endpointClass);
      LaterStateKeepsRows(server, components[..n], early, late, batch, similarity, endpointClass);
      StableSort.FilterAppend(front, [CandidateOf(server, components[n], similarity)], Takable(late, batch));
    }
  }

  lemma RetryRow(r: Retry, server: Server, endpointClass: bool)
    requires r.Valid() && r.StillAdmissible() && server in r.servers
    ensures RowCandidates(server, r.table, r.LaterLinks(), Batch(r.servers), r.later, endpointClass)
            == Remaining(RowCandidates(server, r.components, r.FirstLinks(), Batch(r.servers), r.similarity, endpointClass),
                         r.LaterLinks(), Batch(r.servers))
  {
    var used, late, batch := ComponentsOf(r.Written()), r.LaterLinks(), Batch(r.servers);
    LaterLinksExtend(r);
    ExtendsUsed(late, r.FirstLinks(), r.Written());
    UsedComponentsDrop(server, r.table, used, late, batch, r.later, endpointClass);
    UsedComponentsDrop(server, r.components, used, late, batch, r.similarity, endpointClass);
    UnmatchedExactly(r.components, used);
    EqualScoresEqualRows(server, UnmatchedLocal(r.components, used), late, batch, r.later, r.similarity, endpointClass);
    LaterStateKeepsRows(server, r.components, r.FirstLinks(), late, batch, r.similarity, endpointClass);
  }

  lemma {:induction false} RetryCandidates(r: Retry, servers: seq<Server>, endpointClass: bool)
    requires r.Valid() && r.StillAdmissible() && forall s <- servers :: s in r.servers
    ensures Candidates(servers, r.table, r.LaterLinks(), Batch(r.servers), r.later, endpointClass)
            == Remaining(Candidates(servers, r.components, r.FirstLinks(), Batch(r.servers), r.similarity, endpointClass),
                         r.LaterLinks(), Batch(r.servers))
  {
    if servers != [] {
      var n := |servers| - 1;
      RetryCandidates(r, servers[..n], endpointClass);
      RetryRow(r, servers[n], endpointClass);
      StableSort.FilterAppend(
        Candidates(servers[..n], r.components, r.FirstLinks(), Batch(r.servers), r.similarity, endpointClass),
        RowCandidates(servers[n], r.components, r.FirstLinks(), Batch(r.servers), r.similarity, endpointClass),
        Takable(r.LaterLinks(), Batch(r.servers)));
    }
  }

  /** The retry tries, in the same order, what is left of the candidates of the first match. */
  lemma RetryOrder(r: Retry)
    requires r.Valid() && r.StillAdmissible()
    ensures Order(r.servers, r.table, r.later)
            == Remaining(Order(r.servers, r.components, r.similarity), r.LaterLinks(), Batch(r.servers))
  {
    var keep := Takable(r.LaterLinks(), Batch(r.servers));
    assert StableSort.TotalPreorder(ScoresNoLess);
    forall endpointClass: bool
      ensures Ranked(r.servers, r.table, r.later, endpointClass)
              == StableSort.Filter(Ranked(r.servers, r.components, r.similarity, endpointClass), keep)
    {
      RetryCandidates(r, r.servers, endpointClass);
      StableSort.SortFilters(
        Candidates(r.servers, r.components, r.FirstLinks(), Batch(r.servers), r.similarity, endpointClass), ScoresNoLess, keep);
    }
    StableSort.FilterAppend(Ranked(r.servers, r.components, r.similarity, true),
                            Ranked(r.servers, r.components, r.similarity, false), keep);
  }

  // ---------- the two greedy passes side by side ----------

  /** A candidate the first match took although the retry cannot take it was written. */
  ghost predicate TakenIsWritten(row: Candidate, late: State, taken: State, batch: set<int>, written: set<(int, int)>) {
    !CanTake(late, row, batch) && PairOf(row) in taken.matched ==> (row.server.id, row.component.id) in written
  }

  /** With `written` already in place, trying only the remaining candidates reaches the same pairs. */
  lemma {:induction false} RemainingReachesSame(early: State, late: State, rows: seq<Candidate>, batch: set<int>,
                                                written: set<(int, int)>)
    requires Extends(late, early, written)
    requires forall row <- rows :: TakenIsWritten(row, late, Consume(early, rows, batch), batch, written)
    ensures Extends(Consume(late, Remaining(rows, late, batch), batch), Consume(early, rows, batch), written)
  {
    if rows != [] {
      var n := |rows| - 1;
      var front, row := rows[..n], rows[n];
      var before, after := Consume(early, front, batch), Consume(early, rows, batch);
      assert before.matched <= after.matched;
      forall x <- front ensures TakenIsWritten(x, late, before, batch, written) {
        assert x in rows && TakenIsWritten(x, late, after, batch, written);
      }
      RemainingReachesSame(early, late, front, batch, written);
      assert rows == front + [row];
      StableSort.FilterAppend(front, [row], Takable(late, batch));
      assert TakenIsWritten(row, late, after, batch, written);
      SameStep(early, late, front, row, batch, written);
    }
  }

  lemma SameStep(early: State, late: State, front: seq<Candidate>, row: Candidate, batch: set<int>, written: set<(int, int)>)
    requires Extends(late, early, written)
    requires Extends(Consume(late, Remaining(front, late, batch), batch), Consume(early, front, batch), written)
    requires TakenIsWritten(row, late, Consume(early, front + [row], batch), batch, written)
    ensures Extends(Consume(late, Remaining(front + [row], late, batch), batch), Consume(early, front + [row], batch), written)
  {
    var kept := Remaining(front, late, batch);
    var a, b := Consume(early, front, batch), Consume(late, kept, batch);
    RemainingOneMore(front, row, late, batch);
    ConsumeOneMore(early, front, row, batch);
    if CanTake(late, row, batch) {
      ConsumeOneMore(late, kept, row, batch);
      ExtendsUsed(late, early, written);
      ExtendsUsed(b, a, written);
      ConsumeKeeps(late, kept, batch);
      SameTaken(early, late, a, b, row, batch, written);
      AddPairExtends(a, b, PairOf(row), written);
    } else if CanTake(a, row, batch) {
      WrittenAddsNothing(a, b, PairOf(row), written);
    }
  }

  lemma RemainingOneMore(front: seq<Candidate>, row: Candidate, late: State, batch: set<int>)
    ensures Remaining(front + [row], late, batch)
            == if CanTake(late, row, batch) then Remaining(front, late, batch) + [row] else Remaining(front, late, batch)
  {
    StableSort.FilterAppend(front, [row], Takable(late, batch));
  }

  lemma SameTaken(early: State, late: State, a: State, b: State, row: Candidate, batch: set<int>, written: set<(int, int)>)
    requires CanTake(late, row, batch)
    requires late.usedServers == early.usedServers + ServersOf(written)
    requires late.usedComponents == early.usedComponents + ComponentsOf(written)
    requires b.usedServers == a.usedServers + ServersOf(written)
    requires b.usedComponents == a.usedComponents + ComponentsOf(written)
    ensures CanTake(a, row, batch) <==> CanTake(b, row, batch)
  {}

  lemma AddPairExtends(a: State, b: State, pair: Pair, written: set<(int, int)>)
    requires Extends(b, a, written)
    ensures Extends(AddPair(b, pair), AddPair(a, pair), written)
  {
    AddPairCoherent(a, pair);
    AddPairIds(a, pair);
    AddPairCoherent(b, pair);
    AddPairIds(b, pair);
  }

  lemma WrittenAddsNothing(a: State, b: State, pair: Pair, written: set<(int, int)>)
    requires Extends(b, a, written) && (pair.server.id, pair.component.id) in written
    ensures Extends(b, AddPair(a, pair), written)
  {
    AddPairCoherent(a, pair);
    AddPairIds(a, pair);
  }

  lemma ConsumeOneMore(state: State, front: seq<Candidate>, row: Candidate, batch: set<int>)
    ensures var before := Consume(state, front, batch);
            Consume(state, front + [row], batch) == if CanTake(before, row, batch) then AddPair(before, PairOf(row)) else before
  {
    assert (front + [row])[..|front|] == front;
  }

  lemma AddPairIds(state: State, pair: Pair)
    ensures PairIds(AddPair(state, pair).matched) == PairIds(state.matched) + {(pair.server.id, pair.component.id)}
  {}

  lemma CandidateTakenIsWritten(r: Retry, row: Candidate)
    requires r.Valid() && r.StillAdmissible() && row in Order(r.servers, r.components, r.similarity)
    ensures TakenIsWritten(row, r.LaterLinks(), FinalState(r.servers, r.components, r.similarity), Batch(r.servers), r.Written())
  {
    var p := PairOf(row);
    if p in r.First().matched {
      FinalFacts(r.servers, r.components, r.similarity);
      AppliedFacts(r.First().matched, r.failed);
      if p.server.id in r.failed {
        RankedFacts(r.servers, r.components, r.similarity, true);
        RankedFacts(r.servers, r.components, r.similarity, false);
        LaterLinksExtend(r);
        ExtendsUsed(r.LaterLinks(), r.FirstLinks(), r.Written());
        FailedPairIsFree(r, p);
        if p.component.link.Some? {
          FailedLinkIsFree(r, p);
        }
        assert CanTake(r.LaterLinks(), row, Batch(r.servers));
      } else {
        assert p in Applied(r.First().matched, r.failed);
      }
    }
  }

  lemma RetryExtends(r: Retry)
    requires r.Valid() && r.StillAdmissible()
    ensures Extends(FinalState(r.servers, r.table, r.later), FinalState(r.servers, r.components, r.similarity), r.Written())
  {
    var order, batch := Order(r.servers, r.components, r.similarity), Batch(r.servers);
    LaterLinksExtend(r);
    RetryOrder(r);
    FinalIsOnePass(r.servers, r.components, r.similarity);
    FinalIsOnePass(r.servers, r.table, r.later);
    forall row <- order
      ensures TakenIsWritten(row, r.LaterLinks(), Consume(r.FirstLinks(), order, batch), batch, r.Written())
    {
      CandidateTakenIsWritten(r, row);
    }
    RemainingReachesSame(r.FirstLinks(), r.LaterLinks(), order, batch, r.Written());
  }

  // ---------- the result of the retry ----------

  ghost function LinkedIds(matched: seq<Pair>): set<(int, int)> {
    set p | p in matched && p.alreadyLinked :: (p.server.id, p.component.id)
  }

  /**
   The retry finds the pairs of the first match and the created ones; those that were written, or were linked before, as
   already linked; and as new servers those for which no component was created.
   */
  ghost predicate IsRepeated(r: Retry) {
    && PairIds(r.Again().matched) == PairIds(r.First().matched) + r.created
    && LinkedIds(r.Again().matched) == LinkedIds(r.First().matched) + r.Written()
    && r.Again().newServers == NewServers(r.First().newServers, ServersOf(r.created))
  }

  lemma LinkedIdsExactly(servers: seq<Server>, components: seq<Component>, similarity: Similarity)
    ensures LinkedIds(FinalState(servers, components, similarity).matched) == PairIds(LinkPhase(servers, components, similarity).matched)
  {
    FinalFacts(servers, components, similarity);
    LinkPhaseExactly(servers, components, similarity);
  }

  lemma {:induction false} NewServersInSteps(servers: seq<Server>, a: set<int>, b: set<int>)
    ensures NewServers(servers, a + b) == NewServers(NewServers(servers, a), b)
  {
    if servers != [] {
      var n := |servers| - 1;
      var front := NewServers(servers[..n], a);
      NewServersInSteps(servers[..n], a, b);
      assert (front + [servers[n]])[..|front|] == front;
    }
  }

  lemma AppliedIds(state: State, failed: set<int>)
    requires Coherent(state) && OneToOne(state.matched)
    ensures PairIds(Applied(state.matched, failed)) <= PairIds(state.matched)
    ensures ServersOf(PairIds(Applied(state.matched, failed))) <= state.usedServers
  {
    AppliedFacts(state.matched, failed);
    forall p <- Applied(state.matched, failed)
      ensures (p.server.id, p.component.id) in PairIds(state.matched) && p.server.id in state.usedServers
    {
      assert p in state.matched;
    }
  }

  lemma RetryLinks(r: Retry)
    requires r.Valid() && r.StillAdmissible()
    ensures LinkedIds(r.Again().matched) == LinkedIds(r.First().matched) + r.Written()
  {
    LaterLinksExtend(r);
    LinkedIdsExactly(r.servers, r.components, r.similarity);
    LinkedIdsExactly(r.servers, r.table, r.later);
  }

  lemma RetryPairs(r: Retry)
    requires r.Valid() && r.StillAdmissible()
    ensures PairIds(r.Again().matched) == PairIds(r.First().matched) + r.created
    ensures r.Again().newServers == NewServers(r.First().newServers, ServersOf(r.created))
  {
    var final := FinalState(r.servers, r.components, r.similarity);
    var again := FinalState(r.servers, r.table, r.later);
    RetryExtends(r);
    ExtendsUsed(again, final, r.Written());
    FinalFacts(r.servers, r.components, r.similarity);
    AppliedIds(final, r.failed);
    UsedByRetry(again.usedServers, final.usedServers, ServersOf(r.Written()), ServersOf(r.created));
    NewServersInSteps(r.servers, final.usedServers, ServersOf(r.created));
  }

  lemma UsedByRetry(again: set<int>, first: set<int>, written: set<int>, created: set<int>)
    requires again == first + written && written <= first + created && created <= written
    ensures again == first + created
  {}

  lemma LinkedExactly(servers: seq<Server>, components: seq<Component>, similarity: Similarity, server: Server, c: Component)
    requires server in servers && LinkedComponent(components, server.id) == Some(c)
    requires DistinctServers(servers)
    ensures (server.id, c.id) in LinkedIds(FinalState(servers, components, similarity).matched) <==> Admissible(server, c, similarity)
  {
    LinkedIdsExactly(servers, components, similarity);
    LinkPhaseExactly(servers, components, similarity);
    var linked := LinkPhase(servers, components, similarity).matched;
    if Admissible(server, c, similarity) {
      assert IsLinkPair(LinkedPair(server, c, ScorePair(server, c, similarity)), servers, components, similarity);
    }
    if (server.id, c.id) in PairIds(linked) {
      var q :| q in linked && q.server.id == server.id && q.component.id == c.id;
      assert IsLinkPair(q, servers, components, similarity);
    }
  }

  /** A row written is matched again as already linked exactly when it is still admissible, whatever became of the others. */
  lemma WrittenStaysExactly(r: Retry, server: Server, c: Component)
    requires r.Valid() && server in r.servers && c in r.table && (server.id, c.id) in r.Written()
    ensures (server.id, c.id) in LinkedIds(r.Again().matched) <==> Admissible(server, c, r.later)
  {
    assert HasRow(r.table, (server.id, c.id));
    var row :| row in r.table && row.id == c.id && row.link == Some(server.id);
    SameIdSameComponent(r.table, row, c);
    LookupOfDistinct(r.table, c);
    LinkedExactly(r.servers, r.table, r.later, server, c);
  }

  /**
   Whatever fetches failed and whatever components were created: importing again takes up where the import stopped exactly
   when every row it wrote is still admissible for its server with the name and configuration it wrote.
   */
  lemma RetryRepeatsExactly(r: Retry)
    requires r.Valid()
    ensures IsRepeated(r) <==> r.StillAdmissible()
  {
    if r.StillAdmissible() {
      RetryLinks(r);
      RetryPairs(r);
    }
    if IsRepeated(r) {
      forall s, c | s in r.servers && c in r.table && (s.id, c.id) in r.Written() ensures Admissible(s, c, r.later) {
        WrittenStaysExactly(r, s, c);
      }
    }
  }

  // ---------- the tables that imports leave ----------

  lemma {:induction false} UnmatchedAppend(a: seq<Component>, b: seq<Component>, used: set<int>)
    ensures UnmatchedLocal(a + b, used) == UnmatchedLocal(a, used) + UnmatchedLocal(b, used)
  {
    if b == [] {
      assert a + b == a;
    } else {
      var n := |b| - 1;
      assert (a + b)[..|a| + n] == a + b[..n];
      UnmatchedAppend(a, b[..n], used);
    }
  }

  lemma {:induction false} UsedAreDropped(components: seq<Component>, used: set<int>)
    requires forall c <- components :: c.id in used
    ensures UnmatchedLocal(components, used) == []
  {
    if components != [] {
      UsedAreDropped(components[..|components| - 1], used);
    }
  }

  lemma {:induction false} RelinkedAreDropped(components: seq<Component>, pairs: seq<Pair>, protocols: Protocols, used: set<int>)
    requires OneToOne(pairs) && forall p <- pairs :: p.component.id in used
    ensures UnmatchedLocal(Relink(components, pairs, protocols), used) == UnmatchedLocal(components, used)
  {
    if components != [] {
      var n := |components| - 1;
      RelinkedAreDropped(components[..n], pairs, protocols, used);
      assert Relink(components, pairs, protocols)[..n] == Relink(components[..n], pairs, protocols);
      RelinkedShape(components[n], pairs, protocols);
      RelinkedExactly(components[n], pairs, protocols);
    }
  }

  ghost function CreatedIds(rows: seq<Component>): set<(int, int)> {
    set c | c in rows && c.link.Some? :: (c.link.value, c.id)
  }

  /** The rows the import added: each for one of the new servers, under an id of its own. */
  ghost predicate AreCreated(rows: seq<Component>, newServers: seq<Server>) {
    forall c <- rows :: exists s :: s in newServers && c.link == Some(s.id)
  }

  ghost predicate OthersScoreAsBefore(r: Retry) {
    forall s, c :: s in r.servers && c in r.components && c.id !in ComponentsOf(r.Written()) ==>
      r.later(s.id, c.id) == r.similarity(s.id, c.id)
  }

  /** The table of an import: the matched rows relinked, the created rows added. The index makes its links distinct. */
  lemma ImportLeavesRetry(r: Retry, protocols: Protocols, rows: seq<Component>)
    requires DistinctServers(r.servers) && DistinctComponents(r.components) && DistinctLinks(r.components)
    requires AreCreated(rows, r.First().newServers) && r.created == CreatedIds(rows)
    requires r.table == Relink(r.components, Applied(r.First().matched, r.failed), protocols) + rows
    requires DistinctComponents(r.table) && DistinctLinks(r.table) && OthersScoreAsBefore(r)
    ensures r.Valid()
  {
    var applied, used := Applied(r.First().matched, r.failed), ComponentsOf(r.Written());
    FinalFacts(r.servers, r.components, r.similarity);
    AppliedFacts(r.First().matched, r.failed);
    forall p <- applied ensures p.component.id in used {
      assert (p.server.id, p.component.id) in PairIds(applied);
    }
    forall c <- rows ensures c.id in used {
      assert (c.link.value, c.id) in r.created;
    }
    UnmatchedAppend(Relink(r.components, applied, protocols), rows, used);
    RelinkedAreDropped(r.components, applied, protocols, used);
    UsedAreDropped(rows, used);
    forall ids <- r.Written() ensures HasRow(r.table, ids) {
      WrittenHasRow(r, protocols, rows, ids);
    }
    forall ids <- r.created ensures r.IsCreated(ids) {
      CreatedHasOwnId(r, protocols, rows, ids);
    }
  }

  lemma WrittenHasRow(r: Retry, protocols: Protocols, rows: seq<Component>, ids: (int, int))
    requires DistinctServers(r.servers) && DistinctComponents(r.components) && r.created == CreatedIds(rows)
    requires r.table == Relink(r.components, Applied(r.First().matched, r.failed), protocols) + rows
    requires ids in r.Written()
    ensures HasRow(r.table, ids)
  {
    var applied := Applied(r.First().matched, r.failed);
    if ids in r.created {
      var c :| c in rows && c.link == Some(ids.0) && c.id == ids.1;
      assert c in r.table;
    } else {
      FinalFacts(r.servers, r.components, r.similarity);
      AppliedFacts(r.First().matched, r.failed);
      var p :| p in applied && (p.server.id, p.component.id) == ids;
      var k :| 0 <= k < |r.components| && r.components[k] == p.component;
      RelinkedExactly(p.component, applied, protocols);
      assert r.table[k] in r.table && r.table[k].link == Some(ids.0);
    }
  }

  lemma CreatedHasOwnId(r: Retry, protocols: Protocols, rows: seq<Component>, ids: (int, int))
    requires AreCreated(rows, r.First().newServers) && r.created == CreatedIds(rows) && ids in r.created
    requires r.table == Relink(r.components, Applied(r.First().matched, r.failed), protocols) + rows
    requires DistinctComponents(r.table)
    ensures r.IsCreated(ids)
  {
    var c :| c in rows && c.link == Some(ids.0) && c.id == ids.1;
    var j :| 0 <= j < |rows| && rows[j] == c;
    assert r.table[|r.components| + j] == c;
    forall x | x in r.components ensures x.id != ids.1 {
      var k :| 0 <= k < |r.components| && r.components[k] == x;
      RelinkedShape(x, Applied(r.First().matched, r.failed), protocols);
      assert r.table[k].id == x.id;
    }
  }

  /** Storing row by row leaves distinct links, in the order of the flush and in any other. */
  lemma StoredIsDistinct(rows: seq<Component>, components: seq<Component>, pairs: seq<Pair>, protocols: Protocols)
    requires DistinctComponents(components) && DistinctLinks(components) && IsFlushOrder(rows, components)
    requires OneToOne(pairs) && forall p <- pairs :: p.component in components
    requires IsStorable(rows, pairs, protocols)
    ensures DistinctLinks(Relink(components, pairs, protocols))
  {
    OrderKeepsLinks(rows, components);
    assert Flushed(rows, pairs, protocols, |rows|) == Relink(rows, pairs, protocols);
    FinalTableExactly(rows, pairs, protocols);
    FinalTableExactly(components, pairs, protocols);
  }

  /** An import that was stored and in which nothing failed or was new is a fixed point while its rows stay admissible. */
  lemma StoredImportIsFixedPoint(servers: seq<Server>, components: seq<Component>, similarity: Similarity,
                                 protocols: Protocols, later: Similarity, rows: seq<Component>)
    requires DistinctServers(servers) && DistinctComponents(components) && DistinctLinks(components)
    requires LeavesOthers(servers, components, similarity, later)
    requires IsFlushOrder(rows, components) && IsStorable(rows, Match(servers, components, similarity).matched, protocols)
    ensures var first := Match(servers, components, similarity);
            SameAgain(first, Match(servers, Relink(components, first.matched, protocols), later)) <==>
              forall p <- first.matched :: StaysAdmissible(p, protocols, later)
  {
    FinalFacts(servers, components, similarity);
    StoredIsDistinct(rows, components, FinalState(servers, components, similarity).matched, protocols);
    DistinctLinksGiveFixedPoint(servers, components, similarity, protocols, later);
  }
}
