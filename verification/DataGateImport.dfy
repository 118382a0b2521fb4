/** What an import makes of the matched components, and which imports the unique index over links lets through. */
module DataGateImport {
  import opened Options
  import opened Matcher
  import opened MatcherProofs

  /** The protocol a component shows, by its id, once the import has replaced its name and configuration. */
  type Protocols = int -> Option<Proto>

  /** A component after the pairs were applied in order: its new link, and the protocol its new texts show. */
  function Relinked(component: Component, pairs: seq<Pair>, protocols: Protocols): Component {
    if pairs == [] then component
    else
      var last := pairs[|pairs| - 1];
      if last.component.id == component.id then component.(link := Some(last.server.id), proto := protocols(component.id))
      else Relinked(component, pairs[..|pairs| - 1], protocols)
  }

  function Relink(components: seq<Component>, pairs: seq<Pair>, protocols: Protocols): seq<Component> {
    seq(|components|, i requires 0 <= i < |components| => Relinked(components[i], pairs, protocols))
  }

  /** The pairs whose configuration could be fetched. */
  function Applied(matched: seq<Pair>, failed: set<int>): seq<Pair> {
    if matched == [] then []
    else
      var front, last := Applied(matched[..|matched| - 1], failed), matched[|matched| - 1];
      if last.server.id in failed then front else front + [last]
  }

  lemma {:induction false} OneMorePair(component: Component, pairs: seq<Pair>, next: Pair, protocols: Protocols)
    ensures Relinked(component, pairs, protocols).id == component.id
    ensures Relinked(component, pairs + [next], protocols)
            == if next.component.id == component.id
               then Relinked(component, pairs, protocols).(link := Some(next.server.id), proto := protocols(component.id))
               else Relinked(component, pairs, protocols)
  {
    assert (pairs + [next])[..|pairs|] == pairs;
    RelinkedShape(component, pairs, protocols);
  }

  lemma {:induction false} RelinkedShape(component: Component, pairs: seq<Pair>, protocols: Protocols)
    ensures var after := Relinked(component, pairs, protocols);
            after.id == component.id && after.checkType == component.checkType
  {
    if pairs != [] {
      RelinkedShape(component, pairs[..|pairs| - 1], protocols);
    }
  }

  /** The import loop over matched pairs: a pair whose fetch fails leaves its component unchanged. */
  method ImportMatched(components: array<Component>, matched: seq<Pair>, failed: set<int>, protocols: Protocols)
    returns (updated: nat, errors: nat)
    modifies components
    ensures components[..] == Relink(old(components[..]), Applied(matched, failed), protocols)
    ensures updated == |Applied(matched, failed)| && updated + errors == |matched|
  {
    updated, errors := 0, 0;
    for k := 0 to |matched|
      invariant components[..] == Relink(old(components[..]), Applied(matched[..k], failed), protocols)
      invariant updated == |Applied(matched[..k], failed)| && updated + errors == k
    {
      assert matched[..k + 1][..k] == matched[..k];
      var pair := matched[k];
      if pair.server.id in failed {
        errors := errors + 1;
      } else {
        UpdateComponent(components, pair, protocols, old(components[..]), Applied(matched[..k], failed));
        updated := updated + 1;
      }
    }
    assert matched[..|matched|] == matched;
  }

  method UpdateComponent(components: array<Component>, pair: Pair, protocols: Protocols,
                         ghost before: seq<Component>, ghost pairs: seq<Pair>)
    requires components[..] == Relink(before, pairs, protocols)
    modifies components
    ensures components[..] == Relink(before, pairs + [pair], protocols)
  {
    forall i | 0 <= i < |before| ensures components[i] == Relinked(before[i], pairs, protocols) {
      assert components[i] == components[..][i];
    }
    forall i | 0 <= i < components.Length && components[i].id == pair.component.id {
      components[i] := components[i].(link := Some(pair.server.id), proto := protocols(components[i].id));
    }
    forall i | 0 <= i < |before| ensures components[i] == Relinked(before[i], pairs + [pair], protocols) {
      OneMorePair(before[i], pairs, pair, protocols);
    }
  }

  // ---------- what relinking does ----------

  ghost predicate IsRelinked(component: Component, pairs: seq<Pair>) {
    exists p :: p in pairs && p.component.id == component.id
  }

  lemma {:induction false} RelinkedExactly(component: Component, pairs: seq<Pair>, protocols: Protocols)
    requires OneToOne(pairs)
    ensures forall p <- pairs :: p.component.id == component.id ==>
              Relinked(component, pairs, protocols) == component.(link := Some(p.server.id), proto := protocols(component.id))
    ensures !IsRelinked(component, pairs) ==> Relinked(component, pairs, protocols) == component
  {
    if pairs != [] {
      var n := |pairs| - 1;
      assert pairs == pairs[..n] + [pairs[n]];
      RelinkedExactly(component, pairs[..n], protocols);
      if !IsRelinked(component, pairs) {
        assert pairs[n] in pairs && !IsRelinked(component, pairs[..n]);
      }
    }
  }

  lemma {:induction false} AppliedFacts(matched: seq<Pair>, failed: set<int>)
    requires OneToOne(matched)
    ensures OneToOne(Applied(matched, failed))
    ensures forall p :: p in Applied(matched, failed) <==> p in matched && p.server.id !in failed
  {
    if matched != [] {
      var n := |matched| - 1;
      assert matched == matched[..n] + [matched[n]];
      AppliedFacts(matched[..n], failed);
    }
  }

  // ---------- the unique index, checked at every updated row ----------

  /** The table when the first `k` rows, in the order of the flush, have been updated. */
  function Flushed(rows: seq<Component>, pairs: seq<Pair>, protocols: Protocols, k: nat): seq<Component> {
    seq(|rows|, i requires 0 <= i < |rows| => if i < k then Relinked(rows[i], pairs, protocols) else rows[i])
  }

  /** The index holds after every single update. */
  ghost predicate IsStorable(rows: seq<Component>, pairs: seq<Pair>, protocols: Protocols) {
    forall k: nat :: k <= |rows| ==> DistinctLinks(Flushed(rows, pairs, protocols, k))
  }

  /** A row other than the pair's own that holds the pair's server gives it up, and before the pair's row takes it. */
  ghost predicate MovesFirst(rows: seq<Component>, pairs: seq<Pair>, p: Pair, holder: nat, taker: nat)
    requires holder < |rows| && taker < |rows|
  {
    holder != taker && rows[taker].id == p.component.id && rows[holder].link == Some(p.server.id) ==>
      IsRelinked(rows[holder], pairs) && holder < taker
  }

  ghost predicate HoldersMoveFirst(rows: seq<Component>, pairs: seq<Pair>) {
    forall p, i, j :: p in pairs && 0 <= i < |rows| && 0 <= j < |rows| ==> MovesFirst(rows, pairs, p, i, j)
  }

  /** A row of the table during the flush: updated by a pair, or as it was. */
  lemma FlushedRow(rows: seq<Component>, pairs: seq<Pair>, protocols: Protocols, k: nat, i: nat)
    requires OneToOne(pairs) && i < |rows|
    ensures var row := Flushed(rows, pairs, protocols, k)[i];
            if i < k && IsRelinked(rows[i], pairs) then exists p :: p in pairs && p.component.id == rows[i].id && row.link == Some(p.server.id)
            else row == rows[i]
  {
    RelinkedExactly(rows[i], pairs, protocols);
  }

  lemma TakerRow(rows: seq<Component>, pairs: seq<Pair>, protocols: Protocols, p: Pair, taker: nat, k: nat)
    requires OneToOne(pairs) && p in pairs && taker < |rows| && taker < k && rows[taker].id == p.component.id
    ensures Flushed(rows, pairs, protocols, k)[taker].link == Some(p.server.id)
  {
    RelinkedExactly(rows[taker], pairs, protocols);
  }

  lemma StorableMovesFirst(rows: seq<Component>, pairs: seq<Pair>, protocols: Protocols, p: Pair, holder: nat, taker: nat)
    requires OneToOne(pairs) && p in pairs && holder < |rows| && taker < |rows|
    requires IsStorable(rows, pairs, protocols)
    ensures MovesFirst(rows, pairs, p, holder, taker)
  {
    if holder != taker && rows[taker].id == p.component.id && rows[holder].link == Some(p.server.id) {
      var during := Flushed(rows, pairs, protocols, taker + 1);
      assert DistinctLinks(during);
      TakerRow(rows, pairs, protocols, p, taker, taker + 1);
      FlushedRow(rows, pairs, protocols, taker + 1, holder);
    }
  }

  /** A row not updated yet, or never, does not hold the server that an updated row has taken. */
  lemma TakenIsGivenUp(rows: seq<Component>, pairs: seq<Pair>, p: Pair, k: nat, taker: nat, other: nat)
    requires HoldersMoveFirst(rows, pairs) && p in pairs
    requires taker < |rows| && taker < k && rows[taker].id == p.component.id
    requires other < |rows| && other != taker && !(other < k && IsRelinked(rows[other], pairs))
    ensures rows[other].link != Some(p.server.id)
  {
    assert MovesFirst(rows, pairs, p, other, taker);
  }

  lemma OtherServer(pairs: seq<Pair>, p: Pair, q: Pair)
    requires OneToOne(pairs) && p in pairs && q in pairs && p.component.id != q.component.id
    ensures p.server.id != q.server.id
  {}

  lemma NoClash(rows: seq<Component>, pairs: seq<Pair>, protocols: Protocols, k: nat, a: nat, b: nat)
    requires DistinctComponents(rows) && DistinctLinks(rows) && OneToOne(pairs) && HoldersMoveFirst(rows, pairs)
    requires a < |rows| && b < |rows| && a != b
    ensures var during := Flushed(rows, pairs, protocols, k);
            during[a].link.Some? ==> during[a].link != during[b].link
  {
    var during := Flushed(rows, pairs, protocols, k);
    FlushedRow(rows, pairs, protocols, k, a);
    FlushedRow(rows, pairs, protocols, k, b);
    if a < k && IsRelinked(rows[a], pairs) {
      var p :| p in pairs && p.component.id == rows[a].id && during[a].link == Some(p.server.id);
      if b < k && IsRelinked(rows[b], pairs) {
        var q :| q in pairs && q.component.id == rows[b].id && during[b].link == Some(q.server.id);
        OtherServer(pairs, p, q);
      } else {
        TakenIsGivenUp(rows, pairs, p, k, a, b);
      }
    } else if b < k && IsRelinked(rows[b], pairs) {
      var p :| p in pairs && p.component.id == rows[b].id && during[b].link == Some(p.server.id);
      TakenIsGivenUp(rows, pairs, p, k, b, a);
    }
  }

  /** Updating row by row never violates the index exactly when every holder of a taken server moves first. */
  lemma StorableExactly(rows: seq<Component>, pairs: seq<Pair>, protocols: Protocols)
    requires DistinctComponents(rows) && DistinctLinks(rows) && OneToOne(pairs)
    ensures IsStorable(rows, pairs, protocols) <==> HoldersMoveFirst(rows, pairs)
  {
    if IsStorable(rows, pairs, protocols) {
      forall p, i, j | p in pairs && 0 <= i < |rows| && 0 <= j < |rows| ensures MovesFirst(rows, pairs, p, i, j) {
        StorableMovesFirst(rows, pairs, protocols, p, i, j);
      }
    }
    if HoldersMoveFirst(rows, pairs) {
      forall k: nat, a, b | k <= |rows| && 0 <= a < b < |rows| && Flushed(rows, pairs, protocols, k)[a].link.Some?
        ensures Flushed(rows, pairs, protocols, k)[a].link != Flushed(rows, pairs, protocols, k)[b].link
      {
        NoClash(rows, pairs, protocols, k, a, b);
      }
    }
  }

  /** A component that none of the pairs relinks keeps a link to a server that one of them takes. */
  ghost predicate KeepsTakenLink(c: Component, pairs: seq<Pair>) {
    !IsRelinked(c, pairs) && exists p :: p in pairs && c.link == Some(p.server.id)
  }

  lemma TakenLinkClashes(rows: seq<Component>, pairs: seq<Pair>, protocols: Protocols, c: Component)
    requires DistinctComponents(rows) && OneToOne(pairs) && forall p <- pairs :: p.component in rows
    requires c in rows && KeepsTakenLink(c, pairs)
    ensures !DistinctLinks(Relink(rows, pairs, protocols))
  {
    var p :| p in pairs && c.link == Some(p.server.id);
    var i :| 0 <= i < |rows| && rows[i] == c;
    var j :| 0 <= j < |rows| && rows[j] == p.component;
    RelinkedExactly(c, pairs, protocols);
    RelinkedExactly(p.component, pairs, protocols);
    assert i != j && Relink(rows, pairs, protocols)[i].link == Some(p.server.id) == Relink(rows, pairs, protocols)[j].link;
  }

  lemma NoClashAtEnd(rows: seq<Component>, pairs: seq<Pair>, protocols: Protocols, a: nat, b: nat)
    requires DistinctComponents(rows) && DistinctLinks(rows) && OneToOne(pairs)
    requires a < |rows| && b < |rows| && a != b && forall c <- rows :: !KeepsTakenLink(c, pairs)
    ensures var after := Relink(rows, pairs, protocols);
            after[a].link.Some? ==> after[a].link != after[b].link
  {
    FlushedRow(rows, pairs, protocols, |rows|, a);
    FlushedRow(rows, pairs, protocols, |rows|, b);
    assert !KeepsTakenLink(rows[a], pairs) && !KeepsTakenLink(rows[b], pairs);
    if IsRelinked(rows[a], pairs) && IsRelinked(rows[b], pairs) {
      var p :| p in pairs && p.component.id == rows[a].id;
      var q :| q in pairs && q.component.id == rows[b].id;
      OtherServer(pairs, p, q);
      RelinkedExactly(rows[a], pairs, protocols);
      RelinkedExactly(rows[b], pairs, protocols);
    }
  }

  /** The table in the end satisfies the index exactly when no component left alone keeps a link to a server given away. */
  lemma FinalTableExactly(rows: seq<Component>, pairs: seq<Pair>, protocols: Protocols)
    requires DistinctComponents(rows) && DistinctLinks(rows) && OneToOne(pairs)
    requires forall p <- pairs :: p.component in rows
    ensures DistinctLinks(Relink(rows, pairs, protocols)) <==> forall c <- rows :: !KeepsTakenLink(c, pairs)
  {
    if DistinctLinks(Relink(rows, pairs, protocols)) {
      forall c <- rows ensures !KeepsTakenLink(c, pairs) {
        if KeepsTakenLink(c, pairs) {
          TakenLinkClashes(rows, pairs, protocols, c);
        }
      }
    }
    if forall c <- rows :: !KeepsTakenLink(c, pairs) {
      forall a, b | 0 <= a < b < |rows| && Relink(rows, pairs, protocols)[a].link.Some?
        ensures Relink(rows, pairs, protocols)[a].link != Relink(rows, pairs, protocols)[b].link
      {
        NoClashAtEnd(rows, pairs, protocols, a, b);
      }
    }
  }

  /** The rows of the table, in whatever order a flush updates them. */
  ghost predicate IsFlushOrder(rows: seq<Component>, components: seq<Component>) {
    DistinctComponents(rows) && forall c :: c in rows <==> c in components
  }

  lemma OrderKeepsLinks(rows: seq<Component>, components: seq<Component>)
    requires IsFlushOrder(rows, components) && DistinctComponents(components) && DistinctLinks(components)
    ensures DistinctLinks(rows)
  {
    forall i, j | 0 <= i < j < |rows| && rows[i].link.Some? ensures rows[i].link != rows[j].link {
      assert rows[i] in rows && rows[j] in rows;
      var x :| 0 <= x < |components| && components[x] == rows[i];
      var y :| 0 <= y < |components| && components[y] == rows[j];
      assert x != y;
    }
  }

  /**
   Whatever fetches fail: an import never violates the index at any of its row updates exactly when each row holding a
   server given to another one is relinked itself, and earlier. The table in the end alone satisfies it exactly when no
   component left alone keeps such a server.
   */
  lemma ImportStorableExactly(servers: seq<Server>, components: seq<Component>, similarity: Similarity, failed: set<int>,
                              protocols: Protocols, rows: seq<Component>)
    requires DistinctServers(servers) && DistinctComponents(components) && DistinctLinks(components)
    requires IsFlushOrder(rows, components)
    ensures var applied := Applied(Match(servers, components, similarity).matched, failed);
            && (IsStorable(rows, applied, protocols) <==> HoldersMoveFirst(rows, applied))
            && (DistinctLinks(Relink(rows, applied, protocols)) <==> forall c <- components :: !KeepsTakenLink(c, applied))
  {
    FinalFacts(servers, components, similarity);
    var matched := FinalState(servers, components, similarity).matched;
    AppliedFacts(matched, failed);
    OrderKeepsLinks(rows, components);
    StorableExactly(rows, Applied(matched, failed), protocols);
    FinalTableExactly(rows, Applied(matched, failed), protocols);
  }

  // ---------- imports that cannot be stored ----------

  /** One server is matched to the only admissible component, although another one is still linked to it. */
  ghost predicate IsStaleLink(server: Server, unlinked: Component, stale: Component, similarity: Similarity) {
    && unlinked.id != stale.id && unlinked.link.None? && stale.link == Some(server.id)
    && Admissible(server, unlinked, similarity) && !Admissible(server, stale, similarity)
  }

  lemma OnlyAdmissiblePairIsMatched(server: Server, unlinked: Component, stale: Component, similarity: Similarity)
    requires IsStaleLink(server, unlinked, stale, similarity)
    ensures var matched := FinalState([server], [unlinked, stale], similarity).matched;
            && (exists p :: p in matched && p.server == server && p.component == unlinked)
            && forall q <- matched :: q.component == unlinked
  {
    var servers, components := [server], [unlinked, stale];
    var final := FinalState(servers, components, similarity);
    FinalFacts(servers, components, similarity);
    if server.id !in final.usedServers {
      assert forall p <- final.matched :: p.server.id in final.usedServers;
      assert Available(unlinked, final, Batch(servers));
      NoCandidateLeft(servers, components, similarity, server, unlinked);
    }
    var p :| p in final.matched && p.server.id == server.id;
    assert p.server == server;
  }

  /** Two servers: the one that `holder` is linked to goes to `unlinked`, after `holder` went to the other one. */
  ghost predicate IsHandover(given: Server, other: Server, unlinked: Component, holder: Component, similarity: Similarity) {
    && given.id != other.id && unlinked.id != holder.id && unlinked.link.None? && holder.link == Some(given.id)
    && !Admissible(given, holder, similarity) && !Admissible(other, unlinked, similarity)
    && Admissible(other, holder, similarity) && IsEndpointPair(other, holder, similarity)
    && Admissible(given, unlinked, similarity) && !IsEndpointPair(given, unlinked, similarity)
  }

  ghost predicate IsEndpointPair(server: Server, component: Component, similarity: Similarity) {
    var score := ScorePair(server, component, similarity);
    IsEndpointScore(score.points, score.endpoint)
  }

  lemma HandoverHasNoLinks(given: Server, other: Server, unlinked: Component, holder: Component, similarity: Similarity)
    requires IsHandover(given, other, unlinked, holder, similarity)
    ensures var linked := LinkPhase([given, other], [unlinked, holder], similarity);
            linked.matched == [] && linked.usedServers == {} && linked.usedComponents == {}
  {
    var servers, components := [given, other], [unlinked, holder];
    LinkPhaseExactly(servers, components, similarity);
    var linked := LinkPhase(servers, components, similarity);
    if linked.matched != [] {
      var p := linked.matched[0];
      assert p in linked.matched && IsLinkPair(p, servers, components, similarity);
      LookupFinds(components, p.server.id);
    }
  }

  /** Only these two pairs can be matched at all. */
  lemma HandoverPairs(given: Server, other: Server, unlinked: Component, holder: Component, similarity: Similarity, p: Pair)
    requires IsHandover(given, other, unlinked, holder, similarity)
    requires p in FinalState([given, other], [unlinked, holder], similarity).matched
    ensures (p.server == other && p.component == holder) || (p.server == given && p.component == unlinked)
    ensures !p.alreadyLinked
  {
    FinalFacts([given, other], [unlinked, holder], similarity);
    if p.alreadyLinked {
      LookupFinds([unlinked, holder], p.server.id);
    }
  }

  lemma HandoverHappens(given: Server, other: Server, unlinked: Component, holder: Component, similarity: Similarity)
    requires IsHandover(given, other, unlinked, holder, similarity)
    ensures var matched := FinalState([given, other], [unlinked, holder], similarity).matched;
            IsMatched(other, holder, matched) && IsMatched(given, unlinked, matched)
  {
    var servers, components := [given, other], [unlinked, holder];
    var matched := FinalState(servers, components, similarity).matched;
    HandoverHasNoLinks(given, other, unlinked, holder, similarity);
    forall p <- matched
      ensures (p.server == other && p.component == holder) || (p.server == given && p.component == unlinked)
      ensures !p.alreadyLinked && p == PairOf(CandidateOf(p.server, p.component, similarity))
    {
      HandoverPairs(given, other, unlinked, holder, similarity, p);
      RankedPairScore(servers, components, similarity, p);
    }
    NoBlockingCandidate(servers, components, similarity, given, unlinked);
    NoBlockingCandidate(servers, components, similarity, other, holder);
  }

  /**
   The final table is fine and yet the order decides: with `unlinked` updated first both rows hold the given server for
   a moment, and the import fails; with `holder` first it is stored.
   */
  lemma HandoverNeedsOrder(given: Server, other: Server, unlinked: Component, holder: Component, similarity: Similarity,
                           protocols: Protocols)
    requires IsHandover(given, other, unlinked, holder, similarity)
    ensures var components := [unlinked, holder];
            var matched := Match([given, other], components, similarity).matched;
            && DistinctLinks(components) && DistinctLinks(Relink(components, matched, protocols))
            && !IsStorable([unlinked, holder], matched, protocols) && IsStorable([holder, unlinked], matched, protocols)
  {
    var servers, rows := [given, other], [unlinked, holder];
    var matched := FinalState(servers, rows, similarity).matched;
    HandoverHappens(given, other, unlinked, holder, similarity);
    FinalFacts(servers, rows, similarity);
    HolderLast(given, unlinked, holder, matched, protocols);
    HolderFirst(given, other, unlinked, holder, matched, protocols);
    HandoverEnds(unlinked, holder, matched, protocols);
  }

  lemma HandoverEnds(unlinked: Component, holder: Component, matched: seq<Pair>, protocols: Protocols)
    requires unlinked.id != holder.id && unlinked.link.None? && OneToOne(matched)
    requires forall p <- matched :: p.component in [unlinked, holder]
    requires !KeepsTakenLink(holder, matched) && !KeepsTakenLink(unlinked, matched)
    ensures DistinctLinks([unlinked, holder]) && DistinctLinks(Relink([unlinked, holder], matched, protocols))
  {
    FinalTableExactly([unlinked, holder], matched, protocols);
  }

  lemma HolderLast(given: Server, unlinked: Component, holder: Component, matched: seq<Pair>, protocols: Protocols)
    requires unlinked.id != holder.id && unlinked.link.None? && holder.link == Some(given.id)
    requires OneToOne(matched) && IsMatched(given, unlinked, matched)
    ensures !IsStorable([unlinked, holder], matched, protocols)
  {
    var rows := [unlinked, holder];
    var p :| p in matched && p.server == given && p.component == unlinked;
    StorableExactly(rows, matched, protocols);
    assert !MovesFirst(rows, matched, p, 1, 0);
  }

  lemma HolderFirst(given: Server, other: Server, unlinked: Component, holder: Component, matched: seq<Pair>, protocols: Protocols)
    requires unlinked.id != holder.id && unlinked.link.None? && holder.link == Some(given.id)
    requires OneToOne(matched) && IsMatched(given, unlinked, matched) && IsMatched(other, holder, matched)
    ensures IsStorable([holder, unlinked], matched, protocols)
    ensures !KeepsTakenLink(holder, matched) && !KeepsTakenLink(unlinked, matched)
  {
    var rows := [holder, unlinked];
    forall p, i, j | p in matched && 0 <= i < |rows| && 0 <= j < |rows| ensures MovesFirst(rows, matched, p, i, j) {
      assert rows[i] == holder || rows[i] == unlinked;
    }
    StorableExactly(rows, matched, protocols);
  }

  /**
   No order helps here: a component no longer admissible for its linked server stays unmatched and keeps the link, while
   the server goes to another component. The given table satisfies the index, the final one does not.
   */
  lemma StaleLinkCannotBeStored(server: Server, unlinked: Component, stale: Component, similarity: Similarity, protocols: Protocols)
    requires IsStaleLink(server, unlinked, stale, similarity)
    ensures var components := [unlinked, stale];
            var matched := Match([server], components, similarity).matched;
            && DistinctLinks(components) && !DistinctLinks(Relink(components, matched, protocols))
            && forall rows :: IsFlushOrder(rows, components) ==> !IsStorable(rows, matched, protocols)
  {
    var components := [unlinked, stale];
    var matched := FinalState([server], components, similarity).matched;
    OnlyAdmissiblePairIsMatched(server, unlinked, stale, similarity);
    FinalFacts([server], components, similarity);
    assert !IsRelinked(stale, matched) && KeepsTakenLink(stale, matched);
    TakenLinkClashes(components, matched, protocols, stale);
    forall rows | IsFlushOrder(rows, components) ensures !IsStorable(rows, matched, protocols) {
      assert stale in components && unlinked in components;
      TakenLinkClashes(rows, matched, protocols, stale);
      assert Flushed(rows, matched, protocols, |rows|) == Relink(rows, matched, protocols);
    }
  }
}
