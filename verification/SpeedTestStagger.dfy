/** Choosing which of the due components may measure in this cycle, and how long the others wait. */
module SpeedTestStagger {
  import opened Numbers
  import opened Options
  import opened Sets
  import StableSort
  import opened CheckLog
  import opened SpeedTestSchedule
  import opened CheckLogRuns

  datatype Component = Component(id: int, enabled: bool, interval: int)

  /** A due component: its scheduling stamp and its tie-break key of this hour. */
  datatype DueItem = DueItem(stamp: Option<int>, key: int, id: int)

  predicate StampLe(a: Option<int>, b: Option<int>) {
    a.None? || (b.Some? && a.value <= b.value)
  }

  /** The order of the pick: oldest stamp first (never measured counts as oldest), then the key. */
  predicate Precedes(a: DueItem, b: DueItem) {
    if a.stamp == b.stamp then a.key <= b.key else StampLe(a.stamp, b.stamp)
  }

  function Lookup(latestById: map<int, Check>, id: int): Option<Check> {
    if id in latestById then Some(latestById[id]) else None
  }

  predicate IsDue(component: Component, latestById: map<int, Check>, now: int) {
    ShouldRun(component.enabled, component.interval, Lookup(latestById, component.id), now)
  }

  function ItemOf(component: Component, latestById: map<int, Check>, key: int -> int): DueItem {
    DueItem(SchedulingStamp(Lookup(latestById, component.id)), key(component.id), component.id)
  }

  ghost predicate DistinctIds(components: seq<Component>) {
    forall i, j :: 0 <= i < j < |components| ==> components[i].id != components[j].id
  }

  ghost function DueIds(components: seq<Component>, latestById: map<int, Check>, now: int): set<int> {
    set c | c in components && IsDue(c, latestById, now) :: c.id
  }

  function IdOf(item: DueItem): int { item.id }

  ghost function ItemIds(items: seq<DueItem>): set<int> {
    set item | item in items :: item.id
  }

  lemma PrecedesIsTotal()
    ensures StableSort.TotalPreorder(Precedes)
  {}

  lemma {:induction false} IdCount(items: seq<DueItem>)
    requires StableSort.DistinctBy(items, IdOf)
    ensures |ItemIds(items)| == |items|
  {
    if items != [] {
      var n := |items| - 1;
      IdCount(items[..n]);
      assert items[n].id !in ItemIds(items[..n]) by {
        forall item | item in items[..n] ensures item.id != items[n].id {
          var k :| 0 <= k < n && items[..n][k] == item;
          assert IdOf(items[k]) != IdOf(items[n]);
        }
      }
      assert ItemIds(items) == ItemIds(items[..n]) + {items[n].id};
    }
  }

  /** At most `limit` due components are picked, and no due component left out comes before a picked one. */
  ghost predicate IsPick(picked: set<int>, due: set<int>, limit: int, stamp: int -> Option<int>, key: int -> int) {
    && picked <= due
    && |picked| == Min(Max(limit, 0), |due|)
    && forall x, y :: x in picked && y in due - picked ==>
         Precedes(DueItem(stamp(x), key(x), x), DueItem(stamp(y), key(y), y))
  }

  /** So the never measured come first, then the oldest attempts, and among equal ones the smaller keys. */
  lemma PickIsOldestFirst(picked: set<int>, due: set<int>, limit: nat, stamp: int -> Option<int>, key: int -> int, x: int, y: int)
    requires IsPick(picked, due, limit, stamp, key) && x in picked && y in due && y !in picked
    ensures |picked| == limit
    ensures match (stamp(x), stamp(y))
            case (None, None) => key(x) <= key(y)
            case (None, Some(_)) => true
            case (Some(_), None) => false
            case (Some(a), Some(b)) => a < b || (a == b && key(x) <= key(y))
  {
    SubsetSize(picked + {y}, due);
  }

  /** The due components' items, in list order. */
  function Collect(components: seq<Component>, latestById: map<int, Check>, key: int -> int, now: int): seq<DueItem> {
    if components == [] then []
    else
      var last := components[|components| - 1];
      var front := Collect(components[..|components| - 1], latestById, key, now);
      if IsDue(last, latestById, now) then front + [ItemOf(last, latestById, key)] else front
  }

  lemma {:induction false} CollectedItems(components: seq<Component>, latestById: map<int, Check>, key: int -> int, now: int)
    ensures forall item <- Collect(components, latestById, key, now) ::
              item == DueItem(SchedulingStamp(Lookup(latestById, item.id)), key(item.id), item.id)
  {
    if components != [] {
      CollectedItems(components[..|components| - 1], latestById, key, now);
    }
  }

  lemma {:induction false} CollectedIds(components: seq<Component>, latestById: map<int, Check>, key: int -> int, now: int)
    ensures ItemIds(Collect(components, latestById, key, now)) == DueIds(components, latestById, now)
  {
    if components != [] {
      var n := |components| - 1;
      var front, last := components[..n], components[n];
      CollectedIds(front, latestById, key, now);
      var before, item := Collect(front, latestById, key, now), ItemOf(last, latestById, key);
      assert components == front + [last];
      assert ItemIds(before + [item]) == ItemIds(before) + {item.id};
      assert DueIds(components, latestById, now) == DueIds(front, latestById, now) + if IsDue(last, latestById, now) then {last.id} else {};
    }
  }

  lemma AppendIsDistinct(items: seq<DueItem>, next: DueItem)
    requires StableSort.DistinctBy(items, IdOf) && next.id !in ItemIds(items)
    ensures StableSort.DistinctBy(items + [next], IdOf)
  {
    assert forall item <- items :: item.id in ItemIds(items);
  }

  lemma {:induction false} CollectIsComplete(components: seq<Component>, latestById: map<int, Check>, key: int -> int, now: int)
    requires DistinctIds(components)
    ensures var due := Collect(components, latestById, key, now);
            && StableSort.DistinctBy(due, IdOf)
            && ItemIds(due) == DueIds(components, latestById, now)
            && forall item <- due :: item == DueItem(SchedulingStamp(Lookup(latestById, item.id)), key(item.id), item.id)
  {
    CollectedItems(components, latestById, key, now);
    CollectedIds(components, latestById, key, now);
    if components != [] {
      var n := |components| - 1;
      var front := components[..n];
      CollectIsComplete(front, latestById, key, now);
      CollectedIds(front, latestById, key, now);
      assert components[n].id !in DueIds(front, latestById, now);
      AppendIsDistinct(Collect(front, latestById, key, now), ItemOf(components[n], latestById, key));
    }
  }

  method PickStaggered(components: seq<Component>, latestById: map<int, Check>, key: int -> int, now: int, limit: int)
    returns (picked: set<int>)
    requires DistinctIds(components)
    ensures IsPick(picked, DueIds(components, latestById, now), limit,
                   id => SchedulingStamp(Lookup(latestById, id)), key)
  {
    var due: seq<DueItem> := [];
    for i := 0 to |components|
      invariant due == Collect(components[..i], latestById, key, now)
    {
      assert components[..i + 1][..i] == components[..i];
      if IsDue(components[i], latestById, now) {
        due := due + [ItemOf(components[i], latestById, key)];
      }
    }
    assert components[..|components|] == components;
    CollectIsComplete(components, latestById, key, now);
    SortedItems(due);
    due := StableSort.Sort(due, Precedes);
    var first := due[..Min(Max(limit, 0), |due|)];
    picked := set item | item in first :: item.id;
    FirstItemsArePick(due, |first|, id => SchedulingStamp(Lookup(latestById, id)), key);
  }

  lemma SortedItems(due: seq<DueItem>)
    requires StableSort.DistinctBy(due, IdOf)
    ensures var sorted := StableSort.Sort(due, Precedes);
            && StableSort.DistinctBy(sorted, IdOf) && StableSort.Sorted(sorted, Precedes)
            && ItemIds(sorted) == ItemIds(due) && forall item :: item in sorted <==> item in due
  {
    StableSort.SortPermutes(due, Precedes);
    StableSort.SortKeepsDistinct(due, Precedes, IdOf);
    PrecedesIsTotal();
    StableSort.SortSorts(due, Precedes);
  }

  /** The first items of a sorted list form a pick among all of its items. */
  lemma FirstItemsArePick(due: seq<DueItem>, count: nat, stamp: int -> Option<int>, key: int -> int)
    requires count <= |due|
    requires StableSort.DistinctBy(due, IdOf) && StableSort.Sorted(due, Precedes)
    requires forall item <- due :: item == DueItem(stamp(item.id), key(item.id), item.id)
    ensures IsPick(ItemIds(due[..count]), ItemIds(due), count, stamp, key)
    ensures |ItemIds(due)| == |due|
  {
    var picked := ItemIds(due[..count]);
    IdCount(due);
    IdCount(due[..count]);
    forall x, y | x in picked && y in ItemIds(due) - picked
      ensures Precedes(DueItem(stamp(x), key(x), x), DueItem(stamp(y), key(y), y))
    {
      var i :| 0 <= i < count && due[i].id == x;
      var j :| 0 <= j < |due| && due[j].id == y;
      assert j >= count by {
        assert forall k :: 0 <= k < count ==> due[..count][k] == due[k];
      }
      assert Precedes(due[i], due[j]);
      assert due[i] in due && due[j] in due;
    }
  }

  /**
   One cycle: which components are due, their stamps and tie-break keys, the pick, whether it measured live, and
   which rows were wiped. `top` is the latest stamp the waiting component can show without a new live test.
   */
  datatype Round = Round(due: set<int>, stamps: map<int, Option<int>>, keys: map<int, int>, top: Option<int>,
                         picked: set<int>, measured: bool, wiped: set<int>)

  ghost predicate WellFormed(round: Round, waiting: int, ids: set<int>) {
    && round.due <= ids && round.stamps.Keys == ids && round.keys.Keys == ids
    && StampLe(StampOf(round, waiting), round.top)
  }

  function StampOf(round: Round, id: int): Option<int> {
    if id in round.stamps then round.stamps[id] else None
  }

  function KeyOf(round: Round, id: int): int {
    if id in round.keys then round.keys[id] else 0
  }

  ghost predicate Picks(round: Round) {
    IsPick(round.picked, round.due, 1, id => StampOf(round, id), id => KeyOf(round, id))
  }

  /** From one cycle to the next: a live test's stamp is later than any the waiting component can show, and only a
      wiped row makes a stamp fall. */
  ghost predicate Advances(before: Round, after: Round, waiting: int, ids: set<int>) {
    && (before.measured ==> forall x :: x in before.picked && x in ids ==> !StampLe(StampOf(after, x), before.top))
    && (forall y :: y in ids && y !in before.wiped && !(before.measured && y in before.picked) ==>
          StampLe(StampOf(before, y), StampOf(after, y)))
    && StampLe(after.top, before.top)
  }

  /** The components that can still be preferred to the waiting one. */
  ghost function Ahead(round: Round, waiting: int, ids: set<int>): set<int> {
    set x | x in ids && x != waiting && StampLe(StampOf(round, x), round.top)
  }

  /** The waiting component was due, and another one measured live. */
  predicate IsOvertaken(round: Round, waiting: int) {
    waiting in round.due && round.measured
  }

  lemma SinglePick(round: Round, waiting: int, ids: set<int>)
    requires WellFormed(round, waiting, ids) && Picks(round) && waiting in round.due && waiting !in round.picked
    ensures exists x :: x in Ahead(round, waiting, ids) && round.picked == {x}
  {
    assert |round.due| >= 1 by {
      SubsetSize({waiting}, round.due);
    }
    var x := Singleton(round.picked);
    assert waiting in round.due - round.picked;
    assert x in Ahead(round, waiting, ids);
  }

  /** Being overtaken uses up one component ahead; a wiped row of another component puts one ahead again. */
  lemma AheadMoves(before: Round, after: Round, waiting: int, ids: set<int>)
    requires WellFormed(before, waiting, ids) && Picks(before) && Advances(before, after, waiting, ids)
    requires waiting !in before.picked
    ensures |Ahead(after, waiting, ids)| + (if IsOvertaken(before, waiting) then 1 else 0)
            <= |Ahead(before, waiting, ids)| + |before.wiped - {waiting}|
  {
    var next, ahead, wiped := Ahead(after, waiting, ids), Ahead(before, waiting, ids), before.wiped - {waiting};
    forall y <- next ensures y in ahead + wiped {
      assert y in ids;
    }
    if IsOvertaken(before, waiting) {
      SinglePick(before, waiting, ids);
      var x :| x in ahead && before.picked == {x};
      assert x !in next;
      SubsetSize(next, (ahead - {x}) + wiped);
      UnionSize(ahead - {x}, wiped);
    } else {
      SubsetSize(next, ahead + wiped);
      UnionSize(ahead, wiped);
    }
  }

  lemma UnionSize<T>(a: set<T>, b: set<T>)
    ensures |a + b| <= |a| + |b|
  {
    assert |a + b| + |a * b| == |a| + |b|;
  }

  /** A schedule: rounds with the pick of each, and the change from each to the next. */
  ghost predicate IsSchedule(rounds: seq<Round>, waiting: int, ids: set<int>) {
    && (forall k :: 0 <= k < |rounds| ==> WellFormed(rounds[k], waiting, ids) && Picks(rounds[k]))
    && (forall k :: 0 <= k < |rounds| - 1 ==> Advances(rounds[k], rounds[k + 1], waiting, ids))
  }

  ghost predicate NeverPicked(rounds: seq<Round>, waiting: int) {
    forall k :: 0 <= k < |rounds| ==> waiting !in rounds[k].picked
  }

  /** Cycles in which the waiting component was due and another one measured live. */
  function Overtakes(rounds: seq<Round>, waiting: int): nat {
    if rounds == [] then 0
    else Overtakes(rounds[..|rounds| - 1], waiting) + if IsOvertaken(rounds[|rounds| - 1], waiting) then 1 else 0
  }

  /** Cycles in which the waiting component was due and the pick did not measure live. */
  function Misses(rounds: seq<Round>, waiting: int): nat {
    if rounds == [] then 0
    else
      var last := rounds[|rounds| - 1];
      Misses(rounds[..|rounds| - 1], waiting) + if waiting in last.due && !last.measured then 1 else 0
  }

  /** Wiped rows of other components. */
  function Wipes(rounds: seq<Round>, waiting: int): nat {
    if rounds == [] then 0 else Wipes(rounds[..|rounds| - 1], waiting) + |rounds[|rounds| - 1].wiped - {waiting}|
  }

  function DueCount(rounds: seq<Round>, waiting: int): nat {
    if rounds == [] then 0
    else DueCount(rounds[..|rounds| - 1], waiting) + if waiting in rounds[|rounds| - 1].due then 1 else 0
  }

  lemma {:induction false} DueRounds(rounds: seq<Round>, waiting: int)
    ensures DueCount(rounds, waiting) == Overtakes(rounds, waiting) + Misses(rounds, waiting)
  {
    if rounds != [] {
      DueRounds(rounds[..|rounds| - 1], waiting);
    }
  }

  lemma {:induction false} AheadAfter(rounds: seq<Round>, waiting: int, ids: set<int>)
    requires rounds != [] && IsSchedule(rounds, waiting, ids) && NeverPicked(rounds, waiting)
    ensures var front, last := rounds[..|rounds| - 1], rounds[|rounds| - 1];
            |Ahead(last, waiting, ids)| + Overtakes(front, waiting) <= |Ahead(rounds[0], waiting, ids)| + Wipes(front, waiting)
  {
    var n := |rounds| - 1;
    if n > 0 {
      var front := rounds[..n];
      assert front[..n - 1] == rounds[..n - 1];
      forall k | 0 <= k < |front| - 1 ensures Advances(front[k], front[k + 1], waiting, ids) {
        assert Advances(rounds[k], rounds[k + 1], waiting, ids);
      }
      AheadAfter(front, waiting, ids);
      assert Advances(rounds[n - 1], rounds[n], waiting, ids);
      AheadMoves(rounds[n - 1], rounds[n], waiting, ids);
    }
  }

  /** A component not picked is overtaken at most once by each one ahead of it, and once more for each wiped row. */
  lemma OvertakenAtMost(rounds: seq<Round>, waiting: int, ids: set<int>)
    requires rounds != [] && IsSchedule(rounds, waiting, ids) && NeverPicked(rounds, waiting)
    ensures Overtakes(rounds, waiting) <= |Ahead(rounds[0], waiting, ids)| + Wipes(rounds, waiting)
  {
    AheadAfter(rounds, waiting, ids);
    var last := rounds[|rounds| - 1];
    if IsOvertaken(last, waiting) {
      SinglePick(last, waiting, ids);
      var x :| x in Ahead(last, waiting, ids) && last.picked == {x};
      SubsetSize({x}, Ahead(last, waiting, ids));
    }
  }

  /**
   With one pick per cycle and n components, a component due in n + W + F cycles has been picked in one of them, W
   counting the wiped rows of others and F the cycles whose pick did not measure live.
   */
  lemma BoundedWaiting(rounds: seq<Round>, waiting: int, ids: set<int>)
    requires IsSchedule(rounds, waiting, ids) && waiting in ids
    requires DueCount(rounds, waiting) >= |ids| + Wipes(rounds, waiting) + Misses(rounds, waiting)
    ensures exists k :: 0 <= k < |rounds| && waiting in rounds[k].picked
  {
    SubsetSize({waiting}, ids);
    if NeverPicked(rounds, waiting) {
      DueRounds(rounds, waiting);
      OvertakenAtMost(rounds, waiting, ids);
      SubsetSize(Ahead(rounds[0], waiting, ids), ids - {waiting});
    }
  }

  lemma StampUnfolds(entries: seq<Entry>, next: Entry)
    ensures var all := entries + [next];
            && (next.cycle.Live? ==> Stamp(all) == Some(next.cycle.stamp))
            && (next.cycle.Wiped? ==> Stamp(all) == None)
            && (IsPostponed(next.cycle) ==> Stamp(all) == OrElse(
                  (if Attempt(entries).Some? then Attempt(entries).value.measuredAt else None),
                  (if LastSuccess(entries).Some? then LastSuccess(entries).value.measuredAt else None)))
  {}

  /**
   How the stamp used by the pick moves with a component's own cycles: a live attempt sets it, a wiped
   row clears it, a postponed cycle keeps it - except that the first one after a wiped row brings back
   the stamp of the last success.
   */
  lemma {:induction false} StampAfterCycle(entries: seq<Entry>, next: Entry)
    ensures SchedulingStamp(Latest(Run(entries + [next]))) ==
              if next.cycle.Live? then Some(next.cycle.stamp)
              else if next.cycle.Wiped? then None
              else if Attempt(entries).None? && (entries == [] || entries[|entries| - 1].cycle.Wiped?) then
                (if LastSuccess(entries).Some? then LastSuccess(entries).value.measuredAt else None)
              else SchedulingStamp(Latest(Run(entries)))
  {
    StampExactly(entries);
    StampExactly(entries + [next]);
    StampUnfolds(entries, next);
    StampBefore(entries);
  }

  lemma StampBefore(entries: seq<Entry>)
    ensures Stamp(entries) == if Attempt(entries).None? && (entries == [] || entries[|entries| - 1].cycle.Wiped?) then None
                              else OrElse(
                  (if Attempt(entries).Some? then Attempt(entries).value.measuredAt else None),
                  (if LastSuccess(entries).Some? then LastSuccess(entries).value.measuredAt else None))
  {}
}
