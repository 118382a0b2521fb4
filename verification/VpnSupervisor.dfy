/** The supervisor keeping one worker, one stop event and one snapshot per desired component. */
module VpnSupervisor {
  import Sets

  datatype Snapshot = Snapshot(componentId: int, fingerprint: int, pollIntervalSeconds: int, isActive: bool)

  class StopEvent {
    var isSet: bool

    constructor ()
      ensures !isSet
    {
      isSet := false;
    }
  }

  class Worker {
    const componentId: int
    const stop: StopEvent

    constructor (componentId: int, stop: StopEvent)
      ensures this.componentId == componentId && this.stop == stop
    {
      this.componentId, this.stop := componentId, stop;
    }
  }

  /** The snapshots after a sync: a component without a readable row keeps what it had. */
  function AfterSync(snapshots: map<int, Snapshot>, desired: set<int>, current: map<int, Snapshot>): map<int, Snapshot> {
    map id | id in desired && (id in current || id in snapshots) :: if id in current then current[id] else snapshots[id]
  }

  /** The components whose worker a sync starts anew. */
  function Restarted(snapshots: map<int, Snapshot>, desired: set<int>, current: map<int, Snapshot>): set<int> {
    set id | id in desired && id in current && (id !in snapshots || snapshots[id] != current[id])
  }

  class Supervisor {
    var workers: map<int, Worker>
    var stopEvents: map<int, StopEvent>
    var snapshots: map<int, Snapshot>
    /** Every worker ever started. */
    ghost var everStarted: set<Worker>

    ghost function StopEventsOf(): set<StopEvent>
      reads this
    {
      set w | w in everStarted :: w.stop
    }

    /** The dictionaries agree, and a worker is unstopped only while it is the registered one of its component. */
    ghost predicate Valid()
      reads this, StopEventsOf()
    {
      && workers.Keys == stopEvents.Keys == snapshots.Keys
      && (forall id <- workers :: workers[id] in everStarted && workers[id].componentId == id
                                  && workers[id].stop == stopEvents[id] && !stopEvents[id].isSet)
      && (forall w <- everStarted :: w.stop.isSet || (w.componentId in workers && workers[w.componentId] == w))
      && (forall v, w :: v in everStarted && w in everStarted && v.stop == w.stop ==> v == w)
    }

    constructor ()
      ensures Valid() && workers == map[] && everStarted == {}
    {
      workers, stopEvents, snapshots := map[], map[], map[];
      everStarted := {};
    }

    method StartWorker(id: int, snapshot: Snapshot)
      requires Valid() && id !in workers
      modifies this
      ensures Valid() && snapshots == old(snapshots)[id := snapshot]
      ensures id in workers && fresh(workers[id]) && fresh(workers[id].stop)
      ensures workers == old(workers)[id := workers[id]]
      ensures everStarted == old(everStarted) + {workers[id]}
    {
      var stop := new StopEvent();
      var worker := new Worker(id, stop);
      stopEvents := stopEvents[id := stop];
      workers := workers[id := worker];
      snapshots := snapshots[id := snapshot];
      everStarted := everStarted + {worker};
    }

    method StopWorker(id: int)
      requires Valid() && id in workers
      modifies this, stopEvents[id]
      ensures Valid() && everStarted == old(everStarted)
      ensures workers == old(workers) - {id} && snapshots == old(snapshots) - {id}
      ensures old(workers[id]).stop.isSet
      ensures forall w <- everStarted :: w != old(workers[id]) ==> w.stop.isSet == old(w.stop.isSet)
    {
      var stop := stopEvents[id];
      stopEvents := stopEvents - {id};
      workers := workers - {id};
      snapshots := snapshots - {id};
      stop.isSet := true;
    }

    /** `current` holds the snapshot of every component whose row can be read. */
    method Sync(desired: set<int>, current: map<int, Snapshot>)
      requires Valid()
      modifies this, StopEventsOf()
      ensures Valid()
      ensures snapshots == AfterSync(old(snapshots), desired, current)
      ensures workers.Keys == snapshots.Keys
      ensures Progress(workers, everStarted, old(workers), old(everStarted), Restarted(old(snapshots), desired, current))
      ensures forall w <- everStarted :: w in old(everStarted) || fresh(w.stop)
      ensures forall w <- old(everStarted) ::
                w.stop.isSet <==> old(w.stop.isSet) || w.componentId !in desired
                                  || w.componentId in Restarted(old(snapshots), desired, current)
      ensures forall ended, id :: ended <= old(everStarted) && id in desired ==>
                (IsRunning(workers, ended, id) <==>
                   id in Restarted(old(snapshots), desired, current) || IsRunning(old(workers), ended, id))
    {
      ghost var before := snapshots;
      StopUndesired(workers.Keys - desired);
      UndesiredIrrelevant(before, desired, current);
      StartDesired(desired, current);
      forall ended | ended <= old(everStarted)
        ensures forall id <- desired ::
                  IsRunning(workers, ended, id) <==> id in Restarted(before, desired, current) || IsRunning(old(workers), ended, id)
      {
        RunningAfterSync(workers, everStarted, old(workers), old(everStarted), before, desired, current, ended);
      }
    }

    /** Two syncs with the same input do what one does: the second starts and stops nothing. */
    method SyncTwice(desired: set<int>, current: map<int, Snapshot>)
      requires Valid()
      modifies this, StopEventsOf()
      ensures Valid()
      ensures snapshots == AfterSync(old(snapshots), desired, current)
      ensures Progress(workers, everStarted, old(workers), old(everStarted), Restarted(old(snapshots), desired, current))
      ensures forall w <- old(everStarted) ::
                w.stop.isSet <==> old(w.stop.isSet) || w.componentId !in desired
                                  || w.componentId in Restarted(old(snapshots), desired, current)
    {
      Sync(desired, current);
      ghost var workersOnce, startedOnce := workers, everStarted;
      SecondSyncIsIdle(old(snapshots), desired, current);
      assert forall w <- everStarted :: !w.stop.isSet ==> w.componentId in desired;
      Sync(desired, current);
      ProgressIdle(workers, everStarted, workersOnce, startedOnce);
    }

    /** No component ever has two unstopped workers. */
    lemma NoTwoUnstopped(v: Worker, w: Worker)
      requires Valid() && v in everStarted && w in everStarted
      requires v.componentId == w.componentId && !v.stop.isSet && !w.stop.isSet
      ensures v == w
    {}

    /** The second loop: a missing or outdated worker is started anew. */
    method StartDesired(desired: set<int>, current: map<int, Snapshot>)
      requires Valid() && workers.Keys <= desired
      modifies this, StopEventsOf()
      ensures Valid()
      ensures snapshots == AfterSync(old(snapshots), desired, current)
      ensures Progress(workers, everStarted, old(workers), old(everStarted), Restarted(old(snapshots), desired, current))
      ensures forall w <- everStarted :: w in old(everStarted) || fresh(w.stop)
      ensures forall w <- old(everStarted) ::
                w.stop.isSet <==> old(w.stop.isSet) || w.componentId in Restarted(old(snapshots), desired, current)
    {
      var running, todo := workers.Keys, desired;
      while todo != {}
        invariant todo <= desired && Valid()
        invariant snapshots == AfterSync(old(snapshots), desired, Restrict(current, desired - todo))
        invariant Progress(workers, everStarted, old(workers), old(everStarted),
                           Restarted(old(snapshots), desired, Restrict(current, desired - todo)))
        invariant forall w <- everStarted :: w in old(everStarted) || fresh(w.stop)
        invariant forall w <- old(everStarted) ::
                    w.stop.isSet <==> old(w.stop.isSet)
                                      || w.componentId in Restarted(old(snapshots), desired, Restrict(current, desired - todo))
        decreases todo
      {
        ghost var any := Sets.Any(todo);
        var id :| id in todo;
        ghost var before := desired - todo;
        todo := todo - {id};
        assert desired - todo == before + {id};
        EnsureWorker(id, id in running, current, desired, before, old(snapshots), old(workers), old(everStarted));
      }
      assert desired - {} == desired;
    }

    /** One component of the second loop, with what the loop has done so far. */
    method EnsureWorker(id: int, isRunning: bool, current: map<int, Snapshot>, ghost desired: set<int>, ghost before: set<int>,
                        ghost snapshots0: map<int, Snapshot>, ghost workers0: map<int, Worker>, ghost started0: set<Worker>)
      requires Valid() && id in desired && id !in before && isRunning == (id in snapshots0)
      requires snapshots == AfterSync(snapshots0, desired, Restrict(current, before))
      requires Progress(workers, everStarted, workers0, started0, Restarted(snapshots0, desired, Restrict(current, before)))
      requires started0 <= everStarted
      modifies this, if id in stopEvents then {stopEvents[id]} else {}
      ensures Valid()
      ensures snapshots == AfterSync(snapshots0, desired, Restrict(current, before + {id}))
      ensures Progress(workers, everStarted, workers0, started0, Restarted(snapshots0, desired, Restrict(current, before + {id})))
      ensures forall w <- everStarted :: w in old(everStarted) || fresh(w.stop)
      ensures forall w <- old(everStarted) ::
                w.stop.isSet <==> old(w.stop.isSet)
                                  || (w.componentId == id && id in Restarted(snapshots0, desired, Restrict(current, before + {id})))
    {
      SyncStep(snapshots0, desired, current, before, id);
      if id in current {
        var snapshot := current[id];
        if !isRunning || snapshots[id] != snapshot {
          Restart(id, snapshot);
          ProgressStep(old(workers), old(everStarted), workers0, started0,
                       Restarted(snapshots0, desired, Restrict(current, before)), id, workers[id]);
        }
      }
    }

    method Restart(id: int, snapshot: Snapshot)
      requires Valid()
      modifies this, if id in stopEvents then {stopEvents[id]} else {}
      ensures Valid() && snapshots == old(snapshots)[id := snapshot]
      ensures id in workers && workers == old(workers)[id := workers[id]]
      ensures fresh(workers[id]) && fresh(workers[id].stop) && everStarted == old(everStarted) + {workers[id]}
      ensures forall w <- old(everStarted) :: w.stop.isSet <==> old(w.stop.isSet) || w.componentId == id
    {
      if id in workers {
        StopWorker(id);
      }
      StartWorker(id, snapshot);
    }

    /** The first loop: workers of components no longer desired. */
    method StopUndesired(ids: set<int>)
      requires Valid() && ids <= workers.Keys
      modifies this, StopEventsOf()
      ensures Valid() && everStarted == old(everStarted)
      ensures workers == old(workers) - ids && snapshots == old(snapshots) - ids
      ensures forall w <- everStarted :: w.stop.isSet <==> old(w.stop.isSet) || w.componentId in ids
    {
      var todo := ids;
      ghost var done := {};
      while todo != {}
        invariant done + todo == ids && done !! todo && Valid() && everStarted == old(everStarted)
        invariant workers == old(workers) - done && snapshots == old(snapshots) - done
        invariant forall w <- everStarted :: w.stop.isSet <==> old(w.stop.isSet) || w.componentId in done
        decreases todo
      {
        ghost var any := Sets.Any(todo);
        var id :| id in todo;
        StopNext(id, old(workers), old(snapshots), done);
        todo, done := todo - {id}, done + {id};
      }
    }

    /** One step of the first loop: the stop event set is that of the component's only unstopped worker. */
    method StopNext(id: int, ghost workers0: map<int, Worker>, ghost snapshots0: map<int, Snapshot>, ghost done: set<int>)
      requires Valid() && id in workers && id !in done
      requires workers == workers0 - done && snapshots == snapshots0 - done
      modifies this, stopEvents[id]
      ensures Valid() && everStarted == old(everStarted)
      ensures workers == workers0 - (done + {id}) && snapshots == snapshots0 - (done + {id})
      ensures forall w <- everStarted :: w.stop.isSet <==> old(w.stop.isSet) || w.componentId == id
    {
      StopWorker(id);
    }
  }

  /** Between two moments exactly the restarted components got a new worker; the others kept theirs or lost it. */
  ghost predicate Progress(workers: map<int, Worker>, started: set<Worker>,
                           oldWorkers: map<int, Worker>, oldStarted: set<Worker>, restarted: set<int>) {
    && (forall id <- workers :: id !in restarted ==> id in oldWorkers && workers[id] == oldWorkers[id])
    && (forall id <- restarted :: id in workers && workers[id] !in oldStarted)
    && started == oldStarted + (set id | id in restarted && id in workers :: workers[id])
  }

  lemma ProgressIdle(workers: map<int, Worker>, started: set<Worker>, oldWorkers: map<int, Worker>, oldStarted: set<Worker>)
    requires Progress(workers, started, oldWorkers, oldStarted, {}) && workers.Keys == oldWorkers.Keys
    ensures workers == oldWorkers && started == oldStarted
  {
    assert forall id <- workers :: workers[id] == oldWorkers[id];
  }

  lemma ProgressStep(workers: map<int, Worker>, started: set<Worker>, oldWorkers: map<int, Worker>, oldStarted: set<Worker>,
                     restarted: set<int>, id: int, worker: Worker)
    requires Progress(workers, started, oldWorkers, oldStarted, restarted)
    requires id !in restarted && worker !in oldStarted
    ensures Progress(workers[id := worker], started + {worker}, oldWorkers, oldStarted, restarted + {id})
  {}

  function Restrict(current: map<int, Snapshot>, ids: set<int>): map<int, Snapshot> {
    map id | id in current && id in ids :: current[id]
  }

  lemma UndesiredIrrelevant(snapshots: map<int, Snapshot>, desired: set<int>, current: map<int, Snapshot>)
    ensures AfterSync(snapshots - (snapshots.Keys - desired), desired, current) == AfterSync(snapshots, desired, current)
    ensures Restarted(snapshots - (snapshots.Keys - desired), desired, current) == Restarted(snapshots, desired, current)
  {}

  /** The component has a registered worker whose thread has not ended. */
  ghost predicate IsRunning(workers: map<int, Worker>, ended: set<Worker>, id: int) {
    id in workers && workers[id] !in ended
  }

  /**
   A worker's thread may have ended by itself: loading its component raised, or the row was gone. A sync compares keys and
   snapshots only, so afterwards a desired component has a running worker exactly when it was started anew by this sync,
   or its registered worker was still running. In particular an ended one is not replaced while its snapshot stays.
   */
  lemma RunningAfterSync(workers: map<int, Worker>, started: set<Worker>, oldWorkers: map<int, Worker>, oldStarted: set<Worker>,
                         snapshots: map<int, Snapshot>, desired: set<int>, current: map<int, Snapshot>, ended: set<Worker>)
    requires oldWorkers.Keys == snapshots.Keys && workers.Keys == AfterSync(snapshots, desired, current).Keys
    requires Progress(workers, started, oldWorkers, oldStarted, Restarted(snapshots, desired, current))
    requires ended <= oldStarted
    ensures forall id <- desired ::
              IsRunning(workers, ended, id) <==> id in Restarted(snapshots, desired, current) || IsRunning(oldWorkers, ended, id)
    ensures forall id <- desired :: id in snapshots && id in current && snapshots[id] == current[id] ==>
              workers[id] == oldWorkers[id]
  {}

  /**
   After a sync a component has a worker exactly when it is desired and has a readable row or had a worker before; the
   snapshot is the one read, or the old one without a readable row. Anew start exactly those whose snapshot was missing or
   differs; with every desired row readable, exactly the desired ones have a worker.
   */
  lemma SyncIsExact(snapshots: map<int, Snapshot>, desired: set<int>, current: map<int, Snapshot>)
    ensures var after := AfterSync(snapshots, desired, current);
            && after.Keys == desired * (current.Keys + snapshots.Keys)
            && (desired <= current.Keys ==> after.Keys == desired)
            && (forall id <- after :: id in current ==> after[id] == current[id])
            && (forall id <- after :: id !in current ==> after[id] == snapshots[id] && id !in Restarted(snapshots, desired, current))
            && forall id <- after :: id in current ==>
                 (id in Restarted(snapshots, desired, current) <==> id !in snapshots || snapshots[id] != after[id])
  {}

  /** A second sync with the same input starts no worker and, by its own contract, stops none. */
  lemma SecondSyncIsIdle(snapshots: map<int, Snapshot>, desired: set<int>, current: map<int, Snapshot>)
    ensures var after := AfterSync(snapshots, desired, current);
            && AfterSync(after, desired, current) == after
            && Restarted(after, desired, current) == {}
            && after.Keys <= desired
  {}

  /** What one more component does to the snapshots and to the set of restarted components. */
  lemma SyncStep(snapshots: map<int, Snapshot>, desired: set<int>, current: map<int, Snapshot>, before: set<int>, id: int)
    requires id in desired && id !in before
    ensures var part, next := Restrict(current, before), Restrict(current, before + {id});
            var sofar := AfterSync(snapshots, desired, part);
            && AfterSync(snapshots, desired, next) == (if id in current then sofar[id := current[id]] else sofar)
            && Restarted(snapshots, desired, next) == Restarted(snapshots, desired, part)
                 + (if id in current && (id !in snapshots || snapshots[id] != current[id]) then {id} else {})
            && (id in sofar <==> id in snapshots) && (id in snapshots ==> sofar[id] == snapshots[id])
            && id !in Restarted(snapshots, desired, part)
  {}
}
