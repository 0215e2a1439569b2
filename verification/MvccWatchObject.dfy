/** Event batches and watcher groups as the objects that are updated in place. */
module MvccWatchObject {
  import opened Options
  import opened MvccKeys
  import opened MvccHistory
  import opened MvccWatch

  class EventBatchObject {
    var evs: seq<WatchEvent>
    var revs: nat
    var moreRev: nat

    ghost function View(): EventBatch
      reads this
    {
      EventBatch(evs, revs, moreRev)
    }

    constructor ()
      ensures View() == NEW_BATCH
    {
      evs, revs, moreRev := [], 0, 0;
    }

    method Add(ev: WatchEvent)
      modifies this
      ensures View() == AddEvent(old(View()), ev)
    {
      if revs > WATCH_BATCH_MAX_REVS { return; }
      if |evs| == 0 {
        revs := 1;
        evs := evs + [ev];
        return;
      }
      var ebRev := evs[|evs|-1].kv.mod;
      var evRev := ev.kv.mod;
      if evRev > ebRev {
        revs := revs + 1;
        if revs > WATCH_BATCH_MAX_REVS {
          moreRev := evRev;
          return;
        }
      }
      evs := evs + [ev];
    }
  }

  /** The batch of one watcher: the events of the list that are for it, in order. */
  method WatcherBatch(w: Watcher, evs: seq<WatchEvent>) returns (eb: EventBatch)
    ensures eb == BatchOf(Matching(w, evs))
  {
    var b := new EventBatchObject();
    for i := 0 to |evs|
      invariant fresh(b) && b.View() == BatchOf(Matching(w, evs[..i]))
    {
      var ev := evs[i];
      ghost var m := Matching(w, evs[..i]);
      assert evs[..i+1][..i] == evs[..i];
      if InRange(ev.kv.key, w.lo, w.end) && ev.kv.mod >= w.cur {
        assert (m + [ev])[..|m|] == m;
        b.Add(ev);
      } else {
        assert m + [] == m;
      }
    }
    assert evs[..|evs|] == evs;
    eb := EventBatch(b.evs, b.revs, b.moreRev);
  }

  class WatcherGroups {
    var watchers: Watchers

    constructor ()
      ensures watchers == map[]
    {
      watchers := map[];
    }

    /** Hands the events of a transaction to the synced watchers; those with a full channel become unsynced. */
    method NotifyAll(rev: nat, evs: seq<WatchEvent>, full: set<nat>)
      modifies this
      ensures watchers == map id | id in old(watchers) :: Notify(old(watchers)[id], rev, evs, id in full)
    {
      hide Matching, BatchOf;
      var todo := watchers.Keys;
      while todo != {}
        invariant todo <= old(watchers).Keys && watchers.Keys == old(watchers).Keys
        invariant forall id | id in watchers :: watchers[id] ==
                    if id in todo then old(watchers)[id] else Notify(old(watchers)[id], rev, evs, id in full)
        decreases todo
      {
        var id :| id in todo;
        var w := watchers[id];
        if w.synced {
          var eb := WatcherBatch(w, evs);
          if |eb.evs| != 0 {
            if id in full {
              watchers := watchers[id := w.(cur := rev, synced := false)];
            } else {
              watchers := watchers[id := w.(sent := w.sent + [eb.evs])];
            }
          }
        }
        todo := todo - {id};
      }
    }

    method ScanMinRev(compactRev: int) returns (minRev: Option<nat>)
      ensures minRev.None? <==> forall id :: !Waits(watchers, compactRev, id)
      ensures minRev.Some? ==> IsMinRev(watchers, compactRev, minRev.value)
    {
      minRev := None;
      var todo := watchers.Keys;
      ghost var who: nat := 0;
      while todo != {}
        invariant todo <= watchers.Keys
        invariant minRev.None? ==> forall id | Waits(watchers, compactRev, id) :: id in todo
        invariant minRev.Some? ==> Waits(watchers, compactRev, who) && watchers[who].cur == minRev.value
        invariant minRev.Some? ==>
                    forall id | Waits(watchers, compactRev, id) && id !in todo :: minRev.value <= watchers[id].cur
        decreases todo
      {
        var id :| id in todo;
        var w := watchers[id];
        if !w.synced && w.cur >= compactRev && (minRev.None? || minRev.value > w.cur) {
          minRev, who := Some(w.cur), id;
        }
        todo := todo - {id};
      }
    }

    /** The records as events, for the keys some unsynced watcher watches. */
    method KvsToEvents(es: History, minRev: int, curRev: int) returns (evs: seq<WatchEvent>)
      ensures evs == CatchUp(watchers, es, minRev, curRev)
    {
      evs := [];
      for i := 0 to |es|
        invariant evs == CatchUp(watchers, es[..i], minRev, curRev)
      {
        var e := es[i];
        assert es[..i+1][..i] == es[..i];
        if minRev <= e.rev.main <= curRev && Watched(watchers, KeyOf(e)) {
          evs := evs + [ToWatch(e)];
        }
      }
      assert es[..|es|] == es;
    }

    /** Brings the unsynced watchers forward with the given events. */
    method SyncWatchers(evs: seq<WatchEvent>, curRev: nat, compactRev: int, full: set<nat>)
      modifies this
      ensures watchers == map id | id in old(watchers)
                            && Sync(old(watchers)[id], evs, curRev, compactRev, id in full).Some? ::
                            Sync(old(watchers)[id], evs, curRev, compactRev, id in full).value
    {
      hide Matching, BatchOf;
      var todo := watchers.Keys;
      ghost var ws := watchers;
      while todo != {}
        invariant todo <= ws.Keys
        invariant watchers == map id | id in ws
                    && (id in todo || Sync(ws[id], evs, curRev, compactRev, id in full).Some?) ::
                    if id in todo then ws[id] else Sync(ws[id], evs, curRev, compactRev, id in full).value
        decreases todo
      {
        var id :| id in todo;
        var w := watchers[id];
        if !w.synced {
          var eb := WatcherBatch(w, evs);
          if w.cur < compactRev && id !in full {
            watchers := map j | j in watchers && j != id :: watchers[j];
          } else if |eb.evs| == 0 {
            watchers := watchers[id := w.(cur := curRev, synced := true)];
          } else if id !in full {
            if eb.moreRev != 0 {
              watchers := watchers[id := w.(sent := w.sent + [eb.evs], cur := eb.moreRev)];
            } else {
              watchers := watchers[id := w.(sent := w.sent + [eb.evs], cur := curRev, synced := true)];
            }
          }
        }
        todo := todo - {id};
      }
    }
  }
}
