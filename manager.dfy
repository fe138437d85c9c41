/**
 * The scheduler registry (internal/manager): one scheduler per container id.
 * Adding under an id that is taken stops the scheduler it replaces; removing
 * an id stops its scheduler and forgets it. The ghost `stopLog` records every
 * `Stop` the registry issues, in order. The read-write mutex is not modelled:
 * each call runs as one atomic step.
 */
module Manager {
  import opened Scheduler

  class Manager {
    var schedulers: map<string, Scheduler>
    ghost var stopLog: seq<Scheduler>

    /** `New`: an empty registry. */
    constructor ()
      ensures schedulers == map[] && stopLog == []
    {
      schedulers := map[];
      stopLog := [];
    }

    /**
     * `AddScheduler`: the entry for `containerID` becomes `scheduler`; a
     * scheduler already registered there is stopped exactly once first; no
     * other entry changes and no other scheduler is touched.
     */
    method AddScheduler(containerID: string, scheduler: Scheduler)
      modifies this, if containerID in schedulers then {schedulers[containerID]} else {}
      ensures schedulers == old(schedulers)[containerID := scheduler]
      ensures containerID in old(schedulers) ==>
                && stopLog == old(stopLog) + [old(schedulers)[containerID]]
                && !old(schedulers)[containerID].running
                && old(schedulers)[containerID].inFlight == old(schedulers[containerID].inFlight)
      ensures containerID !in old(schedulers) ==> stopLog == old(stopLog)
    {
      if containerID in schedulers {
        var existing := schedulers[containerID];
        existing.Stop();
        stopLog := stopLog + [existing];
      }
      schedulers := schedulers[containerID := scheduler];
    }

    /**
     * `RemoveScheduler`: a registered scheduler is stopped exactly once and its
     * id deleted; an absent id changes nothing and stops nothing.
     */
    method RemoveScheduler(containerID: string)
      modifies this, if containerID in schedulers then {schedulers[containerID]} else {}
      ensures containerID in old(schedulers) ==>
                && schedulers == old(schedulers) - {containerID}
                && stopLog == old(stopLog) + [old(schedulers)[containerID]]
                && !old(schedulers)[containerID].running
                && old(schedulers)[containerID].inFlight == old(schedulers[containerID].inFlight)
      ensures containerID !in old(schedulers) ==> schedulers == old(schedulers) && stopLog == old(stopLog)
    {
      if containerID in schedulers {
        var existing := schedulers[containerID];
        existing.Stop();
        stopLog := stopLog + [existing];
        schedulers := schedulers - {containerID};
      }
    }
  }

  /**
   * Registering the same instance again under its own id stops it, yet it stays
   * registered: afterwards the map still points to it, and it is not running.
   */
  method ReAddSameInstance(m: Manager, containerID: string, s: Scheduler)
    requires containerID in m.schedulers && m.schedulers[containerID] == s
    modifies m, s
    ensures m.schedulers == old(m.schedulers)
    ensures m.stopLog == old(m.stopLog) + [s]
    ensures !s.running
  {
    m.AddScheduler(containerID, s);
    assert old(m.schedulers)[containerID := s] == old(m.schedulers);
  }

  /** Two different ids never disturb each other: adding under one leaves the other's entry alone. */
  method AddKeepsOtherEntries(m: Manager, id: string, other: string, s: Scheduler)
    requires id != other && other in m.schedulers
    modifies m, if id in m.schedulers then {m.schedulers[id]} else {}
    ensures other in m.schedulers && m.schedulers[other] == old(m.schedulers[other])
    ensures id in m.schedulers && m.schedulers[id] == s
  {
    m.AddScheduler(id, s);
  }
}
