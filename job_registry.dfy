/** The job-id -> external-process map that lets a cancel request kill the
    encoder process of a running job (src/main/java/com/Charon/service/JobRegistry.java). */
module Registry {
  import opened Wrappers

  /** An external process handle. Of `java.lang.Process` only its forced
      destruction matters here. */
  class Process {
    var destroyed: bool

    constructor ()
      ensures !destroyed
    {
      destroyed := false;
    }

    method DestroyForcibly()
      modifies this
      ensures destroyed
    {
      destroyed := true;
    }
  }

  class JobRegistry {
    var processes: map<string, Process>

    constructor ()
      ensures processes == map[]
    {
      processes := map[];
    }

    /** The handle registered for `jobId`, as a set: what `Cancel` may touch. */
    function Handle(jobId: string): (h: set<Process>)
      reads this
      ensures h == {} <==> jobId !in processes
      ensures jobId in processes ==> h == {processes[jobId]}
    {
      if jobId in processes then {processes[jobId]} else {}
    }

    /** Associates `p` with `jobId`, replacing any earlier handle for it. */
    method Register(jobId: string, p: Process)
      modifies this
      ensures processes == old(processes)[jobId := p]
    {
      processes := processes[jobId := p];
    }

    /** The registered handle, or null (`None`) for an id never registered or
        already removed. */
    function Get(jobId: string): (r: Option<Process>)
      reads this
      ensures r.Some? <==> jobId in processes
      ensures r.Some? ==> r.value == processes[jobId]
    {
      if jobId in processes then Some(processes[jobId]) else None
    }

    /** Drops the entry of `jobId` and no other. */
    method Remove(jobId: string)
      modifies this
      ensures processes == old(processes) - {jobId}
    {
      processes := processes - {jobId};
    }

    /** Forcibly destroys the handle registered for `jobId` and removes it,
        answering whether there was one. The frame allows touching no process
        but that one, so without a handle no process is touched. */
    method Cancel(jobId: string) returns (ok: bool)
      modifies this, Handle(jobId)
      ensures ok <==> jobId in old(processes)
      ensures ok ==> old(processes)[jobId].destroyed
      ensures processes == old(processes) - {jobId}
      ensures !ok ==> processes == old(processes)
    {
      var p := Get(jobId);
      if p.Some? {
        p.value.DestroyForcibly();
        processes := processes - {jobId};
        return true;
      }
      return false;
    }
  }

  /** A handle registered under an id is what `get` then returns, and it
      replaces the earlier one. */
  method RegisterThenGet(registry: JobRegistry, jobId: string, p: Process) returns (r: Option<Process>)
    modifies registry
    ensures r == Some(p)
    ensures registry.processes == old(registry.processes)[jobId := p]
  {
    registry.Register(jobId, p);
    r := registry.Get(jobId);
  }

  /** After a remove, `get` answers null for that id and the same for every
      other id as before. */
  method RemoveThenGet(registry: JobRegistry, jobId: string, other: string) returns (r: Option<Process>, s: Option<Process>)
    requires other != jobId
    modifies registry
    ensures r == None
    ensures s == old(registry.Get(other))
  {
    registry.Remove(jobId);
    r := registry.Get(jobId);
    s := registry.Get(other);
  }

  /** Cancelling twice: the second call finds nothing, touches no process and
      answers false, so cancellation is idempotent in effect. */
  method CancelTwice(registry: JobRegistry, jobId: string) returns (first: bool, second: bool)
    modifies registry, registry.Handle(jobId)
    ensures first <==> jobId in old(registry.processes)
    ensures !second
    ensures registry.processes == old(registry.processes) - {jobId}
  {
    first := registry.Cancel(jobId);
    second := registry.Cancel(jobId);
  }
}
