/** Jobs and the arena that stores them. A Job value is an index into the arena. */
module Jobs {
  import opened Tags

  datatype TestResult = Unfinished | Fail | Success

  /** A QVariantMap of exported properties. */
  type ExportMap = map<string, string>

  datatype JobData = JobData(
    name: nat, tags: TagSet, exports: ExportMap, result: TestResult, dependenciesData: map<string, seq<ExportMap>>)

  class JobArena {
    var jobs: seq<JobData>

    constructor ()
      ensures jobs == []
    {
      jobs := [];
    }

    method Create(name: nat, exports: ExportMap, tags: TagSet) returns (id: nat)
      modifies this
      ensures id == old(|jobs|)
      ensures jobs == old(jobs) + [JobData(name, tags, exports, Unfinished, map[])]
    {
      jobs := jobs + [JobData(name, tags, exports, Unfinished, map[])];
      id := |jobs| - 1;
    }

    method SetExports(id: nat, data: ExportMap)
      requires id < |jobs|
      modifies this
      ensures jobs == old(jobs)[id := old(jobs)[id].(exports := data)]
    {
      jobs := jobs[id := jobs[id].(exports := data)];
    }

    method SetResult(id: nat, result: TestResult)
      requires id < |jobs|
      modifies this
      ensures jobs == old(jobs)[id := old(jobs)[id].(result := result)]
    {
      jobs := jobs[id := jobs[id].(result := result)];
    }

    method SetDependenciesData(id: nat, data: map<string, seq<ExportMap>>)
      requires id < |jobs|
      modifies this
      ensures jobs == old(jobs)[id := old(jobs)[id].(dependenciesData := data)]
    {
      jobs := jobs[id := jobs[id].(dependenciesData := data)];
    }
  }
}
