/** Recorded test runs. */
module RunRecords {
  import opened Text

  datatype Scope = Full | Lint | Build | Coverage | Scoped | Acceptance
  datatype RunState = StillRunning | Completed | Interrupted

  datatype Record = Record(
    scope: Scope,
    command: string,
    state: RunState,
    pid: int,
    startedAt: int,
    exitCode: Option<nat>,
    treeStart: Option<string>,
    treeEnd: Option<string>)

  /** A record file: valid, or invalid with the scope that can still be read from it. */
  datatype Entry =
    | Valid(id: string, record: Record)
    | Invalid(id: string, problem: string, rawScope: Option<Scope>)

  /** The live processes and the time at which a log is judged. */
  datatype World = World(alive: set<int>, now: int, maxRunMs: int)

  function EffectiveState(r: Record, w: World): RunState
  {
    if r.state != StillRunning then r.state
    else if r.pid <= 0 || r.pid !in w.alive then Interrupted
    else if w.now - r.startedAt > w.maxRunMs then Interrupted
    else StillRunning
  }
}
