/** The generation token that decides which search may write the list. */
module SearchRun {
  import opened Common

  datatype Run = Run(generation: nat, searching: bool)

  const IDLE := Run(0, false)

  function Invalidate(run: Run): Run {
    Run(run.generation + 1, false)
  }

  function Begin(run: Run): Option<Run> {
    if run.searching then None else Some(Run(run.generation + 1, true))
  }

  datatype Settled = Settled(run: Run, apply: bool)

  function Settle(run: Run, started: nat): Settled {
    if started != run.generation then Settled(run, false) else Settled(run.(searching := false), true)
  }
}
