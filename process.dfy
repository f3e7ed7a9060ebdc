/**
  `_run` (app.py): how a subprocess outcome becomes the triple
  `(returncode, stdout, stderr)` the adapters read. Spawning the process is
  not modelled; what happened to it is the input.
*/
module Process {

  /** What `subprocess.run` did: the executable was missing, the timeout expired, or it exited. */
  datatype ProcOutcome =
    | NotFound
    | TimedOut
    | Exited(returncode: int, stdout: string, stderr: string)

  /** The triple `_run` returns. */
  datatype Completed = Completed(rc: int, out: string, err: string)

  /** The return code `_run` reports for a missing executable. */
  const NotInstalledCode: int := 127

  /** The return code `_run` reports for an expired timeout. */
  const TimeoutCode: int := 124

  /**
    `_run(cmd)`: a missing executable becomes `(127, "", "<cmd[0]>: not
    installed")`, an expired timeout `(124, "", "timeout")`, and an exited
    process gives its own return code and streams unchanged.
  */
  function Run(cmd: seq<string>, p: ProcOutcome): (r: Completed)
    requires |cmd| > 0
    ensures p.NotFound? ==> r == Completed(NotInstalledCode, "", cmd[0] + ": not installed")
    ensures p.TimedOut? ==> r == Completed(TimeoutCode, "", "timeout")
    ensures p.Exited? ==> r == Completed(p.returncode, p.stdout, p.stderr)
  {
    match p
    case NotFound => Completed(NotInstalledCode, "", cmd[0] + ": not installed")
    case TimedOut => Completed(TimeoutCode, "", "timeout")
    case Exited(rc, out, err) => Completed(rc, out, err)
  }

  /**
    The sentinels are ordinary return codes: two different outcomes look the
    same to a caller only when one of them is a process that itself exited
    with exactly the sentinel triple of the other.
  */
  lemma RunConflatesOnlySentinels(cmd: seq<string>, p: ProcOutcome, q: ProcOutcome)
    requires |cmd| > 0
    requires p != q && Run(cmd, p) == Run(cmd, q)
    ensures
      || (p.NotFound? && q == Exited(NotInstalledCode, "", cmd[0] + ": not installed"))
      || (q.NotFound? && p == Exited(NotInstalledCode, "", cmd[0] + ": not installed"))
      || (p.TimedOut? && q == Exited(TimeoutCode, "", "timeout"))
      || (q.TimedOut? && p == Exited(TimeoutCode, "", "timeout"))
  {
  }
}
