/**
 * The supervised process runner: `CmdResult` and `cmd_run`.
 *
 * The process itself is not modelled. What the polling loop observes on each
 * pass (the value of `process.poll()`, the elapsed time as a whole number,
 * and whatever could be read from stdout and stderr) is given as a trace of
 * `Poll` values; killing the process group is left abstract.
 */
module Runner {
  import opened Wrappers

  /** `exit_status` of a `CmdResult`. */
  datatype ExitStatus = Undefined | Success | Failure | Timeout

  /** One pass of the polling loop as seen from outside: an exit code once the
      process has exited, the elapsed time, and the text read from each stream
      (empty when `select` did not report the stream readable). */
  datatype Poll = Poll(exitCode: Option<int>, elapsed: int, out: string, err: string)

  /** The three messages `CmdError` is raised with in strict mode. */
  datatype CmdError = CommandFailed | CommandTimedOut | UnknownError

  /** The value of a `CmdResult`'s fields, without the command line. */
  datatype Outcome = Outcome(stdout: string, stderr: string, exitCode: Option<int>, exitStatus: ExitStatus, duration: int)

  /** `_update_result` reports done: the process has exited or the time is up. */
  predicate Stops(p: Poll, timeout: int)
  {
    p.exitCode.Some? || p.elapsed > timeout
  }

  function StatusOfCode(code: int): ExitStatus
  {
    if code == 0 then Success else Failure
  }

  /** The error strict mode raises for a final status other than success. */
  function ErrorFor(s: ExitStatus): CmdError
  {
    match s
    case Failure => CommandFailed
    case Timeout => CommandTimedOut
    case _ => UnknownError
  }

  class CmdResult {
    const cmdline: string
    var stdout: string
    var stderr: string
    var exitCode: Option<int>
    var exitStatus: ExitStatus
    var duration: int

    /** `exit_status` follows `exit_code`: set from the code once there is one, otherwise still undefined or timed out. */
    predicate Valid()
      reads this
    {
      match exitCode
      case Some(c) => exitStatus == StatusOfCode(c)
      case None => exitStatus == Undefined || exitStatus == Timeout
    }

    function Value(): Outcome
      reads this
    {
      Outcome(stdout, stderr, exitCode, exitStatus, duration)
    }

    constructor (cmdline: string)
      ensures this.cmdline == cmdline && Valid()
      ensures Value() == Outcome("", "", None, Undefined, 0)
    {
      this.cmdline := cmdline;
      stdout, stderr := "", "";
      exitCode, exitStatus := None, Undefined;
      duration := 0;
    }

    /** `_update_result`: records the elapsed time, appends what was read, takes
        the exit code when there is one, and reports whether the loop is done. */
    method Step(p: Poll, timeout: int) returns (done: bool)
      requires Valid()
      modifies this
      ensures Valid()
      ensures stdout == old(stdout) + p.out && stderr == old(stderr) + p.err
      ensures duration == p.elapsed
      ensures p.exitCode.Some? ==> exitCode == p.exitCode && exitStatus == StatusOfCode(p.exitCode.value)
      ensures p.exitCode.None? ==> exitCode == old(exitCode) && exitStatus == old(exitStatus)
      ensures done <==> Stops(p, timeout)
    {
      done := false;
      duration := p.elapsed;
      stdout := stdout + p.out;
      stderr := stderr + p.err;
      if p.exitCode.Some? {
        exitCode := p.exitCode;
        if p.exitCode.value == 0 {
          exitStatus := Success;
        } else {
          exitStatus := Failure;
        }
        done := true;
      }
      if duration > timeout {
        done := true;
      }
    }

    /** The `finally` clause of `cmd_run`: no exit code means the process group
        is killed and the status becomes timeout; in strict mode any status other
        than success raises. */
    method Finish(ignoreFail: bool) returns (err: Option<CmdError>)
      modifies this
      ensures stdout == old(stdout) && stderr == old(stderr) && duration == old(duration)
      ensures exitCode == old(exitCode)
      ensures exitStatus == if exitCode.None? then Timeout else old(exitStatus)
      ensures err == if ignoreFail || exitStatus == Success then None else Some(ErrorFor(exitStatus))
      ensures old(Valid()) ==> Valid() && exitStatus != Undefined && err != Some(UnknownError)
    {
      if exitCode.None? {
        exitStatus := Timeout;
      }
      err := None;
      if exitStatus != Success && !ignoreFail {
        if exitStatus == Failure {
          err := Some(CommandFailed);
        } else if exitStatus == Timeout {
          err := Some(CommandTimedOut);
        } else {
          err := Some(UnknownError);
        }
      }
    }
  }

  /** The trace reaches a pass at which the loop stops. */
  predicate Terminates(polls: seq<Poll>, timeout: int)
  {
    exists i :: 0 <= i < |polls| && Stops(polls[i], timeout)
  }

  /** The pass at which `cmd_run`'s loop returns: the first that stops it. */
  function FirstStop(polls: seq<Poll>, timeout: int): (k: nat)
    requires Terminates(polls, timeout)
    ensures k < |polls| && Stops(polls[k], timeout)
    ensures forall j :: 0 <= j < k ==> !Stops(polls[j], timeout)
  {
    if Stops(polls[0], timeout) then 0
    else
      assert Terminates(polls[1..], timeout) by {
        var i :| 0 <= i < |polls| && Stops(polls[i], timeout);
        assert i > 0 && Stops(polls[1..][i - 1], timeout);
      }
      1 + FirstStop(polls[1..], timeout)
  }

  /** Everything read from stdout (`fromStdout`) or stderr over the given passes. */
  function Drained(polls: seq<Poll>, fromStdout: bool): string
  {
    if polls == [] then ""
    else Drained(polls[..|polls| - 1], fromStdout)
         + (if fromStdout then polls[|polls| - 1].out else polls[|polls| - 1].err)
  }

  /** The fields of the `CmdResult` that `cmd_run` returns for this trace. */
  function Expected(polls: seq<Poll>, timeout: int): Outcome
    requires Terminates(polls, timeout)
  {
    var k := FirstStop(polls, timeout);
    var last := polls[k];
    Outcome(Drained(polls[..k + 1], true), Drained(polls[..k + 1], false),
            last.exitCode,
            match last.exitCode
            case Some(c) => StatusOfCode(c)
            case None => Timeout,
            last.elapsed)
  }

  /** `cmd_run`: create the result, poll until done, then run the `finally` clause. */
  method CmdRun(cmdline: string, timeout: int, polls: seq<Poll>, ignoreFail: bool)
    returns (r: CmdResult, err: Option<CmdError>)
    requires Terminates(polls, timeout)
    ensures fresh(r) && r.Valid() && r.cmdline == cmdline
    ensures r.Value() == Expected(polls, timeout)
    ensures err == if ignoreFail || r.exitStatus == Success then None else Some(ErrorFor(r.exitStatus))
  {
    var k := FirstStop(polls, timeout);
    r := new CmdResult(cmdline);
    var i := 0;
    var done := false;
    while !done
      invariant 0 <= i <= k + 1
      invariant done <==> i == k + 1
      invariant r.Valid() && r.cmdline == cmdline
      invariant r.stdout == Drained(polls[..i], true) && r.stderr == Drained(polls[..i], false)
      invariant i > 0 ==> r.duration == polls[i - 1].elapsed
      invariant !done ==> r.exitCode.None? && r.exitStatus == Undefined
      invariant done ==> r.exitCode == polls[k].exitCode
      decreases k + 1 - i
    {
      assert polls[..i + 1][..i] == polls[..i];
      done := r.Step(polls[i], timeout);
      i := i + 1;
    }
    err := r.Finish(ignoreFail);
  }

  /** A process that exits while the clock is within the timeout has its exit
      code recorded, and its status is success exactly when that code is 0. */
  lemma ExitWithinTimeout(polls: seq<Poll>, timeout: int, i: nat)
    requires i < |polls| && polls[i].exitCode.Some?
    requires forall j :: 0 <= j <= i ==> polls[j].elapsed <= timeout
    ensures Terminates(polls, timeout)
    ensures Expected(polls, timeout).exitCode.Some?
    ensures Expected(polls, timeout).exitStatus == Success <==> Expected(polls, timeout).exitCode == Some(0)
    ensures Expected(polls, timeout).duration <= timeout
  {
    assert Stops(polls[i], timeout);
    var k := FirstStop(polls, timeout);
    assert k <= i;
  }

  /** Timeout is reported exactly when no exit code was observed; then the last
      elapsed time exceeds the timeout and no earlier pass saw the process exit. */
  lemma TimeoutWithoutExitCode(polls: seq<Poll>, timeout: int)
    requires Terminates(polls, timeout)
    ensures var o := Expected(polls, timeout);
      && (o.exitStatus == Timeout <==> o.exitCode.None?)
      && (o.exitStatus == Timeout ==>
            o.duration > timeout && forall j :: 0 <= j <= FirstStop(polls, timeout) ==> polls[j].exitCode.None?)
  {
  }

  lemma {:induction false} DrainedAppend(a: seq<Poll>, b: seq<Poll>, fromStdout: bool)
    ensures Drained(a + b, fromStdout) == Drained(a, fromStdout) + Drained(b, fromStdout)
    decreases |b|
  {
    if b == [] {
      assert a + b == a;
    } else {
      var b' := b[..|b| - 1];
      assert (a + b)[..|a + b| - 1] == a + b';
      DrainedAppend(a, b', fromStdout);
    }
  }

  /** The captured output is what the streams delivered up to the stopping pass:
      a prefix of everything the trace offers on each stream. */
  lemma CapturedIsPrefix(polls: seq<Poll>, timeout: int)
    requires Terminates(polls, timeout)
    ensures var o := Expected(polls, timeout);
      exists restOut, restErr :: o.stdout + restOut == Drained(polls, true) && o.stderr + restErr == Drained(polls, false)
  {
    var k := FirstStop(polls, timeout);
    assert polls == polls[..k + 1] + polls[k + 1..];
    DrainedAppend(polls[..k + 1], polls[k + 1..], true);
    DrainedAppend(polls[..k + 1], polls[k + 1..], false);
    var restOut, restErr := Drained(polls[k + 1..], true), Drained(polls[k + 1..], false);
    assert Expected(polls, timeout).stdout + restOut == Drained(polls, true);
  }
}
