/** The `Command` record of main.go: the relay loop over the child's standard output, the
    detach flag the timer flips, and the exit watcher's stored result. The timer and the
    reader run concurrently in the program; here the moment the timer fires is part of the
    input, in each `Read`'s `detachFirst`. */
module Later {
  import opened Routing
  import opened ExitStatus

  class Command {
    /** Retain all output, not only what is read after detaching (the `--all` option). */
    const reportAll: bool
    /** Attached (false) or detached (true); only ever set to true. */
    var detached: bool
    /** The retained output buffer, appended to by the relay only. */
    var output: seq<byte>
    /** Everything the relay has written to the console. */
    ghost var console: seq<byte>
    /** What the wait for the child gave back, and whether that wait has completed. */
    var exitError: WaitError
    var exited: bool
    /** The exit status cached by WaitForExitCode. */
    var status: int

    constructor (reportAll: bool)
      ensures this.reportAll == reportAll && !detached && output == [] && console == []
      ensures exitError == NoError && !exited && status == 0
    {
      this.reportAll := reportAll;
      detached := false;
      output := [];
      console := [];
      exitError := NoError;
      exited := false;
      status := 0;
    }

    /** The detach timer firing: the flag goes to true and stays there. */
    method Detach()
      modifies this`detached
      ensures detached
    {
      detached := true;
    }

    /** One iteration of the relay loop over the reused buffer `buf`, after a read that
        delivered `chunk` with error `result`: sample the flag, keep the chunk when detached
        or reporting all, echo it when attached, then return or go on. */
    method RouteChunk(buf: array<byte>, chunk: seq<byte>, result: ReadResult) returns (step: Outcome)
      requires buf.Length == BufferSize
      modifies buf, this`output, this`console
      ensures step == Step(chunk, result)
      ensures output == if |chunk| <= BufferSize && (detached || reportAll)
                        then old(output) + chunk else old(output)
      ensures console == if |chunk| <= BufferSize && !detached
                         then old(console) + chunk else old(console)
    {
      var n := |chunk|;
      if n > buf.Length {
        // taking buf[:n] past the capacity panics before anything is routed
        return Aborted(ChunkTooLarge);
      }
      // the reader fills the first n bytes of the buffer
      forall i | 0 <= i < n {
        buf[i] := chunk[i];
      }
      var data := buf[..n];
      assert data == chunk;
      var d := detached;
      if d || reportAll {
        output := output + data;
      }
      if !d {
        console := console + data;
      }
      step := Step(chunk, result);
    }

    /** One pass of the loop: the timer may fire before the flag is sampled, then the
        chunk is routed. */
    method Relay(buf: array<byte>, x: Read) returns (step: Outcome)
      requires buf.Length == BufferSize
      modifies buf, this`output, this`console, this`detached
      ensures var it := Iterate(x, old(detached), reportAll);
              && output == old(output) + it.retained
              && console == old(console) + it.console
              && detached == it.detached
              && step == it.outcome
    {
      if x.detachFirst {
        Detach();
      }
      step := RouteChunk(buf, x.chunk, x.result);
    }

    /** The relay loop over a schedule of reads: it runs until a read returns EOF or fails,
        or the schedule ends (the stream is then still open). */
    method ReadOutput(rs: seq<Read>) returns (outcome: Outcome, consumed: nat)
      modifies this`output, this`console, this`detached
      ensures var r := Run(rs, old(detached), reportAll);
              && output == old(output) + r.retained
              && console == old(console) + r.console
              && detached == r.detached
              && outcome == r.outcome
              && consumed == r.consumed
    {
      var buf := new byte[BufferSize];
      ghost var d0, out0, con0 := detached, output, console;
      ghost var r := Relayed([], [], d0, Pending, 0);
      outcome, consumed := Pending, 0;
      assert rs[..0] == [];
      while consumed < |rs| && outcome == Pending
        invariant consumed <= |rs|
        invariant r == Run(rs[..consumed], d0, reportAll)
        invariant output == out0 + r.retained && console == con0 + r.console
        invariant detached == r.detached && outcome == r.outcome && consumed == r.consumed
      {
        var x := rs[consumed];
        ghost var it := Iterate(x, r.detached, reportAll);
        outcome := Relay(buf, x);
        AppendAssoc(out0, r.retained, it.retained);
        AppendAssoc(con0, r.console, it.console);
        RunPrefixStep(rs, consumed, d0, reportAll);
        r := Then(r, it);
        consumed := consumed + 1;
      }
      RunPrefixDone(rs, consumed, d0, reportAll);
    }

    /** The exit watcher: store what the wait gave back, signal completion, and report
        only errors other than a non-zero exit. */
    method Wait(result: WaitError) returns (err: WaitError)
      modifies this`exitError, this`exited
      ensures exitError == result && exited
      ensures err == WaitReturn(result)
    {
      exitError := result;
      exited := true;
      if exitError.ExitErr? {
        return NoError;
      }
      return exitError;
    }

    /** The exit code, once the watcher has completed; a wait status found is cached. */
    method WaitForExitCode() returns (code: int)
      requires exited
      modifies this`status
      ensures code == ExitCode(exitError)
      ensures status == if exitError.ExitErr? && exitError.status.Some?
                        then exitError.status.value else old(status)
    {
      if exitError == NoError {
        return 0;
      }
      if exitError.ExitErr? && exitError.status.Some? {
        status := exitError.status.value;
        return status;
      }
      return 0;
    }
  }
}
