/** The routing rule of the output relay (`Command.readOutput` in main.go), stated on
    values: which chunk goes to the console, which to the retained buffer, and when the
    relay loop stops. The class in command.dfy is proved against `Run`. */
module Routing {

  newtype byte = x: int | 0 <= x < 256

  /** Capacity of the reused read buffer: 1 MiB. */
  const BufferSize: nat := 1024 * 1024

  /** What the `err` returned by one `rd.Read(buf)` was: nil, io.EOF, or any other error. */
  datatype ReadResult = More | Eof | Failed

  /** One iteration of the relay as seen from outside: whether the detach timer has fired
      before the flag is sampled for this chunk, the bytes the read delivered (n is their
      length) and the read's error. */
  datatype Read = Read(detachFirst: bool, chunk: seq<byte>, result: ReadResult)

  datatype Abort = ReadFailed | ChunkTooLarge

  /** How the relay loop stands after an iteration: still reading, returned on EOF, or
      panicked. */
  datatype Outcome = Pending | Finished | Aborted(reason: Abort)

  /** Where one chunk goes: the bytes echoed to the console and the bytes kept. */
  datatype Split = Split(echoed: seq<byte>, kept: seq<byte>)

  /** The per-chunk rule: keep when detached or reporting all output, echo when attached. */
  function Route(chunk: seq<byte>, detached: bool, reportAll: bool): (r: Split)
    // no chunk is dropped
    ensures r.echoed == chunk || r.kept == chunk
    // a chunk read while attached is echoed
    ensures !detached ==> r.echoed == chunk
    // without reportAll every chunk goes to exactly one of the two
    ensures !reportAll ==> r.echoed + r.kept == chunk
    // with reportAll everything is kept; once detached nothing is echoed
    ensures reportAll ==> r.kept == chunk
    ensures detached ==> r.echoed == [] && r.kept == chunk
  {
    Split(if detached then [] else chunk, if detached || reportAll then chunk else [])
  }

  /** What the loop does after routing a chunk: a read of more bytes than the buffer holds
      is the slice-bounds panic of `buf[:n]`, before any routing. */
  function Step(chunk: seq<byte>, result: ReadResult): (r: Outcome)
    ensures r == Pending <==> |chunk| <= BufferSize && result == More
    ensures r == Finished <==> |chunk| <= BufferSize && result == Eof
    ensures r == Aborted(ReadFailed) <==> |chunk| <= BufferSize && result == Failed
    ensures r == Aborted(ChunkTooLarge) <==> |chunk| > BufferSize
  {
    if |chunk| > BufferSize then Aborted(ChunkTooLarge)
    else match result
      case More => Pending
      case Eof => Finished
      case Failed => Aborted(ReadFailed)
  }

  /** A read on which the relay loop leaves (returns or panics). */
  predicate Stops(r: Read)
  {
    Step(r.chunk, r.result) != Pending
  }

  /** The effect of running the relay over a schedule of reads. */
  datatype Relayed = Relayed(console: seq<byte>, retained: seq<byte>, detached: bool,
                             outcome: Outcome, consumed: nat)

  /** One iteration: the timer may fire, then the flag is sampled and the chunk routed. */
  function Iterate(x: Read, detached: bool, reportAll: bool): (r: Relayed)
    ensures r.consumed == 1
    // the flag is sampled after the timer may have fired; it is never cleared
    ensures r.detached <==> detached || x.detachFirst
    ensures r.outcome == Step(x.chunk, x.result)
    // an oversized read routes nothing; otherwise the chunk goes where Route sends it
    ensures |x.chunk| > BufferSize ==> r.console == [] && r.retained == []
    ensures |x.chunk| <= BufferSize ==> Split(r.console, r.retained) == Route(x.chunk, r.detached, reportAll)
  {
    var d := detached || x.detachFirst;
    if |x.chunk| > BufferSize then Relayed([], [], d, Aborted(ChunkTooLarge), 1)
    else
      var rt := Route(x.chunk, d, reportAll);
      Relayed(rt.echoed, rt.kept, d, Step(x.chunk, x.result), 1)
  }

  /** `a` followed by `b`. */
  function Then(a: Relayed, b: Relayed): Relayed
  {
    Relayed(a.console + b.console, a.retained + b.retained, b.detached, b.outcome,
            a.consumed + b.consumed)
  }

  /** Specification of the relay loop: `detached` is the flag before the first read. Reads
      after the one that stops the loop are never taken. */
  function Run(rs: seq<Read>, detached: bool, reportAll: bool): (r: Relayed)
    // never more reads than scheduled; short of the schedule only when a read stopped it
    ensures r.consumed <= |rs|
    ensures r.consumed < |rs| ==> r.outcome != Pending
    ensures r.outcome != Pending ==> 1 <= r.consumed
    // the flag is never cleared
    ensures detached ==> r.detached
    decreases |rs|
  {
    if rs == [] then Relayed([], [], detached, Pending, 0)
    else
      var first := Iterate(rs[0], detached, reportAll);
      if first.outcome != Pending then first
      else Then(first, Run(rs[1..], first.detached, reportAll))
  }

  /** In-order concatenation of the chunks of a schedule. */
  function Concat(rs: seq<Read>): seq<byte>
  {
    if rs == [] then [] else rs[0].chunk + Concat(rs[1..])
  }

  /** Index of the read that stops the loop, or |rs| when none does. */
  function FirstStop(rs: seq<Read>): (t: nat)
    ensures t <= |rs|
    ensures forall i :: 0 <= i < t ==> !Stops(rs[i])
    ensures t < |rs| ==> Stops(rs[t])
  {
    if rs == [] || Stops(rs[0]) then 0 else 1 + FirstStop(rs[1..])
  }

  /** Number of chunks the loop routes: all reads up to and including the one that stops
      it, except a read too large for the buffer, which is never routed. */
  function Routed(rs: seq<Read>): (n: nat)
    ensures n <= |rs|
    ensures forall i :: 0 <= i < n ==> |rs[i].chunk| <= BufferSize
    ensures forall i :: 0 <= i < n - 1 ==> rs[i].result == More
    ensures n < |rs| ==> |rs[n].chunk| > BufferSize || (n > 0 && rs[n - 1].result != More)
  {
    if rs == [] || |rs[0].chunk| > BufferSize then 0
    else if rs[0].result != More then 1
    else 1 + Routed(rs[1..])
  }

  /** Index of the first read sampled as detached, or |rs| when there is none. */
  function FirstDetach(rs: seq<Read>, detached: bool): (k: nat)
    ensures k <= |rs|
    ensures detached ==> k == 0
    ensures !detached ==> forall i :: 0 <= i < k ==> !rs[i].detachFirst
    ensures !detached && k < |rs| ==> rs[k].detachFirst
  {
    if detached || rs == [] || rs[0].detachFirst then 0
    else 1 + FirstDetach(rs[1..], false)
  }

  /** The flag value sampled for read i: set before the run, or by the timer before some
      read j <= i. */
  ghost predicate DetachedAt(rs: seq<Read>, detached: bool, i: nat)
  {
    detached || exists j :: 0 <= j <= i && j < |rs| && rs[j].detachFirst
  }

  /** The flag never goes back once set: read i is sampled detached exactly from the first
      detach on. */
  lemma {:induction false} DetachedFromFirstDetach(rs: seq<Read>, detached: bool, i: nat)
    requires i < |rs|
    ensures DetachedAt(rs, detached, i) <==> FirstDetach(rs, detached) <= i
  {
    var k := FirstDetach(rs, detached);
    if k <= i && !detached {
      assert rs[k].detachFirst;
    }
  }

  lemma {:induction false} ConcatAppend(a: seq<Read>, b: seq<Read>)
    ensures Concat(a + b) == Concat(a) + Concat(b)
    decreases |a|
  {
    if a == [] {
      assert a + b == b;
    } else {
      assert (a + b)[1..] == a[1..] + b;
      ConcatAppend(a[1..], b);
    }
  }

  lemma ConcatUncons(rs: seq<Read>, n: nat)
    requires 1 <= n <= |rs|
    ensures Concat(rs[..n]) == rs[0].chunk + Concat(rs[1..][..n - 1])
  {
    assert rs[..n][1..] == rs[1..][..n - 1];
  }

  lemma AppendAssoc(a: seq<byte>, b: seq<byte>, c: seq<byte>)
    ensures a + (b + c) == (a + b) + c
  {
  }

  lemma ThenAssoc(a: Relayed, b: Relayed, c: Relayed)
    ensures Then(a, Then(b, c)) == Then(Then(a, b), c)
  {
    AppendAssoc(a.console, b.console, c.console);
    AppendAssoc(a.retained, b.retained, c.retained);
  }

  /** One step past a prefix on which the loop is still reading. */
  lemma {:induction false} RunSnoc(s: seq<Read>, x: Read, detached: bool, reportAll: bool)
    requires Run(s, detached, reportAll).outcome == Pending
    ensures var r := Run(s, detached, reportAll);
            Run(s + [x], detached, reportAll) == Then(r, Iterate(x, r.detached, reportAll))
    decreases |s|
  {
    if s == [] {
      assert s + [x] == [x];
      var one := Iterate(x, detached, reportAll);
      if one.outcome == Pending {
        assert Run([x], detached, reportAll) == Then(one, Run([], one.detached, reportAll));
      }
    } else {
      assert (s + [x])[0] == s[0];
      assert (s + [x])[1..] == s[1..] + [x];
      var first := Iterate(s[0], detached, reportAll);
      var r' := Run(s[1..], first.detached, reportAll);
      RunSnoc(s[1..], x, first.detached, reportAll);
      var last := Iterate(x, r'.detached, reportAll);
      assert Run(s + [x], detached, reportAll) == Then(first, Then(r', last));
      ThenAssoc(first, r', last);
    }
  }

  /** Once the loop has stopped, later reads change nothing. */
  lemma {:induction false} RunStops(s: seq<Read>, rest: seq<Read>, detached: bool, reportAll: bool)
    requires Run(s, detached, reportAll).outcome != Pending
    ensures Run(s + rest, detached, reportAll) == Run(s, detached, reportAll)
    decreases |s|
  {
    assert s != [];
    assert (s + rest)[0] == s[0];
    assert (s + rest)[1..] == s[1..] + rest;
    var first := Iterate(s[0], detached, reportAll);
    if first.outcome == Pending {
      RunStops(s[1..], rest, first.detached, reportAll);
    }
  }

  /** RunSnoc on a prefix of a schedule: the loop's view after i reads. */
  lemma RunPrefixStep(rs: seq<Read>, i: nat, detached: bool, reportAll: bool)
    requires i < |rs| && Run(rs[..i], detached, reportAll).outcome == Pending
    ensures var r := Run(rs[..i], detached, reportAll);
            Run(rs[..i + 1], detached, reportAll) == Then(r, Iterate(rs[i], r.detached, reportAll))
  {
    assert rs[..i + 1] == rs[..i] + [rs[i]];
    RunSnoc(rs[..i], rs[i], detached, reportAll);
  }

  /** The loop's view after i reads is the whole run once it has stopped or read all. */
  lemma RunPrefixDone(rs: seq<Read>, i: nat, detached: bool, reportAll: bool)
    requires i <= |rs|
    requires i == |rs| || Run(rs[..i], detached, reportAll).outcome != Pending
    ensures Run(rs, detached, reportAll) == Run(rs[..i], detached, reportAll)
  {
    if i < |rs| {
      RunStops(rs[..i], rs[i..], detached, reportAll);
      assert rs == rs[..i] + rs[i..];
    } else {
      assert rs[..i] == rs;
    }
  }

  /** How far the loop gets, why it stops, and how many chunks it routes. A read returned
      together with EOF or another error still has its chunk routed; only a read too large
      for the buffer is not. */
  lemma {:induction false} RunOutcome(rs: seq<Read>, detached: bool, reportAll: bool)
    ensures var r := Run(rs, detached, reportAll);
            var t := FirstStop(rs);
            && r.consumed == (if t < |rs| then t + 1 else |rs|)
            && r.outcome == (if t < |rs| then Step(rs[t].chunk, rs[t].result) else Pending)
            && Routed(rs) == (if r.outcome == Aborted(ChunkTooLarge) then r.consumed - 1 else r.consumed)
    decreases |rs|
  {
    if rs != [] && !Stops(rs[0]) {
      var first := Iterate(rs[0], detached, reportAll);
      RunOutcome(rs[1..], first.detached, reportAll);
      assert FirstStop(rs) == 1 + FirstStop(rs[1..]);
      assert Routed(rs) == 1 + Routed(rs[1..]);
    }
  }

  /** The flag after the loop: set before it, or by the timer before one of the reads taken. */
  lemma {:induction false} RunDetached(rs: seq<Read>, detached: bool, reportAll: bool)
    ensures var r := Run(rs, detached, reportAll);
            r.detached <==> detached || FirstDetach(rs, detached) < r.consumed
    decreases |rs|
  {
    if rs != [] {
      var first := Iterate(rs[0], detached, reportAll);
      if first.outcome == Pending {
        RunDetached(rs[1..], first.detached, reportAll);
        if !first.detached {
          assert FirstDetach(rs, detached) == 1 + FirstDetach(rs[1..], false);
        }
      }
    }
  }

  /** The flag the loop samples for read i, for every read it takes, is `DetachedAt`: set
      before the run or by the timer before read i or some earlier one. */
  lemma SampledFlag(rs: seq<Read>, detached: bool, reportAll: bool, i: nat)
    requires i < Run(rs, detached, reportAll).consumed
    ensures Run(rs[..i + 1], detached, reportAll).detached <==> DetachedAt(rs, detached, i)
  {
    var p := rs[..i + 1];
    RunOutcome(rs, detached, reportAll);
    RunOutcome(p, detached, reportAll);
    RunDetached(p, detached, reportAll);
    var t, t' := FirstStop(rs), FirstStop(p);
    assert i <= t;
    assert Run(p, detached, reportAll).consumed == i + 1;
    DetachedFromFirstDetach(p, detached, i);
    if DetachedAt(p, detached, i) && !detached {
      var j :| 0 <= j <= i && j < |p| && p[j].detachFirst;
      assert rs[j].detachFirst;
    }
    if DetachedAt(rs, detached, i) && !detached {
      var j :| 0 <= j <= i && j < |rs| && rs[j].detachFirst;
      assert p[j].detachFirst;
    }
  }

  /** Number of routed chunks read while still attached: those before the first detach. */
  function AttachedCount(rs: seq<Read>, detached: bool): (k: nat)
    ensures k <= Routed(rs)
  {
    if FirstDetach(rs, detached) < Routed(rs) then FirstDetach(rs, detached) else Routed(rs)
  }

  /** The first read is routed and the loop goes on: the run is that chunk's routing
      followed by the run over the remaining reads. */
  lemma RunUnfold(rs: seq<Read>, detached: bool, reportAll: bool)
    requires rs != [] && !Stops(rs[0])
    ensures var d := detached || rs[0].detachFirst;
            var r := Run(rs, detached, reportAll);
            var rt := Run(rs[1..], d, reportAll);
            && r.console == (if d then [] else rs[0].chunk) + rt.console
            && r.retained == (if d || reportAll then rs[0].chunk else []) + rt.retained
            && Routed(rs) == 1 + Routed(rs[1..])
            && AttachedCount(rs, detached)
               == (if d then 0 else 1 + AttachedCount(rs[1..], false))
  {
    var d := detached || rs[0].detachFirst;
    if !d {
      assert FirstDetach(rs, detached) == 1 + FirstDetach(rs[1..], false);
    }
  }

  /** The first read stops the loop: its chunk, when it fits, is the only one routed. */
  lemma RunFirstStops(rs: seq<Read>, detached: bool, reportAll: bool)
    requires rs != [] && Stops(rs[0])
    ensures var d := detached || rs[0].detachFirst;
            var routed := |rs[0].chunk| <= BufferSize;
            var r := Run(rs, detached, reportAll);
            && Routed(rs) == (if routed then 1 else 0)
            && AttachedCount(rs, detached) == (if routed && !d then 1 else 0)
            && r.console == (if routed && !d then rs[0].chunk else [])
            && r.retained == (if routed && (d || reportAll) then rs[0].chunk else [])
  {
  }

  /** The console gets exactly the chunks read before the first detach, in order. */
  lemma {:induction false} RunConsole(rs: seq<Read>, detached: bool, reportAll: bool)
    ensures Run(rs, detached, reportAll).console == Concat(rs[..AttachedCount(rs, detached)])
    decreases |rs|
  {
    if rs == [] {
      assert rs[..0] == [];
    } else if Stops(rs[0]) {
      RunFirstStops(rs, detached, reportAll);
    } else {
      var d := detached || rs[0].detachFirst;
      RunConsole(rs[1..], d, reportAll);
      RunUnfold(rs, detached, reportAll);
      if d {
        assert rs[..0] == [] && rs[1..][..0] == [];
      } else {
        ConcatUncons(rs, AttachedCount(rs, detached));
      }
    }
  }

  /** With reportAll the buffer gets every routed chunk, in order, whenever the detach
      happens. */
  lemma {:induction false} RunRetainsAll(rs: seq<Read>, detached: bool)
    ensures Run(rs, detached, true).retained == Concat(rs[..Routed(rs)])
    decreases |rs|
  {
    if rs == [] {
      assert rs[..0] == [];
    } else if Stops(rs[0]) {
      RunFirstStops(rs, detached, true);
    } else {
      RunRetainsAll(rs[1..], detached || rs[0].detachFirst);
      RunUnfold(rs, detached, true);
      ConcatUncons(rs, Routed(rs));
    }
  }

  /** Without reportAll the buffer gets exactly the routed chunks from the first detach on,
      in order. */
  lemma {:induction false} RunRetainsSuffix(rs: seq<Read>, detached: bool)
    ensures Run(rs, detached, false).retained
            == Concat(rs[AttachedCount(rs, detached)..Routed(rs)])
    decreases |rs|
  {
    if rs == [] {
      assert rs[0..0] == [];
    } else if Stops(rs[0]) {
      RunFirstStops(rs, detached, false);
    } else {
      RunRetainsSuffix(rs[1..], detached || rs[0].detachFirst);
      RetainsSuffixStep(rs, detached);
    }
  }

  lemma SliceShift(rs: seq<Read>, k: nat, n: nat)
    requires 1 <= k <= n <= |rs|
    ensures rs[k..n] == rs[1..][k - 1..n - 1]
  {
  }

  /** Inductive step of RunRetainsSuffix. */
  lemma RetainsSuffixStep(rs: seq<Read>, detached: bool)
    requires rs != [] && !Stops(rs[0])
    requires var d := detached || rs[0].detachFirst;
             Run(rs[1..], d, false).retained
             == Concat(rs[1..][AttachedCount(rs[1..], d)..Routed(rs[1..])])
    ensures Run(rs, detached, false).retained
            == Concat(rs[AttachedCount(rs, detached)..Routed(rs)])
  {
    var d := detached || rs[0].detachFirst;
    var tail := rs[1..];
    RunUnfold(rs, detached, false);
    var rt := Run(tail, d, false);
    var n, n' := Routed(rs), Routed(tail);
    var k, k' := AttachedCount(rs, detached), AttachedCount(tail, d);
    assert n == n' + 1;
    if d {
      assert k == 0 && k' == 0;
      assert Run(rs, detached, false).retained == rs[0].chunk + rt.retained;
      ConcatUncons(rs, n);
      assert rs[0..n] == rs[..n] && tail[0..n'] == tail[..n'];
    } else {
      assert k == k' + 1;
      assert Run(rs, detached, false).retained == [] + rt.retained == rt.retained;
      SliceShift(rs, k, n);
    }
  }

  /** Without reportAll no byte is lost or duplicated: console followed by buffer is the
      whole routed output. */
  lemma {:induction false} NothingDropped(rs: seq<Read>, detached: bool)
    ensures var r := Run(rs, detached, false);
            r.console + r.retained == Concat(rs[..Routed(rs)])
  {
    RunConsole(rs, detached, false);
    RunRetainsSuffix(rs, detached);
    var n := Routed(rs);
    var k := AttachedCount(rs, detached);
    assert rs[..n] == rs[..k] + rs[k..n];
    ConcatAppend(rs[..k], rs[k..n]);
  }

  /** A command that prints "A", is detached, then prints "B" and exits: the console shows
      "A" and the buffer holds "B". */
  lemma LateOutputRetained()
    ensures Run([Read(false, [65], More), Read(true, [66], Eof)], false, false)
            == Relayed([65], [66], true, Finished, 2)
  {
  }

  /** Output that ends before the first detach goes to the console only, in order; the
      buffer stays empty. */
  lemma AttachedRunEchoed(rs: seq<Read>, detached: bool)
    requires Routed(rs) <= FirstDetach(rs, detached)
    ensures var r := Run(rs, detached, false);
            r.retained == [] && r.console == Concat(rs[..Routed(rs)])
  {
    RunConsole(rs, detached, false);
    RunRetainsSuffix(rs, detached);
  }

  /** A command that prints "hello\n" and exits before the detach: everything went to the
      console and nothing is retained. */
  lemma EarlyExitEchoed()
    ensures Run([Read(false, [104, 101, 108, 108, 111, 10], Eof)], false, false)
            == Relayed([104, 101, 108, 108, 111, 10], [], false, Finished, 1)
  {
  }
}
