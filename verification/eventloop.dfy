/**
  The main loop of the live mode.  One iteration consumes the pending flags
  (export first, then reset), builds the readiness set, and interprets what
  `select` returned.  Signals arrive between iterations.
*/
module EventLoop {
  import opened Results
  import opened Signals
  import opened Trace
  import Capture

  /** What `select` returns: a count of ready descriptors (0 on timeout), or -1 and `errno`. */
  datatype SelectReturn = Ready(count: nat) | Failed(interrupted: bool)

  datatype FatalReason = SelectTimedOutWithoutTimeout | SelectFailed

  /** How an iteration ends: the polls ran, `select` was interrupted (EINTR), or the program exits. */
  datatype Status = Polled | Interrupted | Fatal(reason: FatalReason)

  datatype Iteration = Iteration(flags: Flags, trace: seq<Effect>, status: Status)

  /** The four polls, in the order every completed iteration runs them. */
  const Polls: seq<Effect> := [GraphRotate, CapPollCall, DnsPoll, HttpPoll]

  /** Building the readiness set (capture first, then the web server) and waiting in `select`. */
  const Wait: seq<Effect> := [CapFdSetCall, HttpFdSet, Select]

  /**
    The flags after the head of an iteration: a pending export and a pending
    reset are both handled and cleared; `running` is left alone.
  */
  function ConsumeFlags(f: Flags): (r: Flags)
    ensures r.running == f.running && !r.resetPending && !r.exportPending
  {
    Flags(f.running, false, false)
  }

  /** The effects an iteration of the loop can make. */
  predicate LoopEffect(e: Effect) {
    || e.DbExport? || e.HostsDbReset? || e.GraphReset? || e.CapFdSetCall? || e.HttpFdSet? || e.Select?
    || e.GraphRotate? || e.CapPollCall? || e.DnsPoll? || e.HttpPoll?
  }

  /** The effects handling a pending flag can make. */
  predicate FlagEffect(e: Effect) {
    e.DbExport? || e.HostsDbReset? || e.GraphReset?
  }

  lemma CountSingleton(x: Effect, e: Effect)
    ensures Count([x], e) == if x == e then 1 else 0
  {
    assert [x][..0] == [];
  }

  /** A pending export writes the database file when one is configured; the flag is cleared either way. */
  function ExportEffects(f: Flags, exportFn: Option<string>): (r: seq<Effect>)
    ensures forall e :: e in r ==> e.DbExport?
    ensures forall fn :: DbExport(fn) in r <==> f.exportPending && exportFn == Some(fn)
    ensures forall e :: Count(r, e) <= 1
  {
    if f.exportPending && exportFn.Some? then
      assert forall e :: Count([DbExport(exportFn.value)], e) <= 1 by {
        forall e ensures Count([DbExport(exportFn.value)], e) <= 1 {
          CountSingleton(DbExport(exportFn.value), e);
        }
      }
      [DbExport(exportFn.value)]
    else []
  }

  /** A pending reset empties the hosts table and then the graphs. */
  function ResetEffects(f: Flags): (r: seq<Effect>)
    ensures forall e :: e in r <==> f.resetPending && (e == HostsDbReset || e == GraphReset)
    ensures forall e :: Count(r, e) <= 1
    ensures f.resetPending ==> Precedes(r, HostsDbReset, GraphReset)
  {
    if f.resetPending then
      assert forall e :: Count([HostsDbReset] + [GraphReset], e) <= 1 by {
        forall e ensures Count([HostsDbReset] + [GraphReset], e) <= 1 {
          CountAppend([HostsDbReset], [GraphReset], e);
          CountSingleton(HostsDbReset, e);
          CountSingleton(GraphReset, e);
        }
      }
      PrecedesAcross([HostsDbReset], [GraphReset], HostsDbReset, GraphReset);
      [HostsDbReset] + [GraphReset]
    else []
  }

  /**
    The effects of the head of an iteration: the export, then the reset.
    Each effect happens at most once.
  */
  function FlagEffects(f: Flags, exportFn: Option<string>): (r: seq<Effect>)
    ensures forall e :: e in r ==> FlagEffect(e)
    ensures forall e :: Count(r, e) <= 1
    ensures forall fn :: DbExport(fn) in r <==> f.exportPending && exportFn == Some(fn)
    ensures HostsDbReset in r <==> f.resetPending
    ensures GraphReset in r <==> f.resetPending
    ensures f.resetPending ==> Precedes(r, HostsDbReset, GraphReset)
    ensures f.exportPending && f.resetPending && exportFn.Some?
            ==> Precedes(r, DbExport(exportFn.value), HostsDbReset)
  {
    var exports := ExportEffects(f, exportFn);
    var resets := ResetEffects(f);
    CountDisjoint(exports, resets);
    assert f.resetPending ==> Precedes(exports + resets, HostsDbReset, GraphReset) by {
      if f.resetPending {
        PrecedesPrepend(exports, resets, HostsDbReset, GraphReset);
      }
    }
    assert f.exportPending && f.resetPending && exportFn.Some?
           ==> Precedes(exports + resets, DbExport(exportFn.value), HostsDbReset) by {
      if f.exportPending && f.resetPending && exportFn.Some? {
        PrecedesAcross(exports, resets, DbExport(exportFn.value), HostsDbReset);
      }
    }
    exports + resets
  }

  /** Whether the readiness set asks `select` for a timeout: capture on Linux, or the web server. */
  function UseTimeout(p: Capture.Platform, pcapFd: int, httpTimeout: bool): bool {
    Capture.CapFdSet(p, Capture.EmptyReadiness, pcapFd).useTimeout || httpTimeout
  }

  /**
    What the program makes of `select`'s return value: 0 without a timeout is
    an error, -1 is an error unless `errno` is EINTR (which restarts the loop),
    anything else lets the polls run.
  */
  function SelectStatus(p: Capture.Platform, pcapFd: int, httpTimeout: bool, sel: SelectReturn): (r: Status)
    ensures r == Fatal(SelectTimedOutWithoutTimeout) <==> sel == Ready(0) && p.Bsd? && !httpTimeout
    ensures r == Fatal(SelectFailed) <==> sel == Failed(false)
    ensures r == Interrupted <==> sel == Failed(true)
    ensures r == Polled <==> sel.Ready? && (sel.count > 0 || p.Linux? || httpTimeout)
  {
    if sel == Ready(0) && !UseTimeout(p, pcapFd, httpTimeout) then Fatal(SelectTimedOutWithoutTimeout)
    else if sel.Failed? then (if sel.interrupted then Interrupted else Fatal(SelectFailed))
    else Polled
  }

  /** The trace of one iteration from its head effects and its status. */
  function IterationEffects(head: seq<Effect>, status: Status): seq<Effect> {
    head + Wait + (if status == Polled then Polls else [])
  }

  /** Head effects come before the readiness set is built, and keep their own order. */
  lemma HeadBeforeWait(head: seq<Effect>, status: Status)
    requires forall e :: e in head ==> FlagEffect(e)
    ensures var t := IterationEffects(head, status);
            && (forall e :: e in head ==> Precedes(t, e, CapFdSetCall))
            && (forall a, b :: Precedes(head, a, b) ==> Precedes(t, a, b))
  {
    var tail: seq<Effect> := if status == Polled then Polls else [];
    var t := IterationEffects(head, status);
    forall e | e in head
      ensures Precedes(t, e, CapFdSetCall)
    {
      PrecedesAcross(head, Wait, e, CapFdSetCall);
      PrecedesExtend(head + Wait, tail, e, CapFdSetCall);
    }
    forall a, b | Precedes(head, a, b)
      ensures Precedes(t, a, b)
    {
      PrecedesMeaning(head, a, b);
      PrecedesExtend(head, Wait, a, b);
      PrecedesExtend(head + Wait, tail, a, b);
    }
  }

  /** Within an iteration the readiness set is built in order and `select` waits last. */
  lemma WaitInIteration(head: seq<Effect>, status: Status)
    requires forall e :: e in head ==> FlagEffect(e)
    ensures var t := IterationEffects(head, status);
            Precedes(t, CapFdSetCall, HttpFdSet) && Precedes(t, HttpFdSet, Select)
  {
    var tail: seq<Effect> := if status == Polled then Polls else [];
    var t := IterationEffects(head, status);
    assert Precedes(t, CapFdSetCall, HttpFdSet) by {
      assert t == (head + [CapFdSetCall]) + ([HttpFdSet, Select] + tail);
      PrecedesAcross(head + [CapFdSetCall], [HttpFdSet, Select] + tail, CapFdSetCall, HttpFdSet);
    }
    assert Precedes(t, HttpFdSet, Select) by {
      assert t == (head + [CapFdSetCall, HttpFdSet]) + ([Select] + tail);
      PrecedesAcross(head + [CapFdSetCall, HttpFdSet], [Select] + tail, HttpFdSet, Select);
    }
  }

  /** The polls come after `select` and run rotate, capture, DNS, web. */
  lemma WaitThenPolls(head: seq<Effect>)
    requires forall e :: e in head ==> FlagEffect(e)
    ensures var t := IterationEffects(head, Polled);
            && Precedes(t, Select, GraphRotate) && Precedes(t, GraphRotate, CapPollCall)
            && Precedes(t, CapPollCall, DnsPoll) && Precedes(t, DnsPoll, HttpPoll)
  {
    var t := IterationEffects(head, Polled);
    var front := head + Wait;
    assert t == front + Polls;
    assert Precedes(t, Select, GraphRotate) by {
      PrecedesAcross(front, Polls, Select, GraphRotate);
    }
    assert Precedes(t, GraphRotate, CapPollCall) by {
      assert t == (front + [GraphRotate]) + [CapPollCall, DnsPoll, HttpPoll];
      PrecedesAcross(front + [GraphRotate], [CapPollCall, DnsPoll, HttpPoll], GraphRotate, CapPollCall);
    }
    assert Precedes(t, CapPollCall, DnsPoll) by {
      assert t == (front + [GraphRotate, CapPollCall]) + [DnsPoll, HttpPoll];
      PrecedesAcross(front + [GraphRotate, CapPollCall], [DnsPoll, HttpPoll], CapPollCall, DnsPoll);
    }
    assert Precedes(t, DnsPoll, HttpPoll) by {
      assert t == (front + [GraphRotate, CapPollCall, DnsPoll]) + [HttpPoll];
      PrecedesAcross(front + [GraphRotate, CapPollCall, DnsPoll], [HttpPoll], DnsPoll, HttpPoll);
    }
  }

  /** Each poll effect occurs once among the four polls. */
  lemma CountPolls(e: Effect)
    requires e in Polls
    ensures Count(Polls, e) == 1
  {
    assert Polls == [GraphRotate] + [CapPollCall] + [DnsPoll] + [HttpPoll];
    CountAppend([GraphRotate] + [CapPollCall] + [DnsPoll], [HttpPoll], e);
    CountAppend([GraphRotate] + [CapPollCall], [DnsPoll], e);
    CountAppend([GraphRotate], [CapPollCall], e);
    CountSingleton(GraphRotate, e);
    CountSingleton(CapPollCall, e);
    CountSingleton(DnsPoll, e);
    CountSingleton(HttpPoll, e);
  }

  /** In a trace assembled from poll-free head effects, each poll occurs once if the iteration polled. */
  lemma EffectsPollCount(head: seq<Effect>, status: Status, e: Effect)
    requires e in Polls && e !in head
    ensures Count(IterationEffects(head, status), e) == if status == Polled then 1 else 0
  {
    var tail: seq<Effect> := if status == Polled then Polls else [];
    assert IterationEffects(head, status) == head + Wait + tail;
    CountAppend(head + Wait, tail, e);
    CountAppend(head, Wait, e);
    CountPositiveIffPresent(head, e);
    CountPositiveIffPresent(Wait, e);
    if status == Polled {
      CountPolls(e);
    } else {
      assert Count(tail, e) == 0;
    }
  }

  /** An iteration makes its head effects, the wait, and the polls when it polled. */
  lemma IterationMembership(head: seq<Effect>, status: Status)
    ensures forall e :: e in IterationEffects(head, status) <==> e in head || e in Wait || (status == Polled && e in Polls)
  {
  }

  /** Which effects an iteration makes: only loop effects, and the flag effects exactly when their flags are pending. */
  lemma IterationMembers(f: Flags, exportFn: Option<string>, status: Status)
    ensures var t := IterationEffects(FlagEffects(f, exportFn), status);
            && (forall e :: e in t ==> LoopEffect(e))
            && (forall fn :: DbExport(fn) in t <==> f.exportPending && exportFn == Some(fn))
            && (HostsDbReset in t <==> f.resetPending)
            && (GraphReset in t <==> f.resetPending)
  {
    var head := FlagEffects(f, exportFn);
    IterationMembership(head, status);
    WaitAndPollsAreLoopEffects();
  }

  lemma WaitAndPollsAreLoopEffects()
    ensures forall e :: e in Wait || e in Polls ==> LoopEffect(e) && !FlagEffect(e)
  {
  }

  /** The flag effects keep their order and all come before the readiness set is built. */
  lemma IterationHeadOrder(f: Flags, exportFn: Option<string>, status: Status)
    ensures var t := IterationEffects(FlagEffects(f, exportFn), status);
            && (f.exportPending && exportFn.Some? ==> Precedes(t, DbExport(exportFn.value), CapFdSetCall))
            && (f.exportPending && f.resetPending && exportFn.Some? ==> Precedes(t, DbExport(exportFn.value), HostsDbReset))
            && (f.resetPending ==> Precedes(t, HostsDbReset, GraphReset) && Precedes(t, GraphReset, CapFdSetCall))
  {
    HeadBeforeWait(FlagEffects(f, exportFn), status);
  }

  /**
    One iteration of the `while (running)` body.  `httpTimeout` is whether
    `http_fd_set` asked for a timeout; `sel` is what `select` returned.
    Pending flags are handled first, in order, then the readiness set is
    built and `select` waits; the polls run, each once and in order, exactly
    when `select` returned something usable (IterateTrace states the trace).
  */
  function Iterate(f: Flags, exportFn: Option<string>, p: Capture.Platform, pcapFd: int,
                   httpTimeout: bool, sel: SelectReturn): (r: Iteration)
    ensures r.flags.running == f.running && !r.flags.resetPending && !r.flags.exportPending
    ensures r.status == Polled <==> sel.Ready? && (sel.count > 0 || p.Linux? || httpTimeout)
    ensures r.status == Interrupted <==> sel == Failed(true)
    ensures r.status.Fatal? <==> sel == Failed(false) || (sel == Ready(0) && p.Bsd? && !httpTimeout)
    ensures forall e :: e in r.trace ==> LoopEffect(e)
  {
    var status := SelectStatus(p, pcapFd, httpTimeout, sel);
    IterationMembers(f, exportFn, status);
    Iteration(ConsumeFlags(f), IterationEffects(FlagEffects(f, exportFn), status), status)
  }

  /**
    What one iteration does, in order: the export when it is pending and a
    file is named, the reset when it is pending, then the readiness set and
    `select`, then — only when the iteration polled — the graph rotation and
    the three polls, each exactly once.
  */
  lemma IterateTrace(f: Flags, exportFn: Option<string>, p: Capture.Platform, pcapFd: int,
                     httpTimeout: bool, sel: SelectReturn)
    ensures var r := Iterate(f, exportFn, p, pcapFd, httpTimeout, sel);
            && (forall fn :: DbExport(fn) in r.trace <==> f.exportPending && exportFn == Some(fn))
            && (HostsDbReset in r.trace <==> f.resetPending)
            && (GraphReset in r.trace <==> f.resetPending)
            && (f.exportPending && exportFn.Some? ==> Precedes(r.trace, DbExport(exportFn.value), CapFdSetCall))
            && (f.exportPending && f.resetPending && exportFn.Some?
                ==> Precedes(r.trace, DbExport(exportFn.value), HostsDbReset))
            && (f.resetPending ==> Precedes(r.trace, HostsDbReset, GraphReset) && Precedes(r.trace, GraphReset, CapFdSetCall))
            && Precedes(r.trace, CapFdSetCall, HttpFdSet) && Precedes(r.trace, HttpFdSet, Select)
            && (r.status == Polled ==> && Precedes(r.trace, Select, GraphRotate) && Precedes(r.trace, GraphRotate, CapPollCall)
                                       && Precedes(r.trace, CapPollCall, DnsPoll) && Precedes(r.trace, DnsPoll, HttpPoll))
            && (forall e :: e in Polls ==> Count(r.trace, e) == if r.status == Polled then 1 else 0)
  {
    var status := SelectStatus(p, pcapFd, httpTimeout, sel);
    var head := FlagEffects(f, exportFn);
    IterationMembers(f, exportFn, status);
    IterationHeadOrder(f, exportFn, status);
    WaitInIteration(head, status);
    IterationPollCounts(head, status);
    if status == Polled {
      WaitThenPolls(head);
    }
  }

  /** Each poll runs once in an iteration that polls, and never otherwise. */
  lemma IterationPollCounts(head: seq<Effect>, status: Status)
    requires forall e :: e in head ==> FlagEffect(e)
    ensures forall e :: e in Polls ==> Count(IterationEffects(head, status), e) == if status == Polled then 1 else 0
  {
    forall e | e in Polls
      ensures Count(IterationEffects(head, status), e) == if status == Polled then 1 else 0
    {
      EffectsPollCount(head, status, e);
    }
  }

  // ---------------------------------------------------------------------------
  // The loop

  /**
    What one iteration meets: `select`'s return value, whether the web server
    asked for a timeout, and the signals delivered after the iteration, before
    `running` is tested again.
  */
  datatype Tick = Tick(sel: SelectReturn, httpTimeout: bool, signals: seq<Signal>)

  /** How the loop ends: `running` was cleared, the program exited on an error, or the ticks ran out. */
  datatype LoopEnd = Stopped | Died(reason: FatalReason) | Horizon

  /** The loop's outcome: the final flags, the effects, how it ended, how many iterations ran and how many of them polled. */
  datatype LoopResult = LoopResult(flags: Flags, trace: seq<Effect>, end: LoopEnd, iterations: nat, polled: nat)

  /** `while (running) { … }` over a finite script of ticks. */
  function Loop(f: Flags, exportFn: Option<string>, p: Capture.Platform, pcapFd: int, ticks: seq<Tick>): (r: LoopResult)
    ensures r.end.Stopped? <==> !r.flags.running
    ensures r.end.Horizon? ==> r.iterations == |ticks|
    ensures r.polled <= r.iterations <= |ticks|
    ensures !f.running ==> r == LoopResult(f, [], Stopped, 0, 0)
    ensures f.running ==> r.iterations >= 1 || |ticks| == 0
    ensures forall e :: e in r.trace ==> LoopEffect(e)
    decreases |ticks|
  {
    if !f.running then LoopResult(f, [], Stopped, 0, 0)
    else if |ticks| == 0 then LoopResult(f, [], Horizon, 0, 0)
    else
      var it := Iterate(f, exportFn, p, pcapFd, ticks[0].httpTimeout, ticks[0].sel);
      if it.status.Fatal? then LoopResult(it.flags, it.trace, Died(it.status.reason), 1, 0)
      else
        var rest := Loop(DeliverAll(ticks[0].signals, it.flags), exportFn, p, pcapFd, ticks[1..]);
        LoopResult(rest.flags, it.trace + rest.trace, rest.end, rest.iterations + 1,
                   rest.polled + if it.status == Polled then 1 else 0)
  }

  /** A tick whose `select` result does not end the program. */
  predicate Survives(p: Capture.Platform, t: Tick) {
    t.sel != Failed(false) && !(t.sel == Ready(0) && p.Bsd? && !t.httpTimeout)
  }

  predicate HasShutdown(t: Tick) {
    SIGTERM in t.signals || SIGINT in t.signals
  }

  /** The flags the next test of `running` sees after one surviving iteration and the signals that followed it. */
  function After(f: Flags, exportFn: Option<string>, p: Capture.Platform, pcapFd: int, t: Tick): (r: Flags)
    ensures r.running <==> f.running && !HasShutdown(t)
  {
    var it := Iterate(f, exportFn, p, pcapFd, t.httpTimeout, t.sel);
    DeliverAllCoalesces(t.signals, it.flags);
    DeliverAll(t.signals, it.flags)
  }

  /** A running loop whose first tick survives runs that iteration and goes on from the flags `After` gives. */
  lemma LoopContinues(f: Flags, exportFn: Option<string>, p: Capture.Platform, pcapFd: int, ticks: seq<Tick>)
    requires f.running && |ticks| > 0 && Survives(p, ticks[0])
    ensures var rest := Loop(After(f, exportFn, p, pcapFd, ticks[0]), exportFn, p, pcapFd, ticks[1..]);
            && Loop(f, exportFn, p, pcapFd, ticks).end == rest.end
            && Loop(f, exportFn, p, pcapFd, ticks).iterations == rest.iterations + 1
  {
  }

  /** Dropping the first tick keeps the later ticks and their indices shift by one. */
  lemma SurvivingTail(p: Capture.Platform, ticks: seq<Tick>, k: nat)
    requires 0 < k < |ticks| && HasShutdown(ticks[k])
    requires forall i :: 0 <= i <= k ==> Survives(p, ticks[i])
    ensures k - 1 < |ticks[1..]| && HasShutdown(ticks[1..][k - 1])
    ensures forall i :: 0 <= i <= k - 1 ==> Survives(p, ticks[1..][i])
  {
    assert forall i :: 0 <= i <= k - 1 ==> ticks[1..][i] == ticks[i + 1];
  }

  /**
    A SIGTERM or SIGINT delivered after iteration `k` stops the loop before
    iteration `k + 2`, provided `select` did not end the program first.
  */
  lemma ShutdownStopsLoop(f: Flags, exportFn: Option<string>, p: Capture.Platform, pcapFd: int,
                          ticks: seq<Tick>, k: nat)
    requires k < |ticks| && HasShutdown(ticks[k])
    requires forall i :: 0 <= i <= k ==> Survives(p, ticks[i])
    ensures Loop(f, exportFn, p, pcapFd, ticks).end == Stopped
    ensures Loop(f, exportFn, p, pcapFd, ticks).iterations <= k + 1
  {
    ShutdownEndsLoop(f, exportFn, p, pcapFd, ticks, k);
    ShutdownBoundsLoop(f, exportFn, p, pcapFd, ticks, k);
  }

  lemma {:induction false} ShutdownEndsLoop(f: Flags, exportFn: Option<string>, p: Capture.Platform, pcapFd: int,
                                            ticks: seq<Tick>, k: nat)
    requires k < |ticks| && HasShutdown(ticks[k])
    requires forall i :: 0 <= i <= k ==> Survives(p, ticks[i])
    ensures Loop(f, exportFn, p, pcapFd, ticks).end == Stopped
    decreases k
  {
    if f.running {
      assert Survives(p, ticks[0]);
      LoopContinues(f, exportFn, p, pcapFd, ticks);
      var f' := After(f, exportFn, p, pcapFd, ticks[0]);
      if k > 0 {
        SurvivingTail(p, ticks, k);
        ShutdownEndsLoop(f', exportFn, p, pcapFd, ticks[1..], k - 1);
      } else {
        assert !f'.running;
      }
    }
  }

  lemma {:induction false} ShutdownBoundsLoop(f: Flags, exportFn: Option<string>, p: Capture.Platform, pcapFd: int,
                                              ticks: seq<Tick>, k: nat)
    requires k < |ticks| && HasShutdown(ticks[k])
    requires forall i :: 0 <= i <= k ==> Survives(p, ticks[i])
    ensures Loop(f, exportFn, p, pcapFd, ticks).iterations <= k + 1
    decreases k
  {
    if f.running {
      assert Survives(p, ticks[0]);
      LoopContinues(f, exportFn, p, pcapFd, ticks);
      var f' := After(f, exportFn, p, pcapFd, ticks[0]);
      if k > 0 {
        SurvivingTail(p, ticks, k);
        ShutdownBoundsLoop(f', exportFn, p, pcapFd, ticks[1..], k - 1);
      } else {
        assert !f'.running;
      }
    }
  }

  /** Only a shutdown signal stops a running loop: a loop that stops was sent SIGTERM or SIGINT. */
  lemma {:induction false} StopNeedsShutdown(f: Flags, exportFn: Option<string>, p: Capture.Platform, pcapFd: int,
                                             ticks: seq<Tick>)
    requires f.running && Loop(f, exportFn, p, pcapFd, ticks).end == Stopped
    ensures exists k :: 0 <= k < |ticks| && HasShutdown(ticks[k])
    decreases |ticks|
  {
    var it := Iterate(f, exportFn, p, pcapFd, ticks[0].httpTimeout, ticks[0].sel);
    var f' := DeliverAll(ticks[0].signals, it.flags);
    DeliverAllCoalesces(ticks[0].signals, it.flags);
    if f'.running {
      StopNeedsShutdown(f', exportFn, p, pcapFd, ticks[1..]);
      var k :| 0 <= k < |ticks[1..]| && HasShutdown(ticks[1..][k]);
      assert ticks[1..][k] == ticks[k + 1];
    } else {
      assert HasShutdown(ticks[0]);
    }
  }

  /** A running loop with ticks left runs one iteration and, unless it was fatal, continues. */
  lemma LoopStep(f: Flags, exportFn: Option<string>, p: Capture.Platform, pcapFd: int, ticks: seq<Tick>)
    requires f.running && |ticks| > 0
    ensures var it := Iterate(f, exportFn, p, pcapFd, ticks[0].httpTimeout, ticks[0].sel);
            var r := Loop(f, exportFn, p, pcapFd, ticks);
            var rest := Loop(DeliverAll(ticks[0].signals, it.flags), exportFn, p, pcapFd, ticks[1..]);
            && (it.status.Fatal? ==> r.trace == it.trace && r.polled == 0)
            && (!it.status.Fatal? ==> r.trace == it.trace + rest.trace
                                      && r.polled == rest.polled + if it.status == Polled then 1 else 0)
  {
  }

  /** One iteration makes a given poll once if it polled and never otherwise. */
  lemma IteratePolls(f: Flags, exportFn: Option<string>, p: Capture.Platform, pcapFd: int,
                     httpTimeout: bool, sel: SelectReturn, e: Effect)
    requires e in Polls
    ensures var r := Iterate(f, exportFn, p, pcapFd, httpTimeout, sel);
            Count(r.trace, e) == if r.status == Polled then 1 else 0
  {
    var status := SelectStatus(p, pcapFd, httpTimeout, sel);
    var head := FlagEffects(f, exportFn);
    IterationMembers(f, exportFn, status);
    EffectsPollCount(head, status, e);
  }

  /** Each of the four polls runs exactly once per iteration that polled, so they come in whole groups. */
  lemma {:induction false} LoopPollCounts(f: Flags, exportFn: Option<string>, p: Capture.Platform, pcapFd: int,
                                          ticks: seq<Tick>, e: Effect)
    requires e in Polls
    ensures Count(Loop(f, exportFn, p, pcapFd, ticks).trace, e) == Loop(f, exportFn, p, pcapFd, ticks).polled
    decreases |ticks|
  {
    if f.running && |ticks| > 0 {
      var it := Iterate(f, exportFn, p, pcapFd, ticks[0].httpTimeout, ticks[0].sel);
      LoopStep(f, exportFn, p, pcapFd, ticks);
      IteratePolls(f, exportFn, p, pcapFd, ticks[0].httpTimeout, ticks[0].sel, e);
      if !it.status.Fatal? {
        var f' := DeliverAll(ticks[0].signals, it.flags);
        var rest := Loop(f', exportFn, p, pcapFd, ticks[1..]);
        LoopPollCounts(f', exportFn, p, pcapFd, ticks[1..], e);
        CountAppend(it.trace, rest.trace, e);
      }
    }
  }
}
