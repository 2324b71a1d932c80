/**
  The program body: the capture-file bypass, the live startup sequence,
  the main loop and the shutdown sequence, as a trace of effects and an exit
  status.  `errx`/`err` end the program with status 1.
*/
module Lifecycle {
  import opened Results
  import opened Signals
  import opened Trace
  import Capture
  import EventLoop
  import Cmdline

  /** How the program ends within the modelled horizon. */
  datatype Exit = Exited(status: int) | StillRunning

  datatype MainResult = MainResult(trace: seq<Effect>, exit: Exit)

  /** Options that `parse_cmdline` lets through: exactly one packet source. */
  predicate OneSource(o: Cmdline.Options) {
    o.source.interface.Some? != o.source.capfile.Some?
  }

  /** The effects only the live mode has: daemonising, dropping privileges, serving, handling signals, waiting. */
  predicate LiveOnly(e: Effect) {
    e.DaemonizeStart? || e.DaemonizeFinish? || e.Privdrop? || e.HttpListen? || e.InstallHandler?
    || e.Select? || e.CapInitCall?
  }

  /** The steps of the shutdown sequences that stop and free things. */
  predicate Teardown(e: Effect) {
    || e.HttpStop? || e.CapStop? || e.DnsStop? || e.HostsDbFree? || e.GraphFree? || e.DaylogFree?
    || e.NcacheFree? || e.PidfileUnlink?
  }

  /** The database export, once, exactly when a file was named with `--export`. */
  function ExportEffect(o: Cmdline.Options): (r: seq<Effect>)
    ensures forall e :: e in r <==> o.files.exportFn.Some? && e == DbExport(o.files.exportFn.value)
    ensures |r| <= 1
    ensures r == [] <==> o.files.exportFn.None?
  {
    if o.files.exportFn.Some? then [DbExport(o.files.exportFn.value)] else []
  }

  // ---------------------------------------------------------------------------
  // Capture file mode

  /**
    `run_from_capfile`: the graphs and the hosts table are set up, the file
    is replayed in one dispatch, and the program tidies up and exports.
    Nothing of the live mode happens: no daemon, no privilege drop, no web
    server, no signal handlers, no loop.
  */
  function RunFromCapfile(o: Cmdline.Options, reg: Capture.Registry, env: Capture.FileEnv): (r: MainResult)
    ensures |r.trace| >= 3 && r.trace[..3] == [GraphInit, HostsDbInit, CapFromFileCall]
    ensures r.exit == Exited(0) <==> Capture.CapFromFile(o.source.filter, reg, env).Ok?
    ensures r.exit != Exited(0) ==> r.exit == Exited(1) && |r.trace| == 3
    ensures r.exit == Exited(0) && o.files.exportFn.Some? ==> DbExport(o.files.exportFn.value) in r.trace
    ensures forall e :: e in r.trace ==> !LiveOnly(e)
  {
    var replay := [GraphInit, HostsDbInit, CapFromFileCall];
    match Capture.CapFromFile(o.source.filter, reg, env)
    case Err(_) => MainResult(replay, Exited(1))
    case Ok(_) =>
      var t := replay + CapfileTeardown(o);
      assert t[..3] == replay;
      MainResult(t, Exited(0))
  }

  /**
    After a replay: the capture is closed first, the export (if any) is
    written, and the hosts table and then the graphs are freed last.
  */
  function CapfileTeardown(o: Cmdline.Options): (r: seq<Effect>)
    ensures |r| >= 3 && r[0] == CapStop && r[|r| - 2..] == [HostsDbFree, GraphFree]
    ensures forall e: Effect :: e.DbExport? ==> (e in r <==> o.files.exportFn == Some(e.exportFn))
    ensures forall e :: e in r ==> !LiveOnly(e)
  {
    var r := [CapStop] + ExportEffect(o) + [HostsDbFree, GraphFree];
    assert r[|r| - 2..] == [HostsDbFree, GraphFree];
    r
  }

  /**
    The order after a replay: closing the capture precedes every other
    step, and the export precedes both frees.
  */
  lemma CapfileTeardownOrder(o: Cmdline.Options)
    ensures forall e :: e in CapfileTeardown(o) && e != CapStop ==> Precedes(CapfileTeardown(o), CapStop, e)
    ensures forall e :: e in CapfileTeardown(o) && e.DbExport? ==>
              Precedes(CapfileTeardown(o), e, HostsDbFree) && Precedes(CapfileTeardown(o), e, GraphFree)
  {
    var ex := ExportEffect(o);
    forall e | e in CapfileTeardown(o) && e != CapStop
      ensures Precedes(CapfileTeardown(o), CapStop, e)
    {
      CapfileSplits(ex, e);
    }
    forall e | e in CapfileTeardown(o) && e.DbExport?
      ensures Precedes(CapfileTeardown(o), e, HostsDbFree) && Precedes(CapfileTeardown(o), e, GraphFree)
    {
      CapfileSplits(ex, e);
    }
  }

  /** Whatever is exported, closing the capture comes first and the export precedes the frees. */
  lemma CapfileSplits(ex: seq<Effect>, e: Effect)
    requires forall x :: x in ex ==> x.DbExport?
    ensures var t := [CapStop] + ex + [HostsDbFree, GraphFree];
            && (e in t && e != CapStop ==> Precedes(t, CapStop, e))
            && (e in ex ==> Precedes(t, e, HostsDbFree) && Precedes(t, e, GraphFree))
  {
    if e in [CapStop] + ex + [HostsDbFree, GraphFree] && e != CapStop {
      CapStopFirst(ex, e);
    }
    if e in ex {
      ExportBeforeFrees(ex, e);
    }
  }

  lemma CapStopFirst(ex: seq<Effect>, e: Effect)
    requires forall x :: x in ex ==> x.DbExport?
    requires e in [CapStop] + ex + [HostsDbFree, GraphFree] && e != CapStop
    ensures Precedes([CapStop] + ex + [HostsDbFree, GraphFree], CapStop, e)
  {
    assert [CapStop] + ex + [HostsDbFree, GraphFree] == [CapStop] + (ex + [HostsDbFree, GraphFree]);
    PrecedesAcross([CapStop], ex + [HostsDbFree, GraphFree], CapStop, e);
  }

  lemma ExportBeforeFrees(ex: seq<Effect>, e: Effect)
    requires forall x :: x in ex ==> x.DbExport?
    requires e in ex
    ensures Precedes([CapStop] + ex + [HostsDbFree, GraphFree], e, HostsDbFree)
    ensures Precedes([CapStop] + ex + [HostsDbFree, GraphFree], e, GraphFree)
  {
    PrecedesAcross([CapStop] + ex, [HostsDbFree, GraphFree], e, HostsDbFree);
    PrecedesAcross([CapStop] + ex, [HostsDbFree, GraphFree], e, GraphFree);
  }

  // ---------------------------------------------------------------------------
  // Live mode

  /** The steps before capture starts: the pid file, the fork into the background, the DNS child. */
  predicate EarlyStep(e: Effect) {
    e.PidfileCreate? || e.DaemonizeStart? || e.PidfileWriteClose? || e.DnsInit?
  }

  /** The steps after the privilege drop. */
  predicate LateStep(e: Effect) {
    || e.DaylogInit? || e.GraphInit? || e.HostsDbInit? || e.DbImport? || e.LocalipInit?
    || e.InstallHandler? || e.DaemonizeFinish?
  }

  /** Before capture starts: the pid file, the fork into the background, the DNS child. */
  function PreCapture(o: Cmdline.Options): (r: seq<Effect>)
    ensures DnsInit in r <==> o.run.wantDns
    ensures forall e :: e in r ==> EarlyStep(e)
  {
    (if o.files.pidFn.Some? then [PidfileCreate] else [])
    + (if o.run.wantDaemonize then [DaemonizeStart] else [])
    + (if o.files.pidFn.Some? then [PidfileWriteClose] else [])
    + (if o.run.wantDns then [DnsInit] else [])
  }

  /** The handlers, in the order they are installed. */
  const Handlers: seq<Effect> :=
    [InstallHandler(SIGTERM), InstallHandler(SIGINT), InstallHandler(SIGUSR1), InstallHandler(SIGUSR2)]

  /** Starting capture and what else needs root, the web socket and the name cache, then the privilege drop. */
  const Privileged: seq<Effect> := [CapInitCall, HttpListen, NcacheInit, Privdrop]

  /** Startup up to and including the privilege drop. */
  function Acquire(o: Cmdline.Options): seq<Effect> {
    PreCapture(o) + Privileged
  }

  /** The unprivileged setup: the day log, the graphs and hosts table, the import, the local address. */
  function Setup(o: Cmdline.Options): (r: seq<Effect>)
    ensures GraphInit in r && HostsDbInit in r && LocalipInit in r
    ensures forall e :: e in r ==> e.DaylogInit? || e.GraphInit? || e.HostsDbInit? || e.DbImport? || e.LocalipInit?
  {
    (if o.files.daylogFn.Some? then [DaylogInit] else [])
    + [GraphInit, HostsDbInit]
    + (if o.files.importFn.Some? then [DbImport(o.files.importFn.value)] else [])
    + [LocalipInit]
  }

  /** Startup after the privilege drop, ending with the release of the waiting parent. */
  function Release(o: Cmdline.Options): (r: seq<Effect>)
    ensures forall e :: e in r ==> LateStep(e)
  {
    Setup(o) + Handlers + [DaemonizeFinish]
  }

  /** The steps of the startup. */
  predicate StartupStep(e: Effect) {
    EarlyStep(e) || e.CapInitCall? || e.HttpListen? || e.NcacheInit? || e.Privdrop? || LateStep(e)
  }

  /** No startup step is one of the loop or one of the shutdown. */
  lemma StartupStepIsNotLater(e: Effect)
    requires StartupStep(e)
    ensures !Teardown(e) && !EventLoop.LoopEffect(e)
  {
  }

  /** The whole startup once `cap_init` succeeded. */
  function Startup(o: Cmdline.Options): (r: seq<Effect>)
    ensures forall e :: e in r ==> StartupStep(e)
  {
    Acquire(o) + Release(o)
  }

  /** Stopping the web server, capture and the DNS child, in this order. */
  const Stops: seq<Effect> := [HttpStop, CapStop, DnsStop]

  /** Freeing the databases and removing the pid file. */
  function Frees(o: Cmdline.Options): (r: seq<Effect>)
    ensures |r| > 0 && r[0] == HostsDbFree
    ensures o.files.pidFn.Some? ==> r[|r| - 1] == PidfileUnlink
    ensures forall e :: e in r ==> e.HostsDbFree? || e.GraphFree? || e.DaylogFree? || e.NcacheFree? || e.PidfileUnlink?
    ensures DaylogFree in r <==> o.files.daylogFn.Some?
    ensures PidfileUnlink in r <==> o.files.pidFn.Some?
  {
    [HostsDbFree, GraphFree]
    + (if o.files.daylogFn.Some? then [DaylogFree] else [])
    + [NcacheFree]
    + (if o.files.pidFn.Some? then [PidfileUnlink] else [])
  }

  /**
    The shutdown sequence: web server, capture and DNS child are stopped (the
    DNS child even when it was never started), the final export is written,
    everything is freed and the pid file removed.
  */
  function Shutdown(o: Cmdline.Options): (r: seq<Effect>)
    ensures forall e :: e in r ==> Teardown(e) || e.DbExport?
  {
    Stops + ExportEffect(o) + Frees(o)
  }

  /** The exit status the loop's end leads to: shutdown exits 0, an `errx` exits 1. */
  function LoopExit(end: EventLoop.LoopEnd): (r: Exit)
    ensures r == Exited(0) <==> end.Stopped?
    ensures r == Exited(1) <==> end.Died?
    ensures r == StillRunning <==> end.Horizon?
  {
    match end
    case Stopped => Exited(0)
    case Died(_) => Exited(1)
    case Horizon => StillRunning
  }

  /**
    The trace of a live run once `cap_init` succeeded: the startup, the loop,
    and the shutdown sequence when the loop stopped.
  */
  function LiveTrace(o: Cmdline.Options, loop: EventLoop.LoopResult): (t: seq<Effect>)
    ensures |t| >= |Startup(o)| && t[..|Startup(o)|] == Startup(o)
    ensures loop.end.Stopped? ==> |t| >= |Shutdown(o)| && t[|t| - |Shutdown(o)|..] == Shutdown(o)
  {
    var run := Startup(o) + loop.trace;
    PrefixOfAppend(Startup(o), loop.trace);
    if loop.end.Stopped? then
      SuffixOfAppend(run, Shutdown(o));
      assert (run + Shutdown(o))[..|Startup(o)|] == run[..|Startup(o)|];
      run + Shutdown(o)
    else run
  }

  /** Unless the loop stopped, a live trace holds no teardown step. */
  lemma LiveTraceNoTeardown(o: Cmdline.Options, loop: EventLoop.LoopResult)
    requires forall e :: e in loop.trace ==> EventLoop.LoopEffect(e)
    requires !loop.end.Stopped?
    ensures forall e :: e in LiveTrace(o, loop) ==> !Teardown(e)
  {
    forall e | e in LiveTrace(o, loop)
      ensures !Teardown(e)
    {
      if e in Startup(o) {
        StartupStepIsNotLater(e);
      }
    }
  }

  /** In a live trace every startup step precedes every `select`. */
  lemma LiveTraceLoopAfterStartup(o: Cmdline.Options, loop: EventLoop.LoopResult)
    requires forall e :: e in loop.trace ==> EventLoop.LoopEffect(e)
    ensures Select in LiveTrace(o, loop) ==> forall e :: e in Startup(o) ==> Precedes(LiveTrace(o, loop), e, Select)
  {
    var tail: seq<Effect> := if loop.end.Stopped? then Shutdown(o) else [];
    var t := LiveTrace(o, loop);
    assert t == Startup(o) + loop.trace + tail;
    if Select in t {
      forall e | e in Startup(o)
        ensures Precedes(t, e, Select)
      {
        StartupBeforeLoop(Startup(o), loop.trace, tail, e);
      }
    }
  }

  /**
    The live mode of `main`: `early` are signals delivered between the
    installation of the handlers and the first test of `running`; `ticks`
    script the loop.  A clean exit always ends with the shutdown sequence.
  */
  function LiveMain(o: Cmdline.Options, reg: Capture.Registry, p: Capture.Platform,
                    liveEnv: Capture.LiveEnv, pcapFd: int,
                    early: seq<Signal>, ticks: seq<EventLoop.Tick>): (r: MainResult)
    ensures r.exit == Exited(0) ==> |r.trace| >= |Shutdown(o)| && r.trace[|r.trace| - |Shutdown(o)|..] == Shutdown(o)
  {
    match Capture.CapInit(o.source.filter, o.capture.wantPromisc, o.capture.wantPppoe, o.capture.wantMacs, reg, liveEnv)
    case Err(_) => MainResult(PreCapture(o) + [CapInitCall], Exited(1))
    case Ok(_) =>
      var loop := EventLoop.Loop(DeliverAll(early, InitialFlags), o.files.exportFn, p, pcapFd, ticks);
      MainResult(LiveTrace(o, loop), LoopExit(loop.end))
  }

  /** `main` after `parse_cmdline`: a capture file bypasses the live mode entirely. */
  function Main(o: Cmdline.Options, reg: Capture.Registry, p: Capture.Platform,
                liveEnv: Capture.LiveEnv, fileEnv: Capture.FileEnv, pcapFd: int,
                early: seq<Signal>, ticks: seq<EventLoop.Tick>): (r: MainResult)
    requires OneSource(o)
    ensures o.source.capfile.Some? ==> r == RunFromCapfile(o, reg, fileEnv)
    ensures o.source.capfile.None? && r.exit == Exited(0)
            ==> |r.trace| >= |Shutdown(o)| && r.trace[|r.trace| - |Shutdown(o)|..] == Shutdown(o)
  {
    if o.source.capfile.Some? then RunFromCapfile(o, reg, fileEnv)
    else LiveMain(o, reg, p, liveEnv, pcapFd, early, ticks)
  }

  // ---------------------------------------------------------------------------
  // Ordering

  /** Whatever the pieces around it, everything before the privilege drop precedes it and everything after follows it. */
  lemma DropSplits(pre: seq<Effect>, rel: seq<Effect>, e: Effect)
    requires forall x :: x in pre ==> EarlyStep(x)
    requires forall x :: x in rel ==> LateStep(x)
    ensures e in pre + Privileged && e != Privdrop ==> Precedes(pre + Privileged + rel, e, Privdrop)
    ensures e in rel ==> Precedes(pre + Privileged + rel, Privdrop, e)
  {
    if e in pre + Privileged && e != Privdrop {
      assert pre + Privileged + rel == (pre + [CapInitCall, HttpListen, NcacheInit]) + ([Privdrop] + rel);
      PrecedesAcross(pre + [CapInitCall, HttpListen, NcacheInit], [Privdrop] + rel, e, Privdrop);
    }
    if e in rel {
      PrecedesAcross(pre + Privileged, rel, Privdrop, e);
    }
  }

  /** The order within the privileged part, whatever comes before and after it. */
  lemma PrivilegedChain(pre: seq<Effect>, rel: seq<Effect>)
    requires forall x :: x in pre ==> EarlyStep(x)
    requires forall x :: x in rel ==> LateStep(x)
    ensures DnsInit in pre ==> Precedes(pre + Privileged + rel, DnsInit, CapInitCall)
    ensures Precedes(pre + Privileged + rel, CapInitCall, HttpListen)
    ensures Precedes(pre + Privileged + rel, HttpListen, NcacheInit)
  {
    var s := pre + Privileged + rel;
    if DnsInit in pre {
      assert s == pre + (Privileged + rel);
      PrecedesAcross(pre, Privileged + rel, DnsInit, CapInitCall);
    }
    assert s == (pre + [CapInitCall]) + ([HttpListen, NcacheInit, Privdrop] + rel);
    PrecedesAcross(pre + [CapInitCall], [HttpListen, NcacheInit, Privdrop] + rel, CapInitCall, HttpListen);
    assert s == (pre + [CapInitCall, HttpListen]) + ([NcacheInit, Privdrop] + rel);
    PrecedesAcross(pre + [CapInitCall, HttpListen], [NcacheInit, Privdrop] + rel, HttpListen, NcacheInit);
  }

  /**
    Startup order: the DNS child is forked before capture starts; capture
    starts before the web socket, which comes before the name cache.  Every
    step before the privilege drop precedes it, among them all that needs
    root, and every step after it follows it, among them the graphs, the
    hosts table and the local address.
  */
  lemma AcquireOrder(o: Cmdline.Options)
    ensures o.run.wantDns ==> Precedes(Startup(o), DnsInit, CapInitCall)
    ensures Precedes(Startup(o), CapInitCall, HttpListen) && Precedes(Startup(o), HttpListen, NcacheInit)
    ensures forall e :: e in Acquire(o) && e != Privdrop ==> Precedes(Startup(o), e, Privdrop)
    ensures forall e :: e in Release(o) ==> Precedes(Startup(o), Privdrop, e)
    ensures o.run.wantDns ==> Precedes(Startup(o), DnsInit, Privdrop)
    ensures Precedes(Startup(o), CapInitCall, Privdrop) && Precedes(Startup(o), HttpListen, Privdrop)
    ensures Precedes(Startup(o), NcacheInit, Privdrop)
    ensures Precedes(Startup(o), Privdrop, GraphInit) && Precedes(Startup(o), Privdrop, HostsDbInit)
    ensures Precedes(Startup(o), Privdrop, LocalipInit)
  {
    var pre, rel := PreCapture(o), Release(o);
    PrivilegedChain(pre, rel);
    forall e | e in Acquire(o) && e != Privdrop
      ensures Precedes(Startup(o), e, Privdrop)
    {
      DropSplits(pre, rel, e);
    }
    forall e | e in rel
      ensures Precedes(Startup(o), Privdrop, e)
    {
      DropSplits(pre, rel, e);
    }
    assert GraphInit in rel && HostsDbInit in rel && LocalipInit in rel;
  }

  /** Within the release, every step precedes the release of the parent, which is the last. */
  lemma ReleaseOrder(o: Cmdline.Options, e: Effect)
    requires e in Release(o) && e != DaemonizeFinish
    ensures Precedes(Release(o), e, DaemonizeFinish)
  {
    PrecedesAcross(Setup(o) + Handlers, [DaemonizeFinish], e, DaemonizeFinish);
  }

  /**
    Every handler is installed after the privilege drop and before the
    parent is released; all four of them are installed in every startup.
  */
  lemma HandlerOrder(o: Cmdline.Options, h: Effect)
    requires h in Startup(o) && h.InstallHandler?
    ensures Precedes(Startup(o), Privdrop, h) && Precedes(Startup(o), h, DaemonizeFinish)
  {
    HandlerAfterDrop(o, h);
    HandlerBeforeFinish(o, h);
  }

  /** A handler in a startup assembled from early steps, the privileged steps and a release lies in the release. */
  lemma HandlerIsLate(pre: seq<Effect>, rel: seq<Effect>, h: Effect)
    requires forall x :: x in pre ==> EarlyStep(x)
    requires h in pre + Privileged + rel && h.InstallHandler?
    ensures h in rel
  {
  }

  lemma HandlerAfterDrop(o: Cmdline.Options, h: Effect)
    requires h in Startup(o) && h.InstallHandler?
    ensures Precedes(Startup(o), Privdrop, h)
  {
    HandlerIsLate(PreCapture(o), Release(o), h);
    DropSplits(PreCapture(o), Release(o), h);
  }

  lemma HandlerBeforeFinish(o: Cmdline.Options, h: Effect)
    requires h in Startup(o) && h.InstallHandler?
    ensures Precedes(Startup(o), h, DaemonizeFinish)
  {
    HandlerIsLate(PreCapture(o), Release(o), h);
    ReleaseOrder(o, h);
    PrecedesPrepend(Acquire(o), Release(o), h, DaemonizeFinish);
  }

  /** In a live trace every `select` follows the privilege drop and the four handlers. */
  lemma LiveTraceDropAndHandlers(o: Cmdline.Options, loop: EventLoop.LoopResult)
    requires forall e :: e in loop.trace ==> EventLoop.LoopEffect(e)
    ensures Select in LiveTrace(o, loop) ==>
              && Precedes(LiveTrace(o, loop), Privdrop, Select)
              && forall h :: h in Handlers ==> Precedes(LiveTrace(o, loop), h, Select)
  {
    LiveTraceLoopAfterStartup(o, loop);
    StartupMembers(o);
  }

  /** The privilege drop and the four handlers are steps of every startup. */
  lemma StartupMembers(o: Cmdline.Options)
    ensures Privdrop in Startup(o) && forall h :: h in Handlers ==> h in Startup(o)
  {
    assert Startup(o) == Acquire(o) + (Setup(o) + Handlers + [DaemonizeFinish]);
  }

  /** The steps of the shutdown that stop a service. */
  predicate StopStep(e: Effect) {
    e.HttpStop? || e.CapStop? || e.DnsStop?
  }

  /** The steps of the shutdown that free a table or remove a file. */
  predicate FreeStep(e: Effect) {
    e.HostsDbFree? || e.GraphFree? || e.DaylogFree? || e.NcacheFree? || e.PidfileUnlink?
  }

  /** Whatever the export and the frees, the stops come before both and the export before the frees. */
  lemma ShutdownSplits(ex: seq<Effect>, fr: seq<Effect>, e: Effect, f: Effect)
    requires forall x :: x in ex ==> x.DbExport?
    requires forall x :: x in fr ==> FreeStep(x)
    requires e in Stops + ex + fr && f in Stops + ex + fr
    ensures StopStep(e) && !StopStep(f) ==> Precedes(Stops + ex + fr, e, f)
    ensures e.DbExport? && FreeStep(f) ==> Precedes(Stops + ex + fr, e, f)
  {
    if StopStep(e) && !StopStep(f) {
      StopsFirst(ex, fr, e, f);
    }
    if e.DbExport? && FreeStep(f) {
      assert e in ex && f in fr;
      PrecedesAcross(Stops + ex, fr, e, f);
    }
  }

  lemma StopsFirst(ex: seq<Effect>, fr: seq<Effect>, e: Effect, f: Effect)
    requires forall x :: x in ex ==> x.DbExport?
    requires forall x :: x in fr ==> FreeStep(x)
    requires e in Stops + ex + fr && f in Stops + ex + fr && StopStep(e) && !StopStep(f)
    ensures Precedes(Stops + ex + fr, e, f)
  {
    assert e in Stops && f in ex + fr;
    assert Stops + ex + fr == Stops + (ex + fr);
    PrecedesAcross(Stops, ex + fr, e, f);
  }

  /** The stops run in their order, whatever follows them. */
  lemma StopChain(rest: seq<Effect>)
    requires forall x :: x in rest ==> !StopStep(x)
    ensures Precedes(Stops + rest, HttpStop, CapStop) && Precedes(Stops + rest, CapStop, DnsStop)
  {
    assert Stops + rest == [HttpStop] + ([CapStop, DnsStop] + rest);
    PrecedesAcross([HttpStop], [CapStop, DnsStop] + rest, HttpStop, CapStop);
    assert Stops + rest == [HttpStop, CapStop] + ([DnsStop] + rest);
    PrecedesAcross([HttpStop, CapStop], [DnsStop] + rest, CapStop, DnsStop);
  }

  /**
    Shutdown order: the web server is stopped before capture, and capture
    before the DNS child, which is stopped even under `--no-dns`.  Every stop
    precedes the export and every free; the export precedes every free; and
    removing the pid file is the last step.
  */
  lemma ShutdownOrder(o: Cmdline.Options)
    ensures DnsStop in Shutdown(o)
    ensures Precedes(Shutdown(o), HttpStop, CapStop) && Precedes(Shutdown(o), CapStop, DnsStop)
    ensures forall e, f :: e in Shutdown(o) && f in Shutdown(o) && StopStep(e) && !StopStep(f)
                           ==> Precedes(Shutdown(o), e, f)
    ensures forall e, f :: e in Shutdown(o) && f in Shutdown(o) && e.DbExport? && FreeStep(f)
                           ==> Precedes(Shutdown(o), e, f)
    ensures o.files.pidFn.Some? ==> Shutdown(o)[|Shutdown(o)| - 1] == PidfileUnlink
  {
    assert Shutdown(o) == Stops + (ExportEffect(o) + Frees(o));
    StopChain(ExportEffect(o) + Frees(o));
    ShutdownPairs(o);
  }

  lemma ShutdownPairs(o: Cmdline.Options)
    ensures forall e, f :: e in Shutdown(o) && f in Shutdown(o) && StopStep(e) && !StopStep(f)
                           ==> Precedes(Shutdown(o), e, f)
    ensures forall e, f :: e in Shutdown(o) && f in Shutdown(o) && e.DbExport? && FreeStep(f)
                           ==> Precedes(Shutdown(o), e, f)
  {
    forall e, f | e in Shutdown(o) && f in Shutdown(o)
      ensures StopStep(e) && !StopStep(f) ==> Precedes(Shutdown(o), e, f)
      ensures e.DbExport? && FreeStep(f) ==> Precedes(Shutdown(o), e, f)
    {
      ShutdownSplits(ExportEffect(o), Frees(o), e, f);
    }
  }

  /**
    The frees run hosts table, graphs, day log (when there is one), name
    cache, and the pid file goes last.
  */
  lemma FreeOrder(o: Cmdline.Options)
    ensures Precedes(Frees(o), HostsDbFree, GraphFree) && Precedes(Frees(o), GraphFree, NcacheFree)
    ensures o.files.daylogFn.Some? ==> Precedes(Frees(o), GraphFree, DaylogFree)
                                       && Precedes(Frees(o), DaylogFree, NcacheFree)
    ensures o.files.pidFn.Some? ==> Precedes(Frees(o), NcacheFree, PidfileUnlink)
  {
    var dl: seq<Effect> := if o.files.daylogFn.Some? then [DaylogFree] else [];
    var pid: seq<Effect> := if o.files.pidFn.Some? then [PidfileUnlink] else [];
    assert Frees(o) == [HostsDbFree, GraphFree] + dl + [NcacheFree] + pid;
    FreeChain(dl, pid);
  }

  /** The order of the frees, with or without the day log and the pid file. */
  lemma FreeChain(dl: seq<Effect>, pid: seq<Effect>)
    requires forall x :: x in dl ==> x.DaylogFree?
    requires forall x :: x in pid ==> x.PidfileUnlink?
    ensures var fr := [HostsDbFree, GraphFree] + dl + [NcacheFree] + pid;
            && Precedes(fr, HostsDbFree, GraphFree) && Precedes(fr, GraphFree, NcacheFree)
            && (DaylogFree in dl ==> Precedes(fr, GraphFree, DaylogFree) && Precedes(fr, DaylogFree, NcacheFree))
            && (PidfileUnlink in pid ==> Precedes(fr, NcacheFree, PidfileUnlink))
  {
    FreeChainHead(dl, pid);
    if DaylogFree in dl {
      FreeChainDaylog(dl, pid);
    }
    if PidfileUnlink in pid {
      PrecedesAcross([HostsDbFree, GraphFree] + dl + [NcacheFree], pid, NcacheFree, PidfileUnlink);
    }
  }

  lemma FreeChainHead(dl: seq<Effect>, pid: seq<Effect>)
    requires forall x :: x in dl ==> x.DaylogFree?
    requires forall x :: x in pid ==> x.PidfileUnlink?
    ensures var fr := [HostsDbFree, GraphFree] + dl + [NcacheFree] + pid;
            Precedes(fr, HostsDbFree, GraphFree) && Precedes(fr, GraphFree, NcacheFree)
  {
    var fr := [HostsDbFree, GraphFree] + dl + [NcacheFree] + pid;
    assert fr == [HostsDbFree] + ([GraphFree] + dl + [NcacheFree] + pid);
    PrecedesAcross([HostsDbFree], [GraphFree] + dl + [NcacheFree] + pid, HostsDbFree, GraphFree);
    assert fr == ([HostsDbFree, GraphFree] + dl) + ([NcacheFree] + pid);
    PrecedesAcross([HostsDbFree, GraphFree] + dl, [NcacheFree] + pid, GraphFree, NcacheFree);
  }

  lemma FreeChainDaylog(dl: seq<Effect>, pid: seq<Effect>)
    requires forall x :: x in dl ==> x.DaylogFree?
    requires forall x :: x in pid ==> x.PidfileUnlink?
    requires DaylogFree in dl
    ensures var fr := [HostsDbFree, GraphFree] + dl + [NcacheFree] + pid;
            Precedes(fr, GraphFree, DaylogFree) && Precedes(fr, DaylogFree, NcacheFree)
  {
    var fr := [HostsDbFree, GraphFree] + dl + [NcacheFree] + pid;
    assert fr == [HostsDbFree, GraphFree] + (dl + [NcacheFree] + pid);
    PrecedesAcross([HostsDbFree, GraphFree], dl + [NcacheFree] + pid, GraphFree, DaylogFree);
    assert fr == ([HostsDbFree, GraphFree] + dl) + ([NcacheFree] + pid);
    PrecedesAcross([HostsDbFree, GraphFree] + dl, [NcacheFree] + pid, DaylogFree, NcacheFree);
  }

  // ---------------------------------------------------------------------------
  // Whole runs

  /**
    `main` in the live mode.  Once `cap_init` succeeded the whole startup
    runs before anything else.  Unless the program exits cleanly, nothing
    is stopped or freed: `errx` ends the process on the spot.  A failed
    `cap_init` exits with status 1 right away.
  */
  lemma LiveRun(o: Cmdline.Options, reg: Capture.Registry, p: Capture.Platform,
                liveEnv: Capture.LiveEnv, fileEnv: Capture.FileEnv, pcapFd: int,
                early: seq<Signal>, ticks: seq<EventLoop.Tick>)
    requires OneSource(o) && o.source.capfile.None?
    ensures var r := Main(o, reg, p, liveEnv, fileEnv, pcapFd, early, ticks);
            var init := Capture.CapInit(o.source.filter, o.capture.wantPromisc, o.capture.wantPppoe, o.capture.wantMacs, reg, liveEnv);
            && (init.Err? ==> r.exit == Exited(1) && |r.trace| > 0 && r.trace[|r.trace| - 1] == CapInitCall)
            && (init.Ok? ==> |r.trace| >= |Startup(o)| && r.trace[..|Startup(o)|] == Startup(o))
            && (r.exit != Exited(0) ==> forall e :: e in r.trace ==> !Teardown(e))
  {
    var init := Capture.CapInit(o.source.filter, o.capture.wantPromisc, o.capture.wantPppoe, o.capture.wantMacs, reg, liveEnv);
    if init.Ok? {
      var loop := EventLoop.Loop(DeliverAll(early, InitialFlags), o.files.exportFn, p, pcapFd, ticks);
      if !loop.end.Stopped? {
        LiveTraceNoTeardown(o, loop);
      }
    }
  }

  /** The exit status of a live run that got past `cap_init` is decided by how the loop ends. */
  lemma LiveExit(o: Cmdline.Options, reg: Capture.Registry, p: Capture.Platform,
                 liveEnv: Capture.LiveEnv, fileEnv: Capture.FileEnv, pcapFd: int,
                 early: seq<Signal>, ticks: seq<EventLoop.Tick>)
    requires OneSource(o) && o.source.capfile.None?
    requires Capture.CapInit(o.source.filter, o.capture.wantPromisc, o.capture.wantPppoe, o.capture.wantMacs, reg, liveEnv).Ok?
    ensures var r := Main(o, reg, p, liveEnv, fileEnv, pcapFd, early, ticks);
            var loop := EventLoop.Loop(DeliverAll(early, InitialFlags), o.files.exportFn, p, pcapFd, ticks);
            && (r.exit == Exited(0) <==> loop.end.Stopped?)
            && (r.exit == StillRunning <==> loop.end.Horizon?)
            && (r.exit == Exited(1) <==> loop.end.Died?)
  {
  }

  /** Whatever the loop did and however it ended, every startup step precedes every `select`. */
  lemma StartupBeforeLoop(st: seq<Effect>, lt: seq<Effect>, tail: seq<Effect>, e: Effect)
    requires forall x :: x in st ==> StartupStep(x)
    requires forall x :: x in lt ==> EventLoop.LoopEffect(x)
    requires forall x :: x in tail ==> Teardown(x) || x.DbExport?
    requires e in st && Select in st + lt + tail
    ensures Precedes(st + lt + tail, e, Select)
  {
    StartupStepIsNotLater(e);
    assert Select in lt;
    assert st + lt + tail == st + (lt + tail);
    PrecedesAcross(st, lt + tail, e, Select);
  }

  /**
    In the live mode every `select` happens after every startup step, so
    after the privilege drop and after all four handlers are installed.
  */
  lemma HandlersBeforeLoop(o: Cmdline.Options, reg: Capture.Registry, p: Capture.Platform,
                           liveEnv: Capture.LiveEnv, fileEnv: Capture.FileEnv, pcapFd: int,
                           early: seq<Signal>, ticks: seq<EventLoop.Tick>)
    requires OneSource(o) && o.source.capfile.None?
    ensures var r := Main(o, reg, p, liveEnv, fileEnv, pcapFd, early, ticks);
            Select in r.trace ==> && (forall e :: e in Startup(o) ==> Precedes(r.trace, e, Select))
                                  && Precedes(r.trace, Privdrop, Select)
                                  && (forall h :: h in Handlers ==> Precedes(r.trace, h, Select))
  {
    MainLive(o, reg, p, liveEnv, fileEnv, pcapFd, early, ticks);
    var loop := EventLoop.Loop(DeliverAll(early, InitialFlags), o.files.exportFn, p, pcapFd, ticks);
    LiveTraceLoopAfterStartup(o, loop);
    LiveTraceDropAndHandlers(o, loop);
  }

  /** The trace of `main` in the live mode: the early steps and the failed `cap_init`, or the live trace. */
  lemma MainLive(o: Cmdline.Options, reg: Capture.Registry, p: Capture.Platform,
                 liveEnv: Capture.LiveEnv, fileEnv: Capture.FileEnv, pcapFd: int,
                 early: seq<Signal>, ticks: seq<EventLoop.Tick>)
    requires OneSource(o) && o.source.capfile.None?
    ensures var init := Capture.CapInit(o.source.filter, o.capture.wantPromisc, o.capture.wantPppoe,
                                        o.capture.wantMacs, reg, liveEnv);
            var loop := EventLoop.Loop(DeliverAll(early, InitialFlags), o.files.exportFn, p, pcapFd, ticks);
            var r := Main(o, reg, p, liveEnv, fileEnv, pcapFd, early, ticks);
            && (init.Ok? ==> r.trace == LiveTrace(o, loop))
            && (init.Err? ==> r.trace == PreCapture(o) + [CapInitCall])
  {
  }

  /**
    A SIGTERM or SIGINT delivered after the handlers are installed but
    before the loop first tests `running` makes the program shut down
    cleanly without a single iteration.
  */
  lemma EarlyShutdown(o: Cmdline.Options, reg: Capture.Registry, p: Capture.Platform,
                      liveEnv: Capture.LiveEnv, fileEnv: Capture.FileEnv, pcapFd: int,
                      early: seq<Signal>, ticks: seq<EventLoop.Tick>)
    requires OneSource(o) && o.source.capfile.None?
    requires SIGTERM in early || SIGINT in early
    requires Capture.CapInit(o.source.filter, o.capture.wantPromisc, o.capture.wantPppoe, o.capture.wantMacs, reg, liveEnv).Ok?
    ensures Main(o, reg, p, liveEnv, fileEnv, pcapFd, early, ticks) == MainResult(Startup(o) + Shutdown(o), Exited(0))
  {
    DeliverAllCoalesces(early, InitialFlags);
    var loop := EventLoop.Loop(DeliverAll(early, InitialFlags), o.files.exportFn, p, pcapFd, ticks);
    assert loop.trace == [] && loop.end.Stopped?;
    assert Startup(o) + loop.trace == Startup(o);
  }

  /**
    Capture-file mode has none of the live mode's effects: no daemon, no
    privilege drop, no web server, no handlers, no loop.
  */
  lemma CapfileModeSkipsLiveMode(o: Cmdline.Options, reg: Capture.Registry, p: Capture.Platform,
                                 liveEnv: Capture.LiveEnv, fileEnv: Capture.FileEnv, pcapFd: int,
                                 early: seq<Signal>, ticks: seq<EventLoop.Tick>)
    requires OneSource(o) && o.source.capfile.Some?
    ensures var r := Main(o, reg, p, liveEnv, fileEnv, pcapFd, early, ticks);
            r.exit != StillRunning && forall e :: e in r.trace ==> !LiveOnly(e)
  {
  }

  /** A failing `cap_init` ends the program before the web socket is opened or privileges are dropped. */
  lemma CapInitFailureIsFatal(o: Cmdline.Options, reg: Capture.Registry, p: Capture.Platform,
                              liveEnv: Capture.LiveEnv, fileEnv: Capture.FileEnv, pcapFd: int,
                              early: seq<Signal>, ticks: seq<EventLoop.Tick>)
    requires OneSource(o) && o.source.capfile.None?
    requires Capture.CapInit(o.source.filter, o.capture.wantPromisc, o.capture.wantPppoe, o.capture.wantMacs, reg, liveEnv).Err?
    ensures var r := Main(o, reg, p, liveEnv, fileEnv, pcapFd, early, ticks);
            r.exit == Exited(1) && HttpListen !in r.trace && Privdrop !in r.trace && Select !in r.trace
  {
  }
}
