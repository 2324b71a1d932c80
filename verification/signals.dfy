/**
  The three `volatile` flags of the main program and the handlers that set
  them.  A handler runs atomically between two loop iterations; delivering a
  signal is running the handler installed for it.
*/
module Signals {
  /** `running`, `reset_pending`, `export_pending`. */
  datatype Flags = Flags(running: bool, resetPending: bool, exportPending: bool)

  /** The values the flags are initialised with. */
  const InitialFlags := Flags(true, false, false)

  datatype Signal = SIGTERM | SIGINT | SIGUSR1 | SIGUSR2

  datatype Handler = SigShutdown | SigReset | SigExport

  /** The handler `main` installs for each signal. */
  function HandlerFor(s: Signal): (h: Handler)
    ensures h == SigShutdown <==> s == SIGTERM || s == SIGINT
    ensures h == SigReset <==> s == SIGUSR1
    ensures h == SigExport <==> s == SIGUSR2
  {
    match s
    case SIGTERM => SigShutdown
    case SIGINT => SigShutdown
    case SIGUSR1 => SigReset
    case SIGUSR2 => SigExport
  }

  /**
    The handlers: shutdown clears `running`, reset raises both pending flags,
    export raises only `export_pending`.  Nothing else is touched.
  */
  function RunHandler(h: Handler, f: Flags): (r: Flags)
    ensures r.running == (f.running && h != SigShutdown)
    ensures r.resetPending == (f.resetPending || h == SigReset)
    ensures r.exportPending == (f.exportPending || h == SigReset || h == SigExport)
  {
    match h
    case SigShutdown => f.(running := false)
    case SigReset => f.(resetPending := true, exportPending := true)
    case SigExport => f.(exportPending := true)
  }

  function Deliver(s: Signal, f: Flags): Flags {
    RunHandler(HandlerFor(s), f)
  }

  /** A burst of signals delivered one after the other, first to last. */
  function DeliverAll(ss: seq<Signal>, f: Flags): Flags
    decreases |ss|
  {
    if |ss| == 0 then f else DeliverAll(ss[1..], Deliver(ss[0], f))
  }

  /** A signal delivered twice has the effect of delivering it once. */
  lemma DeliverIdempotent(s: Signal, f: Flags)
    ensures Deliver(s, Deliver(s, f)) == Deliver(s, f)
  {
  }

  /** Handlers only raise or clear flags, so the order of two deliveries does not matter. */
  lemma DeliverCommutes(s: Signal, t: Signal, f: Flags)
    ensures Deliver(s, Deliver(t, f)) == Deliver(t, Deliver(s, f))
  {
  }

  /**
    A burst of signals coalesces: afterwards the program is running iff it
    was and no SIGTERM or SIGINT arrived, a reset is pending iff one was or
    SIGUSR1 arrived, and an export is pending iff one was or SIGUSR1 or
    SIGUSR2 arrived.  How often and in which order they came is lost.
  */
  lemma {:induction false} DeliverAllCoalesces(ss: seq<Signal>, f: Flags)
    ensures DeliverAll(ss, f).running == (f.running && SIGTERM !in ss && SIGINT !in ss)
    ensures DeliverAll(ss, f).resetPending == (f.resetPending || SIGUSR1 in ss)
    ensures DeliverAll(ss, f).exportPending == (f.exportPending || SIGUSR1 in ss || SIGUSR2 in ss)
    decreases |ss|
  {
    if |ss| > 0 {
      DeliverAllCoalesces(ss[1..], Deliver(ss[0], f));
      assert ss == [ss[0]] + ss[1..];
      forall x: Signal
        ensures x in ss <==> x == ss[0] || x in ss[1..]
      {
        if x in ss {
          var i :| 0 <= i < |ss| && ss[i] == x;
          if i > 0 {
            assert ss[1..][i - 1] == x;
          }
        }
      }
    }
  }

  /** Two bursts made of the same signals, in any order and number, leave the same flags. */
  lemma DeliverAllOrderFree(ss: seq<Signal>, tt: seq<Signal>, f: Flags)
    requires forall s :: s in ss <==> s in tt
    ensures DeliverAll(ss, f) == DeliverAll(tt, f)
  {
    DeliverAllCoalesces(ss, f);
    DeliverAllCoalesces(tt, f);
  }
}
