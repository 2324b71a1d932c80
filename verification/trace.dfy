/**
  Calls into code whose bodies lie outside this model (the web server, the
  host database, the graphs, the DNS child, daemonisation, the pid file,
  libpcap) are recorded as effects in a trace, in the order the program
  makes them.
*/
module Trace {
  import opened Signals

  datatype Effect =
    // startup
    | PidfileCreate | DaemonizeStart | PidfileWriteClose | DnsInit | CapInitCall | HttpListen
    | NcacheInit | Privdrop | DaylogInit | GraphInit | HostsDbInit | DbImport(importFn: string)
    | LocalipInit | InstallHandler(signal: Signal) | DaemonizeFinish
    // one loop iteration
    | DbExport(exportFn: string) | HostsDbReset | GraphReset | CapFdSetCall | HttpFdSet | Select
    | GraphRotate | CapPollCall | DnsPoll | HttpPoll
    // capture file replay
    | CapFromFileCall
    // shutdown
    | HttpStop | CapStop | DnsStop | HostsDbFree | GraphFree | DaylogFree | NcacheFree | PidfileUnlink

  /**
    `a` and `b` both occur in `t`, and every occurrence of `a` comes before
    every occurrence of `b` (PrecedesMeaning states it with positions).
    Read from the front: an `a` may be followed by more `a`s, but no `b`
    may come before the last `a`.
  */
  predicate Precedes(t: seq<Effect>, a: Effect, b: Effect)
    decreases |t|
  {
    && |t| > 0 && a != b
    && if t[0] == a then Precedes(t[1..], a, b) || (a !in t[1..] && b in t[1..])
       else t[0] != b && Precedes(t[1..], a, b)
  }

  /** Every position holding `a` is before every position holding `b`. */
  predicate Ordered(t: seq<Effect>, a: Effect, b: Effect) {
    forall i, j :: 0 <= i < |t| && 0 <= j < |t| && t[i] == a && t[j] == b ==> i < j
  }

  /** How often `e` occurs in `t`. */
  function Count(t: seq<Effect>, e: Effect): nat
    decreases |t|
  {
    if |t| == 0 then 0 else Count(t[..|t| - 1], e) + (if t[|t| - 1] == e then 1 else 0)
  }

  lemma {:induction false} CountAppend(t: seq<Effect>, u: seq<Effect>, e: Effect)
    ensures Count(t + u, e) == Count(t, e) + Count(u, e)
    decreases |u|
  {
    if |u| > 0 {
      assert (t + u)[..|t + u| - 1] == t + u[..|u| - 1];
      CountAppend(t, u[..|u| - 1], e);
    } else {
      assert t + u == t;
    }
  }

  /** Two traces without repeats and without common effects make a trace without repeats. */
  lemma CountDisjoint(t: seq<Effect>, u: seq<Effect>)
    requires forall e :: Count(t, e) <= 1
    requires forall e :: Count(u, e) <= 1
    requires forall e :: e in t ==> e !in u
    ensures forall e :: Count(t + u, e) <= 1
  {
    forall e
      ensures Count(t + u, e) <= 1
    {
      CountAppend(t, u, e);
      CountPositiveIffPresent(t, e);
      CountPositiveIffPresent(u, e);
    }
  }

  /** `e` is counted exactly when it occurs. */
  lemma {:induction false} CountPositiveIffPresent(t: seq<Effect>, e: Effect)
    ensures Count(t, e) > 0 <==> e in t
    decreases |t|
  {
    if |t| > 0 {
      var init := t[..|t| - 1];
      CountPositiveIffPresent(init, e);
      assert t == init + [t[|t| - 1]];
      if e in init {
        var i :| 0 <= i < |init| && init[i] == e;
        assert t[i] == e;
      }
    }
  }

  lemma {:induction false} PrecedesIsOrdered(t: seq<Effect>, a: Effect, b: Effect)
    requires Precedes(t, a, b)
    ensures a in t && b in t && Ordered(t, a, b)
    decreases |t|
  {
    var r := t[1..];
    if Precedes(r, a, b) {
      PrecedesIsOrdered(r, a, b);
    }
    forall i, j | 0 <= i < |t| && 0 <= j < |t| && t[i] == a && t[j] == b
      ensures i < j
    {
      if i > 0 {
        assert t[i] == r[i - 1];
      }
      if j > 0 {
        assert t[j] == r[j - 1];
      }
    }
  }

  lemma {:induction false} OrderedPrecedes(t: seq<Effect>, a: Effect, b: Effect)
    requires a in t && b in t && Ordered(t, a, b)
    ensures Precedes(t, a, b)
    decreases |t|
  {
    var r := t[1..];
    assert t == [t[0]] + r;
    assert forall i :: 1 <= i < |t| ==> t[i] == r[i - 1];
    if a in r && b in r {
      assert Ordered(r, a, b) by {
        forall i, j | 0 <= i < |r| && 0 <= j < |r| && r[i] == a && r[j] == b
          ensures i < j
        {
          assert t[i + 1] == a && t[j + 1] == b;
        }
      }
      OrderedPrecedes(r, a, b);
    }
  }

  /** `Precedes` means: both occur, and every position holding `a` is before every position holding `b`. */
  lemma {:induction false} PrecedesMeaning(t: seq<Effect>, a: Effect, b: Effect)
    ensures Precedes(t, a, b) <==> a in t && b in t && Ordered(t, a, b)
  {
    if Precedes(t, a, b) {
      PrecedesIsOrdered(t, a, b);
    }
    if a in t && b in t && Ordered(t, a, b) {
      OrderedPrecedes(t, a, b);
    }
  }

  /** An effect found only in the left part of a trace precedes one found only in its right part. */
  lemma PrecedesAcross(t: seq<Effect>, u: seq<Effect>, a: Effect, b: Effect)
    requires a in t && a !in u
    requires b in u && b !in t
    ensures Precedes(t + u, a, b)
  {
    PrecedesMeaning(t + u, a, b);
    assert forall m :: 0 <= m < |t| ==> (t + u)[m] == t[m];
    assert forall m :: |t| <= m < |t + u| ==> (t + u)[m] == u[m - |t|];
  }

  /** Ordering inside a prefix survives appending effects other than the earlier one. */
  lemma PrecedesExtend(t: seq<Effect>, u: seq<Effect>, a: Effect, b: Effect)
    requires Precedes(t, a, b) && a !in u
    ensures Precedes(t + u, a, b)
  {
    PrecedesMeaning(t, a, b);
    PrecedesMeaning(t + u, a, b);
    assert forall m :: 0 <= m < |t| ==> (t + u)[m] == t[m];
    assert forall m :: |t| <= m < |t + u| ==> (t + u)[m] == u[m - |t|];
  }

  /** Ordering inside a suffix survives prepending effects other than the later one. */
  lemma PrecedesPrepend(s: seq<Effect>, t: seq<Effect>, a: Effect, b: Effect)
    requires Precedes(t, a, b) && b !in s
    ensures Precedes(s + t, a, b)
  {
    PrecedesMeaning(t, a, b);
    PrecedesMeaning(s + t, a, b);
    assert forall m :: 0 <= m < |s| ==> (s + t)[m] == s[m];
    assert forall m :: |s| <= m < |s + t| ==> (s + t)[m] == t[m - |s|];
  }

  lemma PrecedesTrans(t: seq<Effect>, a: Effect, b: Effect, c: Effect)
    requires Precedes(t, a, b) && Precedes(t, b, c)
    ensures Precedes(t, a, c)
  {
    PrecedesMeaning(t, a, b);
    PrecedesMeaning(t, b, c);
    PrecedesMeaning(t, a, c);
    var p :| 0 <= p < |t| && t[p] == b;
  }

  /** A trace ends with whatever was appended last. */
  lemma SuffixOfAppend(t: seq<Effect>, u: seq<Effect>)
    ensures |t + u| >= |u| && (t + u)[|t + u| - |u|..] == u
  {
    assert (t + u)[|t|..] == u;
  }

  /** A trace starts with whatever it was appended to. */
  lemma PrefixOfAppend(t: seq<Effect>, u: seq<Effect>)
    ensures |t + u| >= |t| && (t + u)[..|t|] == t
  {
  }
}
