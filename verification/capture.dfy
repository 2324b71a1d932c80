/**
  The capture subsystem: link-type validation and capture length in
  `cap_init` and `cap_from_file`, the readiness contribution `cap_fd_set`,
  the drain loop of `cap_poll`, and `cap_stats_update`.  libpcap is not
  modelled: what it answers (open success, the link type, filter compilation,
  dispatch counts, statistics) arrives as parameters.
*/
module Capture {
  import opened Results

  /** `DLT_EN10MB`, the Ethernet link type of libpcap. */
  const DLT_EN10MB: int := 1

  /** A PPPoE header (6 bytes) followed by the PPP protocol field (2 bytes). */
  const PPPOE_HDR_LEN: nat := 8

  /** `CAP_TIMEOUT`: the capture buffer's granularity, in milliseconds. */
  const CAP_TIMEOUT: nat := 500

  /**
    The two builds of `cap.c`: Linux, whose capture descriptor is always
    readable and is therefore not selected on, and BSD-like BPF, whose
    descriptor is.
  */
  datatype Platform = Linux | Bsd

  /**
    A link header descriptor of the decoder: the capture length
    `getcaplen` computes for it and whether it has a packet handler.
  */
  datatype LinkHdr = LinkHdr(caplen: nat, hasHandler: bool)

  /** `getlinkhdr`: the descriptors known to the decoder, by link type. */
  type Registry = map<int, LinkHdr>

  datatype CapError =
    | OpenFailed
    | UnknownLinktype(linktype: int)
    | NoHandler(linktype: int)
    | PppoeNotEthernet
    | FilterCompileFailed
    | FilterInstallFailed
    | DispatchFailed

  /** Look the link type up: unknown or handler-less link types are fatal. */
  function ResolveLinkhdr(reg: Registry, linktype: int): (r: Result<LinkHdr, CapError>)
    ensures r.Ok? <==> linktype in reg && reg[linktype].hasHandler
    ensures r.Ok? ==> r.value == reg[linktype]
    ensures linktype !in reg ==> r == Err(UnknownLinktype(linktype))
    ensures linktype in reg && !reg[linktype].hasHandler ==> r == Err(NoHandler(linktype))
  {
    if linktype !in reg then Err(UnknownLinktype(linktype))
    else if !reg[linktype].hasHandler then Err(NoHandler(linktype))
    else Ok(reg[linktype])
  }

  /** Compile and install the optional filter expression; either failure is fatal. */
  function InstallFilter(filter: Option<string>, compileOk: bool, setfilterOk: bool): (r: Result<(), CapError>)
    ensures filter.None? ==> r.Ok?
    ensures filter.Some? ==> (r.Ok? <==> compileOk && setfilterOk)
  {
    if filter.None? then Ok(())
    else if !compileOk then Err(FilterCompileFailed)
    else if !setfilterOk then Err(FilterInstallFailed)
    else Ok(())
  }

  /** What libpcap answers during `cap_init`. */
  datatype LiveEnv = LiveEnv(openOk: bool, linktype: int, reopenOk: bool, compileOk: bool, setfilterOk: bool)

  /** The live capture handle after `cap_init`. */
  datatype Handle = Handle(linkhdr: LinkHdr, snaplen: nat, promisc: bool, filter: Option<string>)

  datatype LiveCapture = LiveCapture(handle: Handle, showMacAddrs: bool)

  /**
    `cap_init`: open with a placeholder length, learn the link type, compute
    the capture length (plus the PPPoE header when PPPoE decoding is wanted,
    which only Ethernet allows), reopen with that length, install the filter.
  */
  function CapInit(filter: Option<string>, promisc: bool, wantPppoe: bool, wantMacs: bool,
                   reg: Registry, env: LiveEnv): (r: Result<LiveCapture, CapError>)
    ensures !env.openOk ==> r == Err(OpenFailed)
    ensures env.openOk && env.linktype !in reg ==> r == Err(UnknownLinktype(env.linktype))
    ensures env.openOk && env.linktype in reg && !reg[env.linktype].hasHandler ==> r == Err(NoHandler(env.linktype))
    ensures (env.openOk && env.linktype in reg && reg[env.linktype].hasHandler
             && wantPppoe && env.linktype != DLT_EN10MB) ==> r == Err(PppoeNotEthernet)
    ensures r.Ok? ==> env.openOk && env.reopenOk && env.linktype in reg && reg[env.linktype].hasHandler
    ensures r.Ok? ==> r.value.handle.linkhdr == reg[env.linktype]
    ensures r.Ok? ==> r.value.handle.snaplen == reg[env.linktype].caplen + (if wantPppoe then PPPOE_HDR_LEN else 0)
    ensures r.Ok? && wantPppoe ==> env.linktype == DLT_EN10MB
    ensures r.Ok? ==> (r.value.showMacAddrs <==> env.linktype == DLT_EN10MB && wantMacs)
    ensures r.Ok? ==> r.value.handle.promisc == promisc && r.value.handle.filter == filter
    ensures r.Ok? <==> env.openOk && env.reopenOk && ResolveLinkhdr(reg, env.linktype).Ok?
                       && (wantPppoe ==> env.linktype == DLT_EN10MB)
                       && InstallFilter(filter, env.compileOk, env.setfilterOk).Ok?
  {
    if !env.openOk then Err(OpenFailed)
    else
      var showMacs := env.linktype == DLT_EN10MB && wantMacs;
      var linkhdr :- ResolveLinkhdr(reg, env.linktype);
      var caplen := linkhdr.caplen + (if wantPppoe then PPPOE_HDR_LEN else 0);
      if wantPppoe && env.linktype != DLT_EN10MB then Err(PppoeNotEthernet)
      else if !env.reopenOk then Err(OpenFailed)
      else
        var _ :- InstallFilter(filter, env.compileOk, env.setfilterOk);
        Ok(LiveCapture(Handle(linkhdr, caplen, promisc, filter), showMacs))
  }

  /** What libpcap answers during `cap_from_file`, including the one dispatch's return value. */
  datatype FileEnv = FileEnv(openOk: bool, linktype: int, compileOk: bool, setfilterOk: bool, dispatchRet: int)

  datatype FileRun = FileRun(linkhdr: LinkHdr, showMacAddrs: bool, packets: nat)

  /**
    `cap_from_file`: open the file, validate its link type, install the filter
    and run a single dispatch over the whole file; a negative count is fatal.
  */
  function CapFromFile(filter: Option<string>, reg: Registry, env: FileEnv): (r: Result<FileRun, CapError>)
    ensures !env.openOk ==> r == Err(OpenFailed)
    ensures env.openOk && env.linktype !in reg ==> r == Err(UnknownLinktype(env.linktype))
    ensures env.openOk && env.linktype in reg && !reg[env.linktype].hasHandler ==> r == Err(NoHandler(env.linktype))
    ensures r.Ok? ==> env.linktype in reg && r.value.linkhdr == reg[env.linktype] && r.value.linkhdr.hasHandler
    ensures r.Ok? ==> (r.value.showMacAddrs <==> env.linktype == DLT_EN10MB)
    ensures r.Ok? ==> env.dispatchRet >= 0 && r.value.packets == env.dispatchRet
    ensures r.Ok? <==> && env.openOk && ResolveLinkhdr(reg, env.linktype).Ok?
                       && InstallFilter(filter, env.compileOk, env.setfilterOk).Ok?
                       && env.dispatchRet >= 0
    ensures env.openOk && ResolveLinkhdr(reg, env.linktype).Ok?
            && InstallFilter(filter, env.compileOk, env.setfilterOk).Ok?
            ==> (r.Ok? <==> env.dispatchRet >= 0)
    ensures env.openOk && ResolveLinkhdr(reg, env.linktype).Ok?
            && InstallFilter(filter, env.compileOk, env.setfilterOk).Ok? && env.dispatchRet < 0
            ==> r == Err(DispatchFailed)
  {
    if !env.openOk then Err(OpenFailed)
    else
      var linkhdr :- ResolveLinkhdr(reg, env.linktype);
      var showMacs := env.linktype == DLT_EN10MB;
      var _ :- InstallFilter(filter, env.compileOk, env.setfilterOk);
      if env.dispatchRet < 0 then Err(DispatchFailed)
      else Ok(FileRun(linkhdr, showMacs, env.dispatchRet))
  }

  /**
    Both modes accept exactly the same link types: with every other libpcap
    step succeeding and no PPPoE, a live capture starts exactly when a
    replay of a file of the same link type does.
  */
  lemma LinktypeCheckSharedByBothModes(filter: Option<string>, promisc: bool, wantMacs: bool,
                                       reg: Registry, linktype: int, dispatchRet: nat)
    ensures var live := CapInit(filter, promisc, false, wantMacs, reg, LiveEnv(true, linktype, true, true, true));
            var file := CapFromFile(filter, reg, FileEnv(true, linktype, true, true, dispatchRet));
            && (live.Ok? <==> file.Ok?)
            && (live.Err? ==> live == Err(file.error))
            && (live.Ok? ==> live.value.handle.linkhdr == file.value.linkhdr)
  {
  }

  // ---------------------------------------------------------------------------
  // Readiness

  /**
    The per-iteration readiness set of the main loop: the descriptors to
    read and write, the highest descriptor, and the timeout with the flag
    saying whether one was asked for.  `timeoutUsec` is `None` while the
    `struct timeval` is uninitialised.
  */
  datatype ReadinessSet = ReadinessSet(readFds: set<int>, writeFds: set<int>, maxFd: int,
                                       timeoutUsec: Option<nat>, useTimeout: bool)

  /** The set each iteration starts from: empty descriptor sets, `max_fd = -1`, no timeout. */
  const EmptyReadiness := ReadinessSet({}, {}, -1, None, false)

  /**
    `cap_fd_set`: the capture code gets the first shot at the readiness set
    and asserts that nobody asked for a timeout yet.  On Linux it asks for a
    CAP_TIMEOUT wait; on BSD it adds its descriptor and raises `max_fd`.
  */
  function CapFdSet(p: Platform, rs: ReadinessSet, pcapFd: int): (r: ReadinessSet)
    requires !rs.useTimeout
    ensures r.writeFds == rs.writeFds
    ensures p.Linux? ==> r.useTimeout && r.timeoutUsec == Some(CAP_TIMEOUT * 1000)
                         && r.readFds == rs.readFds && r.maxFd == rs.maxFd
    ensures p.Bsd? ==> !r.useTimeout && r.timeoutUsec == rs.timeoutUsec
                       && r.readFds == rs.readFds + {pcapFd}
                       && r.maxFd >= rs.maxFd && r.maxFd >= pcapFd
                       && (r.maxFd == rs.maxFd || r.maxFd == pcapFd)
  {
    match p
    case Linux => rs.(useTimeout := true, timeoutUsec := Some(CAP_TIMEOUT * 1000))
    case Bsd => rs.(readFds := rs.readFds + {pcapFd}, maxFd := if rs.maxFd >= pcapFd then rs.maxFd else pcapFd)
  }

  /**
    The two modes never mix: the capture contribution either asks for a
    timeout or adds a descriptor, and on BSD the descriptor lies below the
    `max_fd + 1` bound handed to `select`.
  */
  lemma ReadinessModesExclusive(p: Platform, rs: ReadinessSet, pcapFd: int)
    requires !rs.useTimeout && pcapFd !in rs.readFds
    ensures var r := CapFdSet(p, rs, pcapFd);
            (r.useTimeout && pcapFd !in r.readFds) || (!r.useTimeout && pcapFd in r.readFds)
    ensures var r := CapFdSet(p, rs, pcapFd);
            p.Bsd? ==> pcapFd < r.maxFd + 1 && forall fd :: fd in rs.readFds && fd <= rs.maxFd ==> fd < r.maxFd + 1
  {
  }

  // ---------------------------------------------------------------------------
  // Statistics

  /** `pcap_stats` counters and their copies in `pkts_recv`, `pkts_drop` (all `unsigned int`). */
  datatype Stats = Stats(recv: nat, drop: nat)

  /**
    `cap_stats_update`: when `pcap_stats` fails (`None`) the counters are
    left alone; otherwise both are copied from the report.
  */
  function CapStatsUpdate(stats: Stats, report: Option<Stats>): (r: Stats)
    ensures report.None? ==> r == stats
    ensures report.Some? ==> r.recv == report.value.recv && r.drop == report.value.drop
  {
    match report
    case None => stats
    case Some(ps) => Stats(ps.recv, ps.drop)
  }

  /** The statistics after successive updates, one per poll that reached the end of its drain. */
  function StatsAfter(stats: Stats, reports: seq<Option<Stats>>): Stats
    decreases |reports|
  {
    if |reports| == 0 then stats
    else StatsAfter(CapStatsUpdate(stats, reports[0]), reports[1..])
  }

  /** The last report that succeeded, if any. */
  function LastReport(reports: seq<Option<Stats>>): Option<Stats>
    decreases |reports|
  {
    if |reports| == 0 then None
    else if reports[|reports| - 1].Some? then reports[|reports| - 1]
    else LastReport(reports[..|reports| - 1])
  }

  /**
    After any number of updates the counters are those of the most recent
    successful `pcap_stats` call, or the initial ones when none succeeded.
  */
  lemma {:induction false} StatsAfterIsLastReport(stats: Stats, reports: seq<Option<Stats>>)
    ensures StatsAfter(stats, reports) == LastReport(reports).GetOr(stats)
    decreases |reports|
  {
    if |reports| > 0 {
      var init := reports[..|reports| - 1];
      var last := reports[|reports| - 1];
      assert reports == init + [last];
      StatsAfterSnoc(stats, init, last);
      StatsAfterIsLastReport(stats, init);
      if last.Some? {
        assert LastReport(reports) == last;
      } else {
        assert LastReport(reports) == LastReport(init);
      }
    }
  }

  lemma {:induction false} StatsAfterSnoc(stats: Stats, reports: seq<Option<Stats>>, last: Option<Stats>)
    ensures StatsAfter(stats, reports + [last]) == CapStatsUpdate(StatsAfter(stats, reports), last)
    decreases |reports|
  {
    if |reports| == 0 {
      assert reports + [last] == [last];
    } else {
      assert (reports + [last])[1..] == reports[1..] + [last];
      StatsAfterSnoc(CapStatsUpdate(stats, reports[0]), reports[1..], last);
    }
  }

  // ---------------------------------------------------------------------------
  // The drain loop

  function Sum(xs: seq<int>): int
    decreases |xs|
  {
    if |xs| == 0 then 0 else Sum(xs[..|xs| - 1]) + xs[|xs| - 1]
  }

  datatype PollOutcome =
    | Premature       // BSD: the capture descriptor was not readable
    | DispatchError   // a dispatch returned a negative count: logged, the poll ends
    | Drained         // the buffer was emptied and the statistics refreshed

  /** The libpcap answers one `cap_poll` needs: on Linux some dispatch must report an empty buffer. */
  predicate DispatchSupply(p: Platform, fdReady: bool, dispatch: seq<int>) {
    match p
    case Linux => exists i :: 0 <= i < |dispatch| && dispatch[i] <= 0
    case Bsd => fdReady ==> |dispatch| > 0
  }

  /**
    `cap_poll` over a script of dispatch return values.  On BSD a descriptor
    that `select` did not mark ready ends the poll at once.  Otherwise
    dispatch runs until it returns 0 on Linux, and exactly once elsewhere; a
    negative return ends the poll without refreshing the statistics.
    `consumed` is how many dispatch calls were made; `total` is the sum of the
    non-negative counts they returned; `localipChecked` says whether the
    local address was refreshed, which every poll that is not premature does
    before its first dispatch.
  */
  method CapPoll(p: Platform, fdReady: bool, dispatch: seq<int>, report: Option<Stats>, stats: Stats)
    returns (outcome: PollOutcome, consumed: nat, total: int, stats': Stats, localipChecked: bool)
    requires DispatchSupply(p, fdReady, dispatch)
    ensures outcome.Premature? <==> p.Bsd? && !fdReady
    ensures localipChecked <==> !outcome.Premature?
    ensures outcome.Premature? ==> consumed == 0 && total == 0 && stats' == stats
    ensures consumed <= |dispatch|
    ensures !outcome.Premature? ==> consumed >= 1
    ensures outcome.DispatchError? <==> !outcome.Premature? && dispatch[consumed - 1] < 0
    ensures outcome.DispatchError? ==> stats' == stats && total == Sum(dispatch[..consumed - 1])
    ensures outcome.Drained? ==> stats' == CapStatsUpdate(stats, report) && total == Sum(dispatch[..consumed])
    ensures p.Linux? ==> forall i :: 0 <= i < consumed - 1 ==> dispatch[i] > 0
    ensures p.Linux? && outcome.Drained? ==> dispatch[consumed - 1] == 0
    ensures p.Bsd? && fdReady ==> consumed == 1
    ensures total >= 0
  {
    if p.Bsd? && !fdReady {
      return Premature, 0, 0, stats, false;
    }
    localipChecked := true;
    total := 0;
    consumed := 0;
    while true
      invariant consumed <= |dispatch|
      invariant total == Sum(dispatch[..consumed]) && total >= 0
      invariant forall i :: 0 <= i < consumed ==> dispatch[i] > 0
      invariant p.Bsd? ==> consumed == 0
      invariant p.Linux? ==> exists i :: consumed <= i < |dispatch| && dispatch[i] <= 0
      decreases |dispatch| - consumed
    {
      var ret := dispatch[consumed];
      consumed := consumed + 1;
      assert dispatch[..consumed] == dispatch[..consumed - 1] + [ret];
      if ret < 0 {
        return DispatchError, consumed, total, stats, localipChecked;
      }
      total := total + ret;
      if p.Bsd? || ret == 0 {
        break;
      }
    }
    outcome := Drained;
    stats' := CapStatsUpdate(stats, report);
  }
}
