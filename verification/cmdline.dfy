/**
  The command line front end: the option table, the recursive walk that runs
  each option's callback left to right, and the normalisation applied to the
  resulting option record.  The C program keeps the options in globals and
  exits on the first error; here the options are one immutable record and an
  error is a value.
*/
module Cmdline {
  import opened Results
  import opened Numbers

  /** Where packets come from. */
  datatype SourceOpts = SourceOpts(interface: Option<string>, capfile: Option<string>, filter: Option<string>)

  /** How packets are captured and decoded. */
  datatype CaptureOpts = CaptureOpts(wantSnaplen: int, wantPppoe: bool, wantPromisc: bool, wantMacs: bool)

  /** How the process runs. `wantHelp` is 1 for --help and -1 for --version. */
  datatype RunOpts = RunOpts(
    wantSyslog: bool, wantVerbose: bool, wantDaemonize: bool, wantDns: bool,
    wantLastseen: bool, wantHexdump: bool, wantHelp: int)

  /** The web interface: the port is an `unsigned short`; every `-b` address is handed to http_add_bindaddr. */
  datatype HttpOpts = HttpOpts(bindport: nat, bindaddrs: seq<string>)

  /** The privilege drop and the files named relative to the chroot. */
  datatype FileOpts = FileOpts(
    chrootDir: Option<string>, privdropUser: Option<string>, daylogFn: Option<string>,
    importFn: Option<string>, exportFn: Option<string>, pidFn: Option<string>)

  /** Table sizes (all `unsigned int`) and the start-up wait (an `int`). */
  datatype LimitOpts = LimitOpts(
    hostsMax: nat, hostsKeep: nat, portsMax: nat, portsKeep: nat, highestPort: nat, waitSecs: int)

  /**
    The option globals, grouped, with the initial values of the C program.
    `localnets` lists every argument handed to acct_init_localnet, in order.
  */
  datatype Options = Options(
    source: SourceOpts, capture: CaptureOpts, run: RunOpts, http: HttpOpts,
    files: FileOpts, limits: LimitOpts, localnets: seq<string>)

  const Defaults: Options := Options(
    SourceOpts(None, None, None),
    CaptureOpts(-1, false, true, true),
    RunOpts(false, false, true, true, true, false, 0),
    HttpOpts(667, []),
    FileOpts(None, None, None, None, None, None),
    LimitOpts(1000, 500, 200, 30, 65535, -1),
    [])

  /** The callbacks of the option table; each row of the table is known by its callback. */
  datatype Callback =
    | CbInterface | CbCapfile | CbPort | CbBindaddr | CbFilter | CbLocal | CbSnaplen
    | CbPppoe | CbSyslog | CbVerbose | CbNoDaemon | CbNoPromisc | CbNoDns | CbNoMacs
    | CbNoLastseen | CbChroot | CbUser | CbDaylog | CbImport | CbExport | CbPidfile
    | CbHostsMax | CbHostsKeep | CbPortsMax | CbPortsKeep | CbHighestPort | CbWaitSecs
    | CbHexdump | CbVersion | CbHelp

  /** The rows of the option table, in the order they are scanned. */
  const Table: seq<Callback> := [
    CbInterface, CbCapfile, CbPort, CbBindaddr, CbFilter, CbLocal, CbSnaplen,
    CbPppoe, CbSyslog, CbVerbose, CbNoDaemon, CbNoPromisc, CbNoDns, CbNoMacs,
    CbNoLastseen, CbChroot, CbUser, CbDaylog, CbImport, CbExport, CbPidfile,
    CbHostsMax, CbHostsKeep, CbPortsMax, CbPortsKeep, CbHighestPort, CbWaitSecs,
    CbHexdump, CbVersion, CbHelp]

  /** The `name` column: the token that selects the row. */
  function Name(cb: Callback): string {
    match cb
    case CbInterface => "-i"
    case CbCapfile => "-r"
    case CbPort => "-p"
    case CbBindaddr => "-b"
    case CbFilter => "-f"
    case CbLocal => "-l"
    case CbSnaplen => "--snaplen"
    case CbPppoe => "--pppoe"
    case CbSyslog => "--syslog"
    case CbVerbose => "--verbose"
    case CbNoDaemon => "--no-daemon"
    case CbNoPromisc => "--no-promisc"
    case CbNoDns => "--no-dns"
    case CbNoMacs => "--no-macs"
    case CbNoLastseen => "--no-lastseen"
    case CbChroot => "--chroot"
    case CbUser => "--user"
    case CbDaylog => "--daylog"
    case CbImport => "--import"
    case CbExport => "--export"
    case CbPidfile => "--pidfile"
    case CbHostsMax => "--hosts-max"
    case CbHostsKeep => "--hosts-keep"
    case CbPortsMax => "--ports-max"
    case CbPortsKeep => "--ports-keep"
    case CbHighestPort => "--highest-port"
    case CbWaitSecs => "--wait"
    case CbHexdump => "--hexdump"
    case CbVersion => "--version"
    case CbHelp => "--help"
  }

  /** The `arg_name` column: `None` marks a unary option. */
  function ParamName(cb: Callback): Option<string> {
    match cb
    case CbInterface => Some("interface")
    case CbCapfile => Some("file")
    case CbPort => Some("port")
    case CbBindaddr => Some("bindaddr")
    case CbFilter => Some("filter")
    case CbLocal => Some("network/netmask")
    case CbSnaplen => Some("bytes")
    case CbChroot => Some("dir")
    case CbUser => Some("username")
    case CbDaylog => Some("filename")
    case CbImport => Some("filename")
    case CbExport => Some("filename")
    case CbPidfile => Some("filename")
    case CbHostsMax => Some("count")
    case CbHostsKeep => Some("count")
    case CbPortsMax => Some("count")
    case CbPortsKeep => Some("count")
    case CbHighestPort => Some("port")
    case CbWaitSecs => Some("secs")
    case _ => None
  }

  /**
    The initial `num_seen` column: -1 for `-b`, which is never counted and may
    therefore repeat, 0 for every other row.
  */
  function InitialNumSeen(cb: Callback): int {
    if cb == CbBindaddr then -1 else 0
  }

  predicate Repeatable(cb: Callback) {
    InitialNumSeen(cb) == -1
  }

  /** Tokens one option occupies: the option, plus its parameter unless it is unary. */
  function Width(cb: Callback): nat {
    if ParamName(cb).None? then 1 else 2
  }

  datatype CmdError =
    | NoArguments
    | IllegalArgument(token: string)
    | MissingParameter(option: string, paramName: string)
    | AlreadySpecified(option: string)
    | BadNumber(cause: NumError)
    | NeedsChroot(option: string)
    | NoSource
    | BothSources

  /** The first of `rows`, from index `k` on, named `token`. */
  function FindRow(rows: seq<Callback>, token: string, k: nat): (r: Option<Callback>)
    requires k <= |rows|
    ensures r.Some? ==> Name(r.value) == token
    decreases |rows| - k
  {
    if k == |rows| then None
    else if Name(rows[k]) == token then Some(rows[k])
    else FindRow(rows, token, k + 1)
  }

  /**
    The scan finds the first row at or after `k` whose name is the token, and
    finds nothing exactly when no row from `k` on has that name.
  */
  lemma FindRowMeaning(rows: seq<Callback>, token: string, k: nat)
    requires k <= |rows|
    ensures FindRow(rows, token, k).Some? ==>
              exists j :: k <= j < |rows| && rows[j] == FindRow(rows, token, k).value
                          && forall i :: k <= i < j ==> Name(rows[i]) != token
    ensures FindRow(rows, token, k).None? ==> forall j :: k <= j < |rows| ==> Name(rows[j]) != token
  {
    FindRowFirst(rows, token, k);
    FindRowNone(rows, token, k);
  }

  lemma {:induction false} FindRowFirst(rows: seq<Callback>, token: string, k: nat)
    requires k <= |rows|
    ensures FindRow(rows, token, k).Some? ==>
              exists j :: k <= j < |rows| && rows[j] == FindRow(rows, token, k).value
                          && forall i :: k <= i < j ==> Name(rows[i]) != token
    decreases |rows| - k
  {
    if k < |rows| && Name(rows[k]) != token {
      FindRowFirst(rows, token, k + 1);
      if FindRow(rows, token, k + 1).Some? {
        var j :| k + 1 <= j < |rows| && rows[j] == FindRow(rows, token, k + 1).value
                 && forall i :: k + 1 <= i < j ==> Name(rows[i]) != token;
        NoEarlierRow(rows, token, k, j);
      }
    }
  }

  /** A row skipped by the scan extends the run of rows not named `token`. */
  lemma NoEarlierRow(rows: seq<Callback>, token: string, k: nat, j: nat)
    requires k < j <= |rows| && Name(rows[k]) != token
    requires forall i :: k + 1 <= i < j ==> Name(rows[i]) != token
    ensures forall i :: k <= i < j ==> Name(rows[i]) != token
  {
  }

  lemma {:induction false} FindRowNone(rows: seq<Callback>, token: string, k: nat)
    requires k <= |rows|
    ensures FindRow(rows, token, k).None? ==> forall j :: k <= j < |rows| ==> Name(rows[j]) != token
    decreases |rows| - k
  {
    if k < |rows| && Name(rows[k]) != token {
      FindRowNone(rows, token, k + 1);
    }
  }

  /** The row a token selects, scanning the table from the top. */
  function Lookup(token: string): Option<Callback> {
    FindRow(Table, token, 0)
  }

  /**
    A token selects the first row of the table with its name; it selects
    nothing exactly when no row has that name.
  */
  lemma LookupMeaning(token: string)
    ensures Lookup(token).Some? ==>
              exists j :: 0 <= j < |Table| && Table[j] == Lookup(token).value
                          && forall i :: 0 <= i < j ==> Name(Table[i]) != token
    ensures Lookup(token).Some? ==> Name(Lookup(token).value) == token
    ensures Lookup(token).None? <==> forall j :: 0 <= j < |Table| ==> Name(Table[j]) != token
  {
    FindRowMeaning(Table, token, 0);
  }

  /** `parsenum` as a callback uses it: a malformed number is fatal. */
  function NumberArg(arg: string, max: nat): (r: Result<nat, CmdError>)
    ensures r.Ok? <==> ParseNum(arg, max).Ok?
    ensures r.Ok? ==> r.value == ParseNum(arg, max).value && (max == 0 || r.value <= max)
    ensures r.Err? ==> r.error == BadNumber(ParseNum(arg, max).error)
  {
    match ParseNum(arg, max)
    case Err(e) => Err(BadNumber(e))
    case Ok(n) => Ok(n)
  }

  /** The callbacks that take a number. */
  predicate Numeric(cb: Callback) {
    cb.CbPort? || cb.CbSnaplen? || cb.CbHostsMax? || cb.CbHostsKeep? || cb.CbPortsMax?
    || cb.CbPortsKeep? || cb.CbHighestPort? || cb.CbWaitSecs?
  }

  /** The `max` each numeric callback hands to `parsenum` (0: no bound). */
  function NumberMax(cb: Callback): nat {
    match cb
    case CbPort => 65536
    case CbPortsMax => 65536
    case CbPortsKeep => 65536
    case CbHighestPort => 65535
    case _ => 0
  }

  /**
    Store a parsed number, through the cast of the C variable it lands in:
    `unsigned short` for the port, `int` for the snap length and the wait,
    `unsigned int` for the table limits.
  */
  function SetNumber(cb: Callback, n: nat, o: Options): (r: Options)
    requires Numeric(cb)
    ensures r.source == o.source && r.files == o.files
    ensures o.http.bindport < 0x1_0000 ==> r.http.bindport < 0x1_0000
    ensures cb == CbPort ==> r.http == o.http.(bindport := n % 0x1_0000) && r.(http := o.http) == o
    ensures cb == CbSnaplen ==> r.capture == o.capture.(wantSnaplen := ToInt(n)) && r.(capture := o.capture) == o
    ensures cb == CbWaitSecs ==> r.limits == o.limits.(waitSecs := ToInt(n)) && r.(limits := o.limits) == o
    ensures cb == CbHostsMax ==> r.limits == o.limits.(hostsMax := n % 0x1_0000_0000) && r.(limits := o.limits) == o
    ensures cb == CbHostsKeep ==> r.limits == o.limits.(hostsKeep := n % 0x1_0000_0000) && r.(limits := o.limits) == o
    ensures cb == CbPortsMax ==> r.limits == o.limits.(portsMax := n % 0x1_0000_0000) && r.(limits := o.limits) == o
    ensures cb == CbPortsKeep ==> r.limits == o.limits.(portsKeep := n % 0x1_0000_0000) && r.(limits := o.limits) == o
    ensures cb == CbHighestPort ==> r.limits == o.limits.(highestPort := n % 0x1_0000_0000) && r.(limits := o.limits) == o
  {
    var cap, http, lim := o.capture, o.http, o.limits;
    match cb
    case CbPort => o.(http := http.(bindport := ToUShort(n)))
    case CbSnaplen => o.(capture := cap.(wantSnaplen := ToInt(n)))
    case CbHostsMax => o.(limits := lim.(hostsMax := ToUInt(n)))
    case CbHostsKeep => o.(limits := lim.(hostsKeep := ToUInt(n)))
    case CbPortsMax => o.(limits := lim.(portsMax := ToUInt(n)))
    case CbPortsKeep => o.(limits := lim.(portsKeep := ToUInt(n)))
    case CbHighestPort => o.(limits := lim.(highestPort := ToUInt(n)))
    case CbWaitSecs => o.(limits := lim.(waitSecs := ToInt(n)))
  }

  /**
    The callbacks that take no number.  Unary callbacks ignore `arg` (the C
    program passes them NULL).  The file options that will be opened after
    the chroot demand that `--chroot` came first; `--export` is also
    accepted after `-r`.
  */
  function SetText(cb: Callback, arg: string, o: Options): (r: Result<Options, CmdError>)
    requires !Numeric(cb)
    ensures cb != CbChroot && r.Ok? ==> r.value.files.chrootDir == o.files.chrootDir
    ensures cb != CbCapfile && r.Ok? ==> r.value.source.capfile == o.source.capfile
    ensures (cb == CbDaylog || cb == CbImport || cb == CbPidfile) ==> (r.Ok? <==> o.files.chrootDir.Some?)
    ensures cb == CbExport ==> (r.Ok? <==> o.files.chrootDir.Some? || o.source.capfile.Some?)
    ensures r.Err? ==> r.error.NeedsChroot?
    ensures r.Ok? ==> r.value.http.bindport == o.http.bindport && r.value.limits == o.limits
  {
    var src, cap, run, http, files := o.source, o.capture, o.run, o.http, o.files;
    match cb
    case CbInterface => Ok(o.(source := src.(interface := Some(arg))))
    case CbCapfile => Ok(o.(source := src.(capfile := Some(arg))))
    case CbFilter => Ok(o.(source := src.(filter := Some(arg))))
    case CbBindaddr => Ok(o.(http := http.(bindaddrs := http.bindaddrs + [arg])))
    case CbLocal => Ok(o.(localnets := o.localnets + [arg]))
    case CbPppoe => Ok(o.(capture := cap.(wantPppoe := true)))
    case CbNoPromisc => Ok(o.(capture := cap.(wantPromisc := false)))
    case CbNoMacs => Ok(o.(capture := cap.(wantMacs := false)))
    case CbSyslog => Ok(o.(run := run.(wantSyslog := true)))
    case CbVerbose => Ok(o.(run := run.(wantVerbose := true)))
    case CbNoDaemon => Ok(o.(run := run.(wantDaemonize := false)))
    case CbNoDns => Ok(o.(run := run.(wantDns := false)))
    case CbNoLastseen => Ok(o.(run := run.(wantLastseen := false)))
    case CbHexdump => Ok(o.(run := run.(wantHexdump := true)))
    case CbVersion => Ok(o.(run := run.(wantHelp := -1)))
    case CbHelp => Ok(o.(run := run.(wantHelp := 1)))
    case CbChroot => Ok(o.(files := files.(chrootDir := Some(arg))))
    case CbUser => Ok(o.(files := files.(privdropUser := Some(arg))))
    case CbDaylog =>
      if files.chrootDir.None? then Err(NeedsChroot("--daylog"))
      else Ok(o.(files := files.(daylogFn := Some(arg))))
    case CbImport =>
      if files.chrootDir.None? then Err(NeedsChroot("--import"))
      else Ok(o.(files := files.(importFn := Some(arg))))
    case CbExport =>
      if files.chrootDir.None? && src.capfile.None? then Err(NeedsChroot("--export"))
      else Ok(o.(files := files.(exportFn := Some(arg))))
    case CbPidfile =>
      if files.chrootDir.None? then Err(NeedsChroot("--pidfile"))
      else Ok(o.(files := files.(pidFn := Some(arg))))
  }

  /** The source and list options write their own field and leave every other option as it was. */
  lemma SetTextSources(cb: Callback, arg: string, o: Options)
    ensures cb == CbInterface ==> SetText(cb, arg, o) == Ok(o.(source := o.source.(interface := Some(arg))))
    ensures cb == CbCapfile ==> SetText(cb, arg, o) == Ok(o.(source := o.source.(capfile := Some(arg))))
    ensures cb == CbFilter ==> SetText(cb, arg, o) == Ok(o.(source := o.source.(filter := Some(arg))))
    ensures cb == CbBindaddr ==> SetText(cb, arg, o) == Ok(o.(http := o.http.(bindaddrs := o.http.bindaddrs + [arg])))
    ensures cb == CbLocal ==> SetText(cb, arg, o) == Ok(o.(localnets := o.localnets + [arg]))
  {
  }

  /** The unary capture options set their own flag and leave every other option as it was. */
  lemma SetTextCaptureFlags(cb: Callback, arg: string, o: Options)
    ensures cb == CbPppoe ==> SetText(cb, arg, o) == Ok(o.(capture := o.capture.(wantPppoe := true)))
    ensures cb == CbNoPromisc ==> SetText(cb, arg, o) == Ok(o.(capture := o.capture.(wantPromisc := false)))
    ensures cb == CbNoMacs ==> SetText(cb, arg, o) == Ok(o.(capture := o.capture.(wantMacs := false)))
  {
  }

  /** The unary run options set their own flag and leave every other option as it was. */
  lemma SetTextRunFlags(cb: Callback, arg: string, o: Options)
    ensures cb == CbSyslog ==> SetText(cb, arg, o) == Ok(o.(run := o.run.(wantSyslog := true)))
    ensures cb == CbVerbose ==> SetText(cb, arg, o) == Ok(o.(run := o.run.(wantVerbose := true)))
    ensures cb == CbNoDaemon ==> SetText(cb, arg, o) == Ok(o.(run := o.run.(wantDaemonize := false)))
    ensures cb == CbNoDns ==> SetText(cb, arg, o) == Ok(o.(run := o.run.(wantDns := false)))
    ensures cb == CbNoLastseen ==> SetText(cb, arg, o) == Ok(o.(run := o.run.(wantLastseen := false)))
    ensures cb == CbHexdump ==> SetText(cb, arg, o) == Ok(o.(run := o.run.(wantHexdump := true)))
    ensures cb == CbVersion ==> SetText(cb, arg, o) == Ok(o.(run := o.run.(wantHelp := -1)))
    ensures cb == CbHelp ==> SetText(cb, arg, o) == Ok(o.(run := o.run.(wantHelp := 1)))
  {
  }

  /** The privilege options write their own field and leave every other option as it was. */
  lemma SetTextPrivilege(cb: Callback, arg: string, o: Options)
    ensures cb == CbChroot ==> SetText(cb, arg, o) == Ok(o.(files := o.files.(chrootDir := Some(arg))))
    ensures cb == CbUser ==> SetText(cb, arg, o) == Ok(o.(files := o.files.(privdropUser := Some(arg))))
  {
  }

  /** The file options write their own field when they succeed and leave every other option as it was. */
  lemma SetTextFiles(cb: Callback, arg: string, o: Options)
    ensures cb == CbDaylog && SetText(cb, arg, o).Ok? ==> SetText(cb, arg, o).value == o.(files := o.files.(daylogFn := Some(arg)))
    ensures cb == CbImport && SetText(cb, arg, o).Ok? ==> SetText(cb, arg, o).value == o.(files := o.files.(importFn := Some(arg)))
    ensures cb == CbExport && SetText(cb, arg, o).Ok? ==> SetText(cb, arg, o).value == o.(files := o.files.(exportFn := Some(arg)))
    ensures cb == CbPidfile && SetText(cb, arg, o).Ok? ==> SetText(cb, arg, o).value == o.(files := o.files.(pidFn := Some(arg)))
  {
  }

  /** The callback of one option applied to the option record. */
  function Apply(cb: Callback, arg: string, o: Options): (r: Result<Options, CmdError>)
    ensures cb != CbChroot && r.Ok? ==> r.value.files.chrootDir == o.files.chrootDir
    ensures cb != CbCapfile && r.Ok? ==> r.value.source.capfile == o.source.capfile
    ensures (cb == CbDaylog || cb == CbImport || cb == CbPidfile) ==> (r.Ok? <==> o.files.chrootDir.Some?)
    ensures cb == CbExport ==> (r.Ok? <==> o.files.chrootDir.Some? || o.source.capfile.Some?)
    ensures r.Err? ==> r.error.BadNumber? || r.error.NeedsChroot?
    ensures r.Ok? && o.http.bindport < 0x1_0000 ==> r.value.http.bindport < 0x1_0000
    ensures Numeric(cb) ==> (r.Ok? <==> ParseNum(arg, NumberMax(cb)).Ok?)
    ensures Numeric(cb) && r.Ok? ==> r.value == SetNumber(cb, ParseNum(arg, NumberMax(cb)).value, o)
    ensures Numeric(cb) && r.Err? ==> r.error == BadNumber(ParseNum(arg, NumberMax(cb)).error)
    ensures !Numeric(cb) ==> r == SetText(cb, arg, o)
  {
    if Numeric(cb) then
      var n :- NumberArg(arg, NumberMax(cb));
      Ok(SetNumber(cb, n, o))
    else
      SetText(cb, arg, o)
  }

  /**
    The parser's state: the options so far and the rows whose `num_seen` has
    reached 1.  Rows that are `Repeatable` are never counted.
  */
  datatype ParseState = ParseState(opts: Options, seen: set<Callback>)

  const Initial := ParseState(Defaults, {})

  /**
    One round of `parse_sub_cmdline` on a non-empty argument list: find the
    option, check it has its parameter and has not been seen, count it, and run
    its callback.  Returns the new state and the number of tokens consumed.
  */
  function Step(args: seq<string>, st: ParseState): (r: Result<(ParseState, nat), CmdError>)
    requires |args| > 0
    ensures Lookup(args[0]).None? ==> r == Err(IllegalArgument(args[0]))
    ensures Lookup(args[0]).Some? && ParamName(Lookup(args[0]).value).Some? && |args| == 1
            ==> r.Err? && r.error.MissingParameter?
    ensures Lookup(args[0]).Some? && |args| >= Width(Lookup(args[0]).value) && Lookup(args[0]).value in st.seen
            ==> r == Err(AlreadySpecified(args[0]))
    ensures r.Ok? ==> Lookup(args[0]).Some? && r.value.1 == Width(Lookup(args[0]).value) <= |args|
    ensures r.Ok? ==> r.value.0.seen == st.seen + (if Repeatable(Lookup(args[0]).value) then {} else {Lookup(args[0]).value})
    ensures r.Err? ==> r.error != NoArguments
    ensures r.Ok? && st.opts.http.bindport < 0x1_0000 ==> r.value.0.opts.http.bindport < 0x1_0000
  {
    match Lookup(args[0])
    case None => Err(IllegalArgument(args[0]))
    case Some(cb) =>
      if ParamName(cb).Some? && |args| == 1 then Err(MissingParameter(Name(cb), ParamName(cb).value))
      else if cb in st.seen then Err(AlreadySpecified(Name(cb)))
      else
        var seen := if !Repeatable(cb) then st.seen + {cb} else st.seen;
        var arg := if ParamName(cb).None? then "" else args[1];
        match Apply(cb, arg, st.opts)
        case Err(e) => Err(e)
        case Ok(o) => Ok((ParseState(o, seen), Width(cb)))
  }

  /** `parse_sub_cmdline`: options are consumed left to right until the list is empty. */
  function ParseSub(args: seq<string>, st: ParseState): (r: Result<ParseState, CmdError>)
    ensures r.Err? ==> r.error != NoArguments
    ensures r.Ok? && st.opts.http.bindport < 0x1_0000 ==> r.value.opts.http.bindport < 0x1_0000
    decreases |args|
  {
    if |args| == 0 then Ok(st)
    else
      match Step(args, st)
      case Err(e) => Err(e)
      case Ok((next, used)) => ParseSub(args[used..], next)
  }

  // ---------------------------------------------------------------------------
  // A reference reading of the same walk: split the arguments into option
  // occurrences, count them, and fold the callbacks over them.

  datatype Occurrence = Occurrence(cb: Callback, arg: string)

  /** The arguments as a list of option occurrences, if every token is a known option with its parameter. */
  function Tokenize(args: seq<string>): Option<seq<Occurrence>>
    decreases |args|
  {
    if |args| == 0 then Some([])
    else match Lookup(args[0])
      case None => None
      case Some(cb) =>
        if |args| < Width(cb) then None
        else
          var arg := if Width(cb) == 1 then "" else args[1];
          match Tokenize(args[Width(cb)..])
          case None => None
          case Some(rest) => Some([Occurrence(cb, arg)] + rest)
  }

  function Uses(occs: seq<Occurrence>, cb: Callback): nat {
    if |occs| == 0 then 0 else (if occs[0].cb == cb then 1 else 0) + Uses(occs[1..], cb)
  }

  /** No row that is not repeatable would reach a `num_seen` above 1. */
  predicate NoRepeat(occs: seq<Occurrence>, seen: set<Callback>) {
    forall cb :: !Repeatable(cb) ==> (if cb in seen then 1 else 0) + Uses(occs, cb) <= 1
  }

  /** The callbacks of `occs`, run left to right, stopping at the first error. */
  function Fold(occs: seq<Occurrence>, o: Options): Result<Options, CmdError> {
    if |occs| == 0 then Ok(o)
    else
      match Apply(occs[0].cb, occs[0].arg, o)
      case Err(e) => Err(e)
      case Ok(o') => Fold(occs[1..], o')
  }

  lemma NoRepeatStep(occ: Occurrence, rest: seq<Occurrence>, seen: set<Callback>)
    requires occ.cb !in seen
    ensures var seen' := if !Repeatable(occ.cb) then seen + {occ.cb} else seen;
            NoRepeat([occ] + rest, seen) <==> NoRepeat(rest, seen')
  {
    var occs := [occ] + rest;
    assert occs[1..] == rest;
    assert forall cb :: Uses(occs, cb) == (if occ.cb == cb then 1 else 0) + Uses(rest, cb);
  }

  lemma RepeatedRowFails(occ: Occurrence, rest: seq<Occurrence>, seen: set<Callback>)
    requires occ.cb in seen && !Repeatable(occ.cb)
    ensures !NoRepeat([occ] + rest, seen)
  {
    var occs := [occ] + rest;
    assert occs[1..] == rest;
    assert Uses(occs, occ.cb) >= 1;
  }

  /**
    The walk succeeds exactly when the arguments split into options with their
    parameters, no non-repeatable option occurs twice, and every callback
    succeeds in order; the options it produces are those of the callbacks.
  */
  lemma {:induction false} ParseSubMatchesFold(args: seq<string>, st: ParseState)
    requires forall cb :: cb in st.seen ==> !Repeatable(cb)
    ensures ParseSub(args, st).Ok? <==>
            (Tokenize(args).Some? && NoRepeat(Tokenize(args).value, st.seen)
             && Fold(Tokenize(args).value, st.opts).Ok?)
    ensures ParseSub(args, st).Ok? ==>
            ParseSub(args, st).value.opts == Fold(Tokenize(args).value, st.opts).value
    decreases |args|
  {
    if |args| == 0 {
      assert NoRepeat([], st.seen);
    } else {
      match Lookup(args[0])
      case None =>
        assert Tokenize(args).None?;
      case Some(cb) =>
        if |args| < Width(cb) {
          assert Tokenize(args).None?;
          assert Step(args, st).Err?;
        } else {
          var arg := if Width(cb) == 1 then "" else args[1];
          var occ := Occurrence(cb, arg);
          var tail := args[Width(cb)..];
          assert Tokenize(args) == (match Tokenize(tail)
                                    case None => None
                                    case Some(rest) => Some([occ] + rest));
          if cb in st.seen {
            assert ParseSub(args, st).Err?;
            if Tokenize(tail).Some? {
              RepeatedRowFails(occ, Tokenize(tail).value, st.seen);
            }
          } else {
            var seen := if !Repeatable(cb) then st.seen + {cb} else st.seen;
            if Tokenize(tail).Some? {
              var rest := Tokenize(tail).value;
              NoRepeatStep(occ, rest, st.seen);
              assert ([occ] + rest)[1..] == rest;
              assert Fold([occ] + rest, st.opts) == (match Apply(cb, arg, st.opts)
                                                     case Err(e) => Err(e)
                                                     case Ok(o') => Fold(rest, o'));
            }
            match Apply(cb, arg, st.opts)
            case Err(e) =>
              assert Step(args, st) == Err(e);
            case Ok(o) =>
              assert Step(args, st) == Ok((ParseState(o, seen), Width(cb)));
              assert ParseSub(args, st) == ParseSub(tail, ParseState(o, seen));
              ParseSubMatchesFold(tail, ParseState(o, seen));
          }
        }
    }
  }

  lemma {:induction false} TwoOccurrences(occs: seq<Occurrence>, j: nat, k: nat)
    requires j < k < |occs| && occs[j].cb == occs[k].cb
    ensures Uses(occs, occs[j].cb) >= 2
    decreases j
  {
    if j == 0 {
      OneOccurrence(occs[1..], k - 1, occs[j].cb);
    } else {
      TwoOccurrences(occs[1..], j - 1, k - 1);
    }
  }

  lemma {:induction false} OneOccurrence(occs: seq<Occurrence>, k: nat, cb: Callback)
    requires k < |occs| && occs[k].cb == cb
    ensures Uses(occs, cb) >= 1
    decreases k
  {
    if k > 0 {
      OneOccurrence(occs[1..], k - 1, cb);
    }
  }

  /** An option other than `-b` occurring twice makes the walk fail. */
  lemma RepeatRejected(args: seq<string>, j: nat, k: nat)
    requires Tokenize(args).Some?
    requires j < k < |Tokenize(args).value|
    requires Tokenize(args).value[j].cb == Tokenize(args).value[k].cb
    requires !Repeatable(Tokenize(args).value[j].cb)
    ensures ParseSub(args, Initial).Err?
  {
    TwoOccurrences(Tokenize(args).value, j, k);
    ParseSubMatchesFold(args, Initial);
  }

  lemma LookupBindaddr()
    ensures Lookup("-b") == Some(CbBindaddr)
  {
    assert Table[3] == CbBindaddr;
    assert FindRow(Table, "-b", 3) == Some(CbBindaddr);
    assert Table[2] == CbPort && "-p"[1] != "-b"[1];
    assert FindRow(Table, "-b", 2) == Some(CbBindaddr);
    assert Table[1] == CbCapfile && "-r"[1] != "-b"[1];
    assert FindRow(Table, "-b", 1) == Some(CbBindaddr);
    assert Table[0] == CbInterface && "-i"[1] != "-b"[1];
  }

  lemma ParseSubAfterStep(args: seq<string>, st: ParseState, next: ParseState, used: nat)
    requires |args| > 0 && Step(args, st) == Ok((next, used))
    ensures used <= |args| && ParseSub(args, st) == ParseSub(args[used..], next)
  {
  }

  lemma StepBindaddr(args: seq<string>, st: ParseState)
    requires |args| >= 2 && args[0] == "-b" && CbBindaddr !in st.seen
    ensures Step(args, st)
            == Ok((ParseState(st.opts.(http := st.opts.http.(bindaddrs := st.opts.http.bindaddrs + [args[1]])), st.seen), 2))
  {
    LookupBindaddr();
  }

  /** `-b addr` repeated any number of times. */
  function BindArgs(addrs: seq<string>): seq<string> {
    if |addrs| == 0 then [] else ["-b", addrs[0]] + BindArgs(addrs[1..])
  }

  /** Any number of `-b` options is accepted, and every address is handed over in order. */
  lemma {:induction false} BindaddrRepeats(addrs: seq<string>, st: ParseState)
    requires CbBindaddr !in st.seen
    ensures ParseSub(BindArgs(addrs), st)
            == Ok(ParseState(st.opts.(http := st.opts.http.(bindaddrs := st.opts.http.bindaddrs + addrs)), st.seen))
    decreases |addrs|
  {
    if |addrs| == 0 {
      assert st.opts.http.bindaddrs + addrs == st.opts.http.bindaddrs;
    } else {
      var args := BindArgs(addrs);
      var http := st.opts.http;
      var next := ParseState(st.opts.(http := http.(bindaddrs := http.bindaddrs + [addrs[0]])), st.seen);
      calc {
        ParseSub(args, st);
      == { assert args[..2] == ["-b", addrs[0]] && args[2..] == BindArgs(addrs[1..]);
           StepBindaddr(args, st);
           ParseSubAfterStep(args, st, next, 2); }
        ParseSub(BindArgs(addrs[1..]), next);
      == { BindaddrRepeats(addrs[1..], next); }
        Ok(ParseState(next.opts.(http := next.opts.http.(bindaddrs := next.opts.http.bindaddrs + addrs[1..])), st.seen));
      == { assert http.bindaddrs + [addrs[0]] + addrs[1..] == http.bindaddrs + addrs; }
        Ok(ParseState(st.opts.(http := http.(bindaddrs := http.bindaddrs + addrs)), st.seen));
      }
    }
  }

  /** The options whose file is named relative to the chroot directory. */
  predicate ChrootRelative(cb: Callback) {
    cb == CbDaylog || cb == CbImport || cb == CbPidfile
  }

  /** A fold that succeeds ran its first callback successfully and then the rest. */
  lemma FoldStep(occs: seq<Occurrence>, o: Options)
    requires |occs| > 0 && Fold(occs, o).Ok?
    ensures Apply(occs[0].cb, occs[0].arg, o).Ok?
    ensures Fold(occs[1..], Apply(occs[0].cb, occs[0].arg, o).value).Ok?
  {
  }

  /** A callback found at `k - 1` after the first occurrence is found at `k` before dropping it. */
  lemma ShiftWitness(occs: seq<Occurrence>, k: nat, cbs: set<Callback>)
    requires 0 < k <= |occs|
    requires exists j :: 0 <= j < k - 1 && occs[1..][j].cb in cbs
    ensures exists j :: 0 <= j < k && occs[j].cb in cbs
  {
    var j :| 0 <= j < k - 1 && occs[1..][j].cb in cbs;
    assert occs[j + 1] == occs[1..][j];
  }

  /** `--daylog`, `--import` and `--pidfile` succeed only after a `--chroot` to their left. */
  lemma {:induction false} FoldNeedsEarlierChroot(occs: seq<Occurrence>, o: Options, k: nat)
    requires Fold(occs, o).Ok? && o.files.chrootDir.None?
    requires k < |occs| && ChrootRelative(occs[k].cb)
    ensures exists j :: 0 <= j < k && occs[j].cb in {CbChroot}
  {
    FoldStep(occs, o);
    if occs[0].cb != CbChroot {
      FoldNeedsEarlierChroot(occs[1..], Apply(occs[0].cb, occs[0].arg, o).value, k - 1);
      ShiftWitness(occs, k, {CbChroot});
    }
  }

  /** `--export` succeeds only after a `--chroot` or a `-r` to its left. */
  lemma {:induction false} FoldExportNeedsEarlierChrootOrCapfile(occs: seq<Occurrence>, o: Options, k: nat)
    requires Fold(occs, o).Ok? && o.files.chrootDir.None? && o.source.capfile.None?
    requires k < |occs| && occs[k].cb == CbExport
    ensures exists j :: 0 <= j < k && occs[j].cb in {CbChroot, CbCapfile}
  {
    FoldStep(occs, o);
    if occs[0].cb != CbChroot && occs[0].cb != CbCapfile {
      FoldExportNeedsEarlierChrootOrCapfile(occs[1..], Apply(occs[0].cb, occs[0].arg, o).value, k - 1);
      ShiftWitness(occs, k, {CbChroot, CbCapfile});
    }
  }

  /** On a whole command line that parses: each chroot-relative option comes after `--chroot`. */
  lemma ChrootMustComeFirst(args: seq<string>, k: nat)
    requires ParseSub(args, Initial).Ok?
    ensures Tokenize(args).Some?
    ensures k < |Tokenize(args).value| && ChrootRelative(Tokenize(args).value[k].cb)
            ==> exists j :: 0 <= j < k && Tokenize(args).value[j].cb == CbChroot
  {
    ParseSubMatchesFold(args, Initial);
    var occs := Tokenize(args).value;
    if k < |occs| && ChrootRelative(occs[k].cb) {
      FoldNeedsEarlierChroot(occs, Defaults, k);
      var j :| 0 <= j < k && occs[j].cb in {CbChroot};
      assert occs[j].cb == CbChroot;
    }
  }

  /** On a whole command line that parses: `--export` comes after `--chroot` or `-r`. */
  lemma ExportMustComeAfterChrootOrCapfile(args: seq<string>, k: nat)
    requires ParseSub(args, Initial).Ok?
    ensures Tokenize(args).Some?
    ensures k < |Tokenize(args).value| && Tokenize(args).value[k].cb == CbExport
            ==> exists j :: 0 <= j < k && Tokenize(args).value[j].cb in {CbChroot, CbCapfile}
  {
    ParseSubMatchesFold(args, Initial);
    var occs := Tokenize(args).value;
    if k < |occs| && occs[k].cb == CbExport {
      FoldExportNeedsEarlierChrootOrCapfile(occs, Defaults, k);
    }
  }

  // ---------------------------------------------------------------------------
  // parse_cmdline

  datatype Cmdline =
    | Run(opts: Options)
    | Usage(full: bool)       // --help prints the usage, --version only the version; both exit 0
    | Fail(error: CmdError)

  /**
    The sanity checks and defaults applied after a successful walk: chroot and
    user defaults, interface xor capture file, keep counts clamped under their
    maxima, and --hexdump forcing --verbose and --no-daemon.
  */
  function Normalize(o: Options, chrootDefault: string, userDefault: string): (r: Result<Options, CmdError>)
    ensures r.Ok? <==> (o.source.interface.Some? != o.source.capfile.Some?)
    ensures r.Err? ==> r.error == (if o.source.interface.None? then NoSource else BothSources)
    ensures r.Ok? ==> r.value.source == o.source && r.value.capture == o.capture
    ensures r.Ok? ==> r.value.http == o.http && r.value.localnets == o.localnets
    ensures r.Ok? ==> r.value.files == o.files.(chrootDir := Some(o.files.chrootDir.GetOr(chrootDefault)),
                                                privdropUser := Some(o.files.privdropUser.GetOr(userDefault)))
    ensures r.Ok? ==> var (l, n) := (o.limits, r.value.limits);
      && n == l.(hostsKeep := n.hostsKeep, portsKeep := n.portsKeep)
      && (n.hostsMax != 0 ==> n.hostsKeep < n.hostsMax)
      && (n.portsMax != 0 ==> n.portsKeep < n.portsMax)
      && (l.hostsMax == 0 || l.hostsKeep < l.hostsMax ==> n.hostsKeep == l.hostsKeep)
      && (l.portsMax == 0 || l.portsKeep < l.portsMax ==> n.portsKeep == l.portsKeep)
      && (l.hostsMax != 0 && l.hostsKeep >= l.hostsMax ==> n.hostsKeep == l.hostsMax / 2)
      && (l.portsMax != 0 && l.portsKeep >= l.portsMax ==> n.portsKeep == l.portsMax / 2)
    ensures r.Ok? ==> var (u, n) := (o.run, r.value.run);
      && n == u.(wantVerbose := n.wantVerbose, wantDaemonize := n.wantDaemonize)
      && (n.wantHexdump ==> n.wantVerbose && !n.wantDaemonize)
      && (!u.wantHexdump ==> n == u)
  {
    var files := o.files.(chrootDir := Some(o.files.chrootDir.GetOr(chrootDefault)),
                          privdropUser := Some(o.files.privdropUser.GetOr(userDefault)));
    if o.source.interface.None? && o.source.capfile.None? then Err(NoSource)
    else if o.source.interface.Some? && o.source.capfile.Some? then Err(BothSources)
    else
      var lim := o.limits;
      var lim := if lim.hostsMax != 0 && lim.hostsKeep >= lim.hostsMax then lim.(hostsKeep := lim.hostsMax / 2) else lim;
      var lim := if lim.portsMax != 0 && lim.portsKeep >= lim.portsMax then lim.(portsKeep := lim.portsMax / 2) else lim;
      var run := if o.run.wantHexdump then o.run.(wantVerbose := true, wantDaemonize := false) else o.run;
      Ok(o.(files := files, limits := lim, run := run))
  }

  /**
    `parse_cmdline` on the arguments after the program name.  `chrootDefault`
    and `userDefault` are the build-time CHROOT_DIR and PRIVDROP_USER.
  */
  function ParseCmdline(args: seq<string>, chrootDefault: string, userDefault: string): (r: Cmdline)
    ensures |args| == 0 <==> r == Fail(NoArguments)
    ensures r.Run? <==> && ParseSub(args, Initial).Ok?
                        && ParseSub(args, Initial).value.opts.run.wantHelp == 0
                        && (ParseSub(args, Initial).value.opts.source.interface.Some?
                            != ParseSub(args, Initial).value.opts.source.capfile.Some?)
    ensures r.Run? ==> Normalize(ParseSub(args, Initial).value.opts, chrootDefault, userDefault) == Ok(r.opts)
    ensures |args| > 0 && ParseSub(args, Initial).Err? ==> r == Fail(ParseSub(args, Initial).error)
    ensures r.Usage? <==> |args| > 0 && ParseSub(args, Initial).Ok? && ParseSub(args, Initial).value.opts.run.wantHelp != 0
    ensures r.Run? ==> ParseSub(args, Initial).Ok? && ParseSub(args, Initial).value.opts.run.wantHelp == 0
    ensures r.Usage? ==> ParseSub(args, Initial).Ok? && ParseSub(args, Initial).value.opts.run.wantHelp != 0
    ensures r.Usage? ==> (r.full <==> ParseSub(args, Initial).value.opts.run.wantHelp == 1)
    ensures r.Run? ==> (r.opts.source.interface.Some? != r.opts.source.capfile.Some?)
    ensures r.Run? ==> r.opts.files.chrootDir.Some? && r.opts.files.privdropUser.Some?
    ensures r.Run? ==> (r.opts.limits.hostsMax != 0 ==> r.opts.limits.hostsKeep < r.opts.limits.hostsMax)
    ensures r.Run? ==> (r.opts.limits.portsMax != 0 ==> r.opts.limits.portsKeep < r.opts.limits.portsMax)
    ensures r.Run? ==> (r.opts.run.wantHexdump ==> r.opts.run.wantVerbose && !r.opts.run.wantDaemonize)
    ensures r.Run? ==> r.opts.http.bindport < 0x1_0000
  {
    if |args| < 1 then Fail(NoArguments)
    else
      match ParseSub(args, Initial)
      case Err(e) => Fail(e)
      case Ok(st) =>
        if st.opts.run.wantHelp != 0 then Usage(st.opts.run.wantHelp == 1)
        else match Normalize(st.opts, chrootDefault, userDefault)
          case Err(e) => Fail(e)
          case Ok(o) => Run(o)
  }

  /** `-p` accepts 65536, which the conversion to `unsigned short` turns into port 0. */
  lemma PortWrapsToZero(o: Options)
    ensures ParseNum("65536", 65536) == Ok(65536)
    ensures Apply(CbPort, "65536", o).Ok?
    ensures Apply(CbPort, "65536", o).value.http.bindport == 0
  {
    PortBoundParses();
    assert Numeric(CbPort) && NumberMax(CbPort) == 65536;
  }

  lemma PortBoundParses()
    ensures ParseNum("65536", 65536) == Ok(65536)
  {
    DecimalOfPortBound();
    ParseNumDecimal(65536, 65536);
  }

  lemma DecimalOfPortBound()
    ensures Decimal(65536) == "65536"
  {
    assert Decimal(6) == "6";
    assert Decimal(65) == "65";
    assert Decimal(655) == "655";
    assert Decimal(6553) == "6553";
  }
}
