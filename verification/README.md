# darkstat core, modelled in Dafny

darkstat is a network traffic analyser. It captures packets on one
interface, or replays a capture file, and keeps per-host statistics that a
small built-in web server shows. This project models darkstat's control core:

- the command-line parser and its option table;
- the life cycle of the process: startup, the `select`-driven main loop,
  signal-driven reset, export and shutdown, and the orderly teardown;
- the capture layer in `cap.c`: opening and configuring the capture, the
  per-iteration readiness contribution, the drain loop, the statistics
  refresh and the capture-file replay.

The model is pure: every operation is a function, or a method with a loop,
over immutable datatypes.

Modules, one per file:

- `Results` (`results.dfy`) — `Result` and `Option`, used for every error path.
- `Numbers` (`numbers.dfy`) — `strtoul` in base 10 and `parsenum`, and the C
  casts the parsed numbers go through. The model takes glibc on an LP64
  machine: leading white space, an optional sign, digits, clamping to
  `ULONG_MAX` with a range error, and negation modulo 2^64.
- `Cmdline` (`cmdline.dfy`) — the options as grouped records, the 30-row
  option table, each callback, the recursive `parse_sub_cmdline` walk, and
  `parse_cmdline`'s defaults and sanity checks. Every `errx`/`exit` becomes an
  `Err` or a `Usage` result. A second reading of the command line, `Fold` over
  `Tokenize`, runs the callbacks left to right. It is proved equivalent to the
  recursive walk.
- `Capture` (`capture.dfy`) — `cap_init`, `cap_from_file`, `cap_fd_set`,
  `cap_stats_update` and `cap_poll`. Whatever libpcap answers (open success,
  link type, filter compile/install, dispatch counts, statistics) is a
  parameter. The link-header registry `getlinkhdr`/`getcaplen` is a map from
  link type to header.
- `Signals` (`signals.dfy`) — the three flags, the three handlers and which
  signal installs which, and delivery of a burst of signals.
- `Trace` (`trace.dfy`) — the collaborators' side effects (`dns_init`,
  `http_poll`, `db_export`, …) as a trace of `Effect`s. It also holds the
  `Precedes` and `Count` vocabulary used to state ordering.
- `EventLoop` (`eventloop.dfy`) — one iteration of `while (running)`, the
  handling of `select`'s result, and the loop over a script of ticks. Each tick
  is what `select` returned, whether the web server asked for a timeout, and
  the signals delivered before the next test of `running`.
- `Lifecycle` (`lifecycle.dfy`) — `main` after `parse_cmdline`: the
  capture-file mode (`run_from_capfile`), the live startup sequence, the loop
  and the shutdown sequence.

Facts of the code that the model keeps as they are:

- `cap_stats_update` copies whatever `pcap_stats` reports into the two
  counters (`cap.c:209-210`). When that call fails it returns early and the
  old values stay (`cap.c:204-207`). `Capture.StatsAfterIsLastReport` states
  exactly this. It does not claim the counters only grow, because nothing in
  the code makes them.
- `dns_stop` is called on every shutdown (`darkstat.c:492`), without the
  `opt_want_dns` test that guards `dns_init` (`darkstat.c:415`).
- `cb_export` rejects the option only when neither a chroot nor a capture
  file was given (`darkstat.c:148`). So `--export` after `-r` needs no
  `--chroot`.
- The handlers only set or clear a flag (`darkstat.c:44-54`). The loop tests
  and clears those flags at `darkstat.c:449-459`. The model delivers signals
  between iterations only (see Left out).

## Model

| member | source | states |
|---|---|---|
| Numbers.Strtoul | darkstat.c:63-64 | the conversion stops inside the string and never exceeds ULONG_MAX; with no digits it converts nothing, gives 0 and raises no range error; otherwise it stops right after a digit |
| Numbers.StrtoulMeaning | darkstat.c:63-64 | for every numeral (white space, an optional sign, a maximal run of digits) the conversion ends exactly after its digits, raises a range error exactly when the digits exceed ULONG_MAX, and gives ULONG_MAX then or else the value, negated modulo 2^64 after a minus; whenever it converts something, such a numeral ends where it stopped |
| Numbers.StrtoulOfDigits | darkstat.c:64 | on a string of digits the whole string is consumed; the value is the number the digits denote, or ULONG_MAX with a range error when that number does not fit |
| Numbers.ParseNum | darkstat.c:57-72 | an accepted number fits in an unsigned long and respects a non-zero maximum; an accepted non-empty string ends in a digit; the empty string is accepted as 0 |
| Numbers.ParseNumMeaning | darkstat.c:57-72 | a string that is a single numeral is accepted exactly when its digits fit in an unsigned long and its value respects a non-zero maximum, and then parses to that value; digits that do not fit give an out-of-range error; "not a number" is the answer exactly for a non-empty string that is not a numeral up to its end |
| Numbers.ParseNumDecimal | darkstat.c:57-72 | round trip: every number that fits and respects the maximum, written in decimal, is parsed back to itself |
| Numbers.ParseNumRejectsTrailing | darkstat.c:65-66 | a number followed by any non-digit character is rejected |
| Numbers.ParseNumOverflow | darkstat.c:67-68 | a decimal number above ULONG_MAX is rejected as out of range, whatever the maximum |
| Numbers.ParseNumNegative | darkstat.c:63-71 | a minus sign is accepted and the value wraps to 2^64 - n, so "-1" with no maximum gives ULONG_MAX |
| Numbers.ToUShort | darkstat.c:110 | the stored port is below 2^16 and equals the parsed value whenever that value fits |
| Numbers.ToUInt | darkstat.c:165-183 | the stored limit is below 2^32 and equals the parsed value whenever that value fits |
| Numbers.ToInt | darkstat.c:185-187 | the stored int lies in the 32-bit signed range and equals the parsed value whenever that value fits |
| Cmdline.FindRowMeaning | darkstat.c:277-278 | the scan returns the first row at or after the start whose name is the token, and returns nothing exactly when no row from there on has that name |
| Cmdline.LookupMeaning | darkstat.c:277-278 | a token selects the first row of the option table with its name, the selected row carries that name, and no row is selected exactly when no row has it |
| Cmdline.NumberArg | darkstat.c:57-72 | a numeric argument is accepted exactly when `parsenum` accepts it, with the same value, within the row's maximum; a rejection carries `parsenum`'s own error |
| Cmdline.SetNumber | darkstat.c:81-187 | each numeric callback stores its number in its own field, cast as the C code casts it: the port modulo 2^16, snap length and wait seconds as a 32-bit `int`, the limits modulo 2^32. No other field changes |
| Cmdline.SetText | darkstat.c:74-163 | the daylog, import and pid file are accepted exactly when a chroot was already given; the export exactly when a chroot or a capture file was; the only failure is that missing chroot; only `--chroot` changes the chroot and only `-r` the capture file; no text option touches the port or the limits |
| Cmdline.SetTextSources | darkstat.c:75-117 | `-i`, `-r` and `-f` store their argument in their own field; `-b` and `-l` append it to their list; nothing else changes |
| Cmdline.SetTextCaptureFlags | darkstat.c:85-103 | `--pppoe` turns PPPoE on, `--no-promisc` turns promiscuous mode off and `--no-macs` turns MAC display off, changing nothing else |
| Cmdline.SetTextRunFlags | darkstat.c:88-197 | each unary run option sets exactly its own flag: syslog, verbose and hex dump on; daemonising, DNS and last-seen off; `--version` and `--help` select the short and the full usage |
| Cmdline.SetTextPrivilege | darkstat.c:120-123 | `--chroot` and `--user` store their argument in their own field and change nothing else |
| Cmdline.SetTextFiles | darkstat.c:126-163 | an accepted `--daylog`, `--import`, `--export` or `--pidfile` stores its file name in its own field and changes nothing else |
| Cmdline.Apply | darkstat.c:74-197 | a numeric option succeeds exactly when `parsenum` accepts its argument against the row's maximum, and then stores that value; a rejection is that number error; any other option does what its text callback does |
| Cmdline.Step | darkstat.c:276-303 | an unknown token is illegal; a row needing a parameter with none left fails; a row already seen fails; a successful step consumes one or two tokens and records the row unless it is `-b` |
| Cmdline.ParseSub | darkstat.c:271-310 | the walk never reports "no arguments" and keeps the port 16-bit |
| Cmdline.ParseSubMatchesFold | darkstat.c:271-310 | the recursive walk succeeds exactly when the arguments tokenize, no row other than `-b` occurs twice, and the callbacks run left to right succeed; the resulting options are the same |
| Cmdline.RepeatRejected | darkstat.c:286-292 | any option other than `-b` given twice makes parsing fail |
| Cmdline.BindaddrRepeats | darkstat.c:294-295 | any number of `-b` options is accepted, and the addresses are passed on in the order given |
| Cmdline.FoldNeedsEarlierChroot | darkstat.c:125-163 | when the callbacks succeed from a state without a chroot, every daylog, import or pid file option is preceded by a `--chroot` |
| Cmdline.FoldExportNeedsEarlierChrootOrCapfile | darkstat.c:145-153 | when the callbacks succeed from a state with neither, every `--export` is preceded by a `--chroot` or a `-r` |
| Cmdline.ChrootMustComeFirst | darkstat.c:125-163 | on a command line that parses, every daylog, import or pid file option comes after a `--chroot` |
| Cmdline.ExportMustComeAfterChrootOrCapfile | darkstat.c:145-153 | on a command line that parses, every `--export` comes after a `--chroot` or a `-r` |
| Cmdline.Normalize | darkstat.c:331-366 | it succeeds exactly when one of interface and capture file is given, and otherwise names the missing or doubled source. Chroot and user get their defaults. A keep limit at or above a non-zero max drops to half the max, and any other keep limit is unchanged. A hex dump forces verbose and no-daemon. Nothing else changes |
| Cmdline.ParseCmdline | darkstat.c:312-367 | no arguments fails. A walk error is the result. The result is a run exactly when the walk succeeds, asks for no help and names exactly one source, and the run's options are the walk's options after the sanity checks. It is a usage exactly when the walk asks for help, and the full form exactly for `--help`. A run has a chroot and a user, keep limits under their maxima, hex dump implying verbose and foreground, and a 16-bit port |
| Cmdline.PortWrapsToZero | darkstat.c:108-110 | `-p 65536` passes the bound check and then wraps to port 0 in the unsigned short |
| Capture.ResolveLinkhdr | cap.c:77-81 | a link type resolves exactly when the registry knows it and has a handler for it; otherwise it fails as unknown or as lacking a handler |
| Capture.InstallFilter | cap.c:113-132 | without a filter nothing can fail; with one, it succeeds exactly when it both compiles and installs |
| Capture.CapInit | cap.c:51-132 | errors come in the code's order: open, unknown link type, no handler, PPPoE on non-Ethernet. On success the snap length is the link header length plus 8 exactly when PPPoE is wanted, and MAC addresses are shown exactly for Ethernet with MACs wanted. Success holds exactly when both opens, the link type, the PPPoE check and the filter succeed |
| Capture.CapFromFile | cap.c:274-330 | the same open and link-type errors as live capture. A replay succeeds exactly when the open, the link type and the filter succeed and dispatch returns a non-negative count. A negative count is a dispatch failure. On success it reports that count, the link header from the registry, and MAC addresses exactly for Ethernet |
| Capture.LinktypeCheckSharedByBothModes | cap.c:290-296 | with the library succeeding otherwise, live capture and file replay accept the same link types, fail with the same error and resolve the same header |
| Capture.CapFdSet | cap.c:168-195 | on Linux a 500 ms timeout is requested and the descriptor sets are untouched; elsewhere the capture descriptor joins the read set and the maximum descriptor covers it |
| Capture.ReadinessModesExclusive | cap.c:181-194 | the capture is either waited for by timeout or by descriptor, never both and never neither, and on BSD `select`'s first argument covers every descriptor |
| Capture.CapStatsUpdate | cap.c:199-211 | a statistics report replaces both counters; a failed report leaves them unchanged |
| Capture.StatsAfterIsLastReport | cap.c:199-211 | after any number of refreshes the counters are those of the last successful report, or the initial ones if none succeeded |
| Capture.CapPoll | cap.c:217-265 | a poll is premature exactly on BSD with the descriptor not ready, and every other poll refreshes the local address first. Linux dispatches until a dispatch returns 0, and BSD dispatches once. A failed dispatch ends the poll without refreshing the statistics. The total is the sum of the counts dispatched |
| Signals.HandlerFor | darkstat.c:430-437 | SIGTERM and SIGINT request shutdown, SIGUSR1 a reset, SIGUSR2 an export, and nothing else does |
| Signals.RunHandler | darkstat.c:44-54 | shutdown only clears `running`; reset sets both reset and export pending; export sets only export pending; no handler clears a pending flag |
| Signals.DeliverIdempotent | darkstat.c:44-54 | delivering the same signal twice has the effect of delivering it once |
| Signals.DeliverCommutes | darkstat.c:44-54 | the order in which two signals arrive does not matter |
| Signals.DeliverAllCoalesces | darkstat.c:44-54 | after a burst, the process keeps running exactly when no SIGTERM or SIGINT came, a reset is pending exactly when a SIGUSR1 came, and an export exactly when a SIGUSR1 or SIGUSR2 came |
| Signals.DeliverAllOrderFree | darkstat.c:44-54 | two bursts with the same signals, in any order and multiplicity, leave the same flags |
| EventLoop.ConsumeFlags | darkstat.c:449-459 | an iteration clears both pending requests and never touches `running` |
| EventLoop.FlagEffects | darkstat.c:449-459 | the export runs exactly when one is pending and a file is named; the hosts and graph resets run exactly when a reset is pending; each runs at most once; the hosts reset comes before the graph reset, and an export before the reset it accompanies |
| EventLoop.SelectStatus | darkstat.c:467-484 | a zero return is fatal exactly when nobody asked for a timeout; -1 restarts the iteration on EINTR and is fatal otherwise; everything else runs the polls |
| EventLoop.Iterate | darkstat.c:442-485 | an iteration clears both pending flags and keeps `running`. It polls exactly when `select` returned a positive count, or zero with a timeout requested (always on Linux, where `cap_fd_set` asks for one, and otherwise when the web server did). It restarts exactly on EINTR. It is fatal exactly on another error or on zero without a timeout. Its trace holds loop effects only |
| EventLoop.IterateTrace | darkstat.c:449-484 | in one iteration the export runs exactly when pending with a file named, and the resets exactly when a reset is pending. The flag work comes first in order, then `cap_fd_set`, `http_fd_set` and `select`. When the iteration polled, the graph rotation and the capture, DNS and HTTP polls follow in that order. Each poll runs once if it polled and never otherwise |
| EventLoop.Loop | darkstat.c:442-485 | the loop stops cleanly exactly when `running` was cleared; it never polls more often than it iterates; a loop entered with `running` cleared does nothing |
| EventLoop.ShutdownStopsLoop | darkstat.c:442-485 | a SIGTERM or SIGINT after iteration k stops the loop within k + 1 iterations, unless `select` killed the program first |
| EventLoop.StopNeedsShutdown | darkstat.c:442-485 | a loop started running stops cleanly only if some tick delivered SIGTERM or SIGINT |
| EventLoop.LoopPollCounts | darkstat.c:479-484 | over a whole run, each poll appears in the trace exactly once per polling iteration |
| Lifecycle.ExportEffect | darkstat.c:493 | the export step is present exactly when an export file is named; it is the only step, and the sequence is empty exactly when no file is named |
| Lifecycle.RunFromCapfile | darkstat.c:369-385 | capture-file mode sets up graphs and hosts and then replays. It exits 0 exactly when the replay succeeds and exits 1 right after a failed replay. On success it exports when a file is named. It never daemonises, drops privileges, serves HTTP, installs handlers or waits in `select` |
| Lifecycle.CapfileTeardown | darkstat.c:376-379 | after a replay the capture is stopped first, the hosts table and the graphs are freed last, the export is written exactly when a file is named, and nothing done is live-mode only |
| Lifecycle.CapfileTeardownOrder | darkstat.c:376-379 | after a replay every other step follows `cap_stop`, and the export precedes both frees |
| Lifecycle.PreCapture | darkstat.c:405-415 | before the capture opens only the pid file, daemonising and DNS happen, and DNS starts exactly when it is wanted |
| Lifecycle.Startup | darkstat.c:403-440 | every startup step is one of the pid file, daemonising, DNS, capture, web server, name cache, privilege drop, setup and handler steps, so startup never polls, waits in `select` or tears anything down |
| Lifecycle.Frees | darkstat.c:494-498 | the teardown starts by freeing the hosts table; the daylog is freed exactly when one is kept, and the pid file is removed exactly when one was written, last |
| Lifecycle.FreeOrder | darkstat.c:494-498 | the hosts table is freed before the graphs, the graphs before the name cache, the daylog between them when kept, and the name cache before the pid file is removed |
| Lifecycle.Shutdown | darkstat.c:490-498 | shutdown consists only of teardown steps and the export |
| Lifecycle.LoopExit | darkstat.c:442-500 | exit status 0 exactly for a clean stop, 1 exactly for a fatal `select` error |
| Lifecycle.LiveTrace | darkstat.c:440-500 | a loop that stopped cleanly is followed by the complete shutdown sequence, which ends the trace |
| Lifecycle.LiveMain | darkstat.c:403-500 | a live run that exits 0 ends with the complete shutdown sequence |
| Lifecycle.Main | darkstat.c:388-501 | with a capture file, `main` is the capture-file run. A live run that exits 0 ends with the complete shutdown sequence |
| Lifecycle.AcquireOrder | darkstat.c:415-428 | DNS starts before the capture opens when wanted, the capture before the web server listens, the web server before the name cache. Every step before the privilege drop precedes it, and every step after it follows it, including the graph, hosts and local-address setup |
| Lifecycle.HandlerOrder | darkstat.c:420-440 | every signal handler the startup installs comes after privileges are dropped and before daemonising finishes |
| Lifecycle.StartupMembers | darkstat.c:420-437 | every startup drops privileges and installs all four handlers |
| Lifecycle.ShutdownOrder | darkstat.c:490-498 | the web server stops, then the capture, then DNS, always. Every stop precedes every other shutdown step, the export precedes every free, and the pid file is removed last when one was written |
| Lifecycle.LiveRun | darkstat.c:403-500 | a live run whose capture fails to open exits 1 right after the attempt. Otherwise the trace starts with the complete startup. A run that does not exit 0 performs no teardown step |
| Lifecycle.LiveExit | darkstat.c:442-500 | once the capture opened, a live run exits 0 exactly when the loop stopped cleanly, 1 exactly when `select` failed fatally, and is still running exactly when the ticks ran out |
| Lifecycle.HandlersBeforeLoop | darkstat.c:403-467 | whenever `select` runs, every startup step came before it, so privileges were dropped and all four handlers installed |
| Lifecycle.EarlyShutdown | darkstat.c:430-500 | a SIGTERM or SIGINT delivered after the handlers are installed and before the loop's first test of `running` skips the loop: the trace is the startup then the shutdown, and the exit status is 0 |
| Lifecycle.CapfileModeSkipsLiveMode | darkstat.c:394-401 | capture-file mode always terminates and never performs a live-mode action |
| Lifecycle.CapInitFailureIsFatal | darkstat.c:416 | a capture that cannot be opened ends the program with status 1 before the web server, the privilege drop or the loop |

## Left out

- libpcap itself, `select`, `fork`, `ioctl` and signal delivery are outside the model. What they answer is a parameter: `LiveEnv`, `FileEnv`, the dispatch script, `SelectReturn` and the signals in each `Tick`.
- Signals are delivered only between iterations and before the first test of `running`. A signal racing with a flag's test and clear inside one iteration is not modelled.
- Lifecycle.EarlyShutdown: a signal that arrives before `darkstat.c:430-437` installs the handlers takes its default action and kills the process. That case is not modelled. The lemma covers only signals delivered after the handlers are installed.
- The collaborators (`dns_*`, `http_*`, `hosts_db_*`, `graph_*`, `daylog_*`, `ncache_*`, `db_import`, `db_export`, `localip_*`, `pidfile_*`, `daemonize_*`, `privdrop`) are recorded as trace effects only. Their own behaviour lives in other files, which are not part of this model.
- `-l` (`acct_init_localnet`) records the argument string; parsing networks and masks is not part of this model. `-b` likewise records the address that `http_add_bindaddr` would receive.
- `usage`, `verbosef`, `warnx`, `syslog`/`openlog` and the packet counts printed at shutdown are output only and are left out. `usage`'s two forms appear as `Usage(full)`.
- `test_64order` and the `signal(...) == SIG_ERR` exits are left out. `signal` is taken to succeed.
- `CHROOT_DIR` and `PRIVDROP_USER` come from the build configuration, so they are parameters of `ParseCmdline`.
- `getlinkhdr`/`getcaplen` are defined in the decoder, so they are the `Registry` parameter.
- Capture.CapInit: the first, throw-away open uses snap length 1 and no promiscuous mode. The model keeps only its success or failure.
- Capture.CapInit: the non-blocking and BPF lock-down `ioctl`s are left out, and the model takes them to succeed.
- Capture.CapInit reads globals named `want_pppoe` and `want_macs`, while the option parser sets `opt_want_pppoe` and `opt_want_macs`. The model passes the parsed options through as if those were the same variables. `--snaplen` is parsed and stored, but `cap_init` never reads it, and the model does not use it either.
- Capture.CapPoll: `total` is a C `int` and could overflow on an enormous burst. The model keeps the unbounded sum. Printing `total` in verbose mode is left out.
- Capture.CapPoll: on Linux the dispatch script must eventually return 0 or a negative count, because the C loop does not stop otherwise. That is its only precondition.
- EventLoop.Loop runs over a finite script of ticks. A run that is still going when the script ends reports `Horizon`, which `Lifecycle.LoopExit` maps to `StillRunning`.
- `now = time(NULL)` and the clock are left out. Nothing in the core decides on them.
