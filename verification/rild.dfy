/** rild's startup sequence: which radio-interface library `main` loads, the
    argument vector it hands to `RIL_Init`, and the order of the privileged
    steps around the load. The operating system is turned into inputs: the
    command line, the two properties, the kernel command line, the socket
    probes and the outcomes of `dlopen` and `dlsym`. */
module Rild {
  import opened CStrings
  import opened Tokenizer
  import opened CommandLine
  import opened KernelCmdline

  const RIL_INIT_SYMBOL: string := "RIL_Init"

  /** The status of `exit(-1)`. */
  const EXIT_STATUS: int := -1

  /** `argv[0]` and the tokens after it. */
  datatype Invocation = Invocation(argv0: string, args: seq<string>)

  /** Everything `main` learns from outside the process. */
  datatype Env = Env(
    libPathProp: Option<string>,   // `rild.libpath`, None when unset
    libArgsProp: Option<string>,   // `rild.libargs`, None when unset
    cmdline: Option<string>,       // `/proc/cmdline`, None when open or read fails
    probes: seq<bool>,             // qemud socket connection results, one per attempt
    dlopenOk: bool,                // `dlopen` returns a handle
    hasRilInit: bool)              // `dlsym(handle, "RIL_Init")` is not NULL

  /** `property_get`: an unset property reads as the empty string. */
  function PropertyValue(p: Option<string>): string {
    p.GetOr("")
  }

  /** Where the library's argument vector comes from. */
  datatype ArgSource =
    | CliArgs(rest: seq<string>)                 // the tokens after `--`
    | OverrideArgv(slots: seq<Option<string>>)   // `arg_overrides`
    | PropertyArgs                               // `make_argv` on `rild.libargs`

  /** The decision `main` reaches before any privileged step. */
  datatype Resolution =
    | UsageRequired
    | Unconfigured
    | TransportMissing(attempts: seq<bool>)
    | Locator(path: string, source: ArgSource, attempts: seq<bool>)

  /** The library path the command line or, failing that, `rild.libpath` names;
      None when neither does (an empty property counts as unset). */
  function ConfiguredPath(scan: Scan, env: Env): (p: Option<string>)
    requires scan.Parsed?
    ensures p.None? <==> scan.libPath.None? && PropertyValue(env.libPathProp) == ""
    ensures scan.libPath.Some? ==> p == scan.libPath
    ensures scan.libPath.None? && p.Some? ==> p == env.libPathProp && p.value != ""
  {
    if scan.libPath.Some? then scan.libPath
    else if PropertyValue(env.libPathProp) == "" then None
    else Some(PropertyValue(env.libPathProp))
  }

  /** The resolver: command line, then `rild.libpath`, then the kernel-option
      override, which takes precedence over both whenever it applies. */
  function Resolve(inv: Invocation, env: Env): (r: Resolution)
    ensures r.UsageRequired? <==> ScanArgs(inv.args).Usage?
    ensures r.Unconfigured? <==>
              ScanArgs(inv.args).Parsed? && ConfiguredPath(ScanArgs(inv.args), env).None?
    ensures r.TransportMissing? || r.Locator? ==>
              ScanArgs(inv.args).Parsed? && ConfiguredPath(ScanArgs(inv.args), env).Some?
    ensures r.TransportMissing? <==>
              (r.TransportMissing? || r.Locator?) && KernelOverride(env.cmdline, env.probes).GiveUp?
    ensures r.Locator? && KernelOverride(env.cmdline, env.probes).Replaces() ==>
              r.path == REFERENCE_RIL_PATH
              && r.source == OverrideArgv(OverrideArgs(KernelOverride(env.cmdline, env.probes)))
    ensures r.Locator? && !KernelOverride(env.cmdline, env.probes).Replaces() ==>
              r.path == ConfiguredPath(ScanArgs(inv.args), env).value
              && r.attempts == []
              && r.source == match ScanArgs(inv.args).libArgs
                             case Some(rest) => CliArgs(rest)
                             case None => PropertyArgs
    ensures r.Locator? && r.source.OverrideArgv? ==> |r.source.slots| == 3
    ensures r.TransportMissing? || r.Locator? ==> |r.attempts| <= QEMUD_TRIES
    ensures r.TransportMissing? || r.Locator? ==>
              r.attempts == match KernelOverride(env.cmdline, env.probes)
                            case Emulator(made) => made
                            case GiveUp(made) => made
                            case _ => []
  {
    var scan := ScanArgs(inv.args);
    if scan.Usage? then UsageRequired
    else match ConfiguredPath(scan, env)
      case None => Unconfigured
      case Some(path) =>
        var o := KernelOverride(env.cmdline, env.probes);
        match o
        case GiveUp(made) => TransportMissing(made)
        case Emulator(made) => Locator(REFERENCE_RIL_PATH, OverrideArgv(OverrideArgs(o)), made)
        case Device(_) => Locator(REFERENCE_RIL_PATH, OverrideArgv(OverrideArgs(o)), [])
        case Keep =>
          Locator(path, if scan.libArgs.Some? then CliArgs(scan.libArgs.value) else PropertyArgs, [])
  }

  /** Overwriting slot 0 of a vector keeps the rest of it. */
  lemma ReplaceHead(x: Option<string>, y: Option<string>, rest: seq<Option<string>>)
    ensures ([x] + rest)[0 := y] == [y] + rest
  {
  }

  /** The argument vector passed to `RIL_Init`. `rilArgv` is `argv + i - 1`
      (whose slot 0 holds the `--` token, or is `arg_overrides[0]`) or the
      vector `make_argv` filled; then slot 0 is overwritten with `main`'s
      `argv[0]`, which after an override is `arg_overrides[0]` itself, still NULL. */
  function LibraryArgv(inv: Invocation, source: ArgSource, libArgs: string): (argv: seq<Option<string>>)
    requires source.OverrideArgv? ==> |source.slots| >= 1
    requires source.PropertyArgs? ==> |Tokens(libArgs)| < MAX_LIB_ARGS
    ensures source.CliArgs? ==> argv == [Some(inv.argv0)] + Present(source.rest)
    ensures source.OverrideArgv? ==> argv == source.slots
    ensures source.PropertyArgs? ==> argv == [Some(inv.argv0)] + Present(Tokens(libArgs))
    ensures source.PropertyArgs? ==> |argv| <= MAX_LIB_ARGS
  {
    match source
    case CliArgs(rest) =>
      ReplaceHead(Some(ARGS_SEPARATOR), Some(inv.argv0), Present(rest));
      ([Some(ARGS_SEPARATOR)] + Present(rest))[0 := Some(inv.argv0)]
    case OverrideArgv(slots) =>
      slots[0 := slots[0]]
    case PropertyArgs =>
      ReplaceHead(None, Some(inv.argv0), Present(Tokens(libArgs)));
      MakeArgvSlots(libArgs)[0 := Some(inv.argv0)]
  }

  /** The observable steps of a run, in the order they happen. Each `Probe` is
      one `sleep(1)` followed by one connection attempt on the qemud socket. */
  datatype Effect =
    | Probe(connected: bool)
    | SwitchUser
    | DlOpen(path: string)
    | StartEventLoop
    | DlSym(symbol: string)
    | Init(argc: nat, argv: seq<Option<string>>)
    | Register
    | Exit(status: int)
    | Park

  /** How a run ends. */
  datatype Outcome =
    | UsageError                                    // usage printed, exit(-1)
    | NoModule                                      // no library configured: park
    | ParkedNoTransport                             // qemud socket never appeared: park
    | LoadFailed(path: string)                      // dlopen failed: exit(-1)
    | InitMissing(path: string)                     // no RIL_Init: exit(-1)
    | Load(path: string, argv: seq<Option<string>>) // RIL_Init called, result registered

  datatype Execution = Execution(outcome: Outcome, trace: seq<Effect>)

  function ProbeEffects(made: seq<bool>): (t: seq<Effect>)
    ensures |t| == |made|
    ensures forall k :: 0 <= k < |made| ==> t[k] == Probe(made[k])
  {
    seq(|made|, k requires 0 <= k < |made| => Probe(made[k]))
  }

  /** Privileges are dropped before any library code is loaded. */
  predicate SwitchUserBeforeDlOpen(t: seq<Effect>) {
    forall j :: 0 <= j < |t| && t[j].DlOpen? ==> exists i :: 0 <= i < j && t[i] == SwitchUser
  }

  /** The event loop runs before the library is initialised. */
  predicate EventLoopBeforeInit(t: seq<Effect>) {
    forall j :: 0 <= j < |t| && t[j].Init? ==> exists i :: 0 <= i < j && t[i] == StartEventLoop
  }

  /** `RIL_Init` is called at most once, and its result is registered right away. */
  predicate InitOnceThenRegister(t: seq<Effect>) {
    forall j :: 0 <= j < |t| && t[j].Init? ==>
      j + 1 < |t| && t[j + 1] == Register
      && forall i :: 0 <= i < |t| && i != j ==> !t[i].Init?
  }

  /** Socket probes form a prefix of at most five steps. */
  predicate ProbesFirst(t: seq<Effect>) {
    forall j :: 0 <= j < |t| && t[j].Probe? ==>
      j < QEMUD_TRIES && forall i :: 0 <= i < j ==> t[i].Probe?
  }

  /** The run ends in exactly one park or exit, as its last step. */
  predicate EndsOnce(t: seq<Effect>) {
    && |t| >= 1
    && (t[|t| - 1] == Park || t[|t| - 1].Exit?)
    && forall j :: 0 <= j < |t| - 1 ==> t[j] != Park && !t[j].Exit?
  }

  /** The ordering every run keeps. */
  predicate WellOrdered(t: seq<Effect>) {
    && SwitchUserBeforeDlOpen(t)
    && EventLoopBeforeInit(t)
    && InitOnceThenRegister(t)
    && ProbesFirst(t)
    && EndsOnce(t)
  }

  /** Nothing privileged and nothing of the library happens. */
  predicate NoLoad(t: seq<Effect>) {
    forall j :: 0 <= j < |t| ==> t[j] != SwitchUser && !t[j].DlOpen? && !t[j].Init?
  }

  predicate HasInit(t: seq<Effect>) {
    exists j :: 0 <= j < |t| && t[j].Init?
  }

  /** The steps of a run that resolved a library: the probes, the privilege
      drop, the load, the event loop, the symbol lookup, the call to `RIL_Init`
      and the registration, as far as the injected results let it get. */
  function LoadTrace(made: seq<bool>, path: string, env: Env, argv: seq<Option<string>>): seq<Effect> {
    ProbeEffects(made) + [SwitchUser, DlOpen(path)]
    + if !env.dlopenOk then [Exit(EXIT_STATUS)]
      else [StartEventLoop, DlSym(RIL_INIT_SYMBOL)]
           + if !env.hasRilInit then [Exit(EXIT_STATUS)]
             else [Init(|argv|, argv), Register, Park]
  }

  /** Position by position, what a load trace holds. */
  lemma LoadTraceAt(made: seq<bool>, path: string, env: Env, argv: seq<Option<string>>)
    ensures var t := LoadTrace(made, path, env, argv);
            var n := |made|;
            && |t| == n + (if !env.dlopenOk then 3 else if !env.hasRilInit then 5 else 7)
            && (forall k :: 0 <= k < n ==> t[k] == Probe(made[k]))
            && t[n] == SwitchUser && t[n + 1] == DlOpen(path)
            && (!env.dlopenOk ==> t[n + 2] == Exit(EXIT_STATUS))
            && (env.dlopenOk ==> t[n + 2] == StartEventLoop && t[n + 3] == DlSym(RIL_INIT_SYMBOL))
            && (env.dlopenOk && !env.hasRilInit ==> t[n + 4] == Exit(EXIT_STATUS))
            && (env.dlopenOk && env.hasRilInit ==>
                  t[n + 4] == Init(|argv|, argv) && t[n + 5] == Register && t[n + 6] == Park)
  {
  }

  /** A load trace keeps the required order: probes first, the privilege drop
      before `dlopen`, the event loop before `RIL_Init`, `RIL_Init` at most once
      and directly followed by the registration, and one final park or exit.
      `RIL_Init` is reached exactly when both `dlopen` and `dlsym` succeed. */
  lemma {:induction false} LoadTraceOrdered(made: seq<bool>, path: string, env: Env, argv: seq<Option<string>>)
    requires |made| <= QEMUD_TRIES
    ensures WellOrdered(LoadTrace(made, path, env, argv))
    ensures HasInit(LoadTrace(made, path, env, argv)) <==> env.dlopenOk && env.hasRilInit
    ensures env.dlopenOk && env.hasRilInit ==> Init(|argv|, argv) in LoadTrace(made, path, env, argv)
    ensures !(env.dlopenOk && env.hasRilInit) ==>
              var t := LoadTrace(made, path, env, argv);
              t[|t| - 1] == Exit(EXIT_STATUS)
  {
    var t := LoadTrace(made, path, env, argv);
    var n := |made|;
    LoadTraceAt(made, path, env, argv);
    var init := env.dlopenOk && env.hasRilInit;
    forall j | 0 <= j < |t| && t[j].DlOpen?
      ensures exists i :: 0 <= i < j && t[i] == SwitchUser
    {
      assert j == n + 1;
      assert t[n] == SwitchUser;
    }
    forall j | 0 <= j < |t| && t[j].Init?
      ensures j == n + 4 && init
    {
    }
    forall j | 0 <= j < |t| && t[j].Init?
      ensures exists i :: 0 <= i < j && t[i] == StartEventLoop
    {
      assert t[n + 2] == StartEventLoop;
    }
    forall j | 0 <= j < |t| && t[j].Probe?
      ensures j < QEMUD_TRIES && forall i :: 0 <= i < j ==> t[i].Probe?
    {
      assert j < n;
    }
    assert EndsOnce(t);
    if init {
      assert t[n + 4].Init?;
    }
  }

  /** The run from the privilege drop on, once the library path and its
      argument vector are known: `dlopen` failing ends it, a missing `RIL_Init`
      ends it, otherwise `RIL_Init` gets `argv` and the process parks. */
  function Launch(made: seq<bool>, path: string, env: Env, argv: seq<Option<string>>): (e: Execution)
    requires |made| <= QEMUD_TRIES
    ensures e.outcome == LoadFailed(path) <==> !env.dlopenOk
    ensures e.outcome == InitMissing(path) <==> env.dlopenOk && !env.hasRilInit
    ensures e.outcome == Load(path, argv) <==> env.dlopenOk && env.hasRilInit
    ensures e.outcome.LoadFailed? ==>
              e.trace == ProbeEffects(made) + [SwitchUser, DlOpen(path), Exit(EXIT_STATUS)]
    ensures e.outcome.InitMissing? ==>
              e.trace == ProbeEffects(made) + [SwitchUser, DlOpen(path), StartEventLoop,
                                               DlSym(RIL_INIT_SYMBOL), Exit(EXIT_STATUS)]
    ensures e.outcome.Load? ==>
              e.trace == ProbeEffects(made) + [SwitchUser, DlOpen(path), StartEventLoop,
                                               DlSym(RIL_INIT_SYMBOL), Init(|argv|, argv), Register, Park]
    ensures WellOrdered(e.trace)
    ensures e.outcome.Load? <==> HasInit(e.trace)
    ensures e.outcome.Load? ==> Init(|argv|, argv) in e.trace
  {
    LoadTraceOrdered(made, path, env, argv);
    var outcome := if !env.dlopenOk then LoadFailed(path)
                   else if !env.hasRilInit then InitMissing(path)
                   else Load(path, argv);
    Execution(outcome, LoadTrace(made, path, env, argv))
  }

  /** The run gets as far as `make_argv`: the one place the 16-slot bound of
      `newArgv` matters. */
  predicate ReachesMakeArgv(inv: Invocation, env: Env) {
    var r := Resolve(inv, env);
    r.Locator? && r.source.PropertyArgs? && env.dlopenOk && env.hasRilInit
  }

  /** `rild.libargs` fits `newArgv` whenever the run splits it. */
  predicate ArgsFit(inv: Invocation, env: Env) {
    ReachesMakeArgv(inv, env) ==> |Tokens(PropertyValue(env.libArgsProp))| < MAX_LIB_ARGS
  }

  /** The run once the library and the source of its arguments are settled:
      the vector is only built after `dlopen` and `dlsym` have succeeded. */
  function LoadRun(inv: Invocation, env: Env, path: string, source: ArgSource, made: seq<bool>): (e: Execution)
    requires |made| <= QEMUD_TRIES
    requires source.OverrideArgv? ==> |source.slots| >= 1
    requires source.PropertyArgs? && env.dlopenOk && env.hasRilInit ==>
               |Tokens(PropertyValue(env.libArgsProp))| < MAX_LIB_ARGS
    ensures e.outcome == LoadFailed(path) <==> !env.dlopenOk
    ensures e.outcome == InitMissing(path) <==> env.dlopenOk && !env.hasRilInit
    ensures e.outcome.Load? <==> env.dlopenOk && env.hasRilInit
    ensures e.outcome.Load? ==> e.outcome.path == path
    ensures e.outcome.Load? && source.CliArgs? ==>
              e.outcome.argv == [Some(inv.argv0)] + Present(source.rest)
    ensures e.outcome.Load? && source.OverrideArgv? ==> e.outcome.argv == source.slots
    ensures e.outcome.Load? && source.PropertyArgs? ==>
              e.outcome.argv == [Some(inv.argv0)] + Present(Tokens(PropertyValue(env.libArgsProp)))
    ensures e.outcome.LoadFailed? ==>
              e.trace == ProbeEffects(made) + [SwitchUser, DlOpen(path), Exit(EXIT_STATUS)]
    ensures e.outcome.InitMissing? ==>
              e.trace == ProbeEffects(made) + [SwitchUser, DlOpen(path), StartEventLoop,
                                               DlSym(RIL_INIT_SYMBOL), Exit(EXIT_STATUS)]
    ensures e.outcome.Load? ==>
              e.trace == ProbeEffects(made) + [SwitchUser, DlOpen(path), StartEventLoop, DlSym(RIL_INIT_SYMBOL),
                                               Init(|e.outcome.argv|, e.outcome.argv), Register, Park]
    ensures WellOrdered(e.trace)
    ensures e.outcome.Load? <==> HasInit(e.trace)
    ensures e.outcome.Load? ==> Init(|e.outcome.argv|, e.outcome.argv) in e.trace
  {
    var argv := if env.dlopenOk && env.hasRilInit
                then LibraryArgv(inv, source, PropertyValue(env.libArgsProp)) else [];
    Launch(made, path, env, argv)
  }

  /** What the process does once `main` has reached its decision `r`. */
  function Execute(inv: Invocation, env: Env, r: Resolution): (e: Execution)
    requires r.TransportMissing? || r.Locator? ==> |r.attempts| <= QEMUD_TRIES
    requires r.Locator? && r.source.OverrideArgv? ==> |r.source.slots| >= 1
    requires r.Locator? && r.source.PropertyArgs? && env.dlopenOk && env.hasRilInit ==>
               |Tokens(PropertyValue(env.libArgsProp))| < MAX_LIB_ARGS
    ensures e.outcome.UsageError? <==> r.UsageRequired?
    ensures e.outcome.UsageError? ==> e.trace == [Exit(EXIT_STATUS)]
    ensures e.outcome.NoModule? <==> r.Unconfigured?
    ensures e.outcome.NoModule? ==> e.trace == [Park]
    ensures e.outcome.ParkedNoTransport? <==> r.TransportMissing?
    ensures r.TransportMissing? ==> e.trace == ProbeEffects(r.attempts) + [Park]
    ensures !r.Locator? ==> NoLoad(e.trace)
    ensures e.outcome.LoadFailed? <==> r.Locator? && !env.dlopenOk
    ensures e.outcome.InitMissing? <==> r.Locator? && env.dlopenOk && !env.hasRilInit
    ensures e.outcome.Load? <==> r.Locator? && env.dlopenOk && env.hasRilInit
    ensures e.outcome.Load? ==>
              && e.outcome.path == r.path
              && |e.outcome.argv| >= 1
              && (r.source.OverrideArgv? ==> e.outcome.argv == r.source.slots)
              && (!r.source.OverrideArgv? ==> e.outcome.argv[0] == Some(inv.argv0))
    ensures e.outcome.Load? <==> HasInit(e.trace)
    ensures e.outcome.Load? ==> Init(|e.outcome.argv|, e.outcome.argv) in e.trace
  {
    match r
    case UsageRequired => Execution(UsageError, [Exit(EXIT_STATUS)])
    case Unconfigured => Execution(NoModule, [Park])
    case TransportMissing(made) =>
      Execution(ParkedNoTransport, ProbeEffects(made) + [Park])
    case Locator(path, source, made) => LoadRun(inv, env, path, source, made)
  }

  /** Every run keeps the required order of its steps. */
  lemma ExecutionOrdered(inv: Invocation, env: Env, r: Resolution)
    requires r.TransportMissing? || r.Locator? ==> |r.attempts| <= QEMUD_TRIES
    requires r.Locator? && r.source.OverrideArgv? ==> |r.source.slots| >= 1
    requires r.Locator? && r.source.PropertyArgs? && env.dlopenOk && env.hasRilInit ==>
               |Tokens(PropertyValue(env.libArgsProp))| < MAX_LIB_ARGS
    ensures WellOrdered(Execute(inv, env, r).trace)
  {
    if r.TransportMissing? {
      var t := Execute(inv, env, r).trace;
      assert t[|r.attempts|] == Park;
    }
  }

  /** A run that resolved a library goes on to load it. */
  lemma RunLoads(inv: Invocation, env: Env)
    requires ArgsFit(inv, env) && Resolve(inv, env).Locator?
    ensures var r := Resolve(inv, env);
            Run(inv, env) == LoadRun(inv, env, r.path, r.source, r.attempts)
  {
  }

  /** One run of `main` from the command-line scan to the final park or exit. */
  function Run(inv: Invocation, env: Env): (e: Execution)
    requires ArgsFit(inv, env)
    ensures e.outcome.UsageError? <==> ScanArgs(inv.args).Usage?
    ensures e.outcome.UsageError? ==> e.trace == [Exit(EXIT_STATUS)]
    ensures e.outcome.NoModule? <==>
              && ScanArgs(inv.args).Parsed? && ScanArgs(inv.args).libPath.None?
              && PropertyValue(env.libPathProp) == ""
    ensures e.outcome.NoModule? ==> e.trace == [Park]
    ensures e.outcome.ParkedNoTransport? <==>
              && ScanArgs(inv.args).Parsed? && ConfiguredPath(ScanArgs(inv.args), env).Some?
              && KernelOverride(env.cmdline, env.probes).GiveUp?
    ensures e.outcome.UsageError? || e.outcome.NoModule? || e.outcome.ParkedNoTransport? ==>
              NoLoad(e.trace)
    ensures e.outcome.LoadFailed? || e.outcome.InitMissing? || e.outcome.Load? <==>
              && ScanArgs(inv.args).Parsed? && ConfiguredPath(ScanArgs(inv.args), env).Some?
              && !KernelOverride(env.cmdline, env.probes).GiveUp?
    ensures e.outcome.LoadFailed? ==> !env.dlopenOk
    ensures e.outcome.InitMissing? ==> env.dlopenOk && !env.hasRilInit
    ensures e.outcome.Load? ==> env.dlopenOk && env.hasRilInit
    ensures e.outcome.Load? ==>
              e.outcome.path == if KernelOverride(env.cmdline, env.probes).Replaces()
                                then REFERENCE_RIL_PATH
                                else ConfiguredPath(ScanArgs(inv.args), env).value
    ensures e.outcome.Load? ==>
              |e.outcome.argv| >= 1
              && (e.outcome.argv[0] == None <==> KernelOverride(env.cmdline, env.probes).Replaces())
    ensures WellOrdered(e.trace)
  {
    ExecutionOrdered(inv, env, Resolve(inv, env));
    Execute(inv, env, Resolve(inv, env))
  }
}
