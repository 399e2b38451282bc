/** End-to-end properties of rild's startup: what `RIL_Init` receives in each
    configuration, and which parts of the configuration an override ignores. */
module RildProperties {
  import opened CStrings
  import opened Tokenizer
  import opened CommandLine
  import opened KernelCmdline
  import opened Rild

  /** A stray token ends the run at once: usage is printed and the process
      exits before reading `rild.libpath` or `rild.libargs`, the kernel command
      line or a socket. */
  lemma UsageBeforeAnything(argv0: string, paths: seq<string>, tok: string, rest: seq<string>, env: Env)
    requires tok != ARGS_SEPARATOR
    requires tok != LIB_FLAG || rest == []
    ensures var inv := Invocation(argv0, Flags(paths) + [tok] + rest);
            ArgsFit(inv, env) && Run(inv, env) == Execution(UsageError, [Exit(-1)])
  {
    UsageOnStrayToken(paths, tok, rest);
  }

  /** `-l <lib> ... -- <args>` without a kernel override resolves to the last
      library named, or else `rild.libpath`, with the tokens after `--`. */
  lemma ExplicitArgumentsResolve(argv0: string, paths: seq<string>, tail: seq<string>, env: Env)
    requires paths != [] || PropertyValue(env.libPathProp) != ""
    requires KernelOverride(env.cmdline, env.probes).Keep?
    ensures Resolve(Invocation(argv0, Render(paths, Some(tail))), env) ==
              Locator(LastOr(paths, Some(PropertyValue(env.libPathProp))).value, CliArgs(tail), [])
  {
    var inv := Invocation(argv0, Render(paths, Some(tail)));
    ScanRender(paths, Some(tail));
    assert ConfiguredPath(ScanArgs(inv.args), env) == LastOr(paths, Some(PropertyValue(env.libPathProp)));
  }

  /** `-l <lib> ... -- <args>` with no kernel override: the last library named,
      or else `rild.libpath`, is loaded and `RIL_Init` receives the program
      name followed by exactly the tokens after `--`, with `argc` counting
      them all. */
  lemma ExplicitArgumentsReachInit(argv0: string, paths: seq<string>, tail: seq<string>, env: Env)
    requires paths != [] || PropertyValue(env.libPathProp) != ""
    requires KernelOverride(env.cmdline, env.probes).Keep?
    requires env.dlopenOk && env.hasRilInit
    ensures var inv := Invocation(argv0, Render(paths, Some(tail)));
            var path := LastOr(paths, Some(PropertyValue(env.libPathProp))).value;
            var argv := [Some(argv0)] + Present(tail);
            && ArgsFit(inv, env)
            && Run(inv, env).outcome == Load(path, argv)
            && Run(inv, env).trace ==
                 [SwitchUser, DlOpen(path), StartEventLoop, DlSym("RIL_Init"),
                  Init(|tail| + 1, argv), Register, Park]
  {
    var inv := Invocation(argv0, Render(paths, Some(tail)));
    var path := LastOr(paths, Some(PropertyValue(env.libPathProp))).value;
    ExplicitArgumentsResolve(argv0, paths, tail, env);
    RunLoads(inv, env);
    assert ProbeEffects([]) == [];
  }

  /** A well-formed command line without `--` and without a kernel override
      resolves to the last `-l`, or else `rild.libpath`, with its arguments
      taken from `rild.libargs`. */
  lemma PropertyArgumentsResolve(argv0: string, paths: seq<string>, env: Env)
    requires paths != [] || PropertyValue(env.libPathProp) != ""
    requires KernelOverride(env.cmdline, env.probes).Keep?
    ensures Resolve(Invocation(argv0, Render(paths, None)), env) ==
              Locator(LastOr(paths, Some(PropertyValue(env.libPathProp))).value, PropertyArgs, [])
  {
    var inv := Invocation(argv0, Render(paths, None));
    ScanRender(paths, None);
    assert ConfiguredPath(ScanArgs(inv.args), env) == LastOr(paths, Some(PropertyValue(env.libPathProp)));
  }

  /** Without `--`, the arguments come from `rild.libargs`: `RIL_Init` receives
      the program name followed by the non-empty space-separated pieces of the
      property, and the library is the last `-l` or else `rild.libpath`. */
  lemma PropertyArgumentsReachInit(argv0: string, paths: seq<string>, env: Env)
    requires paths != [] || PropertyValue(env.libPathProp) != ""
    requires KernelOverride(env.cmdline, env.probes).Keep?
    requires env.dlopenOk && env.hasRilInit
    requires |NonEmpty(Fields(PropertyValue(env.libArgsProp)))| < MAX_LIB_ARGS
    ensures var inv := Invocation(argv0, Render(paths, None));
            && ArgsFit(inv, env)
            && Run(inv, env).outcome ==
                 Load(LastOr(paths, Some(PropertyValue(env.libPathProp))).value,
                      [Some(argv0)] + Present(NonEmpty(Fields(PropertyValue(env.libArgsProp)))))
  {
    var inv := Invocation(argv0, Render(paths, None));
    PropertyArgumentsResolve(argv0, paths, env);
    TokensAreNonEmptyFields(PropertyValue(env.libArgsProp));
    RunLoads(inv, env);
  }

  /** In the emulator, once the qemud socket answers, the reference library is
      loaded with `-s /dev/socket/qemud`, slot 0 left NULL, whatever the
      command line and the properties named. */
  lemma EmulatorLoadsReference(inv: Invocation, env: Env)
    requires ScanArgs(inv.args).Parsed? && ConfiguredPath(ScanArgs(inv.args), env).Some?
    requires env.cmdline.Some? && Contains(Visible(env.cmdline.value), "android.qemud=")
    requires exists j :: 0 <= j < 5 && ProbeAt(env.probes, j)
    requires env.dlopenOk && env.hasRilInit
    ensures && ArgsFit(inv, env)
            && Run(inv, env).outcome ==
                 Load("/system/lib/libreference-ril.so", [None, Some("-s"), Some("/dev/socket/qemud")])
  {
    var o := KernelOverride(env.cmdline, env.probes);
    assert o.Emulator?;
    assert QEMUD_SOCKET_PATH == "/dev/socket/qemud";
    assert Resolve(inv, env) == Locator(REFERENCE_RIL_PATH, OverrideArgv(OverrideArgs(o)), o.attempts);
    RunLoads(inv, env);
  }

  /** With `android.ril=<dev>` (and no qemud marker) the reference library is
      loaded with `-d /dev/<dev>`, slot 0 left NULL, and no socket is probed. */
  lemma DeviceOptionLoadsReference(inv: Invocation, env: Env)
    requires ScanArgs(inv.args).Parsed? && ConfiguredPath(ScanArgs(inv.args), env).Some?
    requires env.cmdline.Some?
    requires !Contains(Visible(env.cmdline.value), "android.qemud=")
    requires Contains(Visible(env.cmdline.value), "android.ril=")
    requires env.dlopenOk && env.hasRilInit
    ensures var buf := Visible(env.cmdline.value);
            var dev := DeviceName(buf[Find(buf, "android.ril=").value + 12..]);
            && ArgsFit(inv, env)
            && Run(inv, env).outcome ==
                 Load("/system/lib/libreference-ril.so", [None, Some("-d"), Some(dev)])
            && Run(inv, env).trace[0] == SwitchUser
  {
    var o := KernelOverride(env.cmdline, env.probes);
    assert o.Device?;
    assert Resolve(inv, env) == Locator(REFERENCE_RIL_PATH, OverrideArgv(OverrideArgs(o)), []);
    RunLoads(inv, env);
  }

  /** An override ignores which library and which arguments were configured:
      two configured runs that see the same kernel command line, sockets and
      library end the same way. */
  lemma OverrideIgnoresConfiguration(inv1: Invocation, env1: Env, inv2: Invocation, env2: Env)
    requires ScanArgs(inv1.args).Parsed? && ConfiguredPath(ScanArgs(inv1.args), env1).Some?
    requires ScanArgs(inv2.args).Parsed? && ConfiguredPath(ScanArgs(inv2.args), env2).Some?
    requires env1.cmdline == env2.cmdline && env1.probes == env2.probes
    requires env1.dlopenOk == env2.dlopenOk && env1.hasRilInit == env2.hasRilInit
    requires KernelOverride(env1.cmdline, env1.probes).Replaces()
    ensures ArgsFit(inv1, env1) && ArgsFit(inv2, env2)
    ensures Run(inv1, env1) == Run(inv2, env2)
  {
    var o := KernelOverride(env1.cmdline, env1.probes);
    var r := Resolve(inv1, env1);
    assert r == Locator(REFERENCE_RIL_PATH, OverrideArgv(OverrideArgs(o)), r.attempts);
    assert Resolve(inv2, env2) == r;
    RunLoads(inv1, env1);
    RunLoads(inv2, env2);
    assert LoadRun(inv1, env1, r.path, r.source, r.attempts)
        == Launch(r.attempts, r.path, env1, if env1.dlopenOk && env1.hasRilInit then OverrideArgs(o) else []);
    assert LoadRun(inv2, env2, r.path, r.source, r.attempts)
        == Launch(r.attempts, r.path, env2, if env1.dlopenOk && env1.hasRilInit then OverrideArgs(o) else []);
  }

  /** Socket probes happen only when the kernel command line carries the qemud
      marker. */
  lemma ProbesOnlyWithQemudMarker(inv: Invocation, env: Env)
    requires ArgsFit(inv, env)
    ensures forall k :: 0 <= k < |Run(inv, env).trace| && Run(inv, env).trace[k].Probe? ==>
              env.cmdline.Some? && Contains(Visible(env.cmdline.value), QEMUD_MARKER)
  {
    var r := Resolve(inv, env);
    if r.Locator? && !(env.cmdline.Some? && Contains(Visible(env.cmdline.value), QEMUD_MARKER)) {
      assert r.attempts == [];
      RunLoads(inv, env);
      assert ProbeEffects(r.attempts) == [];
    }
  }
}
