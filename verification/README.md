# rild startup: which radio library is loaded, with which arguments, in which order

A Dafny model of the startup decision logic of the Android radio interface
daemon `rild` (`rild/rild.c`). Before it hands control to a vendor radio
library, `main` does four things:

1. It scans its command line for `-l <library>` pairs and an optional `--`
   followed by arguments for the library.
2. It falls back to the `rild.libpath` property when no `-l` was given, and
   parks for ever when neither names a library.
3. It reads `/proc/cmdline` once. If the kernel command line carries
   `android.qemud=`, it retries the qemud socket up to five times and then
   substitutes the reference library with `-s /dev/socket/qemud`. If the
   socket never answers, it parks. If the kernel command line carries
   `android.ril=<dev>` instead, it substitutes the reference library with
   `-d /dev/<dev>`.
4. It drops privileges, `dlopen`s the library, starts the event loop, looks up
   `RIL_Init`, builds the argument vector (the tokens after `--`, the override
   vector, or `rild.libargs` split by `make_argv`), calls `RIL_Init` and
   registers the result.

The operating system becomes inputs: the command-line tokens, the two property
values, the kernel command line (`None` when it cannot be opened or read), one
boolean per socket connection attempt, and whether `dlopen` and `dlsym`
succeed. A run produces an `Outcome` and the ordered list of observable
`Effect`s (`Probe`, `SwitchUser`, `DlOpen`, `StartEventLoop`, `DlSym`,
`Init(argc, argv)`, `Register`, `Exit`, `Park`). An argument-vector slot is an
`Option<string>`, so a NULL `char *` is `None`.

Modules, one per concern of `main`:

- `CStrings` (`cstrings.dfy`): the C string functions the code relies on:
  `strstr` (`Find`), `strpbrk` (`Span`), and the string a NUL-terminated
  buffer holds (`CStr`).
- `Tokenizer` (`tokenizer.dfy`): `strtok` with the delimiter string `" \0"`,
  and `make_argv`, together with an independent reference split (`Fields`)
  that the tokenizer is proved to agree with.
- `CommandLine` (`command_line.dfy`): the `-l` / `--` scan and its inverse
  (`Render`).
- `KernelCmdline` (`kernel_cmdline.dfy`): the `/proc/cmdline` override, the
  bounded qemud retry and the `android.ril=` device name.
- `Rild` (`rild.dfy`): the resolver, the argument vector handed to `RIL_Init`,
  the effect trace and its ordering.
- `RildProperties` (`rild_properties.dfy`): end-to-end statements about a whole
  run.

Behaviours of the code that a reader might not expect, all kept by the model:

- **Slot 0 of the argument vector.** The comment at line 383 promises "a
  reasonable argv[0]". The override branch reassigns `argv` to
  `arg_overrides` (line 343), so line 384 copies the never-written
  `arg_overrides[0]` onto itself, and `RIL_Init` receives NULL in slot 0
  (`Rild.Run`, `RildProperties.EmulatorLoadsReference`).
- **Splitting `rild.libargs`.** The delimiter string `" \0"` given to `strtok`
  at line 75 ends at its embedded NUL, so only the space character splits.
  Tabs and newlines stay inside tokens.
- **Privilege drop.** `switchUser` runs only after the library has been
  resolved and the qemud socket probed, just before `dlopen` (line 354). The
  trace puts every `Probe` before `SwitchUser`.
- **Property writes before the scan.** The `property_set` block (lines
  188-214) runs before the command-line scan, so even a usage error comes
  after it. That block is not modelled, so within the model the usage error
  is the first and only effect.

## Model

| member | source | states |
|---|---|---|
| `CStrings.Find` | rild/rild.c:325-327 | `strstr` returns the leftmost occurrence of the pattern, and NULL exactly when the pattern occurs nowhere |
| `CStrings.Span` | rild/rild.c:330-332 | `strpbrk` finds the first character of its stop set: none lies before the cut, and the character at the cut is one unless the cut is at the end |
| `CStrings.SpanOfWord` | rild/rild.c:330-332 | a word free of stop characters, followed by a stop character or by nothing, is cut exactly after the word |
| `CStrings.CStr` | rild/rild.c:279 | the string functions see a buffer only up to its first NUL, which ends the visible prefix |
| `Tokenizer.NextToken` | rild/rild.c:75 | one `strtok(s, " \0")` call returns NULL exactly when only spaces remain; otherwise it returns a non-empty space-free token and strictly less remaining text |
| `Tokenizer.Tokens` | rild/rild.c:75-79 | every token the repeated `strtok` calls return is non-empty and free of spaces |
| `Tokenizer.JoinFields` | rild/rild.c:75 | the reference split cuts the text at spaces and loses nothing: rejoining the pieces with single spaces restores the text |
| `Tokenizer.TokensAreNonEmptyFields` | rild/rild.c:68-81 | the tokens are exactly the non-empty space-separated pieces of the text, in order; tabs and newlines do not separate |
| `Tokenizer.TokensOfJoin` | rild/rild.c:75-79 | space-free words joined by single spaces come back from `strtok` exactly, one by one |
| `Tokenizer.MakeArgv` | rild/rild.c:68-81 | with at most 15 tokens, `make_argv` returns the count of tokens plus one, leaves slot 0 unset, and fills slots 1.. with the tokens in order: exactly the vector `Rild.LibraryArgv` hands to `RIL_Init` after writing slot 0 |
| `CommandLine.ScanFrom` | rild/rild.c:226-237 | when `--` is seen, the library arguments are exactly the tokens after that `--`; a path is only missing if no `-l` supplied one |
| `CommandLine.ScanSkipsFlags` | rild/rild.c:226-229 | `-l` pairs are consumed one by one, each later `-l` replacing the earlier path |
| `CommandLine.ScanRender` | rild/rild.c:226-237 | every well-formed command line parses, the last `-l` wins, and `--` hands over exactly the tokens after it |
| `CommandLine.ParsedIsRendered` | rild/rild.c:226-237 | whatever the scan accepts is a run of `-l` pairs optionally followed by `--` and arguments, and the path it reports is the last `-l` |
| `CommandLine.ScanAcceptsExactlyRendered` | rild/rild.c:226-237 | the scan accepts a command line if and only if it is well formed |
| `CommandLine.UsageOnStrayToken` | rild/rild.c:234-236 | after any `-l` pairs, a token that is neither `--` nor a `-l` with a value, a trailing `-l` included, is a usage error |
| `KernelCmdline.Visible` | rild/rild.c:259-279 | what `strstr` sees is the prefix of the kernel command line up to its first NUL or the 1024-byte read bound, whichever comes first |
| `KernelCmdline.Retry` | rild/rild.c:287-311 | the retry loop makes between one and `tries` attempts; each result is the probe for that attempt; every attempt but the last fails, and the loop stops early only on success |
| `KernelCmdline.ConnectQemud` | rild/rild.c:284-311 | at most five attempts; every attempt but the last fails; the last succeeds exactly when one of the first five probes does |
| `KernelCmdline.RetrySucceedsIffSomeProbe` | rild/rild.c:284-317 | the loop ends connected if and only if some probe among the first five succeeds |
| `KernelCmdline.DeviceName` | rild/rild.c:329-335 | the device is `/dev/` followed by the value up to its first space, tab, LF or CR, cut to the 31 bytes `arg_device` holds |
| `KernelCmdline.DeviceNameOfWord` | rild/rild.c:329-335 | a value holding a word then a stop character gives `/dev/` plus the word, truncated to 31 bytes |
| `KernelCmdline.KernelOverride` | rild/rild.c:258-340 | no cmdline means no override; the qemud marker alone decides between the emulator and give-up branches, by the probes; `android.ril=` counts only without the qemud marker, and names the device after the first `android.ril=` |
| `KernelCmdline.OverrideArgs` | rild/rild.c:299-303 | the override vector has three slots: slot 0 unset, then `-s` and the qemud socket path, or `-d` and the device |
| `KernelCmdline.NulHidesRest` | rild/rild.c:279 | whatever follows a NUL in the kernel command line has no effect on the override, however long the text before it |
| `KernelCmdline.OnlyFirstReadCounts` | rild/rild.c:268-270 | only the first 1024 bytes of the kernel command line can affect the override |
| `Rild.ConfiguredPath` | rild/rild.c:239-247 | the last `-l` wins; without one, a non-empty `rild.libpath` is used; an empty or unset property means no library |
| `Rild.Resolve` | rild/rild.c:226-350 | usage is required exactly on a malformed command line. No library is resolved exactly when the command line names none and `rild.libpath` is empty. A failed qemud wait parks. Any override installs the reference library and its 3-slot vector and ignores the configured path and arguments. Otherwise the configured path is used, with the `--` arguments or `rild.libargs`, and no socket is probed |
| `Rild.LibraryArgv` | rild/rild.c:372-384 | `RIL_Init` receives the program name followed by the tokens after `--`, or the override vector unchanged (its slot 0 stays NULL), or the program name followed by the `make_argv` tokens in at most 16 slots |
| `Rild.LoadTraceOrdered` | rild/rild.c:354-388 | on every load path, the probes come first, `switchUser` precedes `dlopen`, the event loop precedes `RIL_Init`, `RIL_Init` runs at most once and is followed directly by the registration, and the run ends in a single exit or park |
| `Rild.Launch` | rild/rild.c:354-388 | a failed `dlopen` exits right after it; a missing `RIL_Init` exits after the event loop starts and the symbol lookup; otherwise `RIL_Init(argc, argv)` is called once, registered, and the process parks |
| `Rild.LoadRun` | rild/rild.c:354-388 | the vector `RIL_Init` receives depends on where the arguments came from, and it is built only after `dlopen` and `dlsym` succeed |
| `Rild.Execute` | rild/rild.c:234-395 | each decision ends in its own outcome: a usage error exits at once, no library parks at once, a failed qemud wait parks after its probes, and only a resolved library ever loads |
| `Rild.ExecutionOrdered` | rild/rild.c:279-395 | every run, loading or not, keeps the effect ordering |
| `Rild.Run` | rild/rild.c:224-395 | a whole run in terms of its inputs: which configurations end in usage, no library, no transport or a load; what path is loaded; slot 0 of the vector is NULL exactly under an override; the effects keep their order |
| `RildProperties.UsageBeforeAnything` | rild/rild.c:42-46 | a stray token exits with status -1 before any probe, privilege drop or load, whatever the environment |
| `RildProperties.ExplicitArgumentsResolve` | rild/rild.c:226-247 | a well-formed command line with `--` and no kernel override resolves to its last `-l`, or else to a non-empty `rild.libpath`, with exactly the tokens after `--` as arguments |
| `RildProperties.ExplicitArgumentsReachInit` | rild/rild.c:372-374 | with `--` and no override, the last `-l` (or else a non-empty `rild.libpath`) is loaded and `RIL_Init` gets the program name plus exactly the tokens after `--`, with that count, in the full expected trace |
| `RildProperties.PropertyArgumentsResolve` | rild/rild.c:226-247 | a well-formed command line without `--` and without a kernel override resolves to its last `-l`, or else to a non-empty `rild.libpath`, with its arguments taken from `rild.libargs` |
| `RildProperties.PropertyArgumentsReachInit` | rild/rild.c:375-384 | without `--`, `RIL_Init` gets the program name followed by the non-empty space-separated pieces of `rild.libargs` |
| `RildProperties.EmulatorLoadsReference` | rild/rild.c:279-317 | with the qemud marker and a socket that answers within five tries, `/system/lib/libreference-ril.so` is loaded with `[NULL, "-s", "/dev/socket/qemud"]` |
| `RildProperties.DeviceOptionLoadsReference` | rild/rild.c:320-347 | with `android.ril=` and no qemud marker, the reference library is loaded with `[NULL, "-d", device]` and no socket is probed |
| `RildProperties.OverrideIgnoresConfiguration` | rild/rild.c:342-347 | under an override, the configured library, the `--` arguments and `rild.libargs` make no difference to the run |
| `RildProperties.ProbesOnlyWithQemudMarker` | rild/rild.c:279-295 | the qemud socket is probed only when the kernel command line carries `android.qemud=` |

## Left out

- The companion-process supervisor (the fork of `/system/bin/tgmd` in `main` and the watcher threads, lines 108-185). It is process and thread management with no bearing on the decision.
- The `property_set` and `system(...)` block (lines 188-214). It is side-effecting I/O with no decision logic.
- The internals of `switchUser` (`prctl`, `setuid`, `capset`, lines 87-98). They are kept only as the `SwitchUser` effect.
- `dlopen`, `dlsym`, `socket_local_client` and `sleep`. They are injected results: two booleans and one boolean per connection attempt. The retry delays are timing only, so a `Probe` stands for one sleep and one attempt.
- What the loaded library does with its arguments, what `RIL_Init` returns, and the event loop itself. This is foreign code; only the call and the registration are recorded.
- `ANDROID_SOCKET_DIR` comes from a platform header that is not part of this model. It is taken as `/dev/socket`, its Android value.
- Property values are taken as given strings. The `PROPERTY_VALUE_MAX` bound on their length is not modelled.
- `main` is assumed to receive at least its program name (`argc >= 1`).
- Strings are byte strings. Each `char` stands for one byte, so the 1024-byte read of `/proc/cmdline` and the 31-byte `arg_device` bound are counted in `char`s. Multi-byte encodings are not modelled. Property values and command-line tokens are C strings and never contain a NUL; the model takes this as given about its inputs rather than stating it.
- Diagnostics are not effects of the model. This covers the usage text (line 44), the `dlopen` and `RIL_Init` messages on stderr (lines 359 and 368), and the `LOGD`/`LOGE` lines (264, 273, 307, 313, 349). Each error path appears only as its `Exit(-1)` or `Park`.
- The `EINTR` retry around `read` is not modelled. A read either succeeds or fails, and a failure is `None`.
- `KernelCmdline.Visible`: the C buffer is not NUL-terminated after `read`. The model treats the bytes read as ending where the read ended, which assumes the uninitialised bytes after them start with a NUL. What garbage after a short read might match is not modelled.
- `Tokenizer.MakeArgv`: the caller must supply at most 15 tokens. The C code writes into the 16-slot `newArgv` without checking, and more tokens overrun it, which is undefined behaviour.
- `Rild.Run` carries the same requirement, through `Rild.ArgsFit`, but only for runs that reach `make_argv`.
- `strtok`'s in-place writes to the property buffer, and `snprintf` into static arrays, are modelled by their resulting strings only.
