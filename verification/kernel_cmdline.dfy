/** The emulator / kernel-option override: rild reads the kernel command line
    once and, on `android.qemud=` or `android.ril=`, replaces the configured
    library with the reference library and its argument vector. */
module KernelCmdline {
  import opened CStrings

  /** Size of the stack buffer `/proc/cmdline` is read into. */
  const CMDLINE_BUF: nat := 1024
  const QEMUD_MARKER: string := "android.qemud="
  const RIL_MARKER: string := "android.ril="
  const DEV_PREFIX: string := "/dev/"
  /** Size of the static `arg_device` buffer (31 characters and the NUL). */
  const DEVICE_BUF: nat := 32
  /** The characters `strpbrk` looks for to end the `android.ril=` value. */
  const VALUE_STOPS: set<char> := {' ', '\t', '\n', '\r'}
  /** Connection attempts made on the qemud socket before giving up. */
  const QEMUD_TRIES: nat := 5
  const SOCKET_DIR: string := "/dev/socket"
  const QEMUD_SOCKET: string := "qemud"
  const REFERENCE_RIL_PATH: string := "/system/lib/libreference-ril.so"

  /** What the string functions see of the kernel command line: the bytes one
      read into the buffer can hold, up to the first NUL. */
  function Visible(cmdline: string): (v: string)
    ensures |v| <= CMDLINE_BUF && |v| <= |cmdline|
    ensures v == cmdline[..|v|]
    ensures NUL !in v
    ensures |v| < Min(|cmdline|, CMDLINE_BUF) ==> cmdline[|v|] == NUL
  {
    CStr(cmdline[..Min(|cmdline|, CMDLINE_BUF)])
  }

  /** Whether connection attempt `k` reaches the qemud socket; attempts past the
      end of the probe sequence fail. */
  function ProbeAt(probes: seq<bool>, k: nat): bool {
    k < |probes| && probes[k]
  }

  /** The probes after the first attempt. */
  function Later(probes: seq<bool>): seq<bool> {
    if probes == [] then [] else probes[1..]
  }

  /** The retry loop with `tries` attempts left, `probes` holding the results
      of the attempts still to come: the results of the attempts it makes. It
      stops at the first success or when the attempts run out. */
  function Retry(probes: seq<bool>, tries: nat): (made: seq<bool>)
    requires tries >= 1
    ensures 1 <= |made| <= tries
    ensures forall j :: 0 <= j < |made| ==> made[j] == ProbeAt(probes, j)
    ensures forall j :: 0 <= j < |made| - 1 ==> !made[j]
    ensures made[|made| - 1] || |made| == tries
    decreases tries
  {
    if ProbeAt(probes, 0) then [true]
    else if tries == 1 then [false]
    else
      var rest := Retry(Later(probes), tries - 1);
      assert forall j :: 1 <= j < 1 + |rest| ==> ProbeAt(probes, j) == ProbeAt(Later(probes), j - 1);
      [false] + rest
  }

  /** The qemud retry loop: at most five attempts, and the last one made
      succeeds exactly when one of the first five probes does. */
  function ConnectQemud(probes: seq<bool>): (made: seq<bool>)
    ensures 1 <= |made| <= QEMUD_TRIES
    ensures forall j :: 0 <= j < |made| ==> made[j] == ProbeAt(probes, j)
    ensures forall j :: 0 <= j < |made| - 1 ==> !made[j]
    ensures made[|made| - 1] || |made| == QEMUD_TRIES
    ensures made[|made| - 1] <==> exists j :: 0 <= j < QEMUD_TRIES && ProbeAt(probes, j)
  {
    var made := Retry(probes, QEMUD_TRIES);
    RetrySucceedsIffSomeProbe(probes, made);
    made
  }

  /** The last attempt of the loop succeeds exactly when one of the first five
      probes does: every attempt before the last one failed. */
  lemma RetrySucceedsIffSomeProbe(probes: seq<bool>, made: seq<bool>)
    requires made == Retry(probes, QEMUD_TRIES)
    ensures made[|made| - 1] <==> exists j :: 0 <= j < QEMUD_TRIES && ProbeAt(probes, j)
  {
    var last := |made| - 1;
    if made[last] {
      assert ProbeAt(probes, last);
    } else {
      forall j | 0 <= j < QEMUD_TRIES ensures !ProbeAt(probes, j) {
        assert made[j] == ProbeAt(probes, j);
      }
    }
  }

  /** Path of the qemud control socket, as `snprintf` writes it into `arg_device`. */
  const QEMUD_SOCKET_PATH: string := SOCKET_DIR + "/" + QEMUD_SOCKET

  /** The device `snprintf(arg_device, 32, "/dev/%s", value)` writes once `strpbrk`
      has cut `value` at its first space, tab, LF or CR. */
  function DeviceName(value: string): (dev: string)
    ensures |dev| == Min(|DEV_PREFIX| + Span(value, VALUE_STOPS), DEVICE_BUF - 1)
    ensures dev[..|DEV_PREFIX|] == DEV_PREFIX
    ensures forall k :: |DEV_PREFIX| <= k < |dev| ==>
              dev[k] == value[k - |DEV_PREFIX|] && dev[k] !in VALUE_STOPS
  {
    var word := value[..Span(value, VALUE_STOPS)];
    var full := DEV_PREFIX + word;
    full[..Min(|full|, DEVICE_BUF - 1)]
  }

  /** The value is cut at its first space, tab, LF or CR; the device is `/dev/`
      followed by the word, cut to the 31 characters `arg_device` holds. */
  lemma DeviceNameOfWord(word: string, rest: string)
    requires forall k :: 0 <= k < |word| ==> word[k] !in VALUE_STOPS
    requires rest == [] || rest[0] in VALUE_STOPS
    ensures DeviceName(word + rest) == (DEV_PREFIX + word)[..Min(|DEV_PREFIX| + |word|, DEVICE_BUF - 1)]
  {
    SpanOfWord(word, rest, VALUE_STOPS);
    assert (word + rest)[..|word|] == word;
  }

  /** What the kernel command line does to the library choice. */
  datatype Override =
    | Keep                            // no marker, or /proc/cmdline unavailable
    | Emulator(attempts: seq<bool>)   // qemud socket reached on the last attempt
    | GiveUp(attempts: seq<bool>)     // qemud marker present, socket never reached
    | Device(name: string)            // `android.ril=` names the modem device
  {
    /** The override that replaces the library and its arguments. */
    predicate Replaces() {
      Emulator? || Device?
    }
  }

  /** The override block. `cmdline` is None when `/proc/cmdline` cannot be
      opened or read; `probes` holds the socket connection results. */
  function KernelOverride(cmdline: Option<string>, probes: seq<bool>): (o: Override)
    ensures cmdline.None? ==> o == Keep
    ensures o.Emulator? || o.GiveUp? <==>
              cmdline.Some? && Contains(Visible(cmdline.value), QEMUD_MARKER)
    ensures o.Emulator? || o.GiveUp? ==> o.attempts == ConnectQemud(probes)
    ensures o.Emulator? <==>
              && cmdline.Some? && Contains(Visible(cmdline.value), QEMUD_MARKER)
              && exists j :: 0 <= j < QEMUD_TRIES && ProbeAt(probes, j)
    ensures o.Device? <==>
              cmdline.Some? && !Contains(Visible(cmdline.value), QEMUD_MARKER)
              && Contains(Visible(cmdline.value), RIL_MARKER)
    ensures o.Device? ==>
              var buf := Visible(cmdline.value);
              o.name == DeviceName(buf[Find(buf, RIL_MARKER).value + |RIL_MARKER|..])
  {
    match cmdline
    case None => Keep
    case Some(raw) =>
      var buf := Visible(raw);
      if Contains(buf, QEMUD_MARKER) then
        var made := ConnectQemud(probes);
        if made[|made| - 1] then Emulator(made) else GiveUp(made)
      else
        match Find(buf, RIL_MARKER)
        case None => Keep
        case Some(at) => Device(DeviceName(buf[at + |RIL_MARKER|..]))
  }

  /** The argument vector an override installs: slot 0 of `arg_overrides` is
      never written, so it stays NULL. */
  function OverrideArgs(o: Override): (args: seq<Option<string>>)
    requires o.Replaces()
    ensures |args| == 3 && args[0] == None
    ensures o.Emulator? ==> args[1] == Some("-s") && args[2] == Some(QEMUD_SOCKET_PATH)
    ensures o.Device? ==> args[1] == Some("-d") && args[2] == Some(o.name)
  {
    match o
    case Emulator(_) => [None, Some("-s"), Some(QEMUD_SOCKET_PATH)]
    case Device(name) => [None, Some("-d"), Some(name)]
  }

  /** The string functions stop at the first NUL: whatever follows it is
      invisible to the override. */
  lemma NulHidesRest(pre: string, post: string, probes: seq<bool>)
    requires NUL !in pre
    ensures KernelOverride(Some(pre + [NUL] + post), probes) == KernelOverride(Some(pre), probes)
  {
    var raw := pre + [NUL] + post;
    if |pre| < CMDLINE_BUF {
      assert raw[..Min(|raw|, CMDLINE_BUF)] == pre + ([NUL] + post)[..Min(|raw|, CMDLINE_BUF) - |pre|];
      SpanOfWord(pre, ([NUL] + post)[..Min(|raw|, CMDLINE_BUF) - |pre|], {NUL});
      SpanOfWord(pre, [], {NUL});
      assert pre + [] == pre;
    } else {
      assert raw[..CMDLINE_BUF] == pre[..CMDLINE_BUF];
    }
    assert Visible(raw) == Visible(pre);
  }

  /** One read of at most 1024 bytes: nothing past the buffer is seen. */
  lemma OnlyFirstReadCounts(cmdline: string, probes: seq<bool>)
    requires |cmdline| > CMDLINE_BUF
    ensures KernelOverride(Some(cmdline), probes) == KernelOverride(Some(cmdline[..CMDLINE_BUF]), probes)
  {
    assert cmdline[..CMDLINE_BUF][..CMDLINE_BUF] == cmdline[..CMDLINE_BUF];
  }
}
