/** The command-line scan at the top of rild's startup: `-l <library>` pairs,
    optionally followed by `--` and the arguments for the library. */
module CommandLine {
  import opened CStrings

  const LIB_FLAG: string := "-l"
  const ARGS_SEPARATOR: string := "--"

  /** Result of the scan: a usage error (the process prints usage and exits), or
      the last `-l` value and, when `--` was seen, every token after it. */
  datatype Scan =
    | Usage
    | Parsed(libPath: Option<string>, libArgs: Option<seq<string>>)

  /** The scan loop from the current position, `path` being the value of the
      last `-l` seen so far. */
  function ScanFrom(args: seq<string>, path: Option<string>): (r: Scan)
    ensures r.Parsed? && r.libArgs.Some? ==>
      var n := |r.libArgs.value|;
      n < |args| && args[|args| - n - 1] == ARGS_SEPARATOR && args[|args| - n..] == r.libArgs.value
    ensures r.Parsed? && r.libPath.None? ==> path.None?
  {
    if args == [] then Parsed(path, None)
    else if args[0] == LIB_FLAG && |args| > 1 then ScanFrom(args[2..], Some(args[1]))
    else if args[0] == ARGS_SEPARATOR then Parsed(path, Some(args[1..]))
    else Usage
  }

  /** The scan of `argv[1..]`. */
  function ScanArgs(args: seq<string>): Scan {
    ScanFrom(args, None)
  }

  /** The command line `-l p1 -l p2 ... -l pn`. */
  function Flags(paths: seq<string>): (toks: seq<string>)
    ensures |toks| == 2 * |paths|
  {
    if paths == [] then [] else [LIB_FLAG, paths[0]] + Flags(paths[1..])
  }

  /** The well-formed command line with the given `-l` values and, if present,
      `--` followed by the library arguments. */
  function Render(paths: seq<string>, libArgs: Option<seq<string>>): seq<string> {
    Flags(paths) + match libArgs case None => [] case Some(t) => [ARGS_SEPARATOR] + t
  }

  /** The last of `paths`, or `dflt` when there is none. */
  function LastOr(paths: seq<string>, dflt: Option<string>): Option<string> {
    if paths == [] then dflt else Some(paths[|paths| - 1])
  }

  /** The scan consumes `-l` pairs one by one, each replacing the path before it. */
  lemma {:induction false} ScanSkipsFlags(paths: seq<string>, rest: seq<string>, path: Option<string>)
    ensures ScanFrom(Flags(paths) + rest, path) == ScanFrom(rest, LastOr(paths, path))
    decreases |paths|
  {
    if paths == [] {
      assert Flags(paths) + rest == rest;
    } else {
      var tail := Flags(paths[1..]) + rest;
      assert Flags(paths) + rest == [LIB_FLAG, paths[0]] + tail;
      assert ScanFrom(Flags(paths) + rest, path) == ScanFrom(tail, Some(paths[0]));
      ScanSkipsFlags(paths[1..], rest, Some(paths[0]));
      assert LastOr(paths[1..], Some(paths[0])) == LastOr(paths, path);
    }
  }

  /** Every well-formed command line parses, the LAST `-l` wins, and `--`
      hands over exactly the tokens after it. */
  lemma ScanRender(paths: seq<string>, libArgs: Option<seq<string>>)
    ensures ScanArgs(Render(paths, libArgs)) == Parsed(LastOr(paths, None), libArgs)
  {
    var rest := match libArgs case None => [] case Some(t) => [ARGS_SEPARATOR] + t;
    ScanSkipsFlags(paths, rest, None);
  }

  lemma PrependFlag(p: string, paths: seq<string>, libArgs: Option<seq<string>>, dflt: Option<string>)
    ensures Render([p] + paths, libArgs) == [LIB_FLAG, p] + Render(paths, libArgs)
    ensures LastOr([p] + paths, dflt) == LastOr(paths, Some(p))
  {
    assert ([p] + paths)[1..] == paths;
  }

  /** Only well-formed command lines parse: whatever the scan accepts is a run
      of `-l` pairs optionally followed by `--` and the library arguments. */
  lemma {:induction false} ParsedIsRendered(args: seq<string>, path: Option<string>)
    requires ScanFrom(args, path).Parsed?
    ensures exists paths :: args == Render(paths, ScanFrom(args, path).libArgs)
                            && ScanFrom(args, path).libPath == LastOr(paths, path)
    decreases |args|
  {
    var r := ScanFrom(args, path);
    if args == [] {
      assert args == Render([], r.libArgs);
    } else if args[0] == LIB_FLAG && |args| > 1 {
      assert r == ScanFrom(args[2..], Some(args[1]));
      ParsedIsRendered(args[2..], Some(args[1]));
      var paths' :| args[2..] == Render(paths', r.libArgs) && r.libPath == LastOr(paths', Some(args[1]));
      PrependFlag(args[1], paths', r.libArgs, path);
      assert args == [LIB_FLAG, args[1]] + args[2..];
    } else {
      assert args[0] == ARGS_SEPARATOR && r.libArgs == Some(args[1..]);
      assert Render([], r.libArgs) == [] + ([ARGS_SEPARATOR] + args[1..]);
      assert args == Render([], r.libArgs);
    }
  }

  /** The scan accepts a command line exactly when it is well formed. */
  lemma ScanAcceptsExactlyRendered(args: seq<string>)
    ensures ScanArgs(args).Parsed? <==> exists paths, libArgs :: args == Render(paths, libArgs)
  {
    if ScanArgs(args).Parsed? {
      ParsedIsRendered(args, None);
    }
    forall paths, libArgs | args == Render(paths, libArgs)
      ensures ScanArgs(args).Parsed?
    {
      ScanRender(paths, libArgs);
    }
  }

  /** After any run of `-l` pairs, a token that is neither `--` nor a `-l`
      with a value after it — a trailing `-l` included — is a usage error. */
  lemma UsageOnStrayToken(paths: seq<string>, tok: string, rest: seq<string>)
    requires tok != ARGS_SEPARATOR
    requires tok != LIB_FLAG || rest == []
    ensures ScanArgs(Flags(paths) + [tok] + rest) == Usage
  {
    assert Flags(paths) + [tok] + rest == Flags(paths) + ([tok] + rest);
    ScanSkipsFlags(paths, [tok] + rest, None);
  }
}
