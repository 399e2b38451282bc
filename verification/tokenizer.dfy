/** `make_argv`: the split of the `rild.libargs` property value into the
    argument vector handed to the radio library when no explicit vector was given. */
module Tokenizer {
  import opened CStrings

  /** Size of the static `newArgv` array; slot 0 is reserved for the program name. */
  const MAX_LIB_ARGS: nat := 16

  const SPACE: char := ' '

  /** The delimiter string `" \0"` ends at its embedded NUL, so `strtok` splits
      on the space character alone: tabs and newlines stay inside tokens. */
  const DELIMS: set<char> := {SPACE}

  /** What `strtok` returns: a non-empty run of non-delimiters. */
  predicate Word(w: string) {
    w != [] && SPACE !in w
  }

  /** The suffix of `s` left after `strtok` skips leading delimiters. */
  function SkipDelims(s: string): (r: string)
    ensures |r| <= |s| && (r != [] ==> r[0] == s[|s| - |r|])
    ensures r == [] || r[0] !in DELIMS
    ensures forall k :: 0 <= k < |s| - |r| ==> s[k] in DELIMS
  {
    if s != [] && s[0] in DELIMS then SkipDelims(s[1..]) else s
  }

  /** The token at the front of `t` (which starts past any delimiters) and the
      text after the delimiter that ends it, or None when `t` is empty. */
  function TakeToken(t: string): (r: Option<(string, string)>)
    requires t == [] || t[0] !in DELIMS
    ensures r.None? <==> t == []
    ensures r.Some? ==> Word(r.value.0)
    ensures r.Some? ==> |r.value.0| + |r.value.1| < |t| + 1 && |r.value.1| < |t|
  {
    if t == [] then None
    else
      var n := Span(t, DELIMS);
      Some((t[..n], if n < |t| then t[n + 1..] else []))
  }

  /** One `strtok` call on the remaining text `s`: the token it returns and the
      text after the delimiter it overwrote, or None when `strtok` returns NULL. */
  function NextToken(s: string): (r: Option<(string, string)>)
    ensures r.None? <==> forall k :: 0 <= k < |s| ==> s[k] in DELIMS
    ensures r.Some? ==> Word(r.value.0)
    ensures r.Some? ==> |r.value.1| < |s|
  {
    TakeToken(SkipDelims(s))
  }

  /** The tokens repeated `strtok` calls return, in order. */
  function Tokens(s: string): (toks: seq<string>)
    ensures forall k :: 0 <= k < |toks| ==> Word(toks[k])
    decreases |s|
  {
    match NextToken(s)
    case None => []
    case Some((tok, rest)) => [tok] + Tokens(rest)
  }

  /** Reference split: the pieces between consecutive spaces, empty pieces included. */
  function Fields(s: string): (f: seq<string>)
    ensures |f| >= 1
    ensures forall k :: 0 <= k < |f| ==> SPACE !in f[k]
  {
    if s == [] then [[]]
    else if s[0] == SPACE then [[]] + Fields(s[1..])
    else
      var f := Fields(s[1..]);
      [[s[0]] + f[0]] + f[1..]
  }

  /** The pieces of `f` that are not empty, in order. */
  function NonEmpty(f: seq<string>): seq<string> {
    if f == [] then []
    else (if f[0] == [] then [] else [f[0]]) + NonEmpty(f[1..])
  }

  /** The pieces of `f` glued back together with one space between neighbours. */
  function Join(f: seq<string>): string
    requires |f| >= 1
  {
    if |f| == 1 then f[0] else f[0] + [SPACE] + Join(f[1..])
  }

  /** Prepending a character to the text extends its first field. */
  lemma {:induction false} JoinExtendsFirst(c: char, f: seq<string>)
    requires |f| >= 1
    ensures Join([[c] + f[0]] + f[1..]) == [c] + Join(f)
  {
    var g := [[c] + f[0]] + f[1..];
    assert g[1..] == f[1..];
  }

  /** `Fields` is a genuine split: joining the fields restores the text. */
  lemma {:induction false} JoinFields(s: string)
    ensures Join(Fields(s)) == s
    decreases |s|
  {
    if s == [] {
    } else if s[0] == SPACE {
      JoinFields(s[1..]);
      var f := [[]] + Fields(s[1..]);
      assert f[1..] == Fields(s[1..]);
      assert Join(f) == [] + [SPACE] + Join(Fields(s[1..]));
      assert s == [SPACE] + s[1..];
    } else {
      JoinFields(s[1..]);
      JoinExtendsFirst(s[0], Fields(s[1..]));
      assert s == [s[0]] + s[1..];
    }
  }

  /** A space-free word in front of `r` lengthens the first field of `r`. */
  lemma {:induction false} FieldsOfWord(w: string, r: string)
    requires SPACE !in w
    ensures Fields(w + r) == [w + Fields(r)[0]] + Fields(r)[1..]
    decreases |w|
  {
    if w == [] {
      var f := Fields(r);
      assert w + r == r;
      assert w + f[0] == f[0];
      assert [f[0]] + f[1..] == f;
    } else {
      var f := Fields(r);
      var g := Fields(w[1..] + r);
      FieldsOfWord(w[1..], r);
      assert g == [w[1..] + f[0]] + f[1..];
      assert w[0] != SPACE;
      assert w + r == [w[0]] + (w[1..] + r);
      assert Fields(w + r) == [[w[0]] + g[0]] + g[1..];
      assert g[0] == w[1..] + f[0] && g[1..] == f[1..];
      assert [w[0]] + (w[1..] + f[0]) == w + f[0];
    }
  }

  lemma {:induction false} NonEmptyConsEmpty(f: seq<string>)
    ensures NonEmpty([[]] + f) == NonEmpty(f)
  {
    assert ([[]] + f)[1..] == f;
  }

  lemma {:induction false} NonEmptyConsWord(w: string, f: seq<string>)
    requires w != []
    ensures NonEmpty([w] + f) == [w] + NonEmpty(f)
  {
    assert ([w] + f)[1..] == f;
  }

  /** A leading space only opens an empty field, which `strtok` skips. */
  lemma {:induction false} LeadingSpace(s: string)
    requires s != [] && s[0] == SPACE
    ensures Tokens(s) == Tokens(s[1..])
    ensures NonEmpty(Fields(s)) == NonEmpty(Fields(s[1..]))
  {
    assert SkipDelims(s) == SkipDelims(s[1..]);
    NonEmptyConsEmpty(Fields(s[1..]));
  }

  /** A text that starts with a word: `strtok` returns the word and resumes after
      the space that ends it. */
  lemma {:induction false} LeadingWordToken(s: string, n: nat, rest: string)
    requires s != [] && s[0] != SPACE
    requires n == Span(s, DELIMS)
    requires rest == if n < |s| then s[n + 1..] else []
    ensures Tokens(s) == [s[..n]] + Tokens(rest)
  {
    assert SkipDelims(s) == s;
    assert TakeToken(s) == Some((s[..n], rest));
  }

  /** A text that starts with a word: the word is its first field, and the other
      fields are those of the text after the space that ends the word. */
  lemma {:induction false} LeadingWordFields(s: string, n: nat, rest: string)
    requires s != [] && s[0] != SPACE
    requires n == Span(s, DELIMS)
    requires rest == if n < |s| then s[n + 1..] else []
    ensures NonEmpty(Fields(s)) == [s[..n]] + NonEmpty(Fields(rest))
  {
    var w := s[..n];
    assert SPACE !in w;
    FieldsOfWord(w, s[n..]);
    assert s == w + s[n..];
    var tail := if n < |s| then Fields(rest) else [];
    var after := Fields(s[n..]);
    if n < |s| {
      assert s[n..] == [SPACE] + rest;
      assert after == [[]] + Fields(rest);
      assert after[1..] == tail;
    } else {
      assert s[n..] == [];
      assert Fields(rest) == [[]];
      assert NonEmpty(Fields(rest)) == [];
    }
    assert after[0] == [] && after[1..] == tail;
    assert w + after[0] == w;
    assert Fields(s) == [w] + tail;
    assert NonEmpty(tail) == NonEmpty(Fields(rest));
    NonEmptyConsWord(w, tail);
  }

  /** `strtok` agrees with the reference split: its tokens are exactly the
      non-empty space-separated fields, in order. */
  lemma {:induction false} TokensAreNonEmptyFields(s: string)
    ensures Tokens(s) == NonEmpty(Fields(s))
    decreases |s|
  {
    if s == [] {
    } else if s[0] == SPACE {
      LeadingSpace(s);
      TokensAreNonEmptyFields(s[1..]);
    } else {
      var n := Span(s, DELIMS);
      var rest := if n < |s| then s[n + 1..] else [];
      LeadingWordToken(s, n, rest);
      LeadingWordFields(s, n, rest);
      TokensAreNonEmptyFields(rest);
    }
  }

  /** Words glued with single spaces come back from `strtok` one by one. */
  lemma {:induction false} TokensOfJoin(words: seq<string>)
    requires |words| >= 1
    requires forall k :: 0 <= k < |words| ==> Word(words[k])
    ensures Tokens(Join(words)) == words
    decreases |words|
  {
    var w := words[0];
    assert w[0] != SPACE;
    if |words| == 1 {
      SpanOfWord(w, [], DELIMS);
      assert w + [] == w;
      LeadingWordToken(w, |w|, []);
      assert Tokens([]) == [];
    } else {
      var tail := Join(words[1..]);
      var s := w + ([SPACE] + tail);
      assert Join(words) == s;
      SpanOfWord(w, [SPACE] + tail, DELIMS);
      assert s[|w| + 1..] == tail;
      LeadingWordToken(s, |w|, tail);
      assert s[..|w|] == w;
      TokensOfJoin(words[1..]);
    }
  }

  /** Each string as a non-NULL `char *` slot. */
  function Present(xs: seq<string>): (slots: seq<Option<string>>)
    ensures |slots| == |xs|
    ensures forall k :: 0 <= k < |xs| ==> slots[k] == Some(xs[k])
  {
    seq(|xs|, k requires 0 <= k < |xs| => Some(xs[k]))
  }

  /** The vector `make_argv` leaves in `newArgv`: slot 0 unset, then the tokens. */
  function MakeArgvSlots(args: string): seq<Option<string>> {
    [None] + Present(Tokens(args))
  }

  /** One `strtok` call consumes the next token of the sequence. */
  lemma TokensAdvance(toks: seq<string>, i: nat, s: string)
    requires i <= |toks| && toks[i..] == Tokens(s)
    ensures NextToken(s).Some? ==>
              i < |toks| && toks[i] == NextToken(s).value.0
              && toks[i + 1..] == Tokens(NextToken(s).value.1)
    ensures NextToken(s).None? ==> i == |toks|
  {
    if NextToken(s).Some? {
      assert Tokens(s) == [NextToken(s).value.0] + Tokens(NextToken(s).value.1);
      assert toks[i + 1..] == toks[i..][1..];
    }
  }

  /** `make_argv(args, newArgv)`: fills slots 1.. of the 16-slot array with the
      tokens of `args` and returns the count including the reserved slot 0. The
      C code never checks the array bound, hence the precondition. */
  method MakeArgv(args: string) returns (count: nat, argv: seq<Option<string>>)
    requires |Tokens(args)| < MAX_LIB_ARGS
    ensures count == |argv| == |Tokens(args)| + 1
    ensures count <= MAX_LIB_ARGS
    ensures argv[0] == None
    ensures argv[1..] == Present(Tokens(args))
    ensures argv == MakeArgvSlots(args)
  {
    ghost var toks := Tokens(args);
    var slots: seq<Option<string>> := seq(MAX_LIB_ARGS, _ => None);
    count := 1;
    var s := args;
    var next := NextToken(s);
    while next.Some?
      invariant next == NextToken(s)
      invariant 1 <= count <= |toks| + 1 && toks[count - 1..] == Tokens(s)
      invariant |slots| == MAX_LIB_ARGS && slots[0] == None
      invariant forall k :: 1 <= k < count ==> slots[k] == Some(toks[k - 1])
      decreases |s|
    {
      TokensAdvance(toks, count - 1, s);
      slots := slots[count := Some(next.value.0)];
      count := count + 1;
      s := next.value.1;
      next := NextToken(s);
    }
    TokensAdvance(toks, count - 1, s);
    argv := slots[..count];
    assert argv == [argv[0]] + argv[1..];
  }
}
