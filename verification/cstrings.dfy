/** The C string vocabulary rild's startup code is written in: pointers that may
    be NULL, `strstr`, `strpbrk`, and the NUL that ends a string held in a buffer. */
module CStrings {

  /** A `char *` (or any pointer) that may be NULL. */
  datatype Option<+T> = None | Some(value: T) {

    /** The pointed-to value, or `default` for NULL. */
    function GetOr(default: T): T {
      match this
      case Some(v) => v
      case None => default
    }
  }

  const NUL: char := '\0'

  function Min(a: nat, b: nat): nat {
    if a <= b then a else b
  }

  /** `pat` occurs in `s` starting at index `i`. */
  predicate OccursAt(s: string, pat: string, i: nat) {
    i + |pat| <= |s| && s[i..i + |pat|] == pat
  }

  /** `strstr` from position `from` on: the leftmost occurrence of `pat`. */
  function FindFrom(s: string, pat: string, from: nat): (r: Option<nat>)
    requires from <= |s|
    ensures r.Some? ==> from <= r.value && OccursAt(s, pat, r.value)
    ensures r.Some? ==> forall j :: from <= j < r.value ==> !OccursAt(s, pat, j)
    ensures r.None? ==> forall j :: from <= j ==> !OccursAt(s, pat, j)
    decreases |s| - from
  {
    if OccursAt(s, pat, from) then Some(from)
    else if from == |s| then None
    else FindFrom(s, pat, from + 1)
  }

  /** `strstr(s, pat)`: the index of the leftmost occurrence of `pat`, None for NULL. */
  function Find(s: string, pat: string): (r: Option<nat>)
    ensures r.Some? ==> OccursAt(s, pat, r.value)
    ensures r.Some? ==> forall j :: 0 <= j < r.value ==> !OccursAt(s, pat, j)
    ensures r.None? <==> forall j :: 0 <= j ==> !OccursAt(s, pat, j)
  {
    FindFrom(s, pat, 0)
  }

  /** `strstr(s, pat) != NULL` */
  predicate Contains(s: string, pat: string) {
    Find(s, pat).Some?
  }

  /** `strpbrk`/`strcspn`: the length of the longest prefix of `s` holding no
      character of `stops`; it equals `|s|` when `strpbrk` returns NULL. */
  function Span(s: string, stops: set<char>): (n: nat)
    ensures n <= |s|
    ensures forall k :: 0 <= k < n ==> s[k] !in stops
    ensures n < |s| ==> s[n] in stops
  {
    if s == [] || s[0] in stops then 0 else 1 + Span(s[1..], stops)
  }

  /** A word free of stop characters followed by a stop character, or by
      nothing, spans exactly the word. */
  lemma SpanOfWord(w: string, rest: string, stops: set<char>)
    requires forall k :: 0 <= k < |w| ==> w[k] !in stops
    requires rest == [] || rest[0] in stops
    ensures Span(w + rest, stops) == |w|
  {
    assert forall k :: 0 <= k < |w| ==> (w + rest)[k] == w[k];
    assert rest != [] ==> (w + rest)[|w|] == rest[0];
  }

  /** The C string a buffer holds: everything before its first NUL. */
  function CStr(buf: string): (s: string)
    ensures |s| <= |buf| && s == buf[..|s|]
    ensures NUL !in s
    ensures |s| < |buf| ==> buf[|s|] == NUL
  {
    buf[..Span(buf, {NUL})]
  }
}
