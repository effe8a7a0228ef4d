/** The `classes` template tag (src/classes.ts): the template segments are
    interleaved with the interpolated values that are truthy, every run of
    whitespace is collapsed to one space, and the result is handed to twMerge,
    which is a parameter here. */
module Classes {

  /** An interpolated value: a string, or one of the falsy values the tag's
      signature admits (`false`, `null`, `undefined`, `0`, `0n`). */
  datatype Value = Str(s: string) | False | Null | Undefined | Zero | ZeroN

  datatype Result<T> = Ok(value: T) | ReferenceError

  /** JavaScript truthiness on the admitted values: only a non-empty string. */
  predicate Truthy(v: Value) {
    v.Str? && v.s != ""
  }

  /** What a value contributes to the class name: its text when truthy. */
  function Piece(v: Value): string {
    if Truthy(v) then v.s else ""
  }

  /** The class name before whitespace collapsing: the first segment, then for
      each i the i-th value when truthy followed by the segment after it. */
  function Interleave(first: string, segs: seq<string>, vars: seq<Value>): (r: string)
    requires |segs| == |vars|
    ensures first <= r
  {
    if segs == [] then first
    else
      var n := |segs| - 1;
      Interleave(first, segs[..n], vars[..n]) + Piece(vars[n]) + segs[n]
  }

  function Concat(segs: seq<string>): string {
    if segs == [] then "" else Concat(segs[..|segs| - 1]) + segs[|segs| - 1]
  }

  function TotalLength(segs: seq<string>): nat {
    if segs == [] then 0 else TotalLength(segs[..|segs| - 1]) + |segs[|segs| - 1]|
  }

  function PieceLength(vars: seq<Value>): nat {
    if vars == [] then 0 else PieceLength(vars[..|vars| - 1]) + |Piece(vars[|vars| - 1])|
  }

  /** The pre-collapse name is as long as the segments and the truthy values. */
  lemma {:induction false} InterleaveLength(first: string, segs: seq<string>, vars: seq<Value>)
    requires |segs| == |vars|
    ensures |Interleave(first, segs, vars)| == |first| + TotalLength(segs) + PieceLength(vars)
  {
    if segs != [] {
      var n := |segs| - 1;
      InterleaveLength(first, segs[..n], vars[..n]);
    }
  }

  /** With no truthy value the pre-collapse name is the segments concatenated. */
  lemma {:induction false} FalsyVariables(first: string, segs: seq<string>, vars: seq<Value>)
    requires |segs| == |vars|
    requires forall i :: 0 <= i < |vars| ==> !Truthy(vars[i])
    ensures Interleave(first, segs, vars) == first + Concat(segs)
  {
    if segs != [] {
      var n := |segs| - 1;
      FalsyVariables(first, segs[..n], vars[..n]);
      assert !Truthy(vars[n]);
    }
  }

  // ---------------------------------------------------------------------------
  // replaceAll(/\s+/g, " ")

  /** The characters JavaScript's `\s` matches: tab, line feed, vertical tab,
      form feed, carriage return, space, and the Unicode space separators, line
      and paragraph separators and byte order mark. */
  predicate IsSpace(c: char) {
    var n := c as int;
    (0x09 <= n <= 0x0D) || n == 0x20 || n == 0xA0 || n == 0x1680 || (0x2000 <= n <= 0x200A)
    || n == 0x2028 || n == 0x2029 || n == 0x202F || n == 0x205F || n == 0x3000 || n == 0xFEFF
  }

  /** The characters of s that are not whitespace, in order. */
  function NonSpace(s: string): string {
    if s == [] then ""
    else if IsSpace(s[0]) then NonSpace(s[1..])
    else [s[0]] + NonSpace(s[1..])
  }

  /** s without its leading whitespace. */
  function SkipSpace(s: string): (r: string)
    ensures |r| <= |s| && NonSpace(r) == NonSpace(s)
    ensures r == [] || !IsSpace(r[0])
  {
    if s != [] && IsSpace(s[0]) then SkipSpace(s[1..]) else s
  }

  /** Every maximal run of whitespace replaced by a single space. */
  function Collapse(s: string): (r: string)
    ensures |r| <= |s|
    ensures s == [] <==> r == []
    ensures s != [] && !IsSpace(s[0]) ==> r[0] == s[0]
    ensures forall i :: 0 <= i < |r| && IsSpace(r[i]) ==> r[i] == ' '
    ensures forall i :: 0 <= i < |r| - 1 ==> !(IsSpace(r[i]) && IsSpace(r[i + 1]))
    ensures NonSpace(r) == NonSpace(s)
    decreases |s|
  {
    if s == [] then ""
    else if IsSpace(s[0]) then
      var rest := Collapse(SkipSpace(s[1..]));
      assert NonSpace([' '] + rest) == NonSpace(rest);
      [' '] + rest
    else
      var rest := Collapse(s[1..]);
      assert NonSpace([s[0]] + rest) == [s[0]] + NonSpace(rest);
      [s[0]] + rest
  }

  /** A name already collapsed (no whitespace but single spaces, never two in
      a row) is left unchanged. */
  lemma {:induction false} CollapseFixes(s: string)
    requires forall i :: 0 <= i < |s| && IsSpace(s[i]) ==> s[i] == ' '
    requires forall i :: 0 <= i < |s| - 1 ==> !(IsSpace(s[i]) && IsSpace(s[i + 1]))
    ensures Collapse(s) == s
    decreases |s|
  {
    if s != [] {
      var t := s[1..];
      assert forall i :: 0 <= i < |t| ==> t[i] == s[i + 1];
      CollapseFixes(t);
      if IsSpace(s[0]) {
        assert SkipSpace(t) == t;
      }
    }
  }

  /** Collapsing twice is collapsing once. */
  lemma CollapseIdempotent(s: string)
    ensures Collapse(Collapse(s)) == Collapse(s)
  {
    CollapseFixes(Collapse(s));
  }

  // ---------------------------------------------------------------------------
  // The tag itself

  /** classes`...` (src/classes.ts:3-22): shifts the first segment off (the
      empty string when there is none), throws when the remaining segments and
      the values differ in number, builds the name in a loop, and hands the
      collapsed name to `merge`, the stand-in for twMerge. */
  method ClassName(templateSegments: seq<string>, variables: seq<Value>, merge: string -> string)
    returns (r: Result<string>)
    ensures r.ReferenceError? <==> |templateSegments| - 1 != |variables| && !(templateSegments == [] && variables == [])
    ensures r.Ok? && templateSegments == [] ==> r.value == merge("")
    ensures r.Ok? && templateSegments != [] ==>
      r.value == merge(Collapse(Interleave(templateSegments[0], templateSegments[1..], variables)))
  {
    var segments := templateSegments;
    var className := "";
    if segments != [] {
      className := segments[0];
      segments := segments[1..];
    }
    if |segments| != |variables| {
      return ReferenceError;
    }
    ghost var first := className;
    for i := 0 to |segments|
      invariant className == Interleave(first, segments[..i], variables[..i])
    {
      assert segments[..i + 1][..i] == segments[..i];
      assert variables[..i + 1][..i] == variables[..i];
      if Truthy(variables[i]) {
        className := className + variables[i].s;
      }
      className := className + segments[i];
    }
    assert segments[..|segments|] == segments;
    assert variables[..|variables|] == variables;
    r := Ok(merge(Collapse(className)));
  }
}
