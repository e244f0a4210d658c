/** The JavaScript string and value primitives that the server handlers and the
    browser script rely on: the shape of a value read from a JSON body or a
    query string, truthiness, `String.prototype.trim` and
    `String.prototype.toLowerCase`. */
module JsText {
  import opened Wrappers

  /** A value read out of a parsed JSON request body or an Express query object.
      `Undefined` stands for a property that is not there. `Num` carries a
      real: a JSON number too large for a double parses to an infinity, and
      every rule modelled here treats an infinity as it treats any non-zero
      number (truthy, not a string, `String()` of it is not "true").
      `Composite` is an array or an object, carried with the text that
      `String()` makes of it, or `None` when that conversion throws (an
      object, also one nested in an array, whose `toString` is not a
      function: "Cannot convert object to primitive value"). */
  datatype JsValue =
    | Undefined
    | Null
    | Bool(b: bool)
    | Num(n: real)
    | Str(s: string)
    | Composite(rendering: Option<string>)

  /** JavaScript truthiness: `!v` is true exactly for these values. Every
      falsy value is also one that is not a string or is blank, so a `!v`
      test in front of the string and `trim` tests rejects nothing more. */
  predicate Falsy(v: JsValue)
    ensures Falsy(v) ==> !v.Str? || AllWhitespace(v.s)
  {
    match v
    case Undefined => true
    case Null => true
    case Bool(b) => !b
    case Num(n) => n == 0.0
    case Str(s) => s == ""
    case Composite(_) => false
  }

  /** `String(v)` of this value throws a TypeError. */
  predicate ToStringThrows(v: JsValue) {
    v.Composite? && v.rendering.None?
  }

  /** The characters `trim` removes: the WhiteSpace and LineTerminator
      productions of the ECMAScript grammar (tab, line feed, vertical tab,
      form feed, carriage return, space, no-break space, the byte order mark,
      the line and paragraph separators and the other Zs space separators). */
  predicate IsWhitespace(c: char) {
    var n := c as int;
    || (0x09 <= n <= 0x0D)
    || n == 0x20
    || n == 0xA0
    || n == 0x1680
    || (0x2000 <= n <= 0x200A)
    || n == 0x2028
    || n == 0x2029
    || n == 0x202F
    || n == 0x205F
    || n == 0x3000
    || n == 0xFEFF
  }

  /** A string with no whitespace at either end: what `trim` always returns. */
  predicate IsTrimmed(s: string) {
    s == [] || (!IsWhitespace(s[0]) && !IsWhitespace(s[|s| - 1]))
  }

  /** True when every character of `s` is whitespace (so also for ""). */
  predicate AllWhitespace(s: string) {
    forall i :: 0 <= i < |s| ==> IsWhitespace(s[i])
  }

  /** Drops leading whitespace: the result is the longest suffix of `s` that
      does not start with whitespace, and everything dropped is whitespace. */
  function TrimStart(s: string): (r: string)
    ensures |r| <= |s| && r == s[|s| - |r|..]
    ensures forall i :: 0 <= i < |s| - |r| ==> IsWhitespace(s[i])
    ensures r == [] || !IsWhitespace(r[0])
  {
    if s != [] && IsWhitespace(s[0]) then TrimStart(s[1..]) else s
  }

  /** Drops trailing whitespace: the result is the longest prefix of `s` that
      does not end with whitespace, and everything dropped is whitespace. */
  function TrimEnd(s: string): (r: string)
    ensures |r| <= |s| && r == s[..|r|]
    ensures forall i :: |r| <= i < |s| ==> IsWhitespace(s[i])
    ensures r == [] || !IsWhitespace(r[|r| - 1])
  {
    if s != [] && IsWhitespace(s[|s| - 1]) then TrimEnd(s[..|s| - 1]) else s
  }

  /** `s` is `r` with whitespace only before it (its first `k` characters)
      and whitespace only after it. */
  predicate Surrounds(s: string, k: nat, r: string) {
    && k + |r| <= |s|
    && r == s[k..k + |r|]
    && AllWhitespace(s[..k])
    && AllWhitespace(s[k + |r|..])
  }

  /** `String.prototype.trim`: the input with its leading and trailing
      whitespace removed, the leading run being what `TrimStart` drops. */
  function Trim(s: string): (r: string)
    ensures IsTrimmed(r)
    ensures |r| <= |s|
    ensures r == [] <==> AllWhitespace(s)
    ensures Surrounds(s, |s| - |TrimStart(s)|, r)
  {
    var t := TrimStart(s);
    var r := TrimEnd(t);
    // a non-empty `t` starts with a kept character, so `r` is empty only when `t` is
    assert r == [] ==> t == [] by {
      if t != [] {
        assert !IsWhitespace(t[0]);
      }
    }
    SurroundedByDropped(s, t, |s| - |t|, r);
    r
  }

  /** A prefix `r` of the suffix `t` of `s`, with whitespace dropped on both
      sides, is surrounded by whitespace in `s`. */
  lemma SurroundedByDropped(s: string, t: string, k: nat, r: string)
    requires k <= |s| && t == s[k..]
    requires forall i :: 0 <= i < k ==> IsWhitespace(s[i])
    requires |r| <= |t| && r == t[..|r|]
    requires forall i :: |r| <= i < |t| ==> IsWhitespace(t[i])
    ensures Surrounds(s, k, r)
  {
    assert s[k + |r|..] == t[|r|..];
  }

  /** Trimming leaves an already trimmed string alone, so trimming twice is trimming once. */
  lemma {:induction false} TrimOfTrimmed(s: string)
    requires IsTrimmed(s)
    ensures Trim(s) == s
  {
    if s != [] {
      assert TrimStart(s) == s;
      assert TrimEnd(s) == s;
    }
  }

  /** `Trim` is idempotent. */
  lemma TrimIdempotent(s: string)
    ensures Trim(Trim(s)) == Trim(s)
  {
    TrimOfTrimmed(Trim(s));
  }

  /** `toLowerCase` on one character, for the ASCII letters. */
  function LowerChar(c: char): char {
    if 'A' <= c <= 'Z' then (c as int + 32) as char else c
  }

  /** `String.prototype.toLowerCase`, on the ASCII letters. */
  function Lower(s: string): (r: string)
    ensures |r| == |s|
    ensures forall i :: 0 <= i < |s| ==> r[i] == LowerChar(s[i])
  {
    if s == [] then [] else [LowerChar(s[0])] + Lower(s[1..])
  }

  /** A string with no upper-case ASCII letter. */
  predicate NoUpper(s: string) {
    forall i :: 0 <= i < |s| ==> !('A' <= s[i] <= 'Z')
  }

  /** Lowering removes every upper-case letter and keeps lower-case text as it is. */
  lemma {:induction false} LowerNormalises(s: string)
    ensures NoUpper(Lower(s))
    ensures NoUpper(s) ==> Lower(s) == s
  {
    if s != [] {
      LowerNormalises(s[1..]);
      assert Lower(s)[1..] == Lower(s[1..]);
    }
  }

  /** Lowering is idempotent. */
  lemma LowerIdempotent(s: string)
    ensures Lower(Lower(s)) == Lower(s)
  {
    LowerNormalises(s);
    LowerNormalises(Lower(s));
  }
}
