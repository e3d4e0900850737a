/** Option/Result wrappers, and a sequence fact, used across the model. */
module Wrappers {
  datatype Option<+T> = None | Some(value: T) {
    function GetOr(default: T): T {
      match this
      case Some(v) => v
      case None => default
    }
  }

  datatype Result<+R, +E> = Ok(value: R) | Err(error: E)

  /** Regrouping a concatenation of three sequences. */
  lemma AppendAssoc<T>(a: seq<T>, b: seq<T>, c: seq<T>)
    ensures (a + b) + c == a + (b + c)
  {
  }
}

/**
 * The JavaScript string built-ins the engine relies on: `split`, `join`,
 * `filter(c => c)`, `trim`, and the decimal rendering of a counter in
 * `name + '-' + id`.
 */
module Text {

  /** JavaScript's `\s` class (WhiteSpace and LineTerminator of ECMA-262, sections 12.2 and 12.3). */
  predicate IsJsSpace(c: char) {
    c == ' ' || c == '\t' || c == '\n' || c == '\r' || c == '\U{000B}' || c == '\U{000C}'
    || c == '\U{00A0}' || c == '\U{1680}' || ('\U{2000}' <= c <= '\U{200A}')
    || c == '\U{2028}' || c == '\U{2029}' || c == '\U{202F}' || c == '\U{205F}'
    || c == '\U{3000}' || c == '\U{FEFF}'
  }

  /** ASCII whitespace of the WHATWG Infra Standard: TAB, LF, FF, CR, SPACE. */
  predicate IsAsciiSpace(c: char) {
    c == '\t' || c == '\n' || c == '\U{000C}' || c == '\r' || c == ' '
  }

  predicate IsSpaceChar(c: char) { c == ' ' }

  predicate ContainsAsciiSpace(s: string) {
    exists i :: 0 <= i < |s| && IsAsciiSpace(s[i])
  }

  /**
   * `s.split(sep)` for a separator that matches one character at a time:
   * every separator character ends a token, so two adjacent separators
   * give an empty token and the empty string gives `[""]`.
   */
  function Split(s: string, isSep: char -> bool): (r: seq<string>)
    ensures |r| >= 1
    ensures forall t, i :: t in r && 0 <= i < |t| ==> !isSep(t[i])
  {
    if s == [] then [""]
    else
      var rest := Split(s[1..], isSep);
      if isSep(s[0]) then [""] + rest
      else [[s[0]] + rest[0]] + rest[1..]
  }

  /** `ts.join(sep)`; the empty array joins to the empty string. */
  function Join(ts: seq<string>, sep: string): string {
    if |ts| == 0 then ""
    else if |ts| == 1 then ts[0]
    else ts[0] + sep + Join(ts[1..], sep)
  }

  /** Only an empty list or a single empty piece joins to the empty string. */
  lemma JoinEmpty(ts: seq<string>, sep: string)
    requires sep != ""
    ensures Join(ts, sep) == "" ==> |ts| == 0 || ts == [""]
  {
  }

  /** A string free of separator characters splits into itself alone. */
  lemma {:induction false} SplitNoSep(a: string, isSep: char -> bool)
    requires forall i :: 0 <= i < |a| ==> !isSep(a[i])
    ensures Split(a, isSep) == [a]
    decreases |a|
  {
    if a != [] {
      SplitNoSep(a[1..], isSep);
      assert [a[0]] + a[1..] == a;
    }
  }

  /** A separator ends the token before it: `(a + c + s).split` is `a` followed by the pieces of `s`. */
  lemma {:induction false} SplitPrefix(a: string, c: char, s: string, isSep: char -> bool)
    requires forall i :: 0 <= i < |a| ==> !isSep(a[i])
    requires isSep(c)
    ensures Split(a + [c] + s, isSep) == [a] + Split(s, isSep)
    decreases |a|
  {
    var w := a + [c] + s;
    if a == [] {
      assert w[1..] == s;
    } else {
      assert w[1..] == a[1..] + [c] + s;
      SplitPrefix(a[1..], c, s, isSep);
      assert [a[0]] + a[1..] == a;
    }
  }

  /**
   * Splitting a space-joined list gives the list back, provided no piece
   * holds a separator character and the space is one.
   */
  lemma {:induction false} SplitJoin(ts: seq<string>, isSep: char -> bool)
    requires |ts| >= 1 && isSep(' ')
    requires forall k, i :: 0 <= k < |ts| && 0 <= i < |ts[k]| ==> !isSep(ts[k][i])
    ensures Split(Join(ts, " "), isSep) == ts
    decreases |ts|
  {
    if |ts| == 1 {
      SplitNoSep(ts[0], isSep);
    } else {
      assert forall i :: 0 <= i < |ts[0]| ==> !isSep(ts[0][i]);
      SplitPrefix(ts[0], ' ', Join(ts[1..], " "), isSep);
      SplitJoin(ts[1..], isSep);
      assert [ts[0]] + ts[1..] == ts;
    }
  }

  /** `ts.filter((c) => c)`: keeps the non-empty tokens, in order. */
  function NonEmpty(ts: seq<string>): (r: seq<string>)
    ensures forall t :: t in r ==> t != "" && t in ts
  {
    if ts == [] then []
    else if ts[0] == "" then NonEmpty(ts[1..])
    else [ts[0]] + NonEmpty(ts[1..])
  }

  /** `s.trim()`: strips leading and trailing `\s` characters. */
  function Trim(s: string): string {
    TrimEnd(TrimStart(s))
  }

  function TrimStart(s: string): (r: string)
    ensures |r| <= |s| && r == s[|s| - |r|..]
    ensures r == [] || !IsJsSpace(r[0])
    ensures forall i :: 0 <= i < |s| - |r| ==> IsJsSpace(s[i])
  {
    if s != [] && IsJsSpace(s[0]) then TrimStart(s[1..]) else s
  }

  function TrimEnd(s: string): (r: string)
    ensures |r| <= |s| && r == s[..|r|]
    ensures r == [] || !IsJsSpace(r[|r| - 1])
    ensures forall i :: |r| <= i < |s| ==> IsJsSpace(s[i])
  {
    if s != [] && IsJsSpace(s[|s| - 1]) then TrimEnd(s[..|s| - 1]) else s
  }

  /**
   * What `trim` promises: the result is a slice of the input, everything
   * cut off on either side is whitespace, and the result neither starts nor
   * ends with whitespace.
   */
  lemma {:induction false} TrimSpec(s: string)
    ensures var r := Trim(s); var a := |s| - |TrimStart(s)|;
      && a + |r| <= |s| && r == s[a..a + |r|]
      && (forall i :: 0 <= i < a ==> IsJsSpace(s[i]))
      && (forall i :: a + |r| <= i < |s| ==> IsJsSpace(s[i]))
      && (r == [] || (!IsJsSpace(r[0]) && !IsJsSpace(r[|r| - 1])))
  {
    var t := TrimStart(s);
    var r := TrimEnd(t);
    var a := |s| - |t|;
    assert t == s[a..];
    assert r == t[..|r|];
    assert r == s[a..a + |r|] by {
      assert s[a..][..|r|] == s[a..a + |r|];
    }
    forall i | a + |r| <= i < |s| ensures IsJsSpace(s[i]) {
      assert s[i] == t[i - a];
    }
  }

  /** Trimming twice is trimming once. */
  lemma TrimIdempotent(s: string)
    ensures Trim(Trim(s)) == Trim(s)
  {
    var r := Trim(s);
    TrimSpec(s);
    assert TrimStart(r) == r;
    assert TrimEnd(r) == r;
  }

  // Decimal rendering of a counter (JavaScript's Number-to-String for integers).

  function Digit(d: nat): (c: char)
    requires d < 10
    ensures '0' <= c <= '9' && c as int - '0' as int == d
  {
    ('0' as int + d) as char
  }

  function Decimal(n: nat): (r: string)
    ensures |r| >= 1
    ensures forall i :: 0 <= i < |r| ==> '0' <= r[i] <= '9'
  {
    if n < 10 then [Digit(n)] else Decimal(n / 10) + [Digit(n % 10)]
  }

  function ParseDecimal(s: string): nat
    requires forall i :: 0 <= i < |s| ==> '0' <= s[i] <= '9'
  {
    if s == [] then 0
    else ParseDecimal(s[..|s| - 1]) * 10 + (s[|s| - 1] as int - '0' as int)
  }

  /** Reading back the decimal rendering of a number gives the number. */
  lemma {:induction false} ParseDecimalOfDecimal(n: nat)
    ensures ParseDecimal(Decimal(n)) == n
  {
    if n >= 10 {
      var s := Decimal(n);
      assert s[..|s| - 1] == Decimal(n / 10);
      ParseDecimalOfDecimal(n / 10);
    }
  }

  /** Distinct numbers render to distinct decimal strings. */
  lemma DecimalInjective(m: nat, n: nat)
    requires Decimal(m) == Decimal(n)
    ensures m == n
  {
    ParseDecimalOfDecimal(m);
    ParseDecimalOfDecimal(n);
  }
}
