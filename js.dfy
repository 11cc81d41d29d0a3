/**
 * The slice of JavaScript semantics the components rely on: values and their
 * truthiness, `||` and `??`, prop bags as Solid's `splitProps` divides them,
 * `String.prototype.trim`, splitting on `/,|\n/`, and the decimal text of an
 * array index.
 */
module Js {

  /**
   * A JavaScript value as far as these components inspect it. `Obj` stands for
   * every object (JSX elements, functions, arrays), which are all truthy; numbers
   * are kept as integers.
   */
  datatype Value = Undefined | Null | Bool(b: bool) | Num(n: int) | Str(s: string) | Obj(id: nat)

  /** `!!v` */
  predicate Truthy(v: Value) {
    match v
    case Undefined => false
    case Null => false
    case Bool(b) => b
    case Num(n) => n != 0
    case Str(s) => s != ""
    case Obj(_) => true
  }

  /** `v === null || v === undefined` */
  predicate Nullish(v: Value) {
    v.Undefined? || v.Null?
  }

  /** `a || b`: the first operand when it is truthy, otherwise the second. */
  function Or(a: Value, b: Value): Value {
    if Truthy(a) then a else b
  }

  /** `a ?? b`: the first operand unless it is null or undefined. */
  function Coalesce(a: Value, b: Value): Value {
    if Nullish(a) then b else a
  }

  lemma NullishIsFalsy(v: Value)
    ensures Nullish(v) ==> !Truthy(v)
    ensures Coalesce(v, Null) == Or(v, Null) <== (Nullish(v) || Truthy(v))
  {
  }

  // ---------------------------------------------------------------------------
  // Prop bags

  /** The props a component receives, by name; a name that is absent reads as `undefined`. */
  type Props = map<string, Value>

  /** `props[name]` */
  function Get(props: Props, name: string): Value {
    if name in props then props[name] else Undefined
  }

  /** The set of names in a name list. */
  function Names(names: seq<string>): set<string> {
    set n | n in names
  }

  /** The group `splitProps` builds for one name list: every prop the list names, unchanged. */
  function Pick(props: Props, names: seq<string>): (r: Props)
    ensures r.Keys == props.Keys * Names(names)
    ensures forall k :: k in r ==> r[k] == props[k]
  {
    map k | k in props && k in names :: props[k]
  }

  /** The last group `splitProps` returns: every prop that no list names, unchanged. */
  function Omit(props: Props, names: seq<string>): (r: Props)
    ensures r.Keys == props.Keys - Names(names)
    ensures forall k :: k in r ==> r[k] == props[k]
  {
    map k | k in props && k !in names :: props[k]
  }

  /** Static attributes `base` written before a spread of `props` on one element:
      a spread value replaces the static one, except that an undefined value is
      skipped by the spread and the static attribute stays. */
  function SpreadOver(base: Props, props: Props): (r: Props)
    ensures r.Keys == base.Keys + props.Keys
    ensures forall k :: k in props && props[k] != Undefined ==> r[k] == props[k]
    ensures forall k :: k in base && Get(props, k) == Undefined ==> r[k] == base[k]
    ensures forall k :: k in r && k !in base ==> r[k] == props[k]
  {
    map k | k in base.Keys + props.Keys ::
      if k in props && (props[k] != Undefined || k !in base) then props[k] else base[k]
  }

  // ---------------------------------------------------------------------------
  // String.prototype.trim

  /** The characters `trim` removes: ECMAScript's WhiteSpace and LineTerminator. */
  predicate IsWhiteSpace(c: char) {
    c == '\t' || c == '\n' || c == '\U{000B}' || c == '\U{000C}' || c == '\r' || c == ' '
    || c == '\U{00A0}' || c == '\U{1680}' || ('\U{2000}' <= c <= '\U{200A}')
    || c == '\U{2028}' || c == '\U{2029}' || c == '\U{202F}' || c == '\U{205F}'
    || c == '\U{3000}' || c == '\U{FEFF}'
  }

  /** `s` without its leading white space. */
  function TrimStart(s: string): (r: string)
    ensures |r| <= |s|
    ensures r == [] || !IsWhiteSpace(r[0])
  {
    if s != [] && IsWhiteSpace(s[0]) then TrimStart(s[1..]) else s
  }

  /** `s` without its trailing white space. */
  function TrimEnd(s: string): (r: string)
    ensures |r| <= |s|
    ensures r == [] || !IsWhiteSpace(r[|r| - 1])
  {
    if s != [] && IsWhiteSpace(s[|s| - 1]) then TrimEnd(s[..|s| - 1]) else s
  }

  /** `s.trim()`: the part of `s` between its leading and its trailing white space. */
  function Trim(s: string): (r: string)
    ensures |r| <= |s|
    ensures r == [] || (!IsWhiteSpace(r[0]) && !IsWhiteSpace(r[|r| - 1]))
  {
    TrimEndIsPrefix(TrimStart(s));
    TrimEnd(TrimStart(s))
  }

  /** `TrimStart` removes a prefix of white space and nothing else. */
  lemma {:induction false} TrimStartIsSuffix(s: string)
    ensures var r := TrimStart(s);
            r == s[|s| - |r|..] && forall i :: 0 <= i < |s| - |r| ==> IsWhiteSpace(s[i])
  {
    if s != [] && IsWhiteSpace(s[0]) {
      TrimStartIsSuffix(s[1..]);
    }
  }

  /** `TrimEnd` removes a suffix of white space and nothing else. */
  lemma {:induction false} TrimEndIsPrefix(s: string)
    ensures var r := TrimEnd(s);
            r == s[..|r|] && forall i :: |r| <= i < |s| ==> IsWhiteSpace(s[i])
  {
    if s != [] && IsWhiteSpace(s[|s| - 1]) {
      TrimEndIsPrefix(s[..|s| - 1]);
    }
  }

  /** What `trim` removes is white space at either end, and nothing else. */
  lemma TrimRemovesEnds(s: string)
    ensures var a := |s| - |TrimStart(s)|;
            var r := Trim(s);
            a + |r| <= |s| && r == s[a..a + |r|]
            && (forall i :: 0 <= i < a ==> IsWhiteSpace(s[i]))
            && (forall i :: a + |r| <= i < |s| ==> IsWhiteSpace(s[i]))
  {
    var t := TrimStart(s);
    TrimStartIsSuffix(s);
    TrimEndIsPrefix(t);
    var r := TrimEnd(t);
    var a := |s| - |t|;
    assert r == s[a..a + |r|];
    TrimEndTail(s, a, t, |r|);
  }

  /** White space at the end of a suffix is white space at the end of the whole. */
  lemma TrimEndTail(s: string, a: nat, t: string, n: nat)
    requires a <= |s| && t == s[a..] && n <= |t|
    requires forall i :: n <= i < |t| ==> IsWhiteSpace(t[i])
    ensures forall i :: a + n <= i < |s| ==> IsWhiteSpace(s[i])
  {
    forall i | a + n <= i < |s| ensures IsWhiteSpace(s[i]) {
      assert s[i] == t[i - a];
    }
  }

  /** Trimming gives the empty string exactly when every character is white space. */
  lemma TrimEmptyIffBlank(s: string)
    ensures Trim(s) == "" <==> forall i :: 0 <= i < |s| ==> IsWhiteSpace(s[i])
  {
    TrimRemovesEnds(s);
  }

  /** Trimming twice is trimming once. */
  lemma TrimIdempotent(s: string)
    ensures Trim(Trim(s)) == Trim(s)
  {
    var r := Trim(s);
    if r != [] {
      assert TrimStart(r) == r;
      assert TrimEnd(r) == r;
    }
  }

  // ---------------------------------------------------------------------------
  // String.prototype.split(/,|\n/)

  /** The separators of the pattern `/,|\n/`. */
  predicate IsPasteSeparator(c: char) {
    c == ',' || c == '\n'
  }

  /** No separator occurs in `p`. */
  predicate SeparatorFree(p: string) {
    forall i :: 0 <= i < |p| ==> !IsPasteSeparator(p[i])
  }

  /** `s.split(/,|\n/)`: the pieces between separators, empty ones included; never empty. */
  function SplitPieces(s: string): (r: seq<string>)
    ensures |r| >= 1
    ensures forall k :: 0 <= k < |r| ==> SeparatorFree(r[k])
  {
    if s == [] then [""]
    else
      var rest := SplitPieces(s[1..]);
      if IsPasteSeparator(s[0]) then [""] + rest
      else
        var head := [s[0]] + rest[0];
        assert SeparatorFree(head) by {
          assert forall i :: 1 <= i < |head| ==> head[i] == rest[0][i - 1];
        }
        [head] + rest[1..]
  }

  /** The separators of `s`, in order. */
  function SeparatorsOf(s: string): seq<char> {
    if s == [] then []
    else (if IsPasteSeparator(s[0]) then [s[0]] else []) + SeparatorsOf(s[1..])
  }

  /** `pieces[0] + seps[0] + pieces[1] + ... + pieces[n-1]`: putting split text back together. */
  function Rejoin(pieces: seq<string>, seps: seq<char>): string
    requires |pieces| == |seps| + 1
  {
    if seps == [] then pieces[0]
    else pieces[0] + [seps[0]] + Rejoin(pieces[1..], seps[1..])
  }

  /** Splitting loses nothing: there is one more piece than separators, and the
      pieces joined by the separators they were split at give back the text. */
  lemma {:induction false} SplitRejoin(s: string)
    ensures |SplitPieces(s)| == |SeparatorsOf(s)| + 1
    ensures Rejoin(SplitPieces(s), SeparatorsOf(s)) == s
  {
    if s != [] {
      SplitRejoin(s[1..]);
      var rest := SplitPieces(s[1..]);
      if !IsPasteSeparator(s[0]) {
        var seps := SeparatorsOf(s[1..]);
        assert SeparatorsOf(s) == seps;
        if seps != [] {
          assert SplitPieces(s)[1..] == rest[1..];
        }
      }
    }
  }

  /** Text joined at a separator splits into the pieces of each side. */
  lemma {:induction false} SplitAtSeparator(a: string, c: char, b: string)
    requires IsPasteSeparator(c)
    ensures SplitPieces(a + [c] + b) == SplitPieces(a) + SplitPieces(b)
  {
    var s := a + [c] + b;
    if a == [] {
      assert s[0] == c && s[1..] == b;
    } else {
      assert s[0] == a[0] && s[1..] == a[1..] + [c] + b;
      SplitAtSeparator(a[1..], c, b);
    }
  }

  // ---------------------------------------------------------------------------
  // Array indices as property keys

  /** The decimal digit `d`. */
  function Digit(d: nat): char
    requires d < 10
  {
    "0123456789"[d]
  }

  /** `String(n)`: the decimal text of an index, as `Object.entries` keys an array. */
  function IndexString(n: nat): (r: string)
    ensures r != [] && AllDigits(r)
    ensures r[0] == '0' <==> n == 0
    ensures n == 0 ==> r == "0"
  {
    assert forall d :: 1 <= d < 10 ==> Digit(d) != '0';
    if n < 10 then [Digit(n)] else IndexString(n / 10) + [Digit(n % 10)]
  }

  /** Every character of `s` is a decimal digit. */
  predicate AllDigits(s: string) {
    forall i :: 0 <= i < |s| ==> '0' <= s[i] <= '9'
  }

  /** The number a string of decimal digits denotes. */
  function DecimalValue(s: string): nat
    requires AllDigits(s)
  {
    if s == [] then 0
    else 10 * DecimalValue(s[..|s| - 1]) + (s[|s| - 1] as int - '0' as int)
  }

  /** An index key reads back as the index. */
  lemma {:induction false} IndexStringRoundTrip(n: nat)
    ensures DecimalValue(IndexString(n)) == n
  {
    if n >= 10 {
      IndexStringRoundTrip(n / 10);
      var s := IndexString(n);
      assert s[..|s| - 1] == IndexString(n / 10);
    }
  }
}
