/**
 * The class-string builder of src/utils/cn.ts: `mergeClasses`, which appends
 * the class names of each fragment, each followed by a space, to an
 * accumulator; and `cn`, which hands that string to tailwind-merge's
 * `twMerge`. `twMerge` is a foreign library and stays a function parameter.
 */
module ClassNames {
  import Js

  /** A class fragment: `string | string[] | Record<string, boolean> | null | undefined`.
      An array's elements are fragments themselves, because `cn` passes its whole
      argument list as one array; a record is its entries in enumeration order. */
  datatype ClassValue =
    | Str(s: string)
    | Arr(items: seq<ClassValue>)
    | Rec(entries: seq<(string, bool)>)
    | Null
    | Undefined

  /** `!!v` for a class value. `Js.Value` has no array or record payload (every
      object there is an opaque `Obj`), while `mergeClasses` walks both, so class
      values keep a datatype of their own and their truthiness is stated here:
      a string is truthy iff non-empty, arrays and records always, null and
      undefined never, as `Js.Truthy` has it for the same kinds of value. */
  predicate Truthy(v: ClassValue) {
    match v
    case Str(s) => s != ""
    case Arr(_) => true
    case Rec(_) => true
    case Null => false
    case Undefined => false
  }

  /** `${v}`: how a template literal writes a fragment. */
  function Stringify(v: ClassValue): string
    decreases v, 1, 0
  {
    match v
    case Str(s) => s
    case Null => "null"
    case Undefined => "undefined"
    case Rec(_) => "[object Object]"
    case Arr(_) => JoinItems(v, 0)
  }

  /** The elements of array `v` from index `i` on as `Array.prototype.join(",")`
      writes them: separated by commas, null and undefined as empty text. */
  function JoinItems(v: ClassValue, i: nat): string
    requires v.Arr? && i <= |v.items|
    decreases v, 0, |v.items| - i
  {
    if i == |v.items| then ""
    else
      var item := v.items[i];
      var text := if item.Null? || item.Undefined? then "" else Stringify(item);
      if i + 1 == |v.items| then text else text + "," + JoinItems(v, i + 1)
  }

  /** An array inside the list is written with commas between its elements,
      null and undefined elements as empty text, and nested arrays flattened the
      same way. */
  lemma StringifyJoins(a: string, b: string)
    ensures Stringify(Arr([Str(a), Null, Str(b)])) == a + ",," + b
    ensures Stringify(Arr([Str(a), Arr([Str(b), Undefined])])) == a + "," + b + ","
    ensures Stringify(Arr([])) == "" && Stringify(Arr([Undefined])) == ""
  {
    var v := Arr([Str(a), Null, Str(b)]);
    assert JoinItems(v, 2) == b;
    assert JoinItems(v, 1) == "" + "," + b;
    assert JoinItems(v, 0) == a + "," + ("" + "," + b);
    assert a + "," + ("" + "," + b) == a + ",," + b;
    var inner := Arr([Str(b), Undefined]);
    assert JoinItems(inner, 1) == "";
    assert Stringify(inner) == b + "," + "";
    var w := Arr([Str(a), inner]);
    assert JoinItems(w, 1) == b + "," + "";
    assert JoinItems(w, 0) == a + "," + (b + "," + "");
    assert a + "," + (b + "," + "") == a + "," + b + ",";
  }

  /** `Object.entries(v)` reduced to each key and whether its value is truthy:
      for an array its indices in decimal, for a record its entries. */
  function ObjectEntries(v: ClassValue): seq<(string, bool)>
    requires v.Arr? || v.Rec?
  {
    if v.Arr? then seq(|v.items|, i requires 0 <= i < |v.items| => (Js.IndexString(i), Truthy(v.items[i])))
    else v.entries
  }

  /** The keys of the entries whose value is truthy, in entry order. */
  function TruthyKeys(entries: seq<(string, bool)>): seq<string> {
    if entries == [] then []
    else (if entries[0].1 then [entries[0].0] else []) + TruthyKeys(entries[1..])
  }

  /** The keys `Object.entries` gives an array: one per element, each reading
      back as its own index, so no two alike; an entry is truthy iff its
      element is. */
  lemma ArrayEntryKeys(v: ClassValue)
    requires v.Arr?
    ensures var r := ObjectEntries(v);
            |r| == |v.items|
            && (forall i :: 0 <= i < |r| ==> Js.AllDigits(r[i].0) && Js.DecimalValue(r[i].0) == i)
            && (forall i :: 0 <= i < |r| ==> (r[i].1 <==> Truthy(v.items[i])))
            && (forall i, j :: 0 <= i < j < |r| ==> r[i].0 != r[j].0)
  {
    var r := ObjectEntries(v);
    forall i | 0 <= i < |r| ensures Js.AllDigits(r[i].0) && Js.DecimalValue(r[i].0) == i {
      Js.IndexStringRoundTrip(i);
    }
  }

  /** Each element of an array, stringified. */
  function Stringified(items: seq<ClassValue>): seq<string> {
    seq(|items|, i requires 0 <= i < |items| => Stringify(items[i]))
  }

  lemma StringifiedAt(items: seq<ClassValue>, j: nat)
    requires j < |items|
    ensures |Stringified(items)| == |items| && Stringified(items)[j] == Stringify(items[j])
  {
  }

  /**
   * The names one iteration of `mergeClasses`'s loop appends. The three `if`s
   * are not exclusive: an array is also `typeof 'object'`, so after its
   * elements it contributes the indices of its truthy elements.
   */
  function FragmentTokens(v: ClassValue): seq<string> {
    match v
    case Null => []
    case Undefined => []
    case Str(s) => [s]
    case Arr(items) => Stringified(items) + TruthyKeys(ObjectEntries(v))
    case Rec(entries) => TruthyKeys(entries)
  }

  /** The names of all fragments, fragment by fragment. */
  function Tokens(vs: seq<ClassValue>): seq<string> {
    if vs == [] then [] else FragmentTokens(vs[0]) + Tokens(vs[1..])
  }

  /** Each name followed by one space: how `mergeClasses` writes a name list. */
  function Spaced(ts: seq<string>): string {
    if ts == [] then "" else ts[0] + " " + Spaced(ts[1..])
  }

  /** The truthy keys of an array or record: at most one per entry, each a key
      of a truthy entry; for an array, decimal indices. */
  lemma TruthyKeysShape(v: ClassValue)
    ensures v.Arr? || v.Rec? ==> |TruthyKeys(ObjectEntries(v))| <= |ObjectEntries(v)|
    ensures v.Rec? ==> forall k :: k in TruthyKeys(ObjectEntries(v)) <==> (k, true) in v.entries
    ensures v.Arr? ==> forall t :: t in TruthyKeys(ObjectEntries(v)) ==> Js.AllDigits(t)
  {
    if v.Arr? || v.Rec? {
      TruthyKeysExactly(ObjectEntries(v));
    }
    if v.Arr? {
      ArrayEntryKeys(v);
      var e := ObjectEntries(v);
      forall t | t in TruthyKeys(e) ensures Js.AllDigits(t) {
        var i :| 0 <= i < |e| && e[i] == (t, true);
      }
    }
  }

  /** What a fragment's names are: none for null or undefined; for an array, its
      elements' strings followed by at most one decimal index per element; for
      a record, exactly the keys of its truthy entries. */
  lemma FragmentTokensShape(v: ClassValue)
    ensures var r := FragmentTokens(v);
            ((v.Null? || v.Undefined?) ==> r == [])
            && (v.Arr? ==> |v.items| <= |r| <= 2 * |v.items| && r[..|v.items|] == Stringified(v.items))
            && (v.Arr? ==> forall j :: |v.items| <= j < |r| ==> Js.AllDigits(r[j]))
            && (v.Rec? ==> forall k :: k in r <==> (k, true) in v.entries)
  {
    TruthyKeysShape(v);
    if v.Arr? {
      var s, t := Stringified(v.items), TruthyKeys(ObjectEntries(v));
      assert FragmentTokens(v) == s + t;
      assert (s + t)[..|s|] == s;
      forall j | |s| <= j < |s + t| ensures Js.AllDigits((s + t)[j]) {
        assert (s + t)[j] == t[j - |s|] && t[j - |s|] in t;
      }
    }
  }

  // ---------------------------------------------------------------------------
  // Reading a class string back

  /** The name that ends at the first space of `s`, and what follows that space. */
  function FirstWord(s: string): (r: (string, string))
    requires ' ' in s
    ensures |r.1| < |s|
  {
    if s[0] == ' ' then ("", s[1..])
    else
      var w := FirstWord(s[1..]);
      ([s[0]] + w.0, w.1)
  }

  /** The space-terminated names of a class string; a trailing part without a
      space is dropped. */
  function Words(s: string): seq<string>
    decreases |s|
  {
    if ' ' !in s then [] else var w := FirstWord(s); [w.0] + Words(w.1)
  }

  /** The name contains no space. */
  predicate SpaceFree(t: string) {
    forall i :: 0 <= i < |t| ==> t[i] != ' '
  }

  lemma {:induction false} FirstWordOf(t: string, rest: string)
    requires SpaceFree(t)
    ensures ' ' in t + " " + rest
    ensures FirstWord(t + " " + rest) == (t, rest)
  {
    var s := t + " " + rest;
    assert s[|t|] == ' ';
    if t != [] {
      assert s[1..] == t[1..] + " " + rest;
      FirstWordOf(t[1..], rest);
      assert [t[0]] + t[1..] == t;
    } else {
      assert s[1..] == rest;
    }
  }

  /** Reading a class string back gives the names written, provided none holds a space. */
  lemma {:induction false} WordsOfSpaced(ts: seq<string>)
    requires forall i :: 0 <= i < |ts| ==> SpaceFree(ts[i])
    ensures Words(Spaced(ts)) == ts
  {
    if ts != [] {
      FirstWordOf(ts[0], Spaced(ts[1..]));
      assert ts[0] + " " + Spaced(ts[1..]) == Spaced(ts);
      WordsOfSpaced(ts[1..]);
    }
  }

  // ---------------------------------------------------------------------------
  // Structure of the written string

  lemma {:induction false} SpacedAppend(a: seq<string>, b: seq<string>)
    ensures Spaced(a + b) == Spaced(a) + Spaced(b)
  {
    if a == [] {
      assert a + b == b;
    } else {
      assert (a + b)[0] == a[0] && (a + b)[1..] == a[1..] + b;
      SpacedAppend(a[1..], b);
    }
  }

  lemma {:induction false} TruthyKeysAppend(a: seq<(string, bool)>, b: seq<(string, bool)>)
    ensures TruthyKeys(a + b) == TruthyKeys(a) + TruthyKeys(b)
  {
    if a == [] {
      assert a + b == b;
    } else {
      assert (a + b)[0] == a[0] && (a + b)[1..] == a[1..] + b;
      TruthyKeysAppend(a[1..], b);
    }
  }

  /** The names of fragments in sequence are the names of each part in sequence. */
  lemma {:induction false} TokensAppend(a: seq<ClassValue>, b: seq<ClassValue>)
    ensures Tokens(a + b) == Tokens(a) + Tokens(b)
  {
    if a == [] {
      assert a + b == b;
    } else {
      assert (a + b)[0] == a[0] && (a + b)[1..] == a[1..] + b;
      TokensAppend(a[1..], b);
    }
  }

  /** A written class string is empty or ends in a space. */
  lemma {:induction false} SpacedEndsInSpace(ts: seq<string>)
    ensures Spaced(ts) == "" || Spaced(ts)[|Spaced(ts)| - 1] == ' '
    ensures Spaced(ts) == "" <==> ts == []
  {
    if ts != [] {
      SpacedEndsInSpace(ts[1..]);
    }
  }

  /** A record's truthy keys are the keys whose flag is set, in entry order. */
  lemma {:induction false} TruthyKeysExactly(entries: seq<(string, bool)>)
    ensures forall k :: k in TruthyKeys(entries) <==> (k, true) in entries
    ensures |TruthyKeys(entries)| <= |entries|
  {
    if entries != [] {
      TruthyKeysExactly(entries[1..]);
      assert entries == [entries[0]] + entries[1..];
    }
  }

  // ---------------------------------------------------------------------------
  // The loops

  /** `classValue.forEach(inputPart => (classString += `${inputPart} `))` */
  method AppendElements(classString: string, items: seq<ClassValue>) returns (r: string)
    ensures r == classString + Spaced(Stringified(items))
  {
    var strings := Stringified(items);
    r := classString;
    for j := 0 to |items|
      invariant r == classString + Spaced(strings[..j])
    {
      StringifiedAt(items, j);
      var word := strings[j];
      assert strings[..j + 1] == strings[..j] + [word];
      SpacedAppend(strings[..j], [word]);
      SpacedOne(word);
      r := r + Stringify(items[j]) + " ";
    }
    assert strings[..|items|] == strings;
  }

  /** `for (const [key, val] of Object.entries(classValue)) if (!!val) classString += `${key} `` */
  method AppendTruthyKeys(classString: string, entries: seq<(string, bool)>) returns (r: string)
    ensures r == classString + Spaced(TruthyKeys(entries))
  {
    r := classString;
    for j := 0 to |entries|
      invariant r == classString + Spaced(TruthyKeys(entries[..j]))
    {
      assert entries[..j + 1] == entries[..j] + [entries[j]];
      TruthyKeysAppend(entries[..j], [entries[j]]);
      SpacedAppend(TruthyKeys(entries[..j]), TruthyKeys([entries[j]]));
      if entries[j].1 {
        r := r + entries[j].0 + " ";
      }
    }
    assert entries[..|entries|] == entries;
  }

  /** Appending one more fragment's names to the string written so far. */
  lemma MergeStep(done: seq<ClassValue>, v: ClassValue)
    ensures Spaced(Tokens(done + [v])) == Spaced(Tokens(done)) + Spaced(FragmentTokens(v))
  {
    TokensAppend(done, [v]);
    assert [v][0] == v && [v][1..] == [];
    assert Tokens([v]) == FragmentTokens(v) + Tokens([]);
    assert FragmentTokens(v) + [] == FragmentTokens(v);
    SpacedAppend(Tokens(done), FragmentTokens(v));
  }

  /** What one fragment writes, by kind of fragment. */
  lemma FragmentWritten(v: ClassValue)
    ensures (v.Null? || v.Undefined?) ==> Spaced(FragmentTokens(v)) == ""
    ensures v.Str? ==> Spaced(FragmentTokens(v)) == v.s + " "
    ensures v.Arr? ==> Spaced(FragmentTokens(v))
                       == Spaced(Stringified(v.items)) + Spaced(TruthyKeys(ObjectEntries(v)))
    ensures v.Rec? ==> Spaced(FragmentTokens(v)) == Spaced(TruthyKeys(ObjectEntries(v)))
  {
    if v.Arr? {
      SpacedAppend(Stringified(v.items), TruthyKeys(ObjectEntries(v)));
    }
  }

  /** The three tests the loop makes on a non-null fragment: a string writes
      itself, an array its elements, and an array or record its truthy keys. */
  method AppendFragment(classString: string, classValue: ClassValue) returns (r: string)
    requires !classValue.Null? && !classValue.Undefined?
    ensures r == classString + Spaced(FragmentTokens(classValue))
  {
    FragmentWritten(classValue);
    r := classString;
    if classValue.Str? {
      r := r + classValue.s + " ";
    }
    if classValue.Arr? {
      r := AppendElements(r, classValue.items);
    }
    if classValue.Arr? || classValue.Rec? {
      r := AppendTruthyKeys(r, ObjectEntries(classValue));
    }
  }

  /**
   * `mergeClasses(...classValues)`: every fragment's names in order, each
   * followed by a space.
   */
  method MergeClasses(classValues: seq<ClassValue>) returns (classString: string)
    ensures classString == Spaced(Tokens(classValues))
  {
    classString := "";
    for k := 0 to |classValues|
      invariant classString == Spaced(Tokens(classValues[..k]))
    {
      var classValue := classValues[k];
      assert classValues[..k + 1] == classValues[..k] + [classValue];
      MergeStep(classValues[..k], classValue);
      if classValue.Null? || classValue.Undefined? {
        FragmentWritten(classValue);
        continue;
      }
      classString := AppendFragment(classString, classValue);
    }
    assert classValues[..|classValues|] == classValues;
  }

  /** `cn(...classValues)`: `twMerge` applied to `mergeClasses(classValues)`, which
      receives the argument list as ONE array fragment. */
  method Cn(twMerge: string -> string, classValues: seq<ClassValue>) returns (r: string)
    ensures r == twMerge(Spaced(FragmentTokens(Arr(classValues))))
  {
    var merged := MergeClasses([Arr(classValues)]);
    MergeStep([], Arr(classValues));
    assert [] + [Arr(classValues)] == [Arr(classValues)];
    assert Spaced(Tokens([])) == "";
    assert merged == "" + Spaced(FragmentTokens(Arr(classValues)));
    assert merged == Spaced(FragmentTokens(Arr(classValues)));
    r := twMerge(merged);
  }

  // ---------------------------------------------------------------------------
  // What each kind of fragment contributes

  /** A null or undefined fragment contributes nothing, wherever it stands. */
  lemma NullishFragmentSkipped(before: seq<ClassValue>, v: ClassValue, after: seq<ClassValue>)
    requires v.Null? || v.Undefined?
    ensures Tokens(before + [v] + after) == Tokens(before + after)
  {
    TokensAppend(before + [v], after);
    TokensAppend(before, [v]);
    TokensAppend(before, after);
    assert Tokens([v]) == [] by {
      assert [v][0] == v && [v][1..] == [];
      assert FragmentTokens(v) == [];
    }
    assert Tokens(before + [v]) == Tokens(before);
  }

  /** A string fragment contributes exactly itself followed by one space. */
  lemma StringFragmentWritten(before: seq<ClassValue>, s: string, after: seq<ClassValue>)
    ensures Spaced(Tokens(before + [Str(s)] + after))
            == Spaced(Tokens(before)) + (s + " ") + Spaced(Tokens(after))
  {
    var head := Tokens(before + [Str(s)]);
    TokensAppend(before + [Str(s)], after);
    SpacedAppend(head, Tokens(after));
    MergeStep(before, Str(s));
    FragmentWritten(Str(s));
  }

  /** A record fragment contributes the key of every truthy entry and of no
      other, in entry order. */
  lemma RecordFragmentKeys(entries: seq<(string, bool)>)
    ensures FragmentTokens(Rec(entries)) == TruthyKeys(entries)
    ensures forall k :: k in FragmentTokens(Rec(entries)) <==> (k, true) in entries
    ensures forall e: (string, bool) :: !e.1 ==> TruthyKeys(entries + [e]) == TruthyKeys(entries)
  {
    TruthyKeysExactly(entries);
    forall e: (string, bool) | !e.1 ensures TruthyKeys(entries + [e]) == TruthyKeys(entries) {
      TruthyKeysAppend(entries, [e]);
      assert [e][1..] == [];
    }
  }

  /** The indices `0 .. n-1` in decimal. */
  function IndexStrings(n: nat): (r: seq<string>)
    ensures |r| == n && forall i :: 0 <= i < n ==> r[i] == Js.IndexString(i)
  {
    seq(n, i requires 0 <= i < n => Js.IndexString(i))
  }

  lemma {:induction false} TruthyKeysAllTrue(entries: seq<(string, bool)>)
    requires forall i :: 0 <= i < |entries| ==> entries[i].1
    ensures TruthyKeys(entries) == seq(|entries|, i requires 0 <= i < |entries| => entries[i].0)
  {
    if entries != [] {
      TruthyKeysAllTrue(entries[1..]);
    }
  }

  /**
   * An array fragment of non-empty class names writes the names and then the
   * index of every element: the array also takes the `typeof 'object'` branch.
   */
  lemma ArrayFragmentAddsIndices(names: seq<string>)
    requires forall i :: 0 <= i < |names| ==> names[i] != ""
    ensures var v := Arr(seq(|names|, i requires 0 <= i < |names| => Str(names[i])));
            FragmentTokens(v) == names + IndexStrings(|names|)
  {
    var v := Arr(seq(|names|, i requires 0 <= i < |names| => Str(names[i])));
    var entries := ObjectEntries(v);
    TruthyKeysAllTrue(entries);
    assert Stringified(v.items) == names;
  }

  /** With no fragments the result is empty; otherwise it ends in a space. */
  lemma MergedShape(classValues: seq<ClassValue>)
    ensures classValues == [] ==> Spaced(Tokens(classValues)) == ""
    ensures Spaced(Tokens(classValues)) == "" || Spaced(Tokens(classValues))[|Spaced(Tokens(classValues))| - 1] == ' '
  {
    SpacedEndsInSpace(Tokens(classValues));
  }

  /** The space-separated words of the result are the fragments' names in order,
      provided no name holds a space. */
  lemma MergedWords(classValues: seq<ClassValue>)
    requires forall i :: 0 <= i < |Tokens(classValues)| ==> SpaceFree(Tokens(classValues)[i])
    ensures Words(Spaced(Tokens(classValues))) == Tokens(classValues)
  {
    WordsOfSpaced(Tokens(classValues));
  }

  lemma IndexZero()
    ensures Js.IndexString(0) == "0" && Js.IndexString(1) == "1"
  {
    assert "0123456789"[0] == '0' && "0123456789"[1] == '1';
  }

  /** `cn('mb-3', undefined)` (the root class of a form field given no class)
      hands `"mb-3 undefined 0 "` to `twMerge`. */
  lemma CnOfClassAndUndefined()
    ensures Spaced(FragmentTokens(Arr([Str("mb-3"), Undefined]))) == "mb-3 undefined 0 "
  {
    var v := Arr([Str("mb-3"), Undefined]);
    IndexZero();
    var entries := [("0", true), ("1", false)];
    assert ObjectEntries(v) == entries;
    assert entries[1..][1..] == [];
    assert TruthyKeys(entries[1..]) == [];
    assert TruthyKeys(entries) == ["0"];
    assert Stringified(v.items) == ["mb-3", "undefined"];
    assert FragmentTokens(v) == ["mb-3", "undefined", "0"];
    SpacedOfThree("mb-3", "undefined", "0");
    ClassAndUndefinedString();
  }

  lemma ClassAndUndefinedString()
    ensures "mb-3" + " " + ("undefined" + " " + ("0" + " ")) == "mb-3 undefined 0 "
  {
  }

  /** One name written out. */
  lemma SpacedOne(a: string)
    ensures Spaced([a]) == a + " "
  {
    assert [a][1..] == [];
  }

  /** Three names written out. */
  lemma SpacedOfThree(a: string, b: string, c: string)
    ensures Spaced([a, b, c]) == a + " " + (b + " " + (c + " "))
  {
    assert [c][1..] == [];
    assert Spaced([c]) == c + " " + "";
    assert c + " " + "" == c + " ";
    assert [b, c][1..] == [c];
    assert [a, b, c][1..] == [b, c];
  }

  // ---------------------------------------------------------------------------
  // Where the code departs from its documented purpose

  /** As written, `cn('p-2', {'text-sm': false, 'text-lg': true})` hands
      `"p-2 [object Object] 0 1 "` to `twMerge`: the record is stringified as an
      array element, so its truthy class `text-lg` is not among the names written. */
  lemma CnLosesRecordClasses()
    ensures var v := Arr([Str("p-2"), Rec([("text-sm", false), ("text-lg", true)])]);
            Spaced(FragmentTokens(v)) == "p-2 [object Object] 0 1 " && "text-lg" !in FragmentTokens(v)
  {
    RecordArgumentTokens();
    var ts := ["p-2", "[object Object]", "0", "1"];
    assert "text-lg" !in ts by {
      assert |"text-lg"| == 7 && |"p-2"| == 3 && |"[object Object]"| == 15 && |"0"| == 1 && |"1"| == 1;
    }
    SpacedOfFour("p-2", "[object Object]", "0", "1");
    RecordArgumentString();
  }

  lemma RecordArgumentString()
    ensures "p-2" + " " + ("[object Object]" + " " + ("0" + " " + ("1" + " "))) == "p-2 [object Object] 0 1 "
  {
  }

  /** Four names written out. */
  lemma SpacedOfFour(a: string, b: string, c: string, d: string)
    ensures Spaced([a, b, c, d]) == a + " " + (b + " " + (c + " " + (d + " ")))
  {
    SpacedOfThree(b, c, d);
    assert [a, b, c, d][1..] == [b, c, d];
  }

  lemma RecordArgumentTokens()
    ensures FragmentTokens(Arr([Str("p-2"), Rec([("text-sm", false), ("text-lg", true)])]))
            == ["p-2", "[object Object]", "0", "1"]
  {
    var v := Arr([Str("p-2"), Rec([("text-sm", false), ("text-lg", true)])]);
    IndexZero();
    var entries := [("0", true), ("1", true)];
    assert ObjectEntries(v) == entries;
    assert entries[1..][1..] == [];
    assert TruthyKeys(entries) == ["0", "1"];
    assert Stringified(v.items) == ["p-2", "[object Object]"];
  }

  /** `twMerge(mergeClasses(...classValues))`: `cn` with its arguments spread, as
      the documentation of `mergeClasses` intends. */
  method CnSpread(twMerge: string -> string, classValues: seq<ClassValue>) returns (r: string)
    ensures r == twMerge(Spaced(Tokens(classValues)))
  {
    var merged := MergeClasses(classValues);
    r := twMerge(merged);
  }

  /** With the arguments spread, every truthy key of every record argument is
      among the names handed to `twMerge`. */
  lemma {:induction false} SpreadKeepsRecordClasses(classValues: seq<ClassValue>, i: nat, key: string)
    requires i < |classValues| && classValues[i].Rec? && (key, true) in classValues[i].entries
    ensures key in Tokens(classValues)
  {
    if i == 0 {
      TruthyKeysExactly(classValues[0].entries);
    } else {
      SpreadKeepsRecordClasses(classValues[1..], i - 1, key);
    }
  }

  /** The names intended for one fragment: an array writes its elements only. */
  function IntendedFragmentTokens(v: ClassValue): seq<string> {
    match v
    case Null => []
    case Undefined => []
    case Str(s) => [s]
    case Arr(items) => Stringified(items)
    case Rec(entries) => TruthyKeys(entries)
  }

  /** Under the intended reading an array of class names writes exactly those
      names, where the code adds their indices as well. */
  lemma IntendedArrayFragment(names: seq<string>)
    requires forall i :: 0 <= i < |names| ==> names[i] != ""
    ensures var v := Arr(seq(|names|, i requires 0 <= i < |names| => Str(names[i])));
            IntendedFragmentTokens(v) == names
            && FragmentTokens(v) == IntendedFragmentTokens(v) + IndexStrings(|names|)
  {
    ArrayFragmentAddsIndices(names);
  }
}
