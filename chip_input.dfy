/**
 * The chip list editor of src/components/chip-input.tsx. The list itself is
 * owned by the caller (`props.value`); the component never changes it, but
 * calls `onChange` with the list it should become. The only state it owns is
 * the text in its compose box.
 */
module Chips {
  import opened Wrappers
  import Js

  /** `props.value ?? []` */
  function ChipsOf(value: Option<seq<string>>): seq<string> {
    value.GetOr([])
  }

  /** No chip occurs twice. */
  predicate Distinct(s: seq<string>) {
    forall i, j :: 0 <= i < j < |s| ==> s[i] != s[j]
  }

  // ---------------------------------------------------------------------------
  // addChip and removeChip

  /** The list `addChip(chip)` passes to `onChange`, or `None` when it makes no call. */
  function AddChipResult(value: Option<seq<string>>, chip: string): (r: Option<seq<string>>)
    ensures r.Some? <==> chip !in ChipsOf(value)
    ensures r.Some? ==> ChipsOf(value) <= r.value && r.value[|ChipsOf(value)|..] == [chip]
  {
    if chip !in ChipsOf(value) then Some(ChipsOf(value) + [chip]) else None
  }

  /** Adding a chip that is not yet there keeps the list free of duplicates. */
  lemma AddChipKeepsDistinct(value: Option<seq<string>>, chip: string)
    requires Distinct(ChipsOf(value))
    ensures AddChipResult(value, chip).Some? ==> Distinct(AddChipResult(value, chip).value)
  {
  }

  /** `s.filter(t => t !== chip)` */
  function Without(s: seq<string>, chip: string): (r: seq<string>)
    ensures forall x :: x in r <==> x in s && x != chip
    ensures multiset(r) == multiset(s)[chip := 0]
  {
    if s == [] then []
    else
      var rest := Without(s[1..], chip);
      assert s == [s[0]] + s[1..];
      if s[0] == chip then rest else [s[0]] + rest
  }

  /** The list `removeChip(chip)` passes to `onChange`: an undefined value gives `[]`. */
  function RemoveChipResult(value: Option<seq<string>>, chip: string): (r: seq<string>)
    ensures value.None? ==> r == []
    ensures chip !in r && forall x :: x in r <==> x in ChipsOf(value) && x != chip
    ensures chip !in ChipsOf(value) ==> r == ChipsOf(value)
  {
    if chip !in ChipsOf(value) then
      WithoutAbsent(ChipsOf(value), chip);
      Without(ChipsOf(value), chip)
    else Without(ChipsOf(value), chip)
  }

  /** Filtering keeps the order of what remains: it distributes over concatenation. */
  lemma {:induction false} WithoutAppend(a: seq<string>, b: seq<string>, chip: string)
    ensures Without(a + b, chip) == Without(a, chip) + Without(b, chip)
  {
    if a == [] {
      assert a + b == b;
    } else {
      assert (a + b)[0] == a[0] && (a + b)[1..] == a[1..] + b;
      WithoutAppend(a[1..], b, chip);
    }
  }

  /** Removing a chip that is not there changes nothing. */
  lemma {:induction false} WithoutAbsent(s: seq<string>, chip: string)
    requires chip !in s
    ensures Without(s, chip) == s
  {
    if s != [] {
      WithoutAbsent(s[1..], chip);
      assert s == [s[0]] + s[1..];
    }
  }

  /** In a list without duplicates, removing the chip at `k` takes out exactly that
      entry and keeps the others in their order. */
  lemma RemoveDistinctAt(s: seq<string>, k: nat)
    requires Distinct(s) && k < |s|
    ensures Without(s, s[k]) == s[..k] + s[k + 1..]
  {
    DistinctAround(s, k);
    assert s == s[..k] + [s[k]] + s[k + 1..];
    RemoveBetween(s[..k], s[k], s[k + 1..]);
  }

  /** In a list without duplicates, an entry occurs neither before nor after itself. */
  lemma DistinctAround(s: seq<string>, k: nat)
    requires Distinct(s) && k < |s|
    ensures s[k] !in s[..k] && s[k] !in s[k + 1..]
  {
    forall i | 0 <= i < k ensures s[..k][i] != s[k] {
      assert s[..k][i] == s[i];
    }
    var b := s[k + 1..];
    forall i | 0 <= i < |b| ensures b[i] != s[k] {
      assert b[i] == s[k + 1 + i];
    }
  }

  /** Removing a chip that occurs once, between `a` and `b`, leaves `a + b`. */
  lemma RemoveBetween(a: seq<string>, c: string, b: seq<string>)
    requires c !in a && c !in b
    ensures Without(a + [c] + b, c) == a + b
  {
    WithoutAppend(a + [c], b, c);
    WithoutAppend(a, [c], c);
    WithoutAbsent(a, c);
    WithoutAbsent(b, c);
    assert Without([c], c) == [] by {
      assert [c][1..] == [];
    }
    assert a + [] == a;
  }

  /** Removing keeps a list free of duplicates. */
  lemma {:induction false} WithoutKeepsDistinct(s: seq<string>, chip: string)
    requires Distinct(s)
    ensures Distinct(Without(s, chip))
  {
    if s != [] {
      WithoutKeepsDistinct(s[1..], chip);
      assert s[0] !in s[1..];
    }
  }

  // ---------------------------------------------------------------------------
  // Paste

  /** `pieces.map(item => item.trim())` */
  function TrimEach(pieces: seq<string>): (r: seq<string>)
    ensures |r| == |pieces| && forall i :: 0 <= i < |r| ==> r[i] == Js.Trim(pieces[i])
  {
    if pieces == [] then [] else [Js.Trim(pieces[0])] + TrimEach(pieces[1..])
  }

  /** `pieces.map(item => item.trim()).filter(Boolean)` */
  function TrimmedPieces(pieces: seq<string>): (r: seq<string>)
    ensures |r| <= |pieces|
    ensures forall i :: 0 <= i < |r| ==> r[i] != "" && Js.Trim(r[i]) == r[i]
    ensures forall x :: x in r <==> x != "" && x in TrimEach(pieces)
  {
    if pieces == [] then []
    else
      var t := Js.Trim(pieces[0]);
      Js.TrimIdempotent(pieces[0]);
      var rest := TrimmedPieces(pieces[1..]);
      if t == "" then rest else [t] + rest
  }

  /** Trimming and dropping empty pieces keeps the order of the pieces: it
      distributes over concatenation. */
  lemma {:induction false} TrimmedPiecesAppend(a: seq<string>, b: seq<string>)
    ensures TrimmedPieces(a + b) == TrimmedPieces(a) + TrimmedPieces(b)
  {
    if a == [] {
      assert a + b == b;
    } else {
      assert (a + b)[0] == a[0] && (a + b)[1..] == a[1..] + b;
      TrimmedPiecesAppend(a[1..], b);
    }
  }

  /** The chips a paste offers: the clipboard text split on ',' or newline, each
      piece trimmed, empty pieces dropped; no clipboard data offers none. */
  function PastedChips(clipboard: Option<string>): (r: seq<string>)
    ensures clipboard.None? ==> r == []
    ensures forall i :: 0 <= i < |r| ==> r[i] != "" && Js.Trim(r[i]) == r[i]
    ensures clipboard.Some? ==> |r| <= |Js.SeparatorsOf(clipboard.value)| + 1
  {
    if clipboard.Some? then
      Js.SplitRejoin(clipboard.value);
      TrimmedPieces(Js.SplitPieces(clipboard.value))
    else []
  }

  /** Pasting text joined at a comma or newline offers the chips of the first
      part, then those of the second, in order. */
  lemma PastedChipsSplit(a: string, c: char, b: string)
    requires Js.IsPasteSeparator(c)
    ensures PastedChips(Some(a + [c] + b)) == PastedChips(Some(a)) + PastedChips(Some(b))
  {
    Js.SplitAtSeparator(a, c, b);
    TrimmedPiecesAppend(Js.SplitPieces(a), Js.SplitPieces(b));
  }

  /** `acc` followed by each chip of `chips` that is neither in `acc` nor earlier in
      `chips`: what `onPaste`'s `forEach` leaves in `newChips`. */
  function AppendMissing(acc: seq<string>, chips: seq<string>): (r: seq<string>)
    ensures acc <= r
    ensures forall x :: x in r <==> x in acc || x in chips
    ensures forall i :: |acc| <= i < |r| ==> r[i] !in acc
    ensures forall i, j :: |acc| <= i < j < |r| ==> r[i] != r[j]
    ensures |r| <= |acc| + |chips|
    ensures Distinct(acc) ==> Distinct(r)
    decreases chips
  {
    if chips == [] then acc
    else
      var next := if chips[0] in acc then acc else acc + [chips[0]];
      var r := AppendMissing(next, chips[1..]);
      assert chips == [chips[0]] + chips[1..];
      r
  }

  /** Appending in two batches is appending in one: the chips are taken in the
      order given, and a chip is added at its first occurrence only. */
  lemma {:induction false} AppendMissingAppend(acc: seq<string>, c1: seq<string>, c2: seq<string>)
    ensures AppendMissing(acc, c1 + c2) == AppendMissing(AppendMissing(acc, c1), c2)
    decreases c1
  {
    if c1 == [] {
      assert c1 + c2 == c2;
    } else {
      assert (c1 + c2)[0] == c1[0] && (c1 + c2)[1..] == c1[1..] + c2;
      var next := if c1[0] in acc then acc else acc + [c1[0]];
      AppendMissingAppend(next, c1[1..], c2);
    }
  }

  /** `newChips = [...value]; chips.forEach(chip => { if (!newChips.includes(chip)) newChips.push(chip); })` */
  method PushMissing(value: seq<string>, chips: seq<string>) returns (newChips: seq<string>)
    ensures newChips == AppendMissing(value, chips)
  {
    newChips := value;
    for i := 0 to |chips|
      invariant AppendMissing(newChips, chips[i..]) == AppendMissing(value, chips)
    {
      assert chips[i..][0] == chips[i] && chips[i..][1..] == chips[i + 1..];
      if !(chips[i] in newChips) {
        newChips := newChips + [chips[i]];
      }
    }
    assert chips[|chips|..] == [];
  }

  /** The list `onPaste` passes to `onChange`: the old list with the pasted chips
      it lacks appended in first-seen order. */
  function PasteChange(value: Option<seq<string>>, clipboard: Option<string>): (r: seq<string>)
    ensures ChipsOf(value) <= r
    ensures forall x :: x in r <==> x in ChipsOf(value) || x in PastedChips(clipboard)
    ensures clipboard.None? ==> r == ChipsOf(value)
  {
    AppendMissing(ChipsOf(value), PastedChips(clipboard))
  }

  /** Pasting `a` and `b` joined at a comma or newline gives what pasting `a`
      and then, into the resulting list, `b` gives. */
  lemma PasteInTwoParts(value: Option<seq<string>>, a: string, c: char, b: string)
    requires Js.IsPasteSeparator(c)
    ensures PasteChange(value, Some(a + [c] + b)) == PasteChange(Some(PasteChange(value, Some(a))), Some(b))
  {
    PastedChipsSplit(a, c, b);
    AppendMissingAppend(ChipsOf(value), PastedChips(Some(a)), PastedChips(Some(b)));
  }

  // ---------------------------------------------------------------------------
  // Key handling

  /** Whether a key commits the pending text. */
  predicate IsCommitKey(key: string) {
    key == "Enter" || key == ","
  }

  /** The effect of one `keydown`: whether its default is prevented, the compose
      box's text afterwards, and the list passed to `onChange`, if any. */
  datatype KeyOutcome = KeyOutcome(preventDefault: bool, pending: string, change: Option<seq<string>>)

  /** What `onKeyDown` does with `key` given the compose box's text and the list. */
  function OnKeyDown(key: string, pending: string, value: Option<seq<string>>): (r: KeyOutcome)
    ensures r.preventDefault <==> IsCommitKey(key)
    ensures r.pending != pending ==> r.pending == "" && IsCommitKey(key)
    ensures r.change.Some? ==> (IsCommitKey(key) && Js.Trim(pending) != "") || (key == "Backspace" && pending == "")
  {
    var trimmed := Js.Trim(pending);
    assert |"Backspace"| == 9 && |"Enter"| == 5 && |","| == 1;
    if IsCommitKey(key) && trimmed != "" then
      KeyOutcome(true, "", AddChipResult(value, trimmed))
    else if key == "Backspace" && pending == "" && |ChipsOf(value)| > 0 then
      KeyOutcome(false, pending, Some(RemoveChipResult(value, ChipsOf(value)[|ChipsOf(value)| - 1])))
    else
      KeyOutcome(IsCommitKey(key), pending, None)
  }

  /** Enter or ',' with text that trims to something commits the trimmed text
      (once only: a duplicate makes no call) and empties the box either way. */
  lemma CommitTrimmed(key: string, pending: string, value: Option<seq<string>>)
    requires IsCommitKey(key) && Js.Trim(pending) != ""
    ensures var r := OnKeyDown(key, pending, value);
            r.pending == ""
            && (r.change.Some? <==> Js.Trim(pending) !in ChipsOf(value))
            && (r.change.Some? ==> r.change.value == ChipsOf(value) + [Js.Trim(pending)])
  {
  }

  /** Enter or ',' with empty or blank text changes nothing but prevents the default. */
  lemma CommitBlank(key: string, pending: string, value: Option<seq<string>>)
    requires IsCommitKey(key)
    requires forall i :: 0 <= i < |pending| ==> Js.IsWhiteSpace(pending[i])
    ensures OnKeyDown(key, pending, value) == KeyOutcome(true, pending, None)
  {
    Js.TrimEmptyIffBlank(pending);
  }

  /** Backspace on an empty box asks for the list with every copy of its last chip
      filtered out; with text in the box, or no chips, it does nothing. */
  lemma BackspaceRemovesLast(pending: string, value: Option<seq<string>>)
    ensures var r := OnKeyDown("Backspace", pending, value);
            var chips := ChipsOf(value);
            r.pending == pending && !r.preventDefault
            && (if pending == "" && chips != [] then r.change == Some(Without(chips, chips[|chips| - 1]))
                else r.change == None)
  {
    assert !IsCommitKey("Backspace") by {
      assert |"Backspace"| == 9 && |"Enter"| == 5 && |","| == 1;
    }
  }

  /** On a list without duplicates, Backspace on an empty box takes off exactly
      the last entry. */
  lemma BackspaceDropsLastEntry(value: Option<seq<string>>)
    requires Distinct(ChipsOf(value)) && ChipsOf(value) != []
    ensures OnKeyDown("Backspace", "", value).change == Some(DropLast(ChipsOf(value)))
  {
    var chips := ChipsOf(value);
    var last := |chips| - 1;
    BackspaceRemovesLast("", value);
    RemoveDistinctAt(chips, last);
    assert chips[last + 1..] == [];
    assert chips[..last] + chips[last + 1..] == chips[..last];
  }

  /** When the last chip is also listed earlier, Backspace takes out every copy of
      it, so the list loses more than one entry. */
  lemma BackspaceRemovesEveryCopy(value: Option<seq<string>>, k: nat)
    requires k < |ChipsOf(value)| - 1 && ChipsOf(value)[k] == ChipsOf(value)[|ChipsOf(value)| - 1]
    ensures var chips := ChipsOf(value);
            var r := OnKeyDown("Backspace", "", value).change;
            r.Some? && chips[k] !in r.value && |r.value| < |chips| - 1
  {
    var chips := ChipsOf(value);
    BackspaceRemovesLast("", value);
    var n := |chips| - 1;
    TwoCopies(chips, k);
    FilterTwoCopies(chips[..k], chips[n], chips[k + 1..n]);
  }

  /** A list whose entry `k` repeats its last entry, cut around both copies. */
  lemma TwoCopies(chips: seq<string>, k: nat)
    requires k < |chips| - 1 && chips[k] == chips[|chips| - 1]
    ensures chips == chips[..k] + [chips[k]] + chips[k + 1..|chips| - 1] + [chips[k]]
  {
    var n := |chips| - 1;
    var last := chips[n];
    var pre, mid := chips[..k], chips[k + 1..n];
    assert chips[..k + 1] == pre + [last];
    assert chips[n..] == [last];
    SliceAt(chips[k + 1..], n - (k + 1));
    assert chips[k + 1..][..n - (k + 1)] == mid && chips[k + 1..][n - (k + 1)..] == chips[n..];
    assert chips == chips[..k + 1] + chips[k + 1..];
  }

  lemma SliceAt(s: seq<string>, i: nat)
    requires i <= |s|
    ensures s == s[..i] + s[i..]
  {
  }

  /** Filtering a chip that occurs twice loses both copies. */
  lemma FilterTwoCopies(pre: seq<string>, c: string, mid: seq<string>)
    ensures |Without(pre + [c] + mid + [c], c)| <= |pre| + |mid|
  {
    WithoutAppend(pre + [c] + mid, [c], c);
    WithoutAppend(pre + [c], mid, c);
    WithoutAppend(pre, [c], c);
    WithoutDropsChip(c);
    WithoutShorter(pre, c);
    WithoutShorter(mid, c);
  }

  /** Filtering the list `[chip]` for `chip` leaves nothing. */
  lemma WithoutDropsChip(chip: string)
    ensures Without([chip], chip) == []
  {
    assert [chip][1..] == [];
  }

  /** Filtering never lengthens a list. */
  lemma {:induction false} WithoutShorter(s: seq<string>, chip: string)
    ensures |Without(s, chip)| <= |s|
  {
    if s != [] {
      WithoutShorter(s[1..], chip);
    }
  }

  /** Backspace with `["a", "b", "a"]` and an empty box asks for `["b"]`: both
      copies of `"a"` go. */
  lemma BackspaceDuplicateExample()
    ensures OnKeyDown("Backspace", "", Some(["a", "b", "a"])).change == Some(["b"])
  {
    var chips := ["a", "b", "a"];
    BackspaceRemovesLast("", Some(chips));
    assert chips[1..] == ["b", "a"] && chips[1..][1..] == ["a"];
    assert |"a"| == 1 && |"b"| == 1 && "a"[0] != "b"[0];
    WithoutDropsChip("a");
    assert Without(["a"], "a") == [];
    assert Without(["b", "a"], "a") == ["b"];
  }

  /** The edit Backspace is meant to make: the last entry taken off. */
  function DropLast(chips: seq<string>): (r: seq<string>)
    requires chips != []
    ensures |r| == |chips| - 1 && r + [chips[|chips| - 1]] == chips
  {
    chips[..|chips| - 1]
  }

  /** Taking off the last entry removes one copy of it and nothing else, agrees
      with the filter on lists without duplicates, and turns `["a", "b", "a"]`
      into `["a", "b"]`. */
  lemma IntendedBackspace(chips: seq<string>)
    requires chips != []
    ensures multiset(DropLast(chips)) + multiset{chips[|chips| - 1]} == multiset(chips)
    ensures Distinct(chips) ==> DropLast(chips) == Without(chips, chips[|chips| - 1])
    ensures DropLast(["a", "b", "a"]) == ["a", "b"]
  {
    var r := DropLast(chips);
    assert chips == r + [chips[|chips| - 1]];
    if Distinct(chips) {
      RemoveDistinctAt(chips, |chips| - 1);
      assert chips[|chips| - 1 + 1..] == [];
      assert chips[..|chips| - 1] + [] == r;
    }
    assert ["a", "b", "a"][..2] == ["a", "b"];
  }

  /** Whatever key is pressed, a list without duplicates is only ever replaced by
      one without duplicates. */
  lemma KeyDownKeepsDistinct(key: string, pending: string, value: Option<seq<string>>)
    requires Distinct(ChipsOf(value))
    ensures OnKeyDown(key, pending, value).change.Some? ==> Distinct(OnKeyDown(key, pending, value).change.value)
  {
    var chips := ChipsOf(value);
    if key == "Backspace" && pending == "" && chips != [] && !IsCommitKey(key) {
      WithoutKeepsDistinct(chips, chips[|chips| - 1]);
    }
  }

  /** A paste keeps the old list as a prefix, adds every pasted chip, adds
      nothing else, and introduces no duplicates. */
  lemma PasteProperties(value: Option<seq<string>>, clipboard: Option<string>)
    requires Distinct(ChipsOf(value))
    ensures var r := PasteChange(value, clipboard);
            ChipsOf(value) <= r && Distinct(r)
            && (forall c :: c in PastedChips(clipboard) ==> c in r)
            && (forall i :: |ChipsOf(value)| <= i < |r| ==> r[i] in PastedChips(clipboard) && r[i] != "")
  {
    var r := PasteChange(value, clipboard);
    forall i | |ChipsOf(value)| <= i < |r|
      ensures r[i] in PastedChips(clipboard) && r[i] != ""
    {
      assert r[i] in r;
    }
  }

  // ---------------------------------------------------------------------------
  // The component

  /** A rendered chip and whether it carries its remove control. */
  datatype Badge = Badge(text: string, removable: bool)

  class ChipInput {
    /** `props.value`, owned by the caller. */
    var value: Option<seq<string>>
    /** `props.placeholder` */
    var placeholder: Js.Value
    /** `props.disabled`, with `undefined` read as `false`. */
    var disabled: bool
    /** Whether the caller passed an `onChange` handler. */
    var hasOnChange: bool
    /** The text in the compose box (the input element's `value`). */
    var pending: string
    /** Every list passed to `onChange`, in call order. */
    var changes: seq<seq<string>>

    constructor (value: Option<seq<string>>, placeholder: Js.Value, disabled: bool, hasOnChange: bool)
      ensures this.value == value && this.placeholder == placeholder
      ensures this.disabled == disabled && this.hasOnChange == hasOnChange
      ensures pending == "" && changes == []
    {
      this.value := value;
      this.placeholder := placeholder;
      this.disabled := disabled;
      this.hasOnChange := hasOnChange;
      pending := "";
      changes := [];
    }

    /** The calls `props.onChange?.(list)` makes: none without a handler. */
    function Calls(change: Option<seq<string>>): (r: seq<seq<string>>)
      reads this
      ensures |r| <= 1
      ensures r != [] <==> hasOnChange && change.Some?
      ensures r != [] ==> r[0] == change.value
    {
      if hasOnChange && change.Some? then [change.value] else []
    }

    /** The caller re-renders the component with a new list. */
    method SetValue(newValue: Option<seq<string>>)
      modifies this`value
      ensures value == newValue
    {
      value := newValue;
    }

    /** The user edits the text in the compose box. */
    method Type(text: string)
      modifies this`pending
      ensures pending == text
    {
      pending := text;
    }

    /** `addChip(chip)` */
    method AddChip(chip: string)
      modifies this`changes
      ensures changes == old(changes) + Calls(AddChipResult(value, chip))
    {
      if !(value.Some? && chip in value.value) {
        if hasOnChange {
          changes := changes + [ChipsOf(value) + [chip]];
        }
      }
    }

    /** `removeChip(chip)`, also what a chip's remove control calls. */
    method RemoveChip(chip: string)
      modifies this`changes
      ensures changes == old(changes) + Calls(Some(RemoveChipResult(value, chip)))
    {
      if hasOnChange {
        var kept := if value.Some? then Without(value.value, chip) else [];
        changes := changes + [kept];
      }
    }

    /** `onKeyDown`: Enter or ',' commits the trimmed text; Backspace on an empty
        box removes the last chip. */
    method KeyDown(key: string) returns (preventDefault: bool)
      modifies this`pending, this`changes
      ensures var o := OnKeyDown(key, old(pending), value);
              preventDefault == o.preventDefault && pending == o.pending
              && changes == old(changes) + Calls(o.change)
    {
      var inputValue := pending;
      preventDefault := false;
      if key == "Enter" || key == "," {
        preventDefault := true;
        var trimmed := Js.Trim(inputValue);
        if trimmed != "" {
          AddChip(trimmed);
          pending := "";
          return;
        }
      }
      if key == "Backspace" && inputValue == "" && value.Some? && |value.value| > 0 {
        RemoveChip(value.value[|value.value| - 1]);
      }
    }

    /** `onPaste`: exactly one call, even when nothing new was pasted. */
    method Paste(clipboard: Option<string>) returns (preventDefault: bool)
      modifies this`changes
      ensures preventDefault
      ensures changes == old(changes) + Calls(Some(PasteChange(value, clipboard)))
    {
      preventDefault := true;
      var pastedChips := PastedChips(clipboard);
      var newChips := PushMissing(ChipsOf(value), pastedChips);
      if hasOnChange {
        changes := changes + [newChips];
      }
    }

    /** The chips shown: every chip in order, with a remove control unless disabled. */
    function Badges(): (r: seq<Badge>)
      reads this
      ensures |r| == |ChipsOf(value)|
      ensures forall i :: 0 <= i < |r| ==> r[i].text == ChipsOf(value)[i] && (r[i].removable <==> !disabled)
    {
      var chips := ChipsOf(value);
      var removable := !disabled;
      seq(|chips|, i requires 0 <= i < |chips| => Badge(chips[i], removable))
    }

    /** The compose box's placeholder: the caller's while there are no chips, `''` after. */
    function Placeholder(): (r: Js.Value)
      reads this
      ensures ChipsOf(value) == [] ==> r == placeholder
      ensures ChipsOf(value) != [] ==> r == Js.Str("")
    {
      if value.Some? && |value.value| > 0 then Js.Str("") else placeholder
    }
  }

  // ---------------------------------------------------------------------------
  // Scenarios

  /** Submitting "a" twice leaves one entry: the second Enter makes no call. */
  method SubmitTwice()
  {
    var c := new ChipInput(Some([]), Js.Undefined, false, true);
    c.Type("a");
    var _ := c.KeyDown("Enter");
    assert c.changes == [["a"]];
    c.SetValue(Some(["a"]));
    c.Type("a");
    var _ := c.KeyDown("Enter");
    assert c.changes == [["a"]] && c.pending == "";
  }

  lemma SplitExample()
    ensures Js.SplitPieces("b, c,b") == ["b", " c", "b"]
  {
    assert Js.SplitPieces("") == [""];
    assert "b"[0] == 'b' && "b"[1..] == "";
    assert ['b'] + "" == "b";
    assert Js.SplitPieces("b") == ["b"];
    assert ",b"[0] == ',' && ",b"[1..] == "b";
    assert Js.SplitPieces(",b") == ["", "b"];
    assert "c,b"[0] == 'c' && "c,b"[1..] == ",b";
    assert ['c'] + "" == "c";
    assert Js.SplitPieces("c,b") == ["c", "b"];
    assert " c,b"[0] == ' ' && " c,b"[1..] == "c,b";
    assert [' '] + "c" == " c";
    assert Js.SplitPieces(" c,b") == [" c", "b"];
    assert ", c,b"[0] == ',' && ", c,b"[1..] == " c,b";
    assert Js.SplitPieces(", c,b") == ["", " c", "b"];
    assert "b, c,b"[0] == 'b' && "b, c,b"[1..] == ", c,b";
  }

  lemma TrimExample()
    ensures TrimmedPieces(["b", " c", "b"]) == ["b", "c", "b"]
  {
    assert Js.TrimStart("b") == "b" && Js.TrimEnd("b") == "b";
    assert " c"[1..] == "c";
    assert Js.TrimStart(" c") == "c" && Js.TrimEnd("c") == "c";
    var pieces := ["b", " c", "b"];
    assert pieces[1..] == [" c", "b"] && pieces[2..] == ["b"] && pieces[3..] == [];
    assert TrimmedPieces(pieces[2..]) == ["b"];
    assert TrimmedPieces(pieces[1..]) == ["c", "b"];
  }

  /** Pasting "b, c,b" into an empty list gives ["b", "c"]: pieces trimmed, the
      repeated "b" collapsed, order kept. */
  lemma PasteExample()
    ensures PasteChange(Some([]), Some("b, c,b")) == ["b", "c"]
  {
    SplitExample();
    TrimExample();
    assert PastedChips(Some("b, c,b")) == ["b", "c", "b"];
    AppendMissingExample();
  }

  lemma AppendMissingExample()
    ensures AppendMissing([], ["b", "c", "b"]) == ["b", "c"]
  {
    assert AppendMissing(["b", "c"], []) == ["b", "c"];
    assert "b" in ["b", "c"];
    assert AppendMissing(["b", "c"], ["b"]) == ["b", "c"];
    assert "c" !in ["b"] && ["b"] + ["c"] == ["b", "c"];
    assert AppendMissing(["b"], ["c", "b"]) == ["b", "c"];
    assert [] + ["b"] == ["b"];
  }

  /** Backspace in an empty box with the list ["b", "c"] asks for ["b"]. */
  lemma BackspaceExample()
    ensures OnKeyDown("Backspace", "", Some(["b", "c"])).change == Some(["b"])
  {
    var chips := ["b", "c"];
    assert Distinct(chips);
    BackspaceDropsLastEntry(Some(chips));
    assert chips[..1] == ["b"];
  }
}
