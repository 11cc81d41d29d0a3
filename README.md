# glzr-io components — a Dafny model of the logic inside the components

The library is a set of SolidJS form and navigation components. Almost all of
it is markup and styling. This model covers the parts that decide something:

- **`cn` / `mergeClasses`** (`src/utils/cn.ts`). They turn conditional class
  fragments into one space-separated class string, then hand it to
  tailwind-merge. `ClassNames.MergeClasses` is the loop as written.
  `twMerge` is a function parameter.
- **`ChipInput`** (`src/components/chip-input.tsx`). It turns free text into a
  list of unique chips. Enter or `,` commits the trimmed text, Backspace in an
  empty box removes the last chip (and every earlier copy of it), and a paste
  splits on commas and newlines, trims, drops empty pieces and appends the
  missing ones in paste order. The component is the
  class `Chips.ChipInput`. `props.value` and the text box are fields, and each
  `onChange` call is recorded in the `changes` field. Each handler is proved
  against a pure specification function (`AddChipResult`, `RemoveChipResult`,
  `OnKeyDown`, `PasteChange`), and lemmas state what those functions guarantee.
- **Form-field composition** (`src/components/forms.tsx`). `FormField` decides
  which of label, error and description to show around its input.
  `FormLabel`, `FormError` and `FormDescription` carry `data-disabled`.
  `makeFieldComponent` divides one prop bag between the field, the input and
  the field's root element.
- **Select value mapping** (`src/components/select-input.tsx`). The control
  shows the first option whose value is the current value. A choice is reported
  back as the option's raw value, or as null when the selection is cleared.
  An option's text is its `textLabel`, or its `label` when there is none.
- **Breadcrumbs** (`src/components/breadcrumb.tsx`). Entries are rendered as
  linked items with a separator between neighbours. Clicking the last entry's
  link prevents navigation. The separator and the page marker write their ARIA
  attributes before spreading the caller's props, so a defined caller value
  replaces them and an undefined one, which the spread skips, leaves them.

The JavaScript semantics these depend on live in module `Js` (`js.dfy`):
truthiness, `||`, `??`, prop bags as `map<string, Value>`, Solid's `splitProps`
as `Pick`/`Omit`, `String.prototype.trim`, `split(/,|\n/)` and the decimal
index keys that `Object.entries` gives an array.

Solid's `splitProps` gives a prop to *every* list that names it. Props named in
no list go to the last group. `FORM_FIELD_PROP_NAMES`
(`src/components/forms.tsx:43-49`) and `FORM_INPUT_PROP_NAMES`
(`src/components/forms.tsx:182-188`) both list `disabled`, so the field group
and the input group overlap in that one name: a field's `disabled` reaches both
the label/error chrome and the input. `Forms.SplitFieldProps`,
`Forms.ListsShareOnlyDisabled` and `Forms.DisabledReachesBoth` state this.

Three more behaviours of the code that the model keeps:
- `onPaste` calls `onChange` exactly once, even when nothing new was pasted
  (`src/components/chip-input.tsx:95`, `Chips.ChipInput.Paste`).
- `mergeClasses` keeps every token, duplicates included
  (`src/utils/cn.ts:18-44`). Any deduplication is up to tailwind-merge, which
  is outside the model.
- `SelectInput` keeps `placeholder` and `required` for itself
  (`src/components/select-input.tsx:63-68`) and never passes them to the Kobalte
  control, so a `SelectField`'s placeholder and required flag have no effect
  (`Selects.PlaceholderAndRequiredDropped`).

## Model

| member | source | states |
|---|---|---|
| Js.Pick | src/components/forms.tsx:207-211 | a `splitProps` group holds exactly the props its list names, with their values unchanged |
| Js.Omit | src/components/forms.tsx:52-55 | the residual group holds exactly the props no list names, with their values unchanged |
| Js.SpreadOver | src/components/breadcrumb.tsx:89-94 | static attributes written before a spread are replaced by the spread's defined values and kept where the spread's value is undefined; the spread's other props pass through |
| Js.Trim | src/components/chip-input.tsx:53 | `trim` never lengthens its input, and the result neither starts nor ends with ECMAScript white space |
| Js.TrimRemovesEnds | src/components/chip-input.tsx:53 | the trimmed text is a contiguous slice of the input, and every character cut from either end is white space |
| Js.TrimEmptyIffBlank | src/components/chip-input.tsx:53-55 | text trims to `''` (falsy) iff every character is white space |
| Js.TrimIdempotent | src/components/chip-input.tsx:85 | trimming a trimmed piece changes nothing |
| Js.SplitPieces | src/components/chip-input.tsx:84 | splitting on commas and newlines gives at least one piece, and no piece contains a comma or newline |
| Js.SplitAtSeparator | src/components/chip-input.tsx:84 | text joined at a comma or newline splits into the pieces of each side, in order |
| Js.SplitRejoin | src/components/chip-input.tsx:84 | joining the pieces with the separators they were cut at gives back the pasted text (one more piece than separators) |
| Js.IndexString | src/utils/cn.ts:35 | an array index key is a non-empty string of decimal digits without a leading zero (`"0"` only for index 0) |
| Js.IndexStringRoundTrip | src/utils/cn.ts:35 | an index key reads back as its index |
| ClassNames.ArrayEntryKeys | src/utils/cn.ts:34-35 | `Object.entries` of an array has one entry per element, each key reads back as its index so no two keys are alike, and an entry is truthy iff its element is |
| ClassNames.StringifyJoins | src/utils/cn.ts:31 | an array element that is itself an array is written as `Array.prototype.join` writes it: elements separated by commas, null and undefined as empty text, nested arrays flattened |
| ClassNames.FragmentTokensShape | src/utils/cn.ts:22-40 | null and undefined give no names; an array gives its elements' strings, then at most one decimal index per element; a record gives exactly the keys of its truthy entries |
| ClassNames.TruthyKeysExactly | src/utils/cn.ts:35-39 | a key is written iff it has an entry whose value is truthy |
| ClassNames.AppendElements | src/utils/cn.ts:30-32 | the `forEach` appends each element's string followed by a space, in order |
| ClassNames.AppendTruthyKeys | src/utils/cn.ts:34-40 | the entries loop appends each truthy key followed by a space, in order |
| ClassNames.AppendFragment | src/utils/cn.ts:26-40 | the three tests on a non-null value append exactly that value's tokens, each followed by a space |
| ClassNames.MergeStep | src/utils/cn.ts:21-41 | one pass of the outer loop appends exactly what that class value contributes |
| ClassNames.FragmentWritten | src/utils/cn.ts:22-40 | a nullish value adds nothing, a string adds itself and a space, an array its elements and then its truthy index keys, a record its truthy keys |
| ClassNames.MergeClasses | src/utils/cn.ts:18-44 | the loop's result is every value's tokens, in order, each followed by one space |
| ClassNames.NullishFragmentSkipped | src/utils/cn.ts:22-24 | null and undefined contribute nothing wherever they stand |
| ClassNames.StringFragmentWritten | src/utils/cn.ts:26-28 | a string value appears, followed by a space, between what comes before and after it |
| ClassNames.RecordFragmentKeys | src/utils/cn.ts:34-40 | a record contributes exactly its truthy keys, and appending any false entry adds nothing |
| ClassNames.MergedShape | src/utils/cn.ts:18-44 | no values give `''`, and any non-empty result ends in a space |
| ClassNames.MergedWords | src/utils/cn.ts:18-44 | when no token contains a space, splitting the result on spaces gives back the tokens |
| ClassNames.Cn | src/utils/cn.ts:3-4 | `cn` hands tailwind-merge the merge of its whole argument list taken as one array fragment |
| ClassNames.CnOfClassAndUndefined | src/utils/cn.ts:3-4 | `cn('mb-3', undefined)` merges to `"mb-3 undefined 0 "`, not `"mb-3 "` |
| ClassNames.CnLosesRecordClasses | src/utils/cn.ts:3-4 | a conditional record passed to `cn` becomes `[object Object]`, and its truthy key never appears |
| ClassNames.CnSpread | src/utils/cn.ts:3-4 | the corrected `cn` hands tailwind-merge the merge of its arguments as separate fragments |
| ClassNames.SpreadKeepsRecordClasses | src/utils/cn.ts:3-4 | with the corrected `cn`, every truthy key of a record argument is in the merged tokens |
| ClassNames.ArrayFragmentAddsIndices | src/utils/cn.ts:30-40 | an array of class names writes the names and then its indices `0`, `1`, … as extra classes |
| ClassNames.IntendedArrayFragment | src/utils/cn.ts:30-40 | with the object branch kept to records, an array writes exactly its names |
| Chips.AddChipResult | src/components/chip-input.tsx:68-73 | `addChip` emits a change iff the chip is not already listed, and the change is the old list with the chip appended |
| Chips.AddChipKeepsDistinct | src/components/chip-input.tsx:68-73 | adding keeps a list free of duplicates |
| Chips.Without | src/components/chip-input.tsx:76 | the filter keeps every element except the chip, in order, with the other counts unchanged |
| Chips.RemoveChipResult | src/components/chip-input.tsx:75-77 | `removeChip` reports a list without the chip that holds every other listed chip; an undefined value gives `[]`, and an unlisted chip leaves the list unchanged |
| Chips.WithoutAbsent | src/components/chip-input.tsx:76 | removing an unlisted chip changes nothing |
| Chips.RemoveDistinctAt | src/components/chip-input.tsx:75-77 | in a list without duplicates, removing a chip deletes exactly its position |
| Chips.WithoutKeepsDistinct | src/components/chip-input.tsx:75-77 | removing keeps a list free of duplicates |
| Chips.TrimEach | src/components/chip-input.tsx:85 | every pasted piece is trimmed, in order |
| Chips.TrimmedPieces | src/components/chip-input.tsx:84-86 | the kept chips are exactly the non-empty trimmed pieces, at most one per piece, each non-empty and already trimmed |
| Chips.TrimmedPiecesAppend | src/components/chip-input.tsx:84-86 | trimming and dropping empty pieces distributes over concatenation, so the kept chips stay in paste order |
| Chips.PastedChips | src/components/chip-input.tsx:83-86 | no clipboard data offers no chips; every offered chip is non-empty and trimmed; there are at most one more chips than separators |
| Chips.PastedChipsSplit | src/components/chip-input.tsx:83-86 | text joined at a comma or newline offers the first part's chips, then the second part's |
| Chips.AppendMissing | src/components/chip-input.tsx:88-93 | the old list stays a prefix, the result holds exactly the old and pasted chips, nothing added was already there or is added twice, at most one chip is added per pasted chip, and no duplicates appear |
| Chips.AppendMissingAppend | src/components/chip-input.tsx:88-93 | appending in two batches is appending in one: chips are added in the order pasted, each at its first occurrence |
| Chips.PushMissing | src/components/chip-input.tsx:88-93 | the `forEach`/`push` loop builds exactly that list |
| Chips.OnKeyDown | src/components/chip-input.tsx:45-66 | default is prevented iff the key is Enter or `,`; the box is only ever cleared by those keys; a change happens only on a commit with non-blank text or on Backspace in an empty box |
| Chips.CommitTrimmed | src/components/chip-input.tsx:50-58 | a commit with non-blank text clears the box and appends the trimmed text iff it is not already listed |
| Chips.CommitBlank | src/components/chip-input.tsx:50-60 | a commit with blank text prevents the default and changes nothing |
| Chips.BackspaceRemovesLast | src/components/chip-input.tsx:62-77 | Backspace in an empty box with chips asks for the list with every copy of its last chip filtered out, and otherwise does nothing |
| Chips.BackspaceDropsLastEntry | src/components/chip-input.tsx:62-65 | on a list without duplicates, Backspace in an empty box takes off exactly the last entry |
| Chips.BackspaceRemovesEveryCopy | src/components/chip-input.tsx:62-77 | when the last chip also occurs earlier, Backspace drops every copy of it, so the list loses more than one entry |
| Chips.BackspaceDuplicateExample | src/components/chip-input.tsx:62-77 | Backspace with `["a", "b", "a"]` and an empty box gives `["b"]` |
| Chips.IntendedBackspace | src/components/chip-input.tsx:62-65 | taking off the last entry removes one copy of it and nothing else, and agrees with the filter on lists without duplicates |
| Chips.KeyDownKeepsDistinct | src/components/chip-input.tsx:45-77 | no key press introduces a duplicate chip |
| Chips.PasteProperties | src/components/chip-input.tsx:80-96 | a paste keeps the old list as a prefix, adds every pasted chip, adds only non-empty pasted chips, and introduces no duplicates |
| Chips.PasteChange | src/components/chip-input.tsx:88-95 | the reported list keeps the old list as a prefix and holds exactly the old and pasted chips; no clipboard data reports the old list |
| Chips.PasteInTwoParts | src/components/chip-input.tsx:80-96 | pasting `a` and `b` joined at a comma or newline gives what pasting `a` and then `b` into the result gives |
| Chips.ChipInput.constructor | src/components/chip-input.tsx:36-43 | a fresh input has an empty text box and has made no calls |
| Chips.ChipInput.Calls | src/components/chip-input.tsx:71 | `props.onChange?.(…)` makes a call iff a handler is given and there is a change to report |
| Chips.ChipInput.AddChip | src/components/chip-input.tsx:68-73 | the handler records exactly the call `AddChipResult` prescribes |
| Chips.ChipInput.RemoveChip | src/components/chip-input.tsx:75-77 | the handler always reports the filtered list |
| Chips.ChipInput.KeyDown | src/components/chip-input.tsx:45-66 | the handler's preventDefault, new box text and calls are those `OnKeyDown` prescribes |
| Chips.ChipInput.Paste | src/components/chip-input.tsx:80-96 | the handler prevents the default and reports `PasteChange` exactly once |
| Chips.ChipInput.Badges | src/components/chip-input.tsx:104-119 | one badge per chip, in order, removable iff the input is not disabled |
| Chips.ChipInput.Placeholder | src/components/chip-input.tsx:127 | the placeholder is shown only while there are no chips |
| Chips.SplitExample | src/components/chip-input.tsx:84 | `"b, c,b"` splits into `"b"`, `" c"`, `"b"` |
| Chips.TrimExample | src/components/chip-input.tsx:85-86 | those pieces trim to `"b"`, `"c"`, `"b"` |
| Chips.PasteExample | src/components/chip-input.tsx:80-96 | pasting `"b, c,b"` into an empty list gives `["b", "c"]` |
| Chips.BackspaceExample | src/components/chip-input.tsx:62-65 | Backspace in an empty box with `["b", "c"]` gives `["b"]` |
| Forms.DataDisabled | src/components/forms.tsx:118 | `data-disabled` is truthy iff `disabled` is, and it is `true` for `true` and null for `false` or a missing prop |
| Forms.FormLabel | src/components/forms.tsx:112-125 | the label forwards every other prop and sets `for` and `data-disabled`; its content is its children |
| Forms.FormMessage | src/components/forms.tsx:132-167 | `FormError` and `FormDescription` forward every other prop and set `data-disabled`; their content is their children |
| Forms.ChromeProps | src/components/forms.tsx:63-81 | a label, error or description receives only the field's `disabled`, its content as children and, for the label, `for` set to the field's `name` |
| Forms.LabelPart | src/components/forms.tsx:63-67 | a label is rendered iff `label` is truthy, and it agrees with the field |
| Forms.MessagePart | src/components/forms.tsx:72-81 | the error is rendered iff `error` is truthy, and otherwise the description iff it is truthy |
| Forms.FieldSlotsShape | src/components/forms.tsx:61-83 | parts come in the order label, input, error, description; each shows under its own condition |
| Forms.ArrangedShape | src/components/forms.tsx:61-83 | at most a label, then the child, then at most one message are in rank order, each kind shown iff its part is there |
| Forms.FieldSlotsChrome | src/components/forms.tsx:63-81 | every label, error or description part shows the field's content and `data-disabled`, and the label's `for` is the field's `name` |
| Forms.FieldRoot | src/components/forms.tsx:52-62 | the root gets every prop except the field's own and `children`, with `role="group"` |
| Forms.FormField | src/components/forms.tsx:51-84 | label iff `label`, the input always, error iff `error`, description iff no error and `description`, in that order; the label's `for` is the field's `name`; every part carries the field's `data-disabled` |
| Forms.BareField | src/components/forms.tsx:61-83 | with no label, error or description, only the input is rendered |
| Forms.ErrorHidesDescription | src/components/forms.tsx:76-81 | error and description never appear together |
| Forms.ListsShareOnlyDisabled | src/components/forms.tsx:43-49 | the field and input name lists share exactly one name, `disabled` (second list at forms.tsx:182-188) |
| Forms.SplitFieldProps | src/components/forms.tsx:207-211 | every prop lands in some group, each group holds only its list's names, and the residual holds no listed name; a prop is in both named groups iff both lists name it |
| Forms.SplitRejoins | src/components/forms.tsx:207-211 | the three groups together give back the whole bag |
| Forms.SplitResidualStable | src/components/forms.tsx:207-211 | splitting the residual again leaves it whole and the named groups empty |
| Forms.FieldBagAgrees | src/components/forms.tsx:213-214 | the bag `FormField` receives agrees with the caller's props on every field prop |
| Forms.FieldComponent | src/components/forms.tsx:204-217 | the input receives exactly its named props, the chrome follows the field props, and the root gets the residual with `role="group"` |
| Forms.DisabledReachesBoth | src/components/forms.tsx:213-216 | `disabled` reaches the input and every chrome part's `data-disabled`, and not the root |
| Selects.FirstMatch | src/components/select-input.tsx:70-72 | the first option whose value equals the current value, or none iff no option matches |
| Selects.SelectedOption | src/components/select-input.tsx:70-72 | the control shows an option iff some option carries the current value, and what it shows is the first option carrying it, as `find` returns |
| Selects.ChangeValue | src/components/select-input.tsx:83 | a choice emits the option's raw value; clearing emits null |
| Selects.TextValue | src/components/select-input.tsx:80-82 | an option's text is its `textLabel` when that is not nullish, otherwise its `label` |
| Selects.TextValueIsString | src/components/select-input.tsx:38-46 | an option with a string `textLabel`, or a string `label` when there is none, has a string text value |
| Selects.SelectedReportsValue | src/components/select-input.tsx:83-84 | the shown option reports back the current value |
| Selects.ChooseThenShow | src/components/select-input.tsx:83-84 | choosing option `i` and feeding its value back shows the first option with that value, which is option `i` when values are distinct |
| Selects.ControlAttributes | src/components/select-input.tsx:63-85 | the control gets every prop the input neither keeps nor sets itself; `disabled` and `optionValue="value"` are set after the spread, and a caller's `optionTextValue`, `itemComponent` and `children` never reach it |
| Selects.SelectInput | src/components/select-input.tsx:62-85 | the control receives the options, the first option carrying the current value, `optionValue="value"`, `disabled`, and otherwise only caller props the input neither keeps nor sets itself |
| Selects.FieldFeedsInputOnly | src/components/select-input.tsx:22-30 | a `SelectField`'s input bag leaves only the explicitly set `disabled` and `optionValue` in the control's attributes (the two name lists are written out identically) |
| Selects.PlaceholderAndRequiredDropped | src/components/select-input.tsx:62-84 | the control never receives `placeholder` or `required`, whatever the caller passes |
| Breadcrumbs.SeparatorContent | src/components/breadcrumb.tsx:95 | a separator shows the chevron iff its children are nullish, and otherwise its children |
| Breadcrumbs.SeparatorAttributes | src/components/breadcrumb.tsx:86-94 | a separator has `role="presentation"` and `aria-hidden="true"` unless the caller gives those props defined values, and forwards everything else but `class` and `children` |
| Breadcrumbs.PageAttributes | src/components/breadcrumb.tsx:70-79 | the page marker is a disabled link to the current page unless the caller gives those props defined values, and forwards everything else but `class` |
| Breadcrumbs.UndefinedKeepsDefaults | src/components/breadcrumb.tsx:73-79 | `role={undefined}` on a separator and `aria-current={undefined}` on the page marker keep the static values, while a defined `role` replaces it |
| Breadcrumbs.Fragment | src/components/breadcrumb.tsx:142-161 | entry i renders its own item (its href and content, preventing the default click iff it is the last), followed by a chevron separator iff it is not the last |
| Breadcrumbs.Render | src/components/breadcrumb.tsx:141-163 | `n` entries render as `2n - 1` pieces, none for no entries, starting and ending with an item |
| Breadcrumbs.RenderFromShape | src/components/breadcrumb.tsx:141-160 | from any entry on, items sit at even and chevron separators at odd positions, in entry order |
| Breadcrumbs.RenderShape | src/components/breadcrumb.tsx:141-160 | `n` entries give `2n - 1` pieces (none for no entries), `n - 1` separators, the items in order, and no trailing separator |
| Breadcrumbs.EntriesRoundTrip | src/components/breadcrumb.tsx:141-156 | reading the items back gives the entries: none lost, duplicated or reordered |
| Breadcrumbs.OnlyLastPreventsDefault | src/components/breadcrumb.tsx:147-151 | an item's link prevents navigation iff it is the last piece, that is, the last entry |

## Left out

- `twMerge` (tailwind-merge) and the `cva` variant functions are foreign libraries. `twMerge` is a function parameter of `ClassNames.Cn`, and `cva` is not modelled.
- The `class` attribute of every element is left out. It is built with `cn` over Tailwind literals, so the attribute maps in `Forms` and `Breadcrumbs` skip `class`.
- Rendering internals of solid-js (`createMemo`, `createSignal`, `Show`, `For`, `Dynamic`) are left out. Each becomes the value it computes: a part that is present or absent, or a sequence of pieces.
- Kobalte's `Select` is left out: opening, keyboard navigation, and what it does when the selected option is chosen again. The model stops at the props the control receives and at the mapping of its `onChange` argument.
- Markup that carries no decision is left out: `Breadcrumb`, `BreadcrumbList`, `BreadcrumbItem`, `BreadcrumbLink`, `BreadcrumbEllipsis`, the select trigger and listbox, and `ChipInput`'s root `div` with its forwarded props.
- Chips.ChipInput.KeyDown: the DOM input is assumed mounted when a handler runs, so the text box is always a string. The `inputRef()?.value` undefined case is not modelled.
- Chips.ChipInput: `onBlur` and focusing the text box on click are left out. They only forward or focus and decide nothing.
- Chips.ChipInput.Paste: the clipboard is a parameter, with `None` for missing clipboard data. Other clipboard formats are not modelled.
- Selects.ChangeValue: gives the value `onChange` receives. Whether a handler is given (`props.onChange?.`) is not modelled.
- Selects: `===` is modelled as equality of the option value type. Values are primitives or object references, and NaN is not modelled.
- Js.Value: numbers are integers, so floating point and NaN are not modelled.
- ClassNames.ClassValue: a record's keys are assumed distinct, as in any JavaScript object. The datatype does not enforce it, so `TruthyKeysExactly` and `RecordFragmentKeys` also speak of entry lists no object has.
- Selects.ControlAttributes: the control's own `optionTextValue` (modelled as `TextValue`), `itemComponent` and child markup (hidden select, trigger, listbox) are not represented as attributes. The contract states only that none of them comes from the caller.
- ClassNames.ObjectEntries: a record's keys keep their written order. JavaScript lists integer-like keys first, which is not modelled.
- `text-input.tsx`, `file-input.tsx`, `number-input.tsx`, `number-field.tsx`, `checkbox-input.tsx`, `switch-input.tsx`, `textarea-input.tsx`, `accordion.tsx`, `collapsible.tsx`, `toggle-group.tsx` and `dropdown-button.tsx` are thin wrappers or DOM adapters and are not modelled. `with-override.ts` is a type-level helper only.

## Findings

| source | as written | input that shows it | evidently intended | confidence | as-written member | corrected member |
|---|---|---|---|---|---|---|
| src/utils/cn.ts:3-4 | `cn(...classValues)` calls `mergeClasses(classValues)`, so the whole argument list is merged as one array fragment: each argument is stringified, and the array's indices are added as classes | `cn('p-2', {'text-sm': false, 'text-lg': true})` merges to `"p-2 [object Object] 0 1 "`; `cn('mb-3', undefined)` merges to `"mb-3 undefined 0 "` | spread the arguments, `mergeClasses(...classValues)`, so each argument is its own fragment | high (not executed) | ClassNames.CnLosesRecordClasses | ClassNames.SpreadKeepsRecordClasses |
| src/utils/cn.ts:30-40 | an array fragment passes both `Array.isArray` and `typeof === 'object'`, so after its elements its truthy index keys `0`, `1`, … are also written | the fragment `['a', 'b']` writes `"a b 0 1 "` | keep the object branch to records (`else if`), so the fragment writes `"a b "` | high (not executed) | ClassNames.ArrayFragmentAddsIndices | ClassNames.IntendedArrayFragment |
| src/components/chip-input.tsx:62-65 | Backspace calls `removeChip(last)`, which filters out every entry equal to the last chip, not just the last entry | the list `["a", "b", "a"]` (nothing stops a caller passing it) with an empty box gives `["b"]` | take off the last entry only, as the comment at line 62 says, giving `["a", "b"]` | medium (not executed) | Chips.BackspaceDuplicateExample | Chips.IntendedBackspace |
