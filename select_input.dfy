/**
 * The value mapping of src/components/select-input.tsx: the select control
 * shows the first option whose value is the current value, reports a chosen
 * option back as its raw value (or null when cleared), and labels each
 * option with its text label or, failing that, its label.
 *
 * JavaScript's `===` on option values is modelled as equality of `T`: the
 * values are primitives or object references, and NaN is not modelled.
 */
module Selects {
  import opened Wrappers
  import opened Js
  import Forms

  /** `SelectOption<T>`: `labelContent` is the `label` prop, a string or markup, `textLabel` an optional string. */
  datatype SelectOption<T> = SelectOption(value: T, labelContent: Value, textLabel: Value)

  /** The names `SelectInput` keeps for itself. */
  const SelectInputPropNames: seq<string> := Forms.FormInputPropNames + ["placeholder", "options", "required"]

  /** The names `SelectField` routes to its input. */
  const SelectFieldInputNames: seq<string> := Forms.FormInputPropNames + ["placeholder", "options", "required"]

  /** `options.find(option => value === option.value)`, as an index. */
  function FirstMatch<T(==)>(options: seq<SelectOption<T>>, value: T): (r: Option<nat>)
    ensures r.Some? ==> r.value < |options| && options[r.value].value == value
    ensures r.Some? ==> forall j :: 0 <= j < r.value ==> options[j].value != value
    ensures r.None? <==> forall j :: 0 <= j < |options| ==> options[j].value != value
  {
    if options == [] then None
    else if options[0].value == value then Some(0)
    else match FirstMatch(options[1..], value)
      case None => None
      case Some(i) => Some(i + 1)
  }

  /** The option the control shows as selected: the memoised `optionValue()`. */
  function SelectedOption<T(==)>(options: seq<SelectOption<T>>, value: T): (r: Option<SelectOption<T>>)
    ensures r.Some? <==> exists j :: 0 <= j < |options| && options[j].value == value
    ensures r.Some? ==> r.value in options && r.value.value == value
    ensures forall j :: 0 <= j < |options| && options[j].value == value
              && (forall k :: 0 <= k < j ==> options[k].value != value)
              ==> r == Some(options[j])
  {
    match FirstMatch(options, value)
    case None => None
    case Some(i) => Some(options[i])
  }

  /** The argument `onChange` receives: the chosen option's value, or null
      (`None`) when the selection is cleared. */
  function ChangeValue<T>(option: Option<SelectOption<T>>): (r: Option<T>)
    ensures r.None? <==> option.None?
    ensures option.Some? ==> r == Some(option.value.value)
  {
    match option
    case None => None
    case Some(o) => Some(o.value)
  }

  /** `option.textLabel ?? option.label`: the text the control shows and types ahead on. */
  function TextValue<T>(option: SelectOption<T>): (r: Value)
    ensures !Nullish(option.textLabel) ==> r == option.textLabel
    ensures Nullish(option.textLabel) ==> r == option.labelContent
  {
    Coalesce(option.textLabel, option.labelContent)
  }

  /** An option that obeys the documented rule (a string `textLabel`, or a string
      `label` when there is none) has a string text value. */
  lemma TextValueIsString<T>(option: SelectOption<T>)
    requires option.textLabel.Str? || (Nullish(option.textLabel) && option.labelContent.Str?)
    ensures TextValue(option).Str?
    ensures option.textLabel.Str? ==> TextValue(option) == option.textLabel
  {
  }

  /** The shown option reports back the current value: selecting what is shown
      changes nothing. */
  lemma SelectedReportsValue<T>(options: seq<SelectOption<T>>, value: T)
    requires exists j :: 0 <= j < |options| && options[j].value == value
    ensures ChangeValue(SelectedOption(options, value)) == Some(value)
  {
  }

  /** Choosing the option at `i` emits its value; fed back as the current value,
      that value shows the first option carrying it, which is option `i` itself
      when option values are distinct. */
  lemma ChooseThenShow<T>(options: seq<SelectOption<T>>, i: nat)
    requires i < |options|
    ensures ChangeValue(Some(options[i])) == Some(options[i].value)
    ensures var m := FirstMatch(options, options[i].value);
            m.Some? && m.value <= i && options[m.value].value == options[i].value
    ensures (forall j, k :: 0 <= j < k < |options| ==> options[j].value != options[k].value) ==>
              SelectedOption(options, options[i].value) == Some(options[i])
  {
    var m := FirstMatch(options, options[i].value);
    assert m.Some?;
  }

  /** The props `SelectInput` sets on the Kobalte control after spreading the
      caller's: besides its own names, these replace whatever the caller passed. */
  const ControlOwnNames: seq<string> := ["optionValue", "optionTextValue", "itemComponent", "children"]

  /** The props `SelectInput` hands the Kobalte control as attributes: every prop
      it does not keep and does not set itself, then `disabled` and
      `optionValue="value"` set explicitly. `optionTextValue` is `TextValue`, and
      `itemComponent` and the children are the component's own markup, so none
      of the three is taken from the caller. */
  function ControlAttributes(props: Props): (r: Props)
    ensures "disabled" in r && r["disabled"] == Get(props, "disabled")
    ensures "optionValue" in r && r["optionValue"] == Str("value")
    ensures "optionTextValue" !in r && "itemComponent" !in r && "children" !in r
    ensures forall k :: k in r && k != "disabled" && k != "optionValue" ==>
              k in props && k !in SelectInputPropNames && k !in ControlOwnNames && r[k] == props[k]
    ensures forall k :: k in props && k !in SelectInputPropNames && k !in ControlOwnNames ==> k in r
  {
    Omit(props, SelectInputPropNames + ControlOwnNames)["disabled" := Get(props, "disabled")]["optionValue" := Str("value")]
  }

  /** What the control is given: its attributes, its options and the option shown. */
  datatype SelectControl<T> = SelectControl(attrs: Props, options: seq<SelectOption<T>>, selected: Option<SelectOption<T>>)

  /** `SelectInput(props)` with `props.value` and `props.options` given as typed values. */
  function SelectInput<T(==)>(props: Props, value: T, options: seq<SelectOption<T>>): (r: SelectControl<T>)
    ensures r.options == options
    ensures r.selected.Some? <==> exists j :: 0 <= j < |options| && options[j].value == value
    ensures r.selected.Some? ==> r.selected.value.value == value
    ensures forall j :: 0 <= j < |options| && options[j].value == value
              && (forall k :: 0 <= k < j ==> options[k].value != value)
              ==> r.selected == Some(options[j])
    ensures "disabled" in r.attrs && r.attrs["disabled"] == Get(props, "disabled")
    ensures "optionValue" in r.attrs && r.attrs["optionValue"] == Str("value")
    ensures forall k :: k in r.attrs && k != "disabled" && k != "optionValue" ==>
              k in props && k !in SelectInputPropNames && k !in ControlOwnNames && r.attrs[k] == props[k]
  {
    SelectControl(ControlAttributes(props), options, SelectedOption(options, value))
  }

  /** `placeholder` and `required` are kept by `SelectInput` and never passed on:
      whatever the caller sets, the control receives neither. */
  lemma PlaceholderAndRequiredDropped<T>(props: Props, value: T, options: seq<SelectOption<T>>)
    ensures var r := SelectInput(props, value, options);
            "placeholder" !in r.attrs && "required" !in r.attrs
  {
    assert SelectInputPropNames[5] == "placeholder" && SelectInputPropNames[7] == "required";
    assert "optionValue"[0] != "placeholder"[0] && "optionValue"[0] != "required"[0];
  }

  /** `SelectField` routes to its input only the names `SelectInput` keeps, so
      nothing the field passes down falls through to the control's attributes:
      they are `disabled` and `optionValue`, both set explicitly. (The first
      ensures holds because the two name lists are written out identically in
      the source; the second is the claim.) */
  lemma FieldFeedsInputOnly(props: Props)
    ensures SelectFieldInputNames == SelectInputPropNames
    ensures ControlAttributes(Pick(props, SelectFieldInputNames))
            == map["disabled" := Get(props, "disabled"), "optionValue" := Str("value")]
  {
    var input := Pick(props, SelectFieldInputNames);
    assert "disabled" in SelectFieldInputNames by {
      assert SelectFieldInputNames[4] == "disabled";
    }
    assert Get(input, "disabled") == Get(props, "disabled");
    assert Omit(input, SelectInputPropNames + ControlOwnNames) == map[];
  }
}
