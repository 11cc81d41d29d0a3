/**
 * The form-field composition of src/components/forms.tsx: `FormField`, which
 * decides which of label, error and description surround an input;
 * `FormLabel`, `FormError` and `FormDescription`, which mark themselves
 * disabled; and `makeFieldComponent`, which divides one prop bag between the
 * field chrome, the input and the root element.
 *
 * `class` attributes are built by `cn` over Tailwind literals and `cva`
 * variants and are not part of this model (ClassNames models `cn`).
 */
module Forms {
  import opened Js

  /** `FORM_FIELD_PROP_NAMES` */
  const FormFieldPropNames: seq<string> := ["label", "description", "error", "name", "disabled"]

  /** `FORM_INPUT_PROP_NAMES` */
  const FormInputPropNames: seq<string> := ["value", "ref", "onChange", "onBlur", "disabled"]

  /** A rendered element: its attributes (other than `class`) and its content. */
  datatype Element = Element(attrs: Props, content: Value)

  /** `props.disabled || null`: the value of `data-disabled`. */
  function DataDisabled(disabled: Value): (r: Value)
    ensures Truthy(r) <==> Truthy(disabled)
    ensures r == disabled || r == Null
    ensures disabled == Bool(true) ==> r == Bool(true)
    ensures disabled == Bool(false) || disabled == Undefined ==> r == Null
  {
    Or(disabled, Null)
  }

  /** `<label {...others} data-disabled={props.disabled || null} for={props.for}>` */
  function FormLabel(props: Props): (r: Element)
    ensures r.attrs.Keys == (props.Keys - {"for", "children", "disabled", "class"}) + {"data-disabled", "for"}
    ensures r.attrs["data-disabled"] == DataDisabled(Get(props, "disabled"))
    ensures r.attrs["for"] == Get(props, "for")
    ensures forall k :: k in r.attrs && k != "data-disabled" && k != "for" ==> r.attrs[k] == props[k]
    ensures r.content == Get(props, "children")
  {
    var others := Omit(props, ["for", "children", "disabled", "class"]);
    Element(others["data-disabled" := DataDisabled(Get(props, "disabled"))]["for" := Get(props, "for")],
            Get(props, "children"))
  }

  /** `<small {...others} data-disabled={props.disabled || null}>`: `FormError` and
      `FormDescription`, which differ only in their classes. */
  function FormMessage(props: Props): (r: Element)
    ensures r.attrs.Keys == (props.Keys - {"children", "disabled", "class"}) + {"data-disabled"}
    ensures r.attrs["data-disabled"] == DataDisabled(Get(props, "disabled"))
    ensures forall k :: k in r.attrs && k != "data-disabled" ==> r.attrs[k] == props[k]
    ensures r.content == Get(props, "children")
  {
    var others := Omit(props, ["children", "disabled", "class"]);
    Element(others["data-disabled" := DataDisabled(Get(props, "disabled"))], Get(props, "children"))
  }

  // ---------------------------------------------------------------------------
  // FormField

  /** One part of a rendered form field. */
  datatype Slot<C> =
    | LabelSlot(element: Element)
    | ChildSlot(child: C)
    | ErrorSlot(element: Element)
    | DescriptionSlot(element: Element)

  /** A rendered form field: the root `div`'s attributes and its parts in order. */
  datatype FieldRender<C> = FieldRender(root: Props, slots: seq<Slot<C>>)

  /** The position of a kind of part: label, input, error, description. */
  function Rank<C>(s: Slot<C>): nat {
    match s
    case LabelSlot(_) => 0
    case ChildSlot(_) => 1
    case ErrorSlot(_) => 2
    case DescriptionSlot(_) => 3
  }

  /** Some part of kind `rank` is rendered. */
  predicate Shows<C>(slots: seq<Slot<C>>, rank: nat) {
    exists i :: 0 <= i < |slots| && Rank(slots[i]) == rank
  }

  /** The props `FormField` hands `FormLabel`, `FormError` or `FormDescription`:
      the field's `disabled`, the named content as children and, for the label
      only, `for` set to the field's `name`; none of the field's other props. */
  function ChromeProps(props: Props, content: string): (r: Props)
    ensures r.Keys == (if content == "label" then {"for", "disabled", "children"} else {"disabled", "children"})
    ensures r["disabled"] == Get(props, "disabled") && r["children"] == Get(props, content)
    ensures content == "label" ==> r["for"] == Get(props, "name")
  {
    if content == "label" then
      map["for" := Get(props, "name"), "disabled" := Get(props, "disabled"), "children" := Get(props, "label")]
    else
      map["disabled" := Get(props, "disabled"), "children" := Get(props, content)]
  }

  /** Parts come in the order label, input, error, description, each at most once. */
  predicate Ordered<C>(slots: seq<Slot<C>>) {
    forall i, j :: 0 <= i < j < |slots| ==> Rank(slots[i]) < Rank(slots[j])
  }

  /** A label, error or description part carries the field's content and its
      `disabled` state; a label points at the field's `name`. */
  predicate ChromeAgrees<C>(props: Props, s: Slot<C>) {
    match s
    case LabelSlot(e) =>
      "for" in e.attrs && e.attrs["for"] == Get(props, "name") && e.content == Get(props, "label")
      && "data-disabled" in e.attrs && e.attrs["data-disabled"] == DataDisabled(Get(props, "disabled"))
    case ChildSlot(_) => true
    case ErrorSlot(e) =>
      e.content == Get(props, "error")
      && "data-disabled" in e.attrs && e.attrs["data-disabled"] == DataDisabled(Get(props, "disabled"))
    case DescriptionSlot(e) =>
      e.content == Get(props, "description")
      && "data-disabled" in e.attrs && e.attrs["data-disabled"] == DataDisabled(Get(props, "disabled"))
  }

  /** `<Show when={props.label}>`: the label, if any. */
  function LabelPart<C>(props: Props): (r: seq<Slot<C>>)
    ensures |r| <= 1 && (r != [] <==> Truthy(Get(props, "label")))
    ensures forall i :: 0 <= i < |r| ==> r[i].LabelSlot? && ChromeAgrees(props, r[i])
  {
    if Truthy(Get(props, "label")) then [LabelSlot(FormLabel(ChromeProps(props, "label")))] else []
  }

  /** `<Show when={error()}>` followed by `<Show when={!error() && description()}>`:
      the error if any, otherwise the description if any. */
  function MessagePart<C>(props: Props): (r: seq<Slot<C>>)
    ensures |r| <= 1
    ensures r != [] && r[0].ErrorSlot? <==> Truthy(Get(props, "error"))
    ensures r != [] && r[0].DescriptionSlot? <==> !Truthy(Get(props, "error")) && Truthy(Get(props, "description"))
    ensures forall i :: 0 <= i < |r| ==> (r[i].ErrorSlot? || r[i].DescriptionSlot?) && ChromeAgrees(props, r[i])
  {
    if Truthy(Get(props, "error")) then [ErrorSlot(FormMessage(ChromeProps(props, "error")))]
    else if Truthy(Get(props, "description")) then [DescriptionSlot(FormMessage(ChromeProps(props, "description")))]
    else []
  }

  /** The parts of a field in document order. */
  function FieldSlots<C>(props: Props, children: C): seq<Slot<C>> {
    LabelPart(props) + [ChildSlot(children)] + MessagePart(props)
  }

  lemma FieldSlotsShape<C>(props: Props, children: C)
    ensures var slots := FieldSlots(props, children);
            Ordered(slots)
            && (Shows(slots, 0) <==> Truthy(Get(props, "label")))
            && ChildSlot(children) in slots
            && (Shows(slots, 2) <==> Truthy(Get(props, "error")))
            && (Shows(slots, 3) <==> !Truthy(Get(props, "error")) && Truthy(Get(props, "description")))
  {
    ArrangedShape(LabelPart(props), children, MessagePart(props));
  }

  /** At most a label, then the child, then at most one message: in rank order,
      each kind shown iff its part is there. */
  lemma ArrangedShape<C>(head: seq<Slot<C>>, children: C, tail: seq<Slot<C>>)
    requires |head| <= 1 && forall i :: 0 <= i < |head| ==> head[i].LabelSlot?
    requires |tail| <= 1 && forall i :: 0 <= i < |tail| ==> tail[i].ErrorSlot? || tail[i].DescriptionSlot?
    ensures var slots := head + [ChildSlot(children)] + tail;
            Ordered(slots)
            && (Shows(slots, 0) <==> head != [])
            && ChildSlot(children) in slots
            && (Shows(slots, 2) <==> tail != [] && tail[0].ErrorSlot?)
            && (Shows(slots, 3) <==> tail != [] && tail[0].DescriptionSlot?)
  {
    var slots := head + [ChildSlot(children)] + tail;
    var n := |head|;
    assert slots[n] == ChildSlot(children);
    assert forall i :: 0 <= i < n ==> slots[i] == head[i];
    assert forall i :: n < i < |slots| ==> slots[i] == tail[i - n - 1];
    assert Shows(slots, 0) <==> head != [] by {
      if head != [] { assert Rank(slots[0]) == 0; }
    }
    assert Shows(slots, 2) <==> tail != [] && tail[0].ErrorSlot? by {
      if tail != [] && tail[0].ErrorSlot? { assert Rank(slots[n + 1]) == 2; }
    }
    assert Shows(slots, 3) <==> tail != [] && tail[0].DescriptionSlot? by {
      if tail != [] && tail[0].DescriptionSlot? { assert Rank(slots[n + 1]) == 3; }
    }
  }

  lemma FieldSlotsChrome<C>(props: Props, children: C)
    ensures forall s :: s in FieldSlots(props, children) ==> ChromeAgrees(props, s)
  {
    var slots := FieldSlots(props, children);
    var head: seq<Slot<C>> := LabelPart(props);
    var tail: seq<Slot<C>> := MessagePart(props);
    forall s | s in slots ensures ChromeAgrees(props, s) {
      assert s in head || s == ChildSlot(children) || s in tail;
    }
  }

  /** The root `div`: every prop except the field's own, `children` and `class`,
      with `role="group"`. */
  function FieldRoot(props: Props): (r: Props)
    ensures forall k :: k in r <==> k == "role" || (k in props && k !in FormFieldPropNames && k != "children" && k != "class")
    ensures r["role"] == Str("group")
    ensures forall k :: k in r && k != "role" ==> r[k] == props[k]
  {
    Omit(props, FormFieldPropNames + ["children", "class"])["role" := Str("group")]
  }

  /**
   * `FormField(props)` with `children` as its input: a label when `label` is
   * truthy, then the input, then the error when `error` is truthy, or else the
   * description when that is truthy.
   */
  function FormField<C>(props: Props, children: C): (r: FieldRender<C>)
    ensures Ordered(r.slots)
    ensures Shows(r.slots, 0) <==> Truthy(Get(props, "label"))
    ensures ChildSlot(children) in r.slots
    ensures Shows(r.slots, 2) <==> Truthy(Get(props, "error"))
    ensures Shows(r.slots, 3) <==> !Truthy(Get(props, "error")) && Truthy(Get(props, "description"))
    ensures forall s :: s in r.slots ==> ChromeAgrees(props, s)
    ensures r.root == FieldRoot(props)
  {
    FieldSlotsShape(props, children);
    FieldSlotsChrome(props, children);
    FieldRender(FieldRoot(props), FieldSlots(props, children))
  }

  /** With no label, error or description, a field renders its input alone. */
  lemma BareField<C>(props: Props, children: C)
    requires !Truthy(Get(props, "label")) && !Truthy(Get(props, "error")) && !Truthy(Get(props, "description"))
    ensures FormField(props, children).slots == [ChildSlot(children)]
  {
  }

  /** An error hides the description: the two are never shown together. */
  lemma ErrorHidesDescription<C>(props: Props, children: C)
    ensures !(Shows(FormField(props, children).slots, 2) && Shows(FormField(props, children).slots, 3))
  {
  }

  /** The two name lists share exactly one name, `disabled`. */
  lemma ListsShareOnlyDisabled()
    ensures Names(FormFieldPropNames) * Names(FormInputPropNames) == {"disabled"}
  {
    assert |"label"| == 5 && |"description"| == 11 && |"error"| == 5 && |"name"| == 4;
    assert |"value"| == 5 && |"ref"| == 3 && |"onChange"| == 8 && |"onBlur"| == 6 && |"disabled"| == 8;
    assert "label"[0] == 'l' && "error"[0] == 'e' && "value"[0] == 'v';
    assert "onChange"[0] == 'o' && "disabled"[0] == 'd';
    assert Names(FormFieldPropNames) == {"label", "description", "error", "name", "disabled"};
    assert Names(FormInputPropNames) == {"value", "ref", "onChange", "onBlur", "disabled"};
  }

  // ---------------------------------------------------------------------------
  // makeFieldComponent

  /** The three groups of `splitProps(props, FORM_FIELD_PROP_NAMES, inputPropNames)`. */
  datatype FieldSplit = FieldSplit(fieldProps: Props, inputProps: Props, others: Props)

  /**
   * Solid's `splitProps` gives each list every prop it names, so a name on
   * both lists reaches both groups; the last group holds every prop that no
   * list names.
   */
  function SplitFieldProps(props: Props, inputPropNames: seq<string>): (r: FieldSplit)
    ensures forall k :: k in props <==> k in r.fieldProps || k in r.inputProps || k in r.others
    ensures forall k :: k in r.fieldProps ==> k in FormFieldPropNames && r.fieldProps[k] == props[k]
    ensures forall k :: k in r.inputProps ==> k in inputPropNames && r.inputProps[k] == props[k]
    ensures forall k :: k in r.others ==> k !in FormFieldPropNames && k !in inputPropNames && r.others[k] == props[k]
    ensures forall k :: k in r.fieldProps && k in r.inputProps <==> k in props && k in FormFieldPropNames && k in inputPropNames
  {
    FieldSplit(Pick(props, FormFieldPropNames), Pick(props, inputPropNames), Omit(props, FormFieldPropNames + inputPropNames))
  }

  /** Nothing is lost or altered: the three groups together are the bag. */
  lemma SplitRejoins(props: Props, inputPropNames: seq<string>)
    ensures var r := SplitFieldProps(props, inputPropNames);
            r.fieldProps + r.inputProps + r.others == props
  {
    var r := SplitFieldProps(props, inputPropNames);
    var u := r.fieldProps + r.inputProps + r.others;
    assert u.Keys == props.Keys;
    forall k | k in u ensures u[k] == props[k] {
    }
  }

  /** Splitting is stable: the residual splits into itself and two empty groups. */
  lemma SplitResidualStable(props: Props, inputPropNames: seq<string>)
    ensures var others := SplitFieldProps(props, inputPropNames).others;
            SplitFieldProps(others, inputPropNames) == FieldSplit(map[], map[], others)
  {
    var others := SplitFieldProps(props, inputPropNames).others;
    var r := SplitFieldProps(others, inputPropNames);
    assert r.fieldProps.Keys == {};
    assert r.inputProps.Keys == {};
    assert r.others == others;
  }

  /**
   * The component `makeFieldComponent({inputComponent, inputPropNames})` renders
   * for `props`: `<FormField {...formFieldProps} {...others}>` around the input,
   * which receives exactly the input group.
   */
  function FieldComponent(inputPropNames: seq<string>, props: Props): (r: FieldRender<Props>)
    ensures Ordered(r.slots)
    ensures ChildSlot(Pick(props, inputPropNames)) in r.slots
    ensures Shows(r.slots, 0) <==> Truthy(Get(props, "label"))
    ensures Shows(r.slots, 2) <==> Truthy(Get(props, "error"))
    ensures Shows(r.slots, 3) <==> !Truthy(Get(props, "error")) && Truthy(Get(props, "description"))
    ensures forall s :: s in r.slots ==> ChromeAgrees(props, s)
    ensures forall k :: k in r.root <==> k == "role" || (k in SplitFieldProps(props, inputPropNames).others && k != "children" && k != "class")
    ensures forall k :: k in r.root && k != "role" ==> k in props && r.root[k] == props[k]
  {
    var split := SplitFieldProps(props, inputPropNames);
    var fieldBag := split.fieldProps + split.others;
    FieldBagAgrees(props, inputPropNames);
    var r := FormField(fieldBag, split.inputProps);
    assert forall s :: s in r.slots ==> ChromeAgrees(props, s) by {
      forall s | s in r.slots ensures ChromeAgrees(props, s) {
        ChromeTransfer(fieldBag, props, s);
      }
    }
    r
  }

  /** The bag `FormField` receives agrees with `props` on every field prop, and
      holds nothing else but the residual group. */
  lemma FieldBagAgrees(props: Props, inputPropNames: seq<string>)
    ensures var split := SplitFieldProps(props, inputPropNames);
            var fieldBag := split.fieldProps + split.others;
            (forall k :: k in FormFieldPropNames ==> Get(fieldBag, k) == Get(props, k))
            && (forall k :: k in fieldBag && k !in FormFieldPropNames ==> k in split.others && fieldBag[k] == props[k])
            && Get(fieldBag, "label") == Get(props, "label") && Get(fieldBag, "name") == Get(props, "name")
            && Get(fieldBag, "error") == Get(props, "error") && Get(fieldBag, "description") == Get(props, "description")
            && Get(fieldBag, "disabled") == Get(props, "disabled")
  {
    assert FormFieldPropNames[0] == "label" && FormFieldPropNames[1] == "description" && FormFieldPropNames[2] == "error"
      && FormFieldPropNames[3] == "name" && FormFieldPropNames[4] == "disabled";
  }

  /** A part agrees with any bag holding the same field props. */
  lemma ChromeTransfer<C>(a: Props, b: Props, s: Slot<C>)
    requires Get(a, "label") == Get(b, "label") && Get(a, "name") == Get(b, "name")
      && Get(a, "error") == Get(b, "error") && Get(a, "description") == Get(b, "description")
      && Get(a, "disabled") == Get(b, "disabled")
    requires ChromeAgrees(a, s)
    ensures ChromeAgrees(b, s)
  {
  }

  /** A `disabled` prop reaches both the input and, as `data-disabled`, every part
      of the field chrome, whenever the input's list includes
      `FORM_INPUT_PROP_NAMES`; it is not forwarded to the root. */
  lemma DisabledReachesBoth(extra: seq<string>, props: Props)
    requires "disabled" in props
    ensures var r := FieldComponent(FormInputPropNames + extra, props);
            var input := Pick(props, FormInputPropNames + extra);
            ChildSlot(input) in r.slots && "disabled" in input && input["disabled"] == props["disabled"]
            && (forall s :: s in r.slots && !s.ChildSlot? ==> s.element.attrs["data-disabled"] == DataDisabled(props["disabled"]))
            && "disabled" !in r.root
  {
    var names := FormInputPropNames + extra;
    assert "disabled" in names by {
      assert names[4] == "disabled";
    }
    assert "disabled" in FormFieldPropNames by {
      assert FormFieldPropNames[4] == "disabled";
    }
    var r := FieldComponent(names, props);
    forall s | s in r.slots && !s.ChildSlot?
      ensures s.element.attrs["data-disabled"] == DataDisabled(props["disabled"])
    {
      assert ChromeAgrees(props, s);
    }
  }
}
