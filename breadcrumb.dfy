/**
 * The breadcrumb trail of src/components/breadcrumb.tsx: `Breadcrumbs` renders
 * each entry as a linked item, puts a separator after every entry but the
 * last, and makes a click on the last entry's link prevent navigation.
 * `BreadcrumbSeparator` shows its children, or a chevron icon when they are
 * nullish; `BreadcrumbPage` marks itself as the current page.
 */
module Breadcrumbs {
  import opened Js

  /** `BreadcrumbEntry`: the content to show and the link target. */
  datatype Entry = Entry(content: Value, href: string)

  /** What a separator shows: the default chevron icon, or its own children. */
  datatype SeparatorChild = Chevron | Given(child: Value)

  /**
   * One rendered piece of the trail: a list item holding a link, whose click
   * handler prevents default navigation when `preventsDefault`, or a separator.
   */
  datatype Crumb =
    | Item(href: string, content: Value, preventsDefault: bool)
    | Separator(shows: SeparatorChild)

  /** `local.children ?? <IconChevronRight />` */
  function SeparatorContent(children: Value): (r: SeparatorChild)
    ensures r == Chevron <==> Nullish(children)
    ensures r.Given? ==> r.child == children
  {
    if Nullish(children) then Chevron else Given(children)
  }

  /** The attributes of a separator's `li`: `role` and `aria-hidden` are written
      before the spread of the caller's props (other than `class` and
      `children`), so a caller's value replaces them unless it is undefined. */
  function SeparatorAttributes(props: Props): (r: Props)
    ensures r.Keys == {"role", "aria-hidden"} + (props.Keys - {"class", "children"})
    ensures Get(props, "role") == Undefined ==> r["role"] == Str("presentation")
    ensures Get(props, "aria-hidden") == Undefined ==> r["aria-hidden"] == Str("true")
    ensures forall k :: k in props && k != "class" && k != "children" && props[k] != Undefined ==> r[k] == props[k]
    ensures forall k :: k in r && k != "role" && k != "aria-hidden" ==> r[k] == props[k]
  {
    SpreadOver(map["role" := Str("presentation"), "aria-hidden" := Str("true")], Omit(props, ["class", "children"]))
  }

  /** The attributes of `BreadcrumbPage`'s `span`: a disabled link to the current
      page, unless the caller's props give those attributes defined values. */
  function PageAttributes(props: Props): (r: Props)
    ensures r.Keys == {"role", "aria-disabled", "aria-current"} + (props.Keys - {"class"})
    ensures Get(props, "role") == Undefined ==> r["role"] == Str("link")
    ensures Get(props, "aria-disabled") == Undefined ==> r["aria-disabled"] == Str("true")
    ensures Get(props, "aria-current") == Undefined ==> r["aria-current"] == Str("page")
    ensures forall k :: k in props && k != "class" && props[k] != Undefined ==> r[k] == props[k]
    ensures forall k :: k in r && k != "role" && k != "aria-disabled" && k != "aria-current" ==> r[k] == props[k]
  {
    SpreadOver(map["role" := Str("link"), "aria-disabled" := Str("true"), "aria-current" := Str("page")], Omit(props, ["class"]))
  }

  /** A caller that passes `role={undefined}` or `aria-current={undefined}` keeps
      the defaults, while a defined value replaces them. */
  lemma UndefinedKeepsDefaults(role: Value)
    requires role != Undefined
    ensures SeparatorAttributes(map["role" := Undefined])["role"] == Str("presentation")
    ensures PageAttributes(map["aria-current" := Undefined])["aria-current"] == Str("page")
    ensures SeparatorAttributes(map["role" := role])["role"] == role
  {
  }

  /** Whether clicking the link of entry `index` calls `preventDefault`. */
  predicate ClickPreventsDefault(index: nat, count: nat) {
    index == count - 1
  }

  /** What the `For` callback renders for entry `i`: its item, then a separator
      unless it is the last entry. */
  function Fragment(entries: seq<Entry>, i: nat): (r: seq<Crumb>)
    requires i < |entries|
    ensures 1 <= |r| <= 2
    ensures r[0] == Item(entries[i].href, entries[i].content, ClickPreventsDefault(i, |entries|))
    ensures |r| == 2 <==> i != |entries| - 1
    ensures |r| == 2 ==> r[1] == Separator(Chevron)
  {
    [Item(entries[i].href, entries[i].content, ClickPreventsDefault(i, |entries|))]
    + (if i != |entries| - 1 then [Separator(SeparatorContent(Undefined))] else [])
  }

  /** The fragments of entries `i` onwards, in order. */
  function RenderFrom(entries: seq<Entry>, i: nat): seq<Crumb>
    requires i <= |entries|
    decreases |entries| - i
  {
    if i == |entries| then [] else Fragment(entries, i) + RenderFrom(entries, i + 1)
  }

  /** `Breadcrumbs({entries})`: the contents of the breadcrumb list, which
      starts and ends with an item. */
  function Render(entries: seq<Entry>): (r: seq<Crumb>)
    ensures |r| == (if entries == [] then 0 else 2 * |entries| - 1)
    ensures r != [] ==> r[0].Item? && r[|r| - 1].Item?
  {
    if entries == [] then []
    else
      RenderFromShape(entries, 0);
      RenderFrom(entries, 0)
  }

  /** The `j`-th item of the trail, as entry `j` renders it. */
  function ItemFor(entries: seq<Entry>, j: nat): Crumb
    requires j < |entries|
  {
    Item(entries[j].href, entries[j].content, ClickPreventsDefault(j, |entries|))
  }

  /** From entry `i` on, items sit at even and separators at odd positions. */
  lemma {:induction false} RenderFromShape(entries: seq<Entry>, i: nat)
    requires i < |entries|
    ensures var r := RenderFrom(entries, i);
            |r| == 2 * (|entries| - i) - 1
            && (forall k :: 0 <= k < |r| ==> (r[k].Separator? <==> k % 2 == 1))
            && (forall k :: 0 <= k < |r| && k % 2 == 1 ==> r[k] == Separator(Chevron))
            && (forall j :: 0 <= j < |entries| - i ==> r[2 * j] == ItemFor(entries, i + j))
    decreases |entries| - i
  {
    var r := RenderFrom(entries, i);
    var f := Fragment(entries, i);
    if i == |entries| - 1 {
      assert RenderFrom(entries, i + 1) == [];
      assert r == f;
    } else {
      RenderFromShape(entries, i + 1);
      var rest := RenderFrom(entries, i + 1);
      assert r == f + rest;
      assert |f| == 2;
      forall k | 2 <= k < |r| ensures r[k] == rest[k - 2] {
      }
      forall j | 1 <= j < |entries| - i ensures r[2 * j] == ItemFor(entries, i + j) {
        assert r[2 * j] == rest[2 * (j - 1)];
      }
    }
  }

  /** `n` entries render as `n` items interleaved with `n - 1` separators: an item
      at every even position, a chevron separator at every odd one, none at
      the end, and the items in entry order. */
  lemma RenderShape(entries: seq<Entry>)
    ensures var r := Render(entries);
            |r| == (if entries == [] then 0 else 2 * |entries| - 1)
            && (forall k :: 0 <= k < |r| ==> (r[k].Separator? <==> k % 2 == 1))
            && (forall k :: 0 <= k < |r| && k % 2 == 1 ==> r[k] == Separator(Chevron))
            && (forall j :: 0 <= j < |entries| ==> r[2 * j] == ItemFor(entries, j))
            && (r != [] ==> r[|r| - 1].Item?)
  {
    if entries != [] {
      RenderFromShape(entries, 0);
    }
  }

  /** The entries a trail shows, read back from its items. */
  function EntriesOf(crumbs: seq<Crumb>): (r: seq<Entry>)
    ensures |r| <= |crumbs|
  {
    if crumbs == [] then []
    else match crumbs[0]
      case Item(href, content, _) => [Entry(content, href)] + EntriesOf(crumbs[1..])
      case Separator(_) => EntriesOf(crumbs[1..])
  }

  lemma {:induction false} EntriesOfAppend(a: seq<Crumb>, b: seq<Crumb>)
    ensures EntriesOf(a + b) == EntriesOf(a) + EntriesOf(b)
  {
    if a == [] {
      assert a + b == b;
    } else {
      assert (a + b)[0] == a[0] && (a + b)[1..] == a[1..] + b;
      EntriesOfAppend(a[1..], b);
    }
  }

  lemma {:induction false} EntriesOfRenderFrom(entries: seq<Entry>, i: nat)
    requires i <= |entries|
    ensures EntriesOf(RenderFrom(entries, i)) == entries[i..]
    decreases |entries| - i
  {
    if i < |entries| {
      var f := Fragment(entries, i);
      EntriesOfAppend(f, RenderFrom(entries, i + 1));
      EntriesOfRenderFrom(entries, i + 1);
      assert EntriesOf(f) == [entries[i]] by {
        assert f[1..] == [] || f[1..] == [Separator(Chevron)];
        if f[1..] != [] {
          assert f[1..][1..] == [];
        }
      }
      assert entries[i..] == [entries[i]] + entries[i + 1..];
    }
  }

  /** Nothing is lost, duplicated or reordered: the items read back as the entries. */
  lemma EntriesRoundTrip(entries: seq<Entry>)
    ensures EntriesOf(Render(entries)) == entries
  {
    EntriesOfRenderFrom(entries, 0);
    assert entries[0..] == entries;
  }

  /** Exactly one link prevents navigation: the last entry's. */
  lemma OnlyLastPreventsDefault(entries: seq<Entry>)
    ensures var r := Render(entries);
            forall k :: 0 <= k < |r| && r[k].Item? ==> (r[k].preventsDefault <==> k == |r| - 1)
  {
    RenderShape(entries);
    var r := Render(entries);
    forall k | 0 <= k < |r| && r[k].Item? ensures r[k].preventsDefault <==> k == |r| - 1 {
      assert k % 2 == 0;
      assert r[2 * (k / 2)] == ItemFor(entries, k / 2);
    }
  }
}
