/** Slide layouts and their placeholders: `get_layout_by_name`,
    `set_position_mm` and the geometry `configure_presentation` applies to
    the two layouts the converter uses. Lengths are English Metric Units
    (EMU), millimetres are exact reals. */
module Layouts {
  import opened Results

  /** A placeholder shape of a layout with its position and size in EMU. */
  datatype Placeholder = Placeholder(name: string, left: int, top: int, height: int, width: int)

  /** A slide layout: its name and its placeholders in order. */
  datatype Layout = Layout(name: string, placeholders: seq<Placeholder>)

  /** EMU per millimetre, the factor of `pptx.util.Mm`. */
  const EmuPerMm := 36000

  /** The layout the converter builds every slide from. */
  const ContentLayout := "Title and Content"

  /** The layout `configure_presentation` adjusts as well. */
  const TitleLayout := "Title Slide"

  /** `int(x)` on a number: truncation toward zero. */
  function Trunc(x: real): (r: int)
    ensures 0.0 <= x ==> r as real <= x < r as real + 1.0
    ensures x <= 0.0 ==> r as real - 1.0 < x <= r as real
  {
    if x >= 0.0 then x.Floor else -((-x).Floor)
  }

  /** `Mm(x)`: the length of `x` millimetres in EMU, truncated toward zero. */
  function Mm(x: real): int {
    Trunc(x * EmuPerMm as real)
  }

  /** Python truthiness of an optional number: `None` and zero are false. */
  predicate Truthy(x: Option<real>) {
    x.Some? && x.value != 0.0
  }

  /** The names of the layouts, in order. */
  function Names(layouts: seq<Layout>): (r: seq<string>)
    ensures |r| == |layouts| && forall i :: 0 <= i < |layouts| ==> r[i] == layouts[i].name
  {
    if layouts == [] then [] else [layouts[0].name] + Names(layouts[1..])
  }

  /** `names.index(query)`: the first position holding `query`, or a
      `ValueError` naming it. */
  function IndexOf(names: seq<string>, query: string): (r: Result<nat>)
    ensures r.Ok? ==> r.value < |names| && names[r.value] == query
                      && forall j :: 0 <= j < r.value ==> names[j] != query
    ensures r.Err? ==> r.error == ValueError(query) && forall j :: 0 <= j < |names| ==> names[j] != query
  {
    if names == [] then Err(ValueError(query))
    else if names[0] == query then Ok(0)
    else
      match IndexOf(names[1..], query)
      case Ok(k) =>
        assert forall j :: 1 <= j < |names| ==> names[j] == names[1..][j - 1];
        Ok(k + 1)
      case Err(e) =>
        assert forall j :: 1 <= j < |names| ==> names[j] == names[1..][j - 1];
        Err(e)
  }

  /** `get_layout_by_name`: the position and value of the first layout named
      `query`, or a `ValueError` when no layout has that name. */
  function GetLayoutByName(layouts: seq<Layout>, query: string): (r: Result<nat>)
    ensures r.Ok? <==> exists i :: 0 <= i < |layouts| && layouts[i].name == query
    ensures r.Ok? ==> r.value < |layouts| && layouts[r.value].name == query
                      && forall j :: 0 <= j < r.value ==> layouts[j].name != query
    ensures r.Err? ==> r.error == ValueError(query)
  {
    var names := Names(layouts);
    var r := IndexOf(names, query);
    if r.Err? then
      assert forall i :: 0 <= i < |layouts| ==> layouts[i].name == names[i];
      r
    else r
  }

  /** Two layouts are looked up by the same query at the same position:
      the lookup depends on the names alone. */
  lemma GetLayoutByNameNamesOnly(a: seq<Layout>, b: seq<Layout>, query: string)
    requires Names(a) == Names(b)
    ensures GetLayoutByName(a, query) == GetLayoutByName(b, query)
  {
  }

  /** `set_position_mm(ph, left, top, height, width)`: each argument that is
      truthy sets its field to that many millimetres; the other fields, and
      the name, are left as they were. */
  function SetPositionMm(ph: Placeholder, left: Option<real>, top: Option<real>,
                         height: Option<real>, width: Option<real>): (r: Placeholder)
    ensures r.name == ph.name
    ensures r.left == (if Truthy(left) then Mm(left.value) else ph.left)
    ensures r.top == (if Truthy(top) then Mm(top.value) else ph.top)
    ensures r.height == (if Truthy(height) then Mm(height.value) else ph.height)
    ensures r.width == (if Truthy(width) then Mm(width.value) else ph.width)
  {
    var ph1 := if Truthy(left) then ph.(left := Mm(left.value)) else ph;
    var ph2 := if Truthy(top) then ph1.(top := Mm(top.value)) else ph1;
    var ph3 := if Truthy(height) then ph2.(height := Mm(height.value)) else ph2;
    if Truthy(width) then ph3.(width := Mm(width.value)) else ph3
  }

  /** Without arguments, or with only zero arguments, nothing moves. */
  lemma SetPositionNothing(ph: Placeholder, left: Option<real>, top: Option<real>,
                           height: Option<real>, width: Option<real>)
    requires !Truthy(left) && !Truthy(top) && !Truthy(height) && !Truthy(width)
    ensures SetPositionMm(ph, left, top, height, width) == ph
  {
  }

  /** Repositioning twice with the same arguments is repositioning once. */
  lemma SetPositionIdempotent(ph: Placeholder, left: Option<real>, top: Option<real>,
                              height: Option<real>, width: Option<real>)
    ensures var once := SetPositionMm(ph, left, top, height, width);
            SetPositionMm(once, left, top, height, width) == once
  {
  }

  /** Repositioning in two calls that set disjoint fields is repositioning in
      one call with both sets of arguments. */
  lemma SetPositionCompose(ph: Placeholder, left: Option<real>, top: Option<real>,
                           height: Option<real>, width: Option<real>)
    ensures SetPositionMm(SetPositionMm(ph, left, top, None, None), None, None, height, width)
            == SetPositionMm(ph, left, top, height, width)
  {
  }

  /** Shortening a length of at least `k` millimetres by `k` millimetres
      shortens it by exactly `k` millimetres' worth of EMU. */
  lemma MmShift(x: real, k: nat)
    requires x >= k as real
    ensures Mm(x - k as real) == Mm(x) - k * EmuPerMm
  {
    var y := x * EmuPerMm as real;
    assert (x - k as real) * EmuPerMm as real == y - (k * EmuPerMm) as real;
    assert (y - (k * EmuPerMm) as real).Floor == y.Floor - k * EmuPerMm;
  }

  /** The two shortened lengths `configure_presentation` computes. */
  lemma Margins(widthMm: real, heightMm: real)
    ensures Mm(20.0) == 20 * EmuPerMm
    ensures widthMm >= 40.0 ==> Mm(widthMm - 40.0) == Mm(widthMm) - 40 * EmuPerMm
    ensures heightMm >= 80.0 ==> Mm(heightMm - 80.0) == Mm(heightMm) - 80 * EmuPerMm
  {
    if widthMm >= 40.0 {
      MmShift(widthMm, 40);
    }
    if heightMm >= 80.0 {
      MmShift(heightMm, 80);
    }
  }

  /** The placeholders of a layout after `configure_presentation`: the first
      becomes a 30 mm title band 20 mm from the top-left corner, the second
      the body area 60 mm from the top; both leave 20 mm on either side and
      the body leaves 20 mm at the bottom, on a page wider than 40 mm and
      taller than 80 mm (a zero width or height is not truthy, so it would
      leave the old value in place). A layout with fewer than two
      placeholders fails with an `IndexError`. */
  function Arrange(layout: Layout, widthMm: real, heightMm: real): (r: Result<Layout>)
    ensures r.Ok? <==> |layout.placeholders| >= 2
    ensures r.Err? ==> r.error == IndexError
    ensures r.Ok? ==>
              var ps := layout.placeholders;
              var qs := r.value.placeholders;
              r.value.name == layout.name && |qs| == |ps|
              && qs[0] == SetPositionMm(ps[0], Some(20.0), Some(20.0), Some(30.0), Some(widthMm - 40.0))
              && qs[1] == SetPositionMm(ps[1], Some(20.0), Some(60.0), Some(heightMm - 80.0), Some(widthMm - 40.0))
              && qs[2..] == ps[2..]
    ensures r.Ok? ==>
              var qs := r.value.placeholders;
              qs[0].left == Mm(20.0) && qs[1].left == Mm(20.0)
              && qs[0].top == Mm(20.0) && qs[0].top + qs[0].height == Mm(50.0) && qs[1].top == Mm(60.0)
    ensures r.Ok? && widthMm > 40.0 ==>
              var qs := r.value.placeholders;
              qs[0].left + qs[0].width == Mm(widthMm) - Mm(20.0)
              && qs[1].left + qs[1].width == Mm(widthMm) - Mm(20.0)
    ensures r.Ok? && heightMm > 80.0 ==>
              var qs := r.value.placeholders;
              qs[1].top + qs[1].height == Mm(heightMm) - Mm(20.0)
  {
    Margins(widthMm, heightMm);
    var ps := layout.placeholders;
    if |ps| < 2 then Err(IndexError)
    else
      var title := SetPositionMm(ps[0], Some(20.0), Some(20.0), Some(30.0), Some(widthMm - 2.0 * 20.0));
      var body := SetPositionMm(ps[1], Some(20.0), Some(60.0), Some(heightMm - 80.0), Some(widthMm - 2.0 * 20.0));
      Ok(layout.(placeholders := [title, body] + ps[2..]))
  }

  /** A presentation's page size in EMU and its layouts. */
  datatype Setup = Setup(width: int, height: int, layouts: seq<Layout>)

  /** The default page of `configure_presentation`, in millimetres. */
  const SlideWidthMm: real := 338.67
  const SlideHeightMm: real := 190.5

  /** `configure_presentation`: set the page size, then arrange the
      "Title and Content" layout, then the "Title Slide" layout. A missing
      layout is a `ValueError`, a layout with fewer than two placeholders an
      `IndexError`, and the first failure in that order is the one raised. */
  function Configure(layouts: seq<Layout>, widthMm: real, heightMm: real): (r: Result<Setup>)
    ensures r.Ok? ==> r.value.width == Mm(widthMm) && r.value.height == Mm(heightMm)
    ensures r.Ok? ==> Names(r.value.layouts) == Names(layouts)
    ensures r.Ok? ==> GetLayoutByName(layouts, ContentLayout).Ok? && GetLayoutByName(layouts, TitleLayout).Ok?
  {
    var c :- GetLayoutByName(layouts, ContentLayout);
    var content :- Arrange(layouts[c], widthMm, heightMm);
    var ls := layouts[c := content];
    NamesUpdate(layouts, c, content);
    var t :- GetLayoutByName(ls, TitleLayout);
    var title :- Arrange(ls[t], widthMm, heightMm);
    NamesUpdate(ls, t, title);
    Ok(Setup(Mm(widthMm), Mm(heightMm), ls[t := title]))
  }

  /** Replacing a layout by one of the same name keeps the names. */
  lemma NamesUpdate(layouts: seq<Layout>, i: nat, l: Layout)
    requires i < |layouts| && l.name == layouts[i].name
    ensures Names(layouts[i := l]) == Names(layouts)
  {
    assert forall j :: 0 <= j < |layouts| ==> Names(layouts[i := l])[j] == Names(layouts)[j];
  }

  /** `configure_presentation` succeeds exactly when both layouts exist and
      each has at least two placeholders; it then arranges exactly those
      two layouts and leaves every other layout as it was. */
  lemma ConfigureOutcome(layouts: seq<Layout>, widthMm: real, heightMm: real)
    ensures var r := Configure(layouts, widthMm, heightMm);
            var c := GetLayoutByName(layouts, ContentLayout);
            var t := GetLayoutByName(layouts, TitleLayout);
            r.Ok? <==> c.Ok? && t.Ok? && |layouts[c.value].placeholders| >= 2
                       && |layouts[t.value].placeholders| >= 2
    ensures var r := Configure(layouts, widthMm, heightMm);
            var c := GetLayoutByName(layouts, ContentLayout);
            var t := GetLayoutByName(layouts, TitleLayout);
            r.Ok? ==>
              |r.value.layouts| == |layouts|
              && r.value.layouts[c.value] == Arrange(layouts[c.value], widthMm, heightMm).value
              && r.value.layouts[t.value] == Arrange(layouts[t.value], widthMm, heightMm).value
              && forall j :: 0 <= j < |layouts| && j != c.value && j != t.value ==>
                   r.value.layouts[j] == layouts[j]
  {
    var c := GetLayoutByName(layouts, ContentLayout);
    if c.Ok? && |layouts[c.value].placeholders| >= 2 {
      var content := Arrange(layouts[c.value], widthMm, heightMm).value;
      var ls := layouts[c.value := content];
      NamesUpdate(layouts, c.value, content);
      GetLayoutByNameNamesOnly(ls, layouts, TitleLayout);
      var t := GetLayoutByName(layouts, TitleLayout);
      if t.Ok? {
        assert t.value != c.value;
        assert ls[t.value] == layouts[t.value];
      }
    }
  }
}
