/** Body paragraphs of a slide and the bullet edits made on their paragraph
    properties (`<a:pPr>`): `remove_unnumbered_list`,
    `replace_to_numbered_list` and `replace_bu_to_regular`. */
module Paragraphs {
  import opened Results

  /** The children of a paragraph's `<a:pPr>` element: a bullet character,
      an auto-number marker of some scheme, an explicit "no bullet", or
      anything else. */
  datatype PPrChild = BuChar(glyph: string) | BuAutoNum(scheme: string) | BuNone | OtherProp(name: string)

  datatype Align = Inherited | Left

  /** One paragraph of a text frame: its text, indentation level, the
      children of its `<a:pPr>`, its font size in points (if set) and its
      alignment. */
  datatype Paragraph = Paragraph(text: string, level: nat, props: seq<PPrChild>,
                                 fontSize: Option<nat>, align: Align)

  /** The auto-numbering scheme `replace_to_numbered_list` uses by default. */
  const ArabicPlain := "arabicPlain"

  /** A paragraph fresh from `add_paragraph()` once its text and level are
      set: no explicit bullet properties, no font size, inherited alignment. */
  function NewParagraph(text: string, level: nat): Paragraph {
    Paragraph(text, level, [], None, Inherited)
  }

  /** The position of the first `<a:buChar>`, if any. */
  function FirstBuChar(props: seq<PPrChild>): (r: Option<nat>)
    ensures r.None? <==> forall i :: 0 <= i < |props| ==> !props[i].BuChar?
    ensures r.Some? ==> r.value < |props| && props[r.value].BuChar?
                        && forall i :: 0 <= i < r.value ==> !props[i].BuChar?
  {
    if props == [] then None
    else if props[0].BuChar? then Some(0)
    else match FirstBuChar(props[1..])
      case None => None
      case Some(k) => Some(k + 1)
  }

  /** `remove_unnumbered_list`: `pPr.find("a:buChar")` returns the first
      `<a:buChar>` child, which is removed; without one nothing changes. */
  function RemoveUnnumberedList(props: seq<PPrChild>): (r: seq<PPrChild>)
    ensures match FirstBuChar(props)
            case None => r == props
            case Some(k) => r == props[..k] + props[k + 1..]
  {
    if props == [] then []
    else if props[0].BuChar? then props[1..]
    else
      var rest := RemoveUnnumberedList(props[1..]);
      assert props == [props[0]] + props[1..];
      match FirstBuChar(props[1..])
      case None => [props[0]] + rest
      case Some(k) =>
        var tail := props[1..];
        assert FirstBuChar(props) == Some(k + 1);
        assert rest == tail[..k] + tail[k + 1..];
        assert props[..k + 1] == [props[0]] + tail[..k];
        assert props[k + 2..] == tail[k + 1..];
        [props[0]] + rest
  }

  /** `replace_to_numbered_list(pg, style)`. */
  function ReplaceToNumberedList(props: seq<PPrChild>, style: string): seq<PPrChild> {
    RemoveUnnumberedList(props) + [BuAutoNum(style)]
  }

  /** `replace_bu_to_regular(pg)`. */
  function ReplaceBuToRegular(props: seq<PPrChild>): seq<PPrChild> {
    RemoveUnnumberedList(props) + [BuNone]
  }

  /** The number of `<a:buChar>` children. */
  function CountBuChar(props: seq<PPrChild>): nat {
    if props == [] then 0 else (if props[0].BuChar? then 1 else 0) + CountBuChar(props[1..])
  }

  lemma CountBuCharAppend(a: seq<PPrChild>, b: seq<PPrChild>)
    ensures CountBuChar(a + b) == CountBuChar(a) + CountBuChar(b)
  {
    if a == [] {
      assert a + b == b;
    } else {
      assert (a + b)[1..] == a[1..] + b;
      CountBuCharAppend(a[1..], b);
    }
  }

  /** Removal takes out exactly one bullet character when there is one and
      keeps every other child, in order. */
  lemma {:induction false} RemoveUnnumberedListCount(props: seq<PPrChild>)
    ensures CountBuChar(RemoveUnnumberedList(props))
            == if CountBuChar(props) == 0 then 0 else CountBuChar(props) - 1
    ensures |RemoveUnnumberedList(props)| == |props| - (if CountBuChar(props) == 0 then 0 else 1)
  {
    if props != [] {
      RemoveUnnumberedListCount(props[1..]);
      if !props[0].BuChar? {
        assert RemoveUnnumberedList(props) == [props[0]] + RemoveUnnumberedList(props[1..]);
      }
    }
  }

  /** Both replacements drop one bullet character, keep the rest in order
      and end the properties with the new marker. */
  lemma ReplaceMarkers(props: seq<PPrChild>, style: string)
    ensures var r := ReplaceToNumberedList(props, style);
            r[|r| - 1] == BuAutoNum(style) && r[..|r| - 1] == RemoveUnnumberedList(props)
    ensures var r := ReplaceBuToRegular(props);
            r[|r| - 1] == BuNone && r[..|r| - 1] == RemoveUnnumberedList(props)
    ensures CountBuChar(ReplaceToNumberedList(props, style)) == CountBuChar(ReplaceBuToRegular(props))
            == if CountBuChar(props) == 0 then 0 else CountBuChar(props) - 1
  {
    RemoveUnnumberedListCount(props);
    CountBuCharAppend(RemoveUnnumberedList(props), [BuAutoNum(style)]);
    CountBuCharAppend(RemoveUnnumberedList(props), [BuNone]);
  }
}
