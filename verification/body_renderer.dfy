/** `draw_soup_to_placeholder`: turns the body nodes of a slide into the
    paragraphs appended to the body placeholder's text frame. */
module BodyRenderer {
  import opened Results
  import opened Html
  import opened ListFlattener
  import opened Paragraphs

  /** One line per flattened record, numbered or plain. */
  function ListLines(rs: seq<Record>, numbered: bool): (r: seq<Paragraph>)
    ensures |r| == |rs|
    ensures forall i :: 0 <= i < |rs| ==>
              r[i].text == rs[i].text && r[i].level == rs[i].level
              && r[i].fontSize.None? && r[i].align == Inherited
              && r[i].props == (if numbered then [BuAutoNum(ArabicPlain)] else [])
  {
    if rs == [] then []
    else
      var pg := NewParagraph(rs[0].text, rs[0].level);
      var line := if numbered then pg.(props := ReplaceToNumberedList(pg.props, ArabicPlain)) else pg;
      [line] + ListLines(rs[1..], numbered)
  }

  /** The paragraphs one body node adds:
      a `<p>` with exactly one child adds one level-0 line without bullet,
      an `<ol>` adds one numbered line per record of `parse_li(ol, level=0)`,
      a `<ul>` adds one plain line per record of `parse_li(ul, level=0, ul_ol="ul")`,
      and every other node adds nothing. Lists are flattened by `parse_li`
      as written, whose nested calls search for `<ol>`. */
  function DrawNode(n: Node): (r: seq<Paragraph>)
    ensures HasTag(n, P) && |n.children| == 1 ==>
              r == [Paragraph(GetText(n), 0, [BuNone], None, Inherited)]
    ensures HasTag(n, P) && |n.children| != 1 ==> r == []
    ensures HasTag(n, Ol) ==>
              var rs := ParseLi(n, 0, Ol);
              |r| == |rs| && forall i :: 0 <= i < |rs| ==>
                r[i].text == rs[i].text && r[i].level == rs[i].level
                && r[i].props == [BuAutoNum(ArabicPlain)]
    ensures HasTag(n, Ul) ==>
              var rs := ParseLi(n, 0, Ul);
              |r| == |rs| && forall i :: 0 <= i < |rs| ==>
                r[i].text == rs[i].text && r[i].level == rs[i].level && r[i].props == []
    ensures !(HasTag(n, P) || HasTag(n, Ol) || HasTag(n, Ul)) ==> r == []
  {
    match n
    case Element(P, cs) =>
      if |cs| == 1 then
        var pg := NewParagraph(GetText(n), 0);
        assert ReplaceBuToRegular([]) == [BuNone] by {
          assert RemoveUnnumberedList([]) == [];
        }
        [pg.(props := ReplaceBuToRegular(pg.props))]
      else []
    case Element(Ol, _) => ListLines(ParseLi(n, 0, Ol), true)
    case Element(Ul, _) => ListLines(ParseLi(n, 0, Ul), false)
    case _ => []
  }

  /** The paragraphs one body node adds when `parse_li` passes the list kind
      down to its nested calls: only a `<ul>` is drawn differently. */
  function DrawNodeFixed(n: Node): (r: seq<Paragraph>)
    ensures HasTag(n, Ul) ==>
              var rs := ParseLiFixed(n, 0, Ul);
              |r| == |rs| && forall i :: 0 <= i < |rs| ==>
                r[i].text == rs[i].text && r[i].level == rs[i].level && r[i].props == []
    ensures !HasTag(n, Ul) ==> r == DrawNode(n)
  {
    if HasTag(n, Ul) then ListLines(ParseLiFixed(n, 0, Ul), false) else DrawNode(n)
  }

  /** The corrected drawing of a `<ul>` rendered from an outline gives one
      line per entry, at the entry's depth, in document order. */
  lemma DrawNodeFixedFollowsOutline(es: seq<Entry>)
    ensures var r := DrawNodeFixed(Render(Ul, es));
            |r| == |OutlineLevels(es, 0)|
            && forall i :: 0 <= i < |r| ==> r[i].level == OutlineLevels(es, 0)[i]
  {
    ParseLiFixedFollowsOutline(Ul, es, 0);
  }

  /** The outputs of `f` on each of `xs`, one after another. */
  function ConcatMap<T, U>(f: T -> seq<U>, xs: seq<T>): seq<U> {
    if xs == [] then [] else f(xs[0]) + ConcatMap(f, xs[1..])
  }

  lemma {:induction false} ConcatMapAppend<T, U>(f: T -> seq<U>, a: seq<T>, b: seq<T>)
    ensures ConcatMap(f, a + b) == ConcatMap(f, a) + ConcatMap(f, b)
  {
    if a == [] {
      assert a + b == b;
    } else {
      assert (a + b)[0] == a[0];
      assert (a + b)[1..] == a[1..] + b;
      ConcatMapAppend(f, a[1..], b);
    }
  }

  /** The paragraphs a sequence of body nodes adds, node after node. */
  function Draw(body: seq<Node>): seq<Paragraph> {
    ConcatMap(DrawNode, body)
  }

  /** Each node is rendered on its own: drawing two runs of nodes gives the
      lines of the first run followed by those of the second. */
  lemma DrawAppend(a: seq<Node>, b: seq<Node>)
    ensures Draw(a + b) == Draw(a) + Draw(b)
  {
    ConcatMapAppend(DrawNode, a, b);
  }

  /** No node of a body drawn from nodes that are neither paragraphs nor
      lists produces a line, so a fragment without a heading, whose body is
      the parsed document itself, draws nothing. */
  lemma DrawOthers(body: seq<Node>)
    requires forall i :: 0 <= i < |body| ==> !(HasTag(body[i], P) || HasTag(body[i], Ol) || HasTag(body[i], Ul))
    ensures Draw(body) == []
  {
    if body != [] {
      DrawOthers(body[1..]);
    }
  }

  /** The stripped text of an item holding one string is that string,
      stripped. */
  lemma StrippedSingleText(x: string)
    ensures GetStrippedText(Element(Li, [Text(x)])) == Strings.Strip(x)
  {
    assert Preorder([Text(x)]) == [Text(x)] by {
      assert Preorder([Text(x)][1..]) == [];
      assert Preorder(Children(Text(x))) == [];
    }
    assert TextStrings([Text(x)]) == [x];
    assert StripEach([x]) == [Strings.Strip(x)];
    assert Strings.Concat([Strings.Strip(x)]) == Strings.Strip(x);
  }

  /** An item holding one string has no nested list to flatten. */
  lemma SingleTextNothingNested(x: string, level: nat, search: Tag, nested: Tag)
    ensures Nested(Element(Li, [Text(x)]), level, search, nested) == []
  {
    assert Find([Text(x)][1..], search) == None;
    assert Find([Text(x)], search) == None;
  }

  /** An item without a nested list contributes its own record alone. */
  lemma ItemWithoutNested(li: Node, rest: seq<Node>, level: nat, search: Tag, nested: Tag)
    requires HasTag(li, Li) && Nested(li, level, search, nested) == []
    ensures FlattenItems([li] + rest, level, search, nested)
            == [Record(level, GetStrippedText(li))] + FlattenItems(rest, level, search, nested)
  {
    assert ([li] + rest)[0] == li && ([li] + rest)[1..] == rest;
  }

  /** Two items without nested lists flatten to their two records. */
  lemma TwoPlainItems(li1: Node, li2: Node, level: nat, search: Tag, nested: Tag)
    requires HasTag(li1, Li) && Nested(li1, level, search, nested) == []
    requires HasTag(li2, Li) && Nested(li2, level, search, nested) == []
    ensures FlattenItems([li1, li2], level, search, nested)
            == [Record(level, GetStrippedText(li1)), Record(level, GetStrippedText(li2))]
  {
    ItemWithoutNested(li2, [], level, search, nested);
    ItemWithoutNested(li1, [li2], level, search, nested);
    assert [li1] + [li2] == [li1, li2];
    assert [li2] + [] == [li2];
    assert FlattenItems([], level, search, nested) == [];
  }

  /** An ordered list of two one-line items flattens to two level-0
      records carrying the items' stripped texts. */
  lemma TwoItemRecords(x: string, y: string)
    ensures ParseLi(Element(Ol, [Element(Li, [Text(x)]), Element(Li, [Text(y)])]), 0, Ol)
            == [Record(0, Strings.Strip(x)), Record(0, Strings.Strip(y))]
  {
    var liX := Element(Li, [Text(x)]);
    var liY := Element(Li, [Text(y)]);
    SingleTextNothingNested(x, 0, Ol, Ol);
    SingleTextNothingNested(y, 0, Ol, Ol);
    StrippedSingleText(x);
    StrippedSingleText(y);
    TwoPlainItems(liX, liY, 0, Ol, Ol);
  }

  /** Two level-0 records become two numbered lines. */
  lemma TwoNumberedLines(a: string, b: string)
    ensures ListLines([Record(0, a), Record(0, b)], true)
            == [Paragraph(a, 0, [BuAutoNum(ArabicPlain)], None, Inherited),
                Paragraph(b, 0, [BuAutoNum(ArabicPlain)], None, Inherited)]
  {
    var lines := ListLines([Record(0, a), Record(0, b)], true);
    assert |lines| == 2;
    assert lines[0] == Paragraph(a, 0, [BuAutoNum(ArabicPlain)], None, Inherited);
    assert lines[1] == Paragraph(b, 0, [BuAutoNum(ArabicPlain)], None, Inherited);
  }

  /** An ordered list of two one-line items renders as two numbered lines at
      level 0 carrying the items' stripped texts. */
  lemma NumberedTwoItems(x: string, y: string)
    ensures var ol := Element(Ol, [Element(Li, [Text(x)]), Element(Li, [Text(y)])]);
            Draw([ol]) == [Paragraph(Strings.Strip(x), 0, [BuAutoNum(ArabicPlain)], None, Inherited),
                           Paragraph(Strings.Strip(y), 0, [BuAutoNum(ArabicPlain)], None, Inherited)]
  {
    var ol := Element(Ol, [Element(Li, [Text(x)]), Element(Li, [Text(y)])]);
    TwoItemRecords(x, y);
    TwoNumberedLines(Strings.Strip(x), Strings.Strip(y));
    var lines := ListLines(ParseLi(ol, 0, Ol), true);
    assert DrawNode(ol) == lines;
    assert ConcatMap(DrawNode, [ol]) == DrawNode(ol) + ConcatMap(DrawNode, [ol][1..]);
    assert lines + [] == lines;
  }
}
