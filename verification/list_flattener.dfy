/** The list flattener `parse_li`: turns a nested `<ol>`/`<ul>` tree into
    `(level, text)` records in document order. */
module ListFlattener {
  import opened Results
  import opened Html

  /** One flattened list item: its nesting level and the stripped text of
      the whole `<li>`, nested lists included. */
  datatype Record = Record(level: nat, text: string)

  lemma SizeOfNode(n: Node)
    ensures Size(n) == 1 + SizeOf(Children(n))
  {
  }

  /** The direct `<li>` children of a list element
      (`find_all("li", recursive=False)`). */
  function DirectItems(cs: seq<Node>): (r: seq<Node>)
    ensures forall i :: 0 <= i < |r| ==> HasTag(r[i], Li)
  {
    if cs == [] then []
    else if HasTag(cs[0], Li) then [cs[0]] + DirectItems(cs[1..])
    else DirectItems(cs[1..])
  }

  /** A single child is kept exactly when it is an `<li>`. */
  lemma DirectItemsOne(c: Node)
    ensures DirectItems([c]) == if HasTag(c, Li) then [c] else []
  {
    assert [c][1..] == [];
  }

  /** The filter distributes over concatenation, so every `<li>` child is
      kept, in order, and nothing else is. */
  lemma {:induction false} DirectItemsAppend(a: seq<Node>, b: seq<Node>)
    ensures DirectItems(a + b) == DirectItems(a) + DirectItems(b)
  {
    if a == [] {
      assert a + b == b;
    } else {
      assert (a + b)[0] == a[0];
      assert (a + b)[1..] == a[1..] + b;
      DirectItemsAppend(a[1..], b);
    }
  }

  /** `parse_li` with its two search tags made explicit: the items of list
      `n` get `level`; inside each item the first descendant tagged `search`
      is flattened one level deeper, and that nested call (and every call
      below it) searches for `nested`. */
  function Flatten(n: Node, level: nat, search: Tag, nested: Tag): seq<Record>
    decreases Size(n), 1
  {
    SizeOfNode(n);
    FlattenItems(Children(n), level, search, nested)
  }

  /** The records contributed by the children `cs` of one list element. */
  function FlattenItems(cs: seq<Node>, level: nat, search: Tag, nested: Tag): seq<Record>
    decreases SizeOf(cs), 0
  {
    if cs == [] then []
    else
      SizeOfCons(cs);
      var rest := FlattenItems(cs[1..], level, search, nested);
      if HasTag(cs[0], Li) then
        [Record(level, GetStrippedText(cs[0]))] + Nested(cs[0], level, search, nested) + rest
      else rest
  }

  /** The records of the list nested in item `li`: the first descendant
      tagged `search`, flattened one level deeper, or nothing. */
  function Nested(li: Node, level: nat, search: Tag, nested: Tag): seq<Record>
    decreases SizeOf(Children(li)), 2
  {
    match Find(Children(li), search)
    case Some(f) => Flatten(f.node, level + 1, nested, nested)
    case None => []
  }

  /** `parse_li(tag, level, ul_ol)` as written: the recursive call passes
      only `level + 1`, so every nested call searches for `ol`, whatever
      kind the outer list was. The records form a pre-order listing that
      starts at `level`, and the records at `level` are the direct items'
      stripped texts, one per item, in order. */
  function ParseLi(n: Node, level: nat, kind: Tag): (r: seq<Record>)
    ensures Shaped(r, level)
    ensures TextsAt(r, level) == ItemTexts(DirectItems(Children(n)))
  {
    FlattenShaped(n, level, kind, Ol);
    FlattenTopLevel(n, level, kind, Ol);
    Flatten(n, level, kind, Ol)
  }

  /** `parse_li` with the list kind passed down to the nested calls. */
  function ParseLiFixed(n: Node, level: nat, kind: Tag): (r: seq<Record>)
    ensures Shaped(r, level)
    ensures TextsAt(r, level) == ItemTexts(DirectItems(Children(n)))
  {
    FlattenShaped(n, level, kind, kind);
    FlattenTopLevel(n, level, kind, kind);
    Flatten(n, level, kind, kind)
  }

  /** For an ordered list the correction changes nothing. */
  lemma FixedAgreesOnOrdered(n: Node, level: nat)
    ensures ParseLiFixed(n, level, Ol) == ParseLi(n, level, Ol)
  {
  }

  /** The shape of a pre-order listing of a tree rooted at `base`: it starts
      at `base`, never goes above it, and goes down one level at a time. */
  predicate Shaped(rs: seq<Record>, base: nat) {
    (rs != [] ==> rs[0].level == base)
    && (forall i :: 0 <= i < |rs| ==> rs[i].level >= base)
    && (forall i :: 0 < i < |rs| ==> rs[i].level <= rs[i - 1].level + 1)
  }

  lemma ShapedCons(own: Record, sub: seq<Record>, rest: seq<Record>, base: nat)
    requires own.level == base
    requires Shaped(sub, base + 1) && Shaped(rest, base)
    ensures Shaped([own] + sub + rest, base)
  {
    var rs := [own] + sub + rest;
    forall i | 0 < i < |rs|
      ensures rs[i].level <= rs[i - 1].level + 1
    {
      if i <= |sub| {
        assert rs[i] == sub[i - 1];
      } else {
        assert rs[i] == rest[i - 1 - |sub|];
        if i == |sub| + 1 {
          assert rs[i - 1] == (if sub == [] then own else sub[|sub| - 1]);
        }
      }
    }
    forall i | 0 <= i < |rs|
      ensures rs[i].level >= base
    {
      if 0 < i <= |sub| {
        assert rs[i] == sub[i - 1];
      } else if i > |sub| {
        assert rs[i] == rest[i - 1 - |sub|];
      }
    }
  }

  /** Every flattening is a pre-order listing: the first record sits at the
      starting level and each later one is at most one level deeper than
      its predecessor, never above the start. */
  lemma {:induction false} FlattenShaped(n: Node, level: nat, search: Tag, nested: Tag)
    ensures Shaped(Flatten(n, level, search, nested), level)
    decreases Size(n), 1
  {
    SizeOfNode(n);
    FlattenItemsShaped(Children(n), level, search, nested);
  }

  lemma {:induction false} FlattenItemsShaped(cs: seq<Node>, level: nat, search: Tag, nested: Tag)
    ensures Shaped(FlattenItems(cs, level, search, nested), level)
    decreases SizeOf(cs), 0
  {
    if cs != [] {
      SizeOfCons(cs);
      FlattenItemsShaped(cs[1..], level, search, nested);
      if HasTag(cs[0], Li) {
        NestedShaped(cs[0], level, search, nested);
        ShapedCons(Record(level, GetStrippedText(cs[0])), Nested(cs[0], level, search, nested),
                   FlattenItems(cs[1..], level, search, nested), level);
      }
    }
  }

  lemma {:induction false} NestedShaped(li: Node, level: nat, search: Tag, nested: Tag)
    ensures Shaped(Nested(li, level, search, nested), level + 1)
    decreases SizeOf(Children(li)), 2
  {
    match Find(Children(li), search)
    case Some(f) => FlattenShaped(f.node, level + 1, nested, nested);
    case None =>
  }

  /** The texts of the records at exactly level `l`, in order. */
  function TextsAt(rs: seq<Record>, l: nat): seq<string> {
    if rs == [] then []
    else if rs[0].level == l then [rs[0].text] + TextsAt(rs[1..], l)
    else TextsAt(rs[1..], l)
  }

  lemma TextsAtAppend(a: seq<Record>, b: seq<Record>, l: nat)
    ensures TextsAt(a + b, l) == TextsAt(a, l) + TextsAt(b, l)
  {
    if a == [] {
      assert a + b == b;
    } else {
      assert (a + b)[0] == a[0];
      assert (a + b)[1..] == a[1..] + b;
      TextsAtAppend(a[1..], b, l);
    }
  }

  lemma TextsAtDeeper(rs: seq<Record>, l: nat)
    requires forall i :: 0 <= i < |rs| ==> rs[i].level > l
    ensures TextsAt(rs, l) == []
  {
    if rs != [] {
      TextsAtDeeper(rs[1..], l);
    }
  }

  /** `get_text(strip=True)` of each item. */
  function ItemTexts(items: seq<Node>): (r: seq<string>)
    ensures |r| == |items|
  {
    if items == [] then [] else [GetStrippedText(items[0])] + ItemTexts(items[1..])
  }

  /** Exactly one record per direct `<li>` child sits at the starting level,
      in the children's order and carrying that item's stripped text; every
      nested record is deeper. */
  lemma {:induction false} FlattenTopLevel(n: Node, level: nat, search: Tag, nested: Tag)
    ensures TextsAt(Flatten(n, level, search, nested), level) == ItemTexts(DirectItems(Children(n)))
  {
    FlattenItemsTopLevel(Children(n), level, search, nested);
  }

  lemma {:induction false} FlattenItemsTopLevel(cs: seq<Node>, level: nat, search: Tag, nested: Tag)
    ensures TextsAt(FlattenItems(cs, level, search, nested), level) == ItemTexts(DirectItems(cs))
    decreases |cs|
  {
    if cs != [] {
      FlattenItemsTopLevel(cs[1..], level, search, nested);
      var rest := FlattenItems(cs[1..], level, search, nested);
      if HasTag(cs[0], Li) {
        var own := Record(level, GetStrippedText(cs[0]));
        var sub := Nested(cs[0], level, search, nested);
        assert FlattenItems(cs, level, search, nested) == [own] + sub + rest;
        NestedShaped(cs[0], level, search, nested);
        TextsAtDeeper(sub, level);
        TextsAtAppend([own] + sub, rest, level);
        TextsAtAppend([own], sub, level);
        assert TextsAt([own], level) == [own.text];
        var items := DirectItems(cs[1..]);
        assert DirectItems(cs) == [cs[0]] + items;
        assert ([cs[0]] + items)[1..] == items;
        assert ItemTexts([cs[0]] + items) == [own.text] + ItemTexts(items);
      } else {
        assert FlattenItems(cs, level, search, nested) == rest;
        assert DirectItems(cs) == DirectItems(cs[1..]);
      }
    }
  }

  /** Where no `<ol>` is left to find, a flattening searching for `ol` lists
      the direct items only, all at the starting level. */
  lemma {:induction false} FlattenItemsFlatWithoutOl(cs: seq<Node>, level: nat)
    requires Lacks(cs, Ol)
    ensures forall i :: 0 <= i < |FlattenItems(cs, level, Ol, Ol)| ==>
              FlattenItems(cs, level, Ol, Ol)[i].level == level
    decreases |cs|
  {
    if cs != [] {
      LacksParts(cs, Ol);
      FlattenItemsFlatWithoutOl(cs[1..], level);
      if HasTag(cs[0], Li) {
        FindLacking(Children(cs[0]), Ol);
        assert Nested(cs[0], level, Ol, Ol) == [];
      }
    }
  }

  /** The recursion quirk of `parse_li`: in a tree with no `<ol>`, flattening
      a `<ul>` never goes deeper than one level below the start, however
      deep the `<ul>` nesting is. */
  lemma {:induction false} UnorderedStopsAfterOneLevel(n: Node, level: nat)
    requires Lacks(Children(n), Ol)
    ensures forall i :: 0 <= i < |ParseLi(n, level, Ul)| ==>
              level <= ParseLi(n, level, Ul)[i].level <= level + 1
  {
    FlattenShaped(n, level, Ul, Ol);
    UnorderedItemsStop(Children(n), level);
    assert ParseLi(n, level, Ul) == FlattenItems(Children(n), level, Ul, Ol);
  }

  lemma {:induction false} UnorderedItemsStop(cs: seq<Node>, level: nat)
    requires Lacks(cs, Ol)
    ensures forall i :: 0 <= i < |FlattenItems(cs, level, Ul, Ol)| ==>
              FlattenItems(cs, level, Ul, Ol)[i].level <= level + 1
    decreases |cs|
  {
    if cs != [] {
      LacksParts(cs, Ol);
      UnorderedItemsStop(cs[1..], level);
      if HasTag(cs[0], Li) {
        var rest := FlattenItems(cs[1..], level, Ul, Ol);
        var own := Record(level, GetStrippedText(cs[0]));
        var sub := Nested(cs[0], level, Ul, Ol);
        UnorderedNestedFlat(cs[0], level);
        var rs := [own] + sub + rest;
        assert FlattenItems(cs, level, Ul, Ol) == rs;
        forall i | 0 <= i < |rs|
          ensures rs[i].level <= level + 1
        {
          if 0 < i <= |sub| {
            assert rs[i] == sub[i - 1];
          } else if i > |sub| {
            assert rs[i] == rest[i - 1 - |sub|];
          }
        }
      }
    }
  }

  /** Below an item of a `<ul>` without `<ol>`, the nested call lists one
      flat level. */
  lemma UnorderedNestedFlat(li: Node, level: nat)
    requires Lacks(Children(li), Ol)
    ensures forall i :: 0 <= i < |Nested(li, level, Ul, Ol)| ==>
              Nested(li, level, Ul, Ol)[i].level == level + 1
  {
    match Find(Children(li), Ul)
    case Some(f) =>
      FoundLacks(Children(li), Ul, Ol);
      FlattenItemsFlatWithoutOl(Children(f.node), level + 1);
      assert Nested(li, level, Ul, Ol) == Flatten(f.node, level + 1, Ol, Ol);
    case None =>
  }

  /** A well-formed Markdown outline: each entry has its text and the
      entries of its nested list (none when empty). */
  datatype Entry = Entry(text: string, sub: seq<Entry>)

  /** The HTML a Markdown renderer produces for an outline whose lists are
      all of kind `kind`. */
  function Render(kind: Tag, es: seq<Entry>): Node {
    Element(kind, RenderEntries(kind, es))
  }

  /** The `<li>` of one entry: its text, then its nested list if it has one. */
  function RenderEntry(kind: Tag, e: Entry): Node {
    Element(Li, [Text(e.text)] + (if e.sub == [] then [] else [Element(kind, RenderEntries(kind, e.sub))]))
  }

  function RenderEntries(kind: Tag, es: seq<Entry>): seq<Node> {
    if es == [] then [] else [RenderEntry(kind, es[0])] + RenderEntries(kind, es[1..])
  }

  /** The levels of an outline's entries in document order, counting from
      `depth`. */
  function OutlineLevels(es: seq<Entry>, depth: nat): seq<nat> {
    if es == [] then []
    else [depth] + OutlineLevels(es[0].sub, depth + 1) + OutlineLevels(es[1..], depth)
  }

  function Levels(rs: seq<Record>): (r: seq<nat>)
    ensures |r| == |rs| && forall i :: 0 <= i < |rs| ==> r[i] == rs[i].level
  {
    if rs == [] then [] else [rs[0].level] + Levels(rs[1..])
  }

  lemma LevelsAppend(a: seq<Record>, b: seq<Record>)
    ensures Levels(a + b) == Levels(a) + Levels(b)
  {
  }

  /** With the kind passed down, flattening a rendered outline yields one
      record per entry at the entry's depth, in document order. */
  lemma {:induction false} ParseLiFixedFollowsOutline(kind: Tag, es: seq<Entry>, depth: nat)
    requires kind == Ol || kind == Ul
    ensures Levels(ParseLiFixed(Render(kind, es), depth, kind)) == OutlineLevels(es, depth)
  {
    RenderedItemsFollowOutline(kind, es, depth);
  }

  lemma {:induction false} RenderedItemsFollowOutline(kind: Tag, es: seq<Entry>, depth: nat)
    requires kind == Ol || kind == Ul
    ensures Levels(FlattenItems(RenderEntries(kind, es), depth, kind, kind)) == OutlineLevels(es, depth)
    decreases es
  {
    if es != [] {
      var cs := RenderEntries(kind, es);
      var li := RenderEntry(kind, es[0]);
      assert cs[0] == li && cs[1..] == RenderEntries(kind, es[1..]);
      var own := Record(depth, GetStrippedText(li));
      var sub := Nested(li, depth, kind, kind);
      var rest := FlattenItems(cs[1..], depth, kind, kind);
      assert FlattenItems(cs, depth, kind, kind) == [own] + sub + rest;
      RenderedEntryNested(kind, es[0], depth);
      RenderedItemsFollowOutline(kind, es[1..], depth);
      LevelsAppend([own] + sub, rest);
      LevelsAppend([own], sub);
    }
  }

  lemma {:induction false} RenderedEntryNested(kind: Tag, e: Entry, depth: nat)
    requires kind == Ol || kind == Ul
    ensures Levels(Nested(RenderEntry(kind, e), depth, kind, kind)) == OutlineLevels(e.sub, depth + 1)
    decreases e
  {
    var kids := Children(RenderEntry(kind, e));
    assert Find(kids, kind) == Find(kids[1..], kind) by {
      assert !HasTag(kids[0], kind) && Children(kids[0]) == [];
    }
    if e.sub == [] {
      assert kids[1..] == [];
    } else {
      var inner := Element(kind, RenderEntries(kind, e.sub));
      assert kids[1..] == [inner];
      assert Find(kids, kind) == Some(Found(inner, ElementsOnly([])));
      RenderedItemsFollowOutline(kind, e.sub, depth + 1);
    }
  }

  /** The entries of an outline with their nested lists dropped. */
  function Flat(es: seq<Entry>): seq<Entry> {
    if es == [] then [] else [Entry(es[0].text, [])] + Flat(es[1..])
  }

  /** An outline cut after its second level: each entry keeps its nested
      entries, but those lose theirs. */
  function TwoLevels(es: seq<Entry>): seq<Entry> {
    if es == [] then [] else [Entry(es[0].text, Flat(es[0].sub))] + TwoLevels(es[1..])
  }

  lemma OutlineLevelsCons(e: Entry, rest: seq<Entry>, depth: nat)
    ensures OutlineLevels([e] + rest, depth) == [depth] + OutlineLevels(e.sub, depth + 1) + OutlineLevels(rest, depth)
  {
    assert ([e] + rest)[0] == e && ([e] + rest)[1..] == rest;
  }

  /** An all-`<ul>` outline holds no `<ol>` anywhere. */
  lemma {:induction false} NoOlInUlEntries(es: seq<Entry>)
    ensures Find(RenderEntries(Ul, es), Ol) == None
    decreases es
  {
    if es != [] {
      var cs := RenderEntries(Ul, es);
      assert cs[0] == RenderEntry(Ul, es[0]) && cs[1..] == RenderEntries(Ul, es[1..]);
      NoOlInUlEntry(es[0]);
      NoOlInUlEntries(es[1..]);
      assert Find(cs, Ol) == Find(cs[1..], Ol);
    }
  }

  lemma {:induction false} NoOlInUlEntry(e: Entry)
    ensures Find(Children(RenderEntry(Ul, e)), Ol) == None
    decreases e
  {
    var kids := Children(RenderEntry(Ul, e));
    assert Find(kids, Ol) == Find(kids[1..], Ol) by {
      assert !HasTag(kids[0], Ol) && Children(kids[0]) == [];
    }
    if e.sub == [] {
      assert kids[1..] == [];
    } else {
      var inner := Element(Ul, RenderEntries(Ul, e.sub));
      assert kids[1..] == [inner];
      NoOlInUlEntries(e.sub);
      assert Find([inner][1..], Ol) == None;
    }
  }

  /** Below the first level, an all-`<ul>` outline searched for `ol` lists
      each item once and nothing deeper. */
  lemma {:induction false} FlatItemsLevels(es: seq<Entry>, depth: nat)
    ensures Levels(FlattenItems(RenderEntries(Ul, es), depth, Ol, Ol)) == OutlineLevels(Flat(es), depth)
    decreases es
  {
    if es != [] {
      var cs := RenderEntries(Ul, es);
      var li := RenderEntry(Ul, es[0]);
      assert cs[0] == li && cs[1..] == RenderEntries(Ul, es[1..]);
      NoOlInUlEntry(es[0]);
      assert Nested(li, depth, Ol, Ol) == [];
      var own := Record(depth, GetStrippedText(li));
      var rest := FlattenItems(cs[1..], depth, Ol, Ol);
      assert FlattenItems(cs, depth, Ol, Ol) == [own] + [] + rest;
      FlatItemsLevels(es[1..], depth);
      LevelsAppend([own], rest);
      OutlineLevelsCons(Entry(es[0].text, []), Flat(es[1..]), depth);
    }
  }

  /** As written, the item of an all-`<ul>` outline finds its nested `<ul>`
      and lists that list's items one level down, and nothing below them. */
  lemma AsWrittenEntryNested(e: Entry, depth: nat)
    ensures Levels(Nested(RenderEntry(Ul, e), depth, Ul, Ol)) == OutlineLevels(Flat(e.sub), depth + 1)
  {
    var kids := Children(RenderEntry(Ul, e));
    assert Find(kids, Ul) == Find(kids[1..], Ul) by {
      assert !HasTag(kids[0], Ul) && Children(kids[0]) == [];
    }
    if e.sub == [] {
      assert kids[1..] == [];
      assert Flat(e.sub) == [];
    } else {
      var inner := Element(Ul, RenderEntries(Ul, e.sub));
      assert kids[1..] == [inner];
      assert Find(kids, Ul) == Some(Found(inner, ElementsOnly([])));
      FlatItemsLevels(e.sub, depth + 1);
    }
  }

  lemma {:induction false} AsWrittenItemsLevels(es: seq<Entry>, depth: nat)
    ensures Levels(FlattenItems(RenderEntries(Ul, es), depth, Ul, Ol)) == OutlineLevels(TwoLevels(es), depth)
    decreases es
  {
    if es != [] {
      var cs := RenderEntries(Ul, es);
      var li := RenderEntry(Ul, es[0]);
      assert cs[0] == li && cs[1..] == RenderEntries(Ul, es[1..]);
      var own := Record(depth, GetStrippedText(li));
      var sub := Nested(li, depth, Ul, Ol);
      var rest := FlattenItems(cs[1..], depth, Ul, Ol);
      assert FlattenItems(cs, depth, Ul, Ol) == [own] + sub + rest;
      AsWrittenEntryNested(es[0], depth);
      AsWrittenItemsLevels(es[1..], depth);
      LevelsAppend([own] + sub, rest);
      LevelsAppend([own], sub);
      OutlineLevelsCons(Entry(es[0].text, Flat(es[0].sub)), TwoLevels(es[1..]), depth);
    }
  }

  /** `parse_li` as written on a bulleted outline of any shape: the items of
      the first two levels are listed at their depths, in document order,
      and every item below the second level is dropped, because the
      nested calls search for `<ol>`. */
  lemma {:induction false} ParseLiFollowsTwoLevels(es: seq<Entry>, depth: nat)
    ensures Levels(ParseLi(Render(Ul, es), depth, Ul)) == OutlineLevels(TwoLevels(es), depth)
  {
    AsWrittenItemsLevels(es, depth);
  }

  /** The outline a, nested b, nested c: three items three levels deep. */
  function ThreeDeep(a: string, b: string, c: string): seq<Entry> {
    [Entry(a, [Entry(b, [Entry(c, [])])])]
  }

  /** As written, `parse_li` drops the third level of an all-`<ul>` outline:
      three entries give two records, while the corrected flattener gives
      one record per entry. */
  lemma ParseLiDropsThirdLevel(a: string, b: string, c: string)
    ensures OutlineLevels(ThreeDeep(a, b, c), 0) == [0, 1, 2]
    ensures Levels(ParseLiFixed(Render(Ul, ThreeDeep(a, b, c)), 0, Ul)) == [0, 1, 2]
    ensures Levels(ParseLi(Render(Ul, ThreeDeep(a, b, c)), 0, Ul)) == [0, 1]
  {
    var eC := Entry(c, []);
    var eB := Entry(b, [eC]);
    var eA := Entry(a, [eB]);
    assert OutlineLevels([eC], 2) == [2];
    assert OutlineLevels([eB], 1) == [1] + [2] + [];
    assert OutlineLevels([eA], 0) == [0] + [1, 2] + [];
    ParseLiFixedFollowsOutline(Ul, ThreeDeep(a, b, c), 0);
    AsWrittenThreeDeep(a, b, c);
  }

  /** A one-string item holds no `<ol>`. */
  lemma PlainItemHasNoOl(c: string)
    ensures Find([RenderEntry(Ul, Entry(c, []))], Ol) == None
  {
    var liC := RenderEntry(Ul, Entry(c, []));
    assert Children(liC) == [Text(c)];
    assert Find([Text(c)][1..], Ol) == None;
    assert Find(Children(liC), Ol) == None;
    assert Find([liC][1..], Ol) == None;
  }

  /** The second-level item of the three-deep outline holds no `<ol>`. */
  lemma SecondItemHasNoOl(b: string, c: string)
    ensures Find(Children(RenderEntry(Ul, Entry(b, [Entry(c, [])]))), Ol) == None
  {
    var liC := RenderEntry(Ul, Entry(c, []));
    var ulC := Element(Ul, [liC]);
    var liB := RenderEntry(Ul, Entry(b, [Entry(c, [])]));
    PlainItemHasNoOl(c);
    assert RenderEntries(Ul, [Entry(c, [])]) == [liC];
    assert Children(liB) == [Text(b), ulC];
    assert Children(liB)[1..] == [ulC];
    assert Find([ulC][1..], Ol) == None;
    assert Find([ulC], Ol) == None;
  }

  /** The second-level `<ul>` of the three-deep outline, searched for
      `ol`, yields its own item and nothing below it. */
  lemma SecondLevelStops(b: string, c: string)
    ensures var liB := RenderEntry(Ul, Entry(b, [Entry(c, [])]));
            Flatten(Element(Ul, [liB]), 1, Ol, Ol) == [Record(1, GetStrippedText(liB))]
  {
    var liB := RenderEntry(Ul, Entry(b, [Entry(c, [])]));
    SecondItemHasNoOl(b, c);
    assert Nested(liB, 1, Ol, Ol) == [];
    var rb := Record(1, GetStrippedText(liB));
    assert FlattenItems([liB], 1, Ol, Ol) == [rb] + [] + FlattenItems([liB][1..], 1, Ol, Ol);
  }

  /** The top item of the three-deep outline finds its `<ul>` and
      contributes the second-level record alone. */
  lemma TopItemNested(a: string, b: string, c: string)
    ensures var liB := RenderEntry(Ul, Entry(b, [Entry(c, [])]));
            Nested(RenderEntry(Ul, Entry(a, [Entry(b, [Entry(c, [])])])), 0, Ul, Ol)
            == [Record(1, GetStrippedText(liB))]
  {
    var liB := RenderEntry(Ul, Entry(b, [Entry(c, [])]));
    var ulB := Element(Ul, [liB]);
    var liA := RenderEntry(Ul, Entry(a, [Entry(b, [Entry(c, [])])]));
    SecondLevelStops(b, c);
    assert RenderEntries(Ul, [Entry(b, [Entry(c, [])])]) == [liB];
    assert Children(liA) == [Text(a), ulB];
    assert Find(Children(liA), Ul) == Some(Found(ulB, [])) by {
      assert Children(liA)[1..] == [ulB];
      assert Find([ulB], Ul) == Some(Found(ulB, ElementsOnly([])));
    }
  }

  /** A list of a single item yields that item's record, then its nested
      records. */
  lemma OneItem(li: Node, level: nat, search: Tag, nested: Tag)
    requires HasTag(li, Li)
    ensures Flatten(Element(Ul, [li]), level, search, nested)
            == [Record(level, GetStrippedText(li))] + Nested(li, level, search, nested)
  {
    assert FlattenItems([li][1..], level, search, nested) == [];
  }

  /** A one-entry outline renders as a list of that entry's item. */
  lemma RenderOne(kind: Tag, e: Entry)
    ensures Render(kind, [e]) == Element(kind, [RenderEntry(kind, e)])
  {
    assert [e][1..] == [];
    assert RenderEntries(kind, [e]) == [RenderEntry(kind, e)] + RenderEntries(kind, []);
  }

  /** A single item whose nested records are one record one level down
      flattens to records at levels `level` and `level + 1`. */
  lemma OneItemOneNested(li: Node, level: nat, search: Tag, nested: Tag, r: Record)
    requires HasTag(li, Li) && r.level == level + 1
    requires Nested(li, level, search, nested) == [r]
    ensures Levels(Flatten(Element(Ul, [li]), level, search, nested)) == [level, level + 1]
  {
    OneItem(li, level, search, nested);
    var rs := [Record(level, GetStrippedText(li))] + [r];
    assert Levels(rs) == [rs[0].level, rs[1].level];
  }

  lemma AsWrittenThreeDeep(a: string, b: string, c: string)
    ensures Levels(ParseLi(Render(Ul, ThreeDeep(a, b, c)), 0, Ul)) == [0, 1]
  {
    var eA := Entry(a, [Entry(b, [Entry(c, [])])]);
    var liB := RenderEntry(Ul, Entry(b, [Entry(c, [])]));
    var liA := RenderEntry(Ul, eA);
    TopItemNested(a, b, c);
    RenderOne(Ul, eA);
    assert ThreeDeep(a, b, c) == [eA];
    OneItemOneNested(liA, 0, Ul, Ol, Record(1, GetStrippedText(liB)));
  }
}
