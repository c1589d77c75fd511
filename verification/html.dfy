/** The parsed HTML of one slide fragment, as the converter sees it through
    BeautifulSoup: a forest of elements and text strings, searched with
    `find` (first match in document order), `find_next_siblings` and
    `get_text`. */
module Html {
  import opened Results
  import opened Strings

  /** The three heading levels the converter recognises. */
  datatype Level = H1 | H2 | H3

  /** Element names the converter dispatches on; every other element
      (including `h4`..`h6`) keeps its name under `Named`. The parsed trees
      the model is given spell each dispatched name with its own
      constructor only: a `p` is `P`, never `Named("p")`. */
  datatype Tag = Heading(level: Level) | P | Ol | Ul | Li | Named(name: string)

  /** A parse tree node: a text string or an element with its children. */
  datatype Node = Text(content: string) | Element(tag: Tag, children: seq<Node>)

  /** The name BeautifulSoup gives the root of a parsed fragment. */
  const DocumentTag: Tag := Named("[document]")

  function Children(n: Node): seq<Node> {
    if n.Element? then n.children else []
  }

  predicate HasTag(n: Node, t: Tag) {
    n.Element? && n.tag == t
  }

  function Size(n: Node): nat {
    match n
    case Text(_) => 1
    case Element(_, cs) => 1 + SizeOf(cs)
  }

  function SizeOf(ns: seq<Node>): nat {
    if ns == [] then 0 else Size(ns[0]) + SizeOf(ns[1..])
  }

  lemma SizeOfCons(ns: seq<Node>)
    requires ns != []
    ensures SizeOf(ns) == 1 + SizeOf(Children(ns[0])) + SizeOf(ns[1..])
  {
  }

  /** All nodes of a forest in document order: each node before its
      descendants, and those before the node's later siblings. */
  function Preorder(ns: seq<Node>): (r: seq<Node>)
    ensures |r| == SizeOf(ns)
    decreases SizeOf(ns)
  {
    if ns == [] then []
    else
      SizeOfCons(ns);
      [ns[0]] + Preorder(Children(ns[0])) + Preorder(ns[1..])
  }

  /** `tag.descendants`. */
  function Descendants(n: Node): seq<Node> {
    Preorder(Children(n))
  }

  /** The element siblings among `ns`, in order: what `find_next_siblings()`
      returns, since it skips text strings. */
  function ElementsOnly(ns: seq<Node>): (r: seq<Node>)
    ensures forall i :: 0 <= i < |r| ==> r[i].Element?
  {
    if ns == [] then []
    else if ns[0].Element? then [ns[0]] + ElementsOnly(ns[1..])
    else ElementsOnly(ns[1..])
  }

  /** A single sibling is kept exactly when it is an element. */
  lemma ElementsOnlyOne(x: Node)
    ensures ElementsOnly([x]) == if x.Element? then [x] else []
  {
    assert [x][1..] == [];
  }

  /** The filter distributes over concatenation, so every element sibling
      is kept, in order, and no text string is. */
  lemma {:induction false} ElementsOnlyAppend(a: seq<Node>, b: seq<Node>)
    ensures ElementsOnly(a + b) == ElementsOnly(a) + ElementsOnly(b)
  {
    if a == [] {
      assert a + b == b;
    } else {
      assert (a + b)[0] == a[0];
      assert (a + b)[1..] == a[1..] + b;
      ElementsOnlyAppend(a[1..], b);
    }
  }

  /** A match of `find`: the element found and the element siblings that
      follow it inside its parent. */
  datatype Found = Found(node: Node, following: seq<Node>)

  /** `root.find(t)` over the children `ns` of the root, together with the
      match's `find_next_siblings()`. */
  function Find(ns: seq<Node>, t: Tag): (r: Option<Found>)
    ensures r.Some? ==> HasTag(r.value.node, t) && Size(r.value.node) <= SizeOf(ns)
    ensures r.Some? ==> forall i :: 0 <= i < |r.value.following| ==> r.value.following[i].Element?
    decreases SizeOf(ns)
  {
    if ns == [] then None
    else if HasTag(ns[0], t) then Some(Found(ns[0], ElementsOnly(ns[1..])))
    else
      SizeOfCons(ns);
      match Find(Children(ns[0]), t)
      case Some(f) => Some(f)
      case None => Find(ns[1..], t)
  }

  /** The node of a `find` result. */
  function NodeOf(r: Option<Found>): Option<Node> {
    match r
    case None => None
    case Some(f) => Some(f.node)
  }

  /** A linear scan: the first node of `xs` carrying tag `t`. */
  function FirstWithTag(xs: seq<Node>, t: Tag): (r: Option<Node>)
    ensures r.None? <==> forall i :: 0 <= i < |xs| ==> !HasTag(xs[i], t)
    ensures r.Some? ==> exists i :: 0 <= i < |xs| && xs[i] == r.value && HasTag(xs[i], t)
                                    && forall j :: 0 <= j < i ==> !HasTag(xs[j], t)
  {
    if xs == [] then None
    else if HasTag(xs[0], t) then Some(xs[0])
    else
      var r := FirstWithTag(xs[1..], t);
      assert forall i :: 0 < i < |xs| ==> xs[i] == xs[1..][i - 1];
      r
  }

  lemma {:induction false} FirstWithTagAppend(a: seq<Node>, b: seq<Node>, t: Tag)
    ensures FirstWithTag(a + b, t)
            == if FirstWithTag(a, t).Some? then FirstWithTag(a, t) else FirstWithTag(b, t)
  {
    if a == [] {
      assert a + b == b;
    } else {
      assert (a + b)[0] == a[0];
      assert (a + b)[1..] == a[1..] + b;
      FirstWithTagAppend(a[1..], b, t);
    }
  }

  lemma FirstWithTagCons(x: Node, rest: seq<Node>, t: Tag)
    ensures FirstWithTag([x] + rest, t) == if HasTag(x, t) then Some(x) else FirstWithTag(rest, t)
  {
    assert ([x] + rest)[0] == x && ([x] + rest)[1..] == rest;
  }

  /** The tree search `find` agrees with a linear scan of the document
      order: it returns the first element with the tag, and nothing exactly
      when no element has it. */
  lemma {:induction false} FindIsFirstInPreorder(ns: seq<Node>, t: Tag)
    ensures NodeOf(Find(ns, t)) == FirstWithTag(Preorder(ns), t)
    decreases SizeOf(ns)
  {
    if ns != [] {
      var inner := Preorder(Children(ns[0]));
      var later := Preorder(ns[1..]);
      assert Preorder(ns) == [ns[0]] + (inner + later);
      FirstWithTagCons(ns[0], inner + later, t);
      if !HasTag(ns[0], t) {
        SizeOfCons(ns);
        FindIsFirstInPreorder(Children(ns[0]), t);
        FindIsFirstInPreorder(ns[1..], t);
        FirstWithTagAppend(inner, later, t);
        var down := Find(Children(ns[0]), t);
        assert Find(ns, t) == if down.Some? then down else Find(ns[1..], t);
      }
    }
  }

  /** The text strings among `xs`, in order. */
  function TextStrings(xs: seq<Node>): (r: seq<string>)
    ensures |r| <= |xs|
  {
    if xs == [] then []
    else if xs[0].Text? then [xs[0].content] + TextStrings(xs[1..])
    else TextStrings(xs[1..])
  }

  function StripEach(xs: seq<string>): (r: seq<string>)
    ensures |r| == |xs| && forall i :: 0 <= i < |xs| ==> r[i] == Strip(xs[i])
  {
    if xs == [] then [] else [Strip(xs[0])] + StripEach(xs[1..])
  }

  /** `tag.get_text()`: every text string below the element, concatenated in
      document order. */
  function GetText(n: Node): string {
    Concat(TextStrings(Descendants(n)))
  }

  lemma {:induction false} TextStringsAppend(a: seq<Node>, b: seq<Node>)
    ensures TextStrings(a + b) == TextStrings(a) + TextStrings(b)
  {
    if a == [] {
      assert a + b == b;
    } else {
      assert (a + b)[0] == a[0];
      assert (a + b)[1..] == a[1..] + b;
      TextStringsAppend(a[1..], b);
    }
  }

  /** The text of an element is the text of its first child (the string
      itself, or that element's text) followed by the text of the others. */
  lemma GetTextCons(t: Tag, c: Node, rest: seq<Node>)
    ensures GetText(Element(t, [c] + rest))
            == (if c.Text? then c.content else GetText(c)) + GetText(Element(t, rest))
  {
    var cs := [c] + rest;
    assert cs[0] == c && cs[1..] == rest;
    var inner := Preorder(Children(c));
    var later := Preorder(rest);
    assert Preorder(cs) == [c] + (inner + later);
    TextStringsAppend([c], inner + later);
    TextStringsAppend(inner, later);
    assert [c][1..] == [];
    var own := TextStrings([c]);
    ConcatAppend(own, TextStrings(inner) + TextStrings(later));
    ConcatAppend(TextStrings(inner), TextStrings(later));
    if c.Text? {
      assert own == [c.content];
      assert Concat([c.content]) == c.content + Concat([]);
      assert inner == [];
    } else {
      assert own == [];
    }
  }

  lemma {:induction false} StripEachAppend(a: seq<string>, b: seq<string>)
    ensures StripEach(a + b) == StripEach(a) + StripEach(b)
  {
    if a == [] {
      assert a + b == b;
    } else {
      assert (a + b)[0] == a[0];
      assert (a + b)[1..] == a[1..] + b;
      StripEachAppend(a[1..], b);
    }
  }

  /** The stripped text of an element is the stripped text of its first
      child (the string itself, stripped, or that element's stripped text)
      followed by the stripped text of the others. */
  lemma GetStrippedTextCons(t: Tag, c: Node, rest: seq<Node>)
    ensures GetStrippedText(Element(t, [c] + rest))
            == (if c.Text? then Strip(c.content) else GetStrippedText(c)) + GetStrippedText(Element(t, rest))
  {
    var cs := [c] + rest;
    assert cs[0] == c && cs[1..] == rest;
    var inner := Preorder(Children(c));
    var later := Preorder(rest);
    assert Preorder(cs) == [c] + (inner + later);
    TextStringsAppend([c], inner + later);
    TextStringsAppend(inner, later);
    assert [c][1..] == [];
    var own := TextStrings([c]);
    var a := StripEach(TextStrings(inner));
    var b := StripEach(TextStrings(later));
    StripEachAppend(own, TextStrings(inner) + TextStrings(later));
    StripEachAppend(TextStrings(inner), TextStrings(later));
    ConcatAppend(StripEach(own), a + b);
    ConcatAppend(a, b);
    if c.Text? {
      assert own == [c.content];
      assert StripEach(own) == [Strip(c.content)];
      assert Concat([Strip(c.content)]) == Strip(c.content) + Concat([]);
      assert inner == [];
    } else {
      assert own == [];
    }
  }

  /** `tag.get_text(strip=True)`: the same strings, each stripped of
      surrounding whitespace, concatenated with no separator (the strings
      that strip to nothing add nothing). The result neither starts nor
      ends with whitespace. */
  function GetStrippedText(n: Node): (r: string)
    ensures Trimmed(r)
  {
    var pieces := StripEach(TextStrings(Descendants(n)));
    ConcatTrimmed(pieces);
    Concat(pieces)
  }

  /** No element of the forest carries tag `t`. */
  predicate Lacks(ns: seq<Node>, t: Tag) {
    forall i :: 0 <= i < |Preorder(ns)| ==> !HasTag(Preorder(ns)[i], t)
  }

  /** A forest without the tag gives `find` nothing to return. */
  lemma FindLacking(ns: seq<Node>, t: Tag)
    requires Lacks(ns, t)
    ensures Find(ns, t) == None
  {
    FindIsFirstInPreorder(ns, t);
  }

  /** A forest lacking a tag starts with a node without it, whose children
      and later siblings lack it too. */
  lemma LacksParts(cs: seq<Node>, t: Tag)
    requires cs != [] && Lacks(cs, t)
    ensures !HasTag(cs[0], t)
    ensures Lacks(Children(cs[0]), t) && Lacks(cs[1..], t)
  {
    var all := Preorder(cs);
    var c := Preorder(Children(cs[0]));
    var rest := Preorder(cs[1..]);
    assert all == [cs[0]] + c + rest;
    assert all[0] == cs[0];
    forall i | 0 <= i < |c|
      ensures !HasTag(c[i], t)
    {
      assert c[i] == all[1 + i];
    }
    forall i | 0 <= i < |rest|
      ensures !HasTag(rest[i], t)
    {
      assert rest[i] == all[1 + |c| + i];
    }
  }

  /** Where the top-level node `ns[k]` carries `t` and nothing before it
      does, neither the earlier nodes nor their descendants, `find` returns
      `ns[k]`, and its next siblings are the elements after it, in order. */
  lemma {:induction false} FindAt(ns: seq<Node>, k: nat, t: Tag)
    requires k < |ns| && HasTag(ns[k], t) && Lacks(ns[..k], t)
    ensures Find(ns, t) == Some(Found(ns[k], ElementsOnly(ns[k + 1..])))
    decreases k
  {
    if k > 0 {
      var pre := ns[..k];
      LacksParts(pre, t);
      assert pre[0] == ns[0] && pre[1..] == ns[1..][..k - 1];
      FindLacking(Children(ns[0]), t);
      FindAt(ns[1..], k - 1, t);
      assert ns[1..][k - 1] == ns[k] && ns[1..][k..] == ns[k + 1..];
      assert Find(ns, t) == Find(ns[1..], t);
    }
  }

  /** The subtree `find` returns lacks every tag its whole forest lacks. */
  lemma {:induction false} FoundLacks(ns: seq<Node>, t: Tag, u: Tag)
    requires Lacks(ns, u)
    requires Find(ns, t).Some?
    ensures Lacks(Children(Find(ns, t).value.node), u)
    decreases SizeOf(ns)
  {
    var c := Preorder(Children(ns[0]));
    var rest := Preorder(ns[1..]);
    assert Preorder(ns) == [ns[0]] + c + rest;
    assert forall i :: 0 <= i < |c| ==> c[i] == Preorder(ns)[1 + i];
    assert forall i :: 0 <= i < |rest| ==> rest[i] == Preorder(ns)[1 + |c| + i];
    if !HasTag(ns[0], t) {
      if Find(Children(ns[0]), t).Some? {
        FoundLacks(Children(ns[0]), t, u);
      } else {
        FoundLacks(ns[1..], t, u);
      }
    }
  }
}
