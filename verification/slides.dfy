/** The slide loop of `make_presentation`: the rendered HTML is cut into
    fragments on `<hr />`, each fragment's finest heading decides its level,
    title, body and breadcrumb, and a context of the last heading text seen
    at each level is carried from fragment to fragment. */
module Slides {
  import opened Results
  import opened Strings
  import opened Html

  /** The literal the HTML is split on. */
  const Separator := "<hr />"

  /** The heading text last seen at each level. */
  datatype Context = Context(h1: string, h2: string, h3: string) {
    function Get(l: Level): string {
      match l
      case H1 => h1
      case H2 => h2
      case H3 => h3
    }

    /** `context[l] = t`: level `l` now reads `t`, the others are untouched. */
    function Set(l: Level, t: string): (c: Context)
      ensures c.Get(l) == t
      ensures forall m :: m != l ==> c.Get(m) == Get(m)
    {
      match l
      case H1 => this.(h1 := t)
      case H2 => this.(h2 := t)
      case H3 => this.(h3 := t)
    }
  }

  /** The context a conversion starts with. */
  const InitialContext := Context("", "", "")

  /** The non-empty strings of `xs`, in order. */
  function NonEmpty(xs: seq<string>): (r: seq<string>)
    ensures |r| <= |xs|
    ensures forall i :: 0 <= i < |r| ==> r[i] != "" && r[i] in xs
    ensures Concat(r) == Concat(xs)
  {
    if xs == [] then []
    else if xs[0] == "" then NonEmpty(xs[1..])
    else [xs[0]] + NonEmpty(xs[1..])
  }

  /** Filtering distributes over concatenation, so it keeps the order of
      the pieces it keeps. */
  lemma {:induction false} NonEmptyAppend(a: seq<string>, b: seq<string>)
    ensures NonEmpty(a + b) == NonEmpty(a) + NonEmpty(b)
  {
    if a == [] {
      assert a + b == b;
    } else {
      assert (a + b)[0] == a[0];
      assert (a + b)[1..] == a[1..] + b;
      NonEmptyAppend(a[1..], b);
    }
  }

  /** The slide fragments: the pieces of `html.split("<hr />")` in order,
      skipping the empty ones. None holds the separator, and together they
      hold every other character of the HTML. */
  function Fragments(html: string): (r: seq<string>)
    ensures forall i :: 0 <= i < |r| ==> r[i] != "" && !Contains(r[i], Separator)
    ensures Concat(r) == Concat(Split(html, Separator))
  {
    var pieces := Split(html, Separator);
    SplitPiecesFree(html, Separator);
    NonEmpty(pieces)
  }

  /** A document without `<hr />` is one fragment, or none when it is empty. */
  lemma FragmentsWithoutSeparator(html: string)
    requires !Contains(html, Separator)
    ensures Fragments(html) == if html == "" then [] else [html]
  {
    SplitWithoutSeparator(html, Separator);
    assert Split(html, Separator) == [html];
    assert NonEmpty([html][1..]) == [];
  }

  /** A heading of level `l` occurs somewhere in the fragment. */
  predicate Present(frag: seq<Node>, l: Level) {
    Find(frag, Heading(l)).Some?
  }

  /** The text of the first heading of level `l`. */
  function HeadingText(frag: seq<Node>, l: Level): string
    requires Present(frag, l)
  {
    GetText(Find(frag, Heading(l)).value.node)
  }

  /** The finest heading level present: h3, else h2, else h1, else none. */
  function Finest(frag: seq<Node>): Option<Level> {
    if Present(frag, H3) then Some(H3)
    else if Present(frag, H2) then Some(H2)
    else if Present(frag, H1) then Some(H1)
    else None
  }

  /** What the context reads at level `l` after fragment `frag`. */
  function Updated(frag: seq<Node>, ctx: Context, l: Level): string {
    if Present(frag, l) then HeadingText(frag, l) else ctx.Get(l)
  }

  /** One turn of the loop over `["h1", "h2", "h3"]`: when the fragment has
      a heading of level `l`, the slide level becomes `l` and the context
      records the first such heading's text. */
  function Visit(frag: seq<Node>, l: Level, acc: (Option<Level>, Context)): (Option<Level>, Context) {
    match Find(frag, Heading(l))
    case Some(f) => (Some(l), acc.1.Set(l, GetText(f.node)))
    case None => acc
  }

  /** The heading scan of one fragment: the slide level is the finest level
      present, each present level takes the text of its first heading, and
      the absent levels keep what they had. */
  function Classify(frag: seq<Node>, ctx: Context): (r: (Option<Level>, Context))
    ensures r.0 == Finest(frag)
    ensures r.0.None? <==> !Present(frag, H1) && !Present(frag, H2) && !Present(frag, H3)
    ensures forall l :: r.1.Get(l) == Updated(frag, ctx, l)
  {
    Visit(frag, H3, Visit(frag, H2, Visit(frag, H1, (None, ctx))))
  }

  /** What one fragment describes: title, breadcrumb, body nodes and the
      fragment's source text (kept in the slide's notes). */
  datatype SlideDescriptor = SlideDescriptor(title: string, breadcrumb: string, body: seq<Node>, source: string)

  /** The breadcrumb for a slide of `level`, read from the context: it
      starts with the h1 text for an h2 or h3 slide, and it is empty
      exactly for a slide without a level, an h1 slide, or an h2 slide
      under an empty h1 (the " > " of an h3 slide is never empty). */
  function Breadcrumb(level: Option<Level>, ctx: Context): (r: string)
    ensures r == "" <==> level.None? || level == Some(H1) || (level == Some(H2) && ctx.h1 == "")
    ensures (level == Some(H2) || level == Some(H3)) ==> |ctx.h1| <= |r| && r[..|ctx.h1|] == ctx.h1
  {
    match level
    case Some(H2) => ctx.h1
    case Some(H3) => ctx.h1 + " > " + ctx.h2
    case _ => ""
  }

  /** The title a fragment yields: the text of the first heading of its
      finest level, or nothing. */
  function TitleOf(frag: seq<Node>): string {
    match Finest(frag)
    case None => ""
    case Some(l) => HeadingText(frag, l)
  }

  /** One fragment: classify its headings, take the title and the body
      (the element siblings after the first heading of the slide level, or
      the whole parsed fragment when there is no heading), then build the
      breadcrumb from the context as this fragment left it. */
  function Step(ctx: Context, source: string, frag: seq<Node>): (r: (Context, SlideDescriptor))
    ensures forall l :: r.0.Get(l) == Updated(frag, ctx, l)
    ensures r.1.title == TitleOf(frag) && r.1.source == source
    ensures r.1.breadcrumb == Breadcrumb(Finest(frag), r.0)
    ensures Finest(frag).None? ==> r.1.body == [Element(DocumentTag, frag)]
    ensures Finest(frag).Some? ==>
              var l := Finest(frag).value;
              r.0.Get(l) == r.1.title && r.1.body == Find(frag, Heading(l)).value.following
  {
    var (level, ctx') := Classify(frag, ctx);
    match level
    case None => (ctx', SlideDescriptor("", Breadcrumb(level, ctx'), [Element(DocumentTag, frag)], source))
    case Some(l) =>
      var found := Find(frag, Heading(l)).value;
      (ctx', SlideDescriptor(GetText(found.node), Breadcrumb(level, ctx'), found.following, source))
  }

  /** The breadcrumb reads the context after this fragment's own headings
      were recorded: an h2 slide shows the fragment's own h1 when it has
      one, an h3 slide its own h1 and h2, and otherwise what earlier
      fragments left. */
  lemma StepBreadcrumb(ctx: Context, source: string, frag: seq<Node>)
    ensures var crumb := Step(ctx, source, frag).1.breadcrumb;
            match Finest(frag)
            case None => crumb == ""
            case Some(H1) => crumb == ""
            case Some(H2) => crumb == Updated(frag, ctx, H1)
            case Some(H3) => crumb == Updated(frag, ctx, H1) + " > " + Updated(frag, ctx, H2)
  {
    var c := Step(ctx, source, frag).0;
    assert c.h1 == c.Get(H1) && c.h2 == c.Get(H2);
  }

  /** Where the fragment's first heading of its finest level is the
      top-level node `frag[k]`, with no heading of that level anywhere
      before it, the slide's title is that heading's text and its body is
      every element after it at the top level, in order. */
  lemma StepBody(ctx: Context, source: string, frag: seq<Node>, k: nat)
    requires Finest(frag).Some? && k < |frag|
    requires HasTag(frag[k], Heading(Finest(frag).value)) && Lacks(frag[..k], Heading(Finest(frag).value))
    ensures Step(ctx, source, frag).1.title == GetText(frag[k])
    ensures Step(ctx, source, frag).1.body == ElementsOnly(frag[k + 1..])
  {
    FindAt(frag, k, Heading(Finest(frag).value));
  }

  /** The fragments that yield a non-empty title, in order. */
  function Titled(frags: seq<string>, parse: string -> seq<Node>): seq<string> {
    if frags == [] then []
    else if TitleOf(parse(frags[0])) != "" then [frags[0]] + Titled(frags[1..], parse)
    else Titled(frags[1..], parse)
  }

  function Sources(ds: seq<SlideDescriptor>): (r: seq<string>)
    ensures |r| == |ds| && forall i :: 0 <= i < |ds| ==> r[i] == ds[i].source
  {
    if ds == [] then [] else [ds[0].source] + Sources(ds[1..])
  }

  /** The loop over fragments: the context is threaded from one fragment to
      the next, and a slide is kept exactly when its title is not empty. */
  function Process(ctx: Context, frags: seq<string>, parse: string -> seq<Node>): (r: (Context, seq<SlideDescriptor>))
    ensures forall i :: 0 <= i < |r.1| ==> r.1[i].title != ""
    ensures Sources(r.1) == Titled(frags, parse)
    ensures |r.1| == |Titled(frags, parse)|
    decreases |frags|
  {
    if frags == [] then (ctx, [])
    else
      var (c1, d) := Step(ctx, frags[0], parse(frags[0]));
      var (c2, ds) := Process(c1, frags[1..], parse);
      (c2, if d.title != "" then [d] + ds else ds)
  }

  /** The context after a run of fragments, computed without building any
      slide. */
  function ContextAfter(ctx: Context, frags: seq<string>, parse: string -> seq<Node>): Context
    decreases |frags|
  {
    if frags == [] then ctx
    else ContextAfter(Classify(parse(frags[0]), ctx).1, frags[1..], parse)
  }

  /** The context the loop threads depends on the headings alone, so it can
      be computed in a pass of its own before any slide is built. */
  lemma {:induction false} ProcessContext(ctx: Context, frags: seq<string>, parse: string -> seq<Node>)
    ensures Process(ctx, frags, parse).0 == ContextAfter(ctx, frags, parse)
    decreases |frags|
  {
    if frags != [] {
      var c1 := Step(ctx, frags[0], parse(frags[0])).0;
      assert c1 == Classify(parse(frags[0]), ctx).1 by {
        assert forall l :: c1.Get(l) == Classify(parse(frags[0]), ctx).1.Get(l);
        assert c1.Get(H1) == c1.h1 && c1.Get(H2) == c1.h2 && c1.Get(H3) == c1.h3;
      }
      ProcessContext(c1, frags[1..], parse);
    }
  }

  /** The context after two runs of fragments is the context after the
      second run, started from where the first run left it. */
  lemma {:induction false} ProcessAppendContext(ctx: Context, a: seq<string>, b: seq<string>, parse: string -> seq<Node>)
    ensures Process(ctx, a + b, parse).0 == Process(Process(ctx, a, parse).0, b, parse).0
    decreases |a|
  {
    if a == [] {
      assert a + b == b;
    } else {
      assert (a + b)[0] == a[0];
      assert (a + b)[1..] == a[1..] + b;
      ProcessAppendContext(Step(ctx, a[0], parse(a[0])).0, a[1..], b, parse);
    }
  }

  /** Processing two runs of fragments one after the other gives the slides
      of the first run followed by those of the second: the loop is a fold. */
  lemma {:induction false} ProcessAppend(ctx: Context, a: seq<string>, b: seq<string>, parse: string -> seq<Node>)
    ensures Process(ctx, a + b, parse).1
            == Process(ctx, a, parse).1 + Process(Process(ctx, a, parse).0, b, parse).1
    decreases |a|
  {
    if a == [] {
      assert a + b == b;
    } else {
      assert (a + b)[0] == a[0];
      assert (a + b)[1..] == a[1..] + b;
      var step := Step(ctx, a[0], parse(a[0]));
      ProcessAppend(step.0, a[1..], b, parse);
      var ra := Process(step.0, a[1..], parse);
      var rb := Process(ra.0, b, parse).1;
      var rab := Process(step.0, a[1..] + b, parse);
      assert rab.1 == ra.1 + rb;
      if step.1.title != "" {
        assert [step.1] + rab.1 == ([step.1] + ra.1) + rb;
      }
    }
  }
}
