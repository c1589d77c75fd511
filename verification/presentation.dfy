/** `make_presentation` and `add_slide`: configure the layouts, run the
    fragment loop and turn every kept fragment into a slide built on the
    "Title and Content" layout. */
module Presentation {
  import opened Results
  import opened Strings
  import opened Html
  import opened Paragraphs
  import opened BodyRenderer
  import opened Layouts
  import opened Slides

  /** A slide as `add_slide` leaves it: the layout it was built from, the
      title paragraph, the paragraphs of the body placeholder and the text
      of its notes. */
  datatype Slide = Slide(layout: Layout, title: Paragraph, body: seq<Paragraph>, notes: string)

  /** The saved presentation: page size, layouts and slides in order. */
  datatype Deck = Deck(width: int, height: int, layouts: seq<Layout>, slides: seq<Slide>)

  /** Point sizes `add_slide` gives the title and the body text. */
  const TitleSize: nat := 40
  const BodySize: nat := 30

  /** `x.font.size = Pt(size)` for every paragraph of a text frame. */
  function SetFontSize(ps: seq<Paragraph>, size: nat): (r: seq<Paragraph>)
    ensures |r| == |ps|
    ensures forall i :: 0 <= i < |ps| ==> r[i] == ps[i].(fontSize := Some(size))
  {
    if ps == [] then [] else [ps[0].(fontSize := Some(size))] + SetFontSize(ps[1..], size)
  }

  /** `add_slide`: a slide on `layout` whose title is the descriptor's title
      at 40 pt aligned left, whose body placeholder holds the empty
      paragraph every new text frame starts with followed by the drawn body,
      all at 30 pt, and whose notes hold the fragment's source. */
  function AddSlide(layout: Layout, d: SlideDescriptor): (s: Slide)
    ensures s.layout == layout && s.notes == d.source
    ensures s.title.text == d.title && s.title.level == 0
            && s.title.fontSize == Some(TitleSize) && s.title.align == Left
    ensures |s.body| == 1 + |Draw(d.body)|
    ensures s.body[0] == Paragraph("", 0, [], Some(BodySize), Inherited)
    ensures forall i :: 1 <= i < |s.body| ==>
              var p := Draw(d.body)[i - 1];
              s.body[i].text == p.text && s.body[i].level == p.level && s.body[i].props == p.props
              && s.body[i].fontSize == Some(BodySize)
  {
    var title := NewParagraph(d.title, 0).(fontSize := Some(TitleSize), align := Left);
    var frame := [NewParagraph("", 0)] + Draw(d.body);
    Slide(layout, title, SetFontSize(frame, BodySize), d.source)
  }

  /** One slide per descriptor, each on the same layout. */
  function AddSlides(layout: Layout, ds: seq<SlideDescriptor>): (r: seq<Slide>)
    ensures |r| == |ds|
    ensures forall i :: 0 <= i < |ds| ==> r[i] == AddSlide(layout, ds[i])
  {
    if ds == [] then [] else [AddSlide(layout, ds[0])] + AddSlides(layout, ds[1..])
  }

  /** The slides of a document, all built on `layout`: one per fragment
      the loop keeps, in order. Every slide's notes hold, in order, the
      fragments that yield a title, and every slide has a non-empty title. */
  function BuildSlides(layout: Layout, html: string, parse: string -> seq<Node>): (r: seq<Slide>)
    ensures var titled := Titled(Fragments(html), parse);
            |r| == |titled|
            && forall i :: 0 <= i < |titled| ==> r[i].notes == titled[i] && r[i].title.text != ""
    ensures var ds := Process(InitialContext, Fragments(html), parse).1;
            |r| == |ds| && forall i :: 0 <= i < |ds| ==> r[i] == AddSlide(layout, ds[i])
  {
    var ds := Process(InitialContext, Fragments(html), parse).1;
    AddSlidesHeaders(layout, ds);
    AddSlides(layout, ds)
  }

  /** Each slide notes its descriptor's source and carries its title. */
  lemma AddSlidesHeaders(layout: Layout, ds: seq<SlideDescriptor>)
    ensures var r := AddSlides(layout, ds);
            forall i :: 0 <= i < |ds| ==> r[i].notes == Sources(ds)[i] && r[i].title.text == ds[i].title
  {
  }

  /** `make_presentation(html)` on a start presentation holding `layouts`,
      with `parse` standing for the HTML parser: the setup can fail, the
      loop cannot, and the slides are built on the configured "Title and
      Content" layout. */
  function MakePresentation(html: string, parse: string -> seq<Node>, layouts: seq<Layout>): (r: Result<Deck>)
    ensures r.Ok? <==> Configure(layouts, SlideWidthMm, SlideHeightMm).Ok?
    ensures r.Err? ==> r.error == Configure(layouts, SlideWidthMm, SlideHeightMm).error
    ensures r.Ok? ==>
              var setup := Configure(layouts, SlideWidthMm, SlideHeightMm).value;
              var k := GetLayoutByName(setup.layouts, ContentLayout);
              r.value.layouts == setup.layouts && k.Ok?
              && r.value.slides == BuildSlides(setup.layouts[k.value], html, parse)
  {
    var setup :- Configure(layouts, SlideWidthMm, SlideHeightMm);
    // `add_slide` looks the layout up again; the setup found it and kept
    // the names of the layouts.
    GetLayoutByNameNamesOnly(setup.layouts, layouts, ContentLayout);
    match GetLayoutByName(setup.layouts, ContentLayout)
    case Err(e) => Err(e)
    case Ok(k) => Ok(Deck(setup.width, setup.height, setup.layouts, BuildSlides(setup.layouts[k], html, parse)))
  }

  /** A successful conversion makes one slide per fragment with a non-empty
      title, in order, each noting its fragment and built on the "Title and
      Content" layout. */
  lemma MakePresentationSlides(html: string, parse: string -> seq<Node>, layouts: seq<Layout>)
    requires MakePresentation(html, parse, layouts).Ok?
    ensures var d := MakePresentation(html, parse, layouts).value;
            var titled := Titled(Fragments(html), parse);
            |d.slides| == |titled|
            && (forall i :: 0 <= i < |titled| ==> d.slides[i].notes == titled[i] && d.slides[i].title.text != "")
            && forall i :: 0 <= i < |d.slides| ==> d.slides[i].layout.name == ContentLayout
  {
  }

  /** Each slide is built from the fragment it notes: its title is the
      fragment's title and its body lines are those of the nodes following
      the fragment's first heading of its finest level. */
  lemma SlideFromFragment(layout: Layout, html: string, parse: string -> seq<Node>, i: nat)
    requires i < |BuildSlides(layout, html, parse)|
    ensures var s := BuildSlides(layout, html, parse)[i];
            var frag := parse(s.notes);
            Finest(frag).Some?
            && s.title.text == TitleOf(frag)
            && s.body == SetFontSize([NewParagraph("", 0)]
                                     + Draw(Find(frag, Heading(Finest(frag).value)).value.following), BodySize)
  {
    var ds := Process(InitialContext, Fragments(html), parse).1;
    var s := BuildSlides(layout, html, parse)[i];
    assert s == AddSlide(layout, ds[i]);
    SlideFromDescriptor(InitialContext, Fragments(html), parse, i);
  }

  /** The `i`-th descriptor the loop keeps comes from the fragment it
      carries as its source, and that fragment has a heading. */
  lemma {:induction false} SlideFromDescriptor(ctx: Context, frags: seq<string>, parse: string -> seq<Node>, i: nat)
    requires i < |Process(ctx, frags, parse).1|
    ensures var d := Process(ctx, frags, parse).1[i];
            var frag := parse(d.source);
            Finest(frag).Some? && d.title == TitleOf(frag)
            && d.body == Find(frag, Heading(Finest(frag).value)).value.following
    decreases |frags|
  {
    var step := Step(ctx, frags[0], parse(frags[0]));
    var rest := Process(step.0, frags[1..], parse);
    if step.1.title != "" {
      if i > 0 {
        SlideFromDescriptor(step.0, frags[1..], parse, i - 1);
        assert Process(ctx, frags, parse).1[i] == rest.1[i - 1];
      } else {
        assert Process(ctx, frags, parse).1[0] == step.1;
        assert Finest(parse(frags[0])).Some?;
      }
    } else {
      SlideFromDescriptor(step.0, frags[1..], parse, i);
    }
  }

  /** A document without `<hr />` whose single fragment has a titled heading
      makes exactly one slide, noting the whole document. */
  lemma OneFragmentOneSlide(html: string, parse: string -> seq<Node>, layouts: seq<Layout>)
    requires !Contains(html, Separator) && html != ""
    requires TitleOf(parse(html)) != ""
    requires Configure(layouts, SlideWidthMm, SlideHeightMm).Ok?
    ensures var r := MakePresentation(html, parse, layouts);
            r.Ok? && |r.value.slides| == 1 && r.value.slides[0].notes == html
  {
    FragmentsWithoutSeparator(html);
    assert Titled([html], parse) == [html] by {
      assert Titled([html][1..], parse) == [];
    }
  }

  /** A document none of whose fragments yields a title makes no slide. */
  lemma NoHeadingNoSlide(html: string, parse: string -> seq<Node>, layouts: seq<Layout>)
    requires forall i :: 0 <= i < |Fragments(html)| ==> TitleOf(parse(Fragments(html)[i])) == ""
    requires Configure(layouts, SlideWidthMm, SlideHeightMm).Ok?
    ensures MakePresentation(html, parse, layouts).value.slides == []
  {
    NoTitles(Fragments(html), parse);
  }

  lemma {:induction false} NoTitles(frags: seq<string>, parse: string -> seq<Node>)
    requires forall i :: 0 <= i < |frags| ==> TitleOf(parse(frags[i])) == ""
    ensures Titled(frags, parse) == []
    decreases |frags|
  {
    if frags != [] {
      assert forall i :: 0 <= i < |frags[1..]| ==> frags[1..][i] == frags[i + 1];
      NoTitles(frags[1..], parse);
    }
  }
}
