# Markdown-to-slides converter, modelled in Dafny

This project models the core of a small tool that turns a Markdown outline
into a PowerPoint deck (`src/md_to_pptx.py`). It also models the clean-up
that strips code fences from a generated Markdown answer
(`src/generate_prompt.py`). The converter works on the HTML that a Markdown
renderer produced:

- it cuts the HTML into slide fragments on the literal `<hr />`;
- in each fragment it finds the finest heading among `h1`/`h2`/`h3`, which
  gives the slide's title and body;
- it carries a context of the last heading text seen at each level from
  fragment to fragment, and builds a breadcrumb from it;
- it drops fragments without a title;
- it flattens nested `<ol>`/`<ul>` lists into `(level, text)` records
  (`parse_li`);
- it writes the body as paragraphs with bullet markers edited in the
  paragraph properties (`<a:buChar>`, `<a:buAutoNum>`, `<a:buNone>`).

Modules, in dependency order:

- `results.dfy` (`Results`): `Result` with Python's `ValueError` and
  `IndexError` as error values, and `Option`.
- `strings.dfy` (`Strings`): Python's `str.strip()` (the full `isspace` set),
  `str.split(sep)`, `sep.join(xs)` and their round trips.
- `html.dfy` (`Html`): the parsed HTML as a tree of elements and strings, with
  BeautifulSoup's `find`, `find_next_siblings()`, `get_text()` and
  `get_text(strip=True)`.
- `list_flattener.dfy` (`ListFlattener`): `parse_li` as written, and a
  corrected version.
- `paragraphs.dfy` (`Paragraphs`): body paragraphs and the three bullet edits.
- `body_renderer.dfy` (`BodyRenderer`): `draw_soup_to_placeholder`.
- `layouts.dfy` (`Layouts`): `get_layout_by_name`, `set_position_mm` and the
  geometry of `configure_presentation`.
- `slides.dfy` (`Slides`): the fragment loop of `make_presentation`: the
  split, the heading scan, the context, the breadcrumb and the skip rule.
- `presentation.dfy` (`Presentation`): `make_presentation` and `add_slide`.
- `fences.dfy` (`Fences`): the code-fence clean-up.

The Markdown renderer and the HTML parser are not modelled. Their combined
effect on one fragment is the parameter `parse: string -> seq<Node>`, which
gives the children of the parsed fragment's root. The trees it gives are
taken to spell every element name the converter dispatches on with its own
constructor: a `p` is `P`, never `Named("p")`.

Three behaviours of the code that a reader might not expect:

- The breadcrumb is computed from the context *after* the fragment's own
  headings have been recorded (`src/md_to_pptx.py:136-162`). An `h3` slide's
  breadcrumb therefore holds its own fragment's `h1` and `h2` when it has
  them.
- An item's text is `get_text(strip=True)` of the whole `<li>`, so it
  includes the text of the lists nested in it (`src/md_to_pptx.py:203`).
- The breadcrumb is computed but never written to the slide: `add_slide`
  uses only the title, the body and the fragment's source
  (`src/md_to_pptx.py:173-197`).

## Model

| member | source | states |
|---|---|---|
| Strings.Strip | src/generate_prompt.py:75 | `str.strip()` removes a run of whitespace from each end and nothing else: the result is a contiguous slice of the input, every character dropped is whitespace, and the result neither starts nor ends with whitespace |
| Strings.StripIdempotent | src/generate_prompt.py:75 | stripping twice is stripping once |
| Strings.Split | src/md_to_pptx.py:122 | `str.split(sep)` always yields at least one piece |
| Strings.JoinSplit | src/generate_prompt.py:75-80 | joining the pieces of a split with the same separator gives the original string back |
| Strings.SplitPiecesFree | src/md_to_pptx.py:122 | no piece of a split contains the separator |
| Strings.SplitWithoutSeparator | src/md_to_pptx.py:122 | a string without the separator splits into itself alone |
| Strings.SplitJoin | src/generate_prompt.py:75-80 | splitting on a character undoes a join of pieces that do not contain that character |
| Html.Find | src/md_to_pptx.py:137 | a `find` match carries the tag searched for, and the siblings returned with it are all elements |
| Html.FindIsFirstInPreorder | src/md_to_pptx.py:137 | `find` returns the first element carrying the tag in document order, and nothing exactly when no element carries it |
| Html.FoundLacks | src/md_to_pptx.py:204 | the subtree `find` returns lacks every tag its whole forest lacks |
| Html.FindAt | src/md_to_pptx.py:150-152 | when the top-level node at position k is the first node carrying the tag, with none before it or below the earlier nodes, `find` returns it, and its next siblings are exactly the elements after it, in order |
| Html.ElementsOnly | src/md_to_pptx.py:152 | `find_next_siblings()` returns elements only, never text strings |
| Html.ElementsOnlyOne | src/md_to_pptx.py:152 | a single sibling is returned exactly when it is an element |
| Html.ElementsOnlyAppend | src/md_to_pptx.py:152 | the sibling filter distributes over concatenation, so every element sibling is kept, in order |
| Html.GetTextCons | src/md_to_pptx.py:150-151 | `get_text()` of an element is the text of its first child followed by the text of the rest: the texts of the children concatenated in order |
| Html.GetStrippedText | src/md_to_pptx.py:203 | the result of `get_text(strip=True)` neither starts nor ends with whitespace |
| Html.GetStrippedTextCons | src/md_to_pptx.py:203 | `get_text(strip=True)` of an element is the stripped text of its first child (a string stripped, or an element's stripped text) followed by that of the rest: the children's stripped texts concatenated in order |
| ListFlattener.DirectItems | src/md_to_pptx.py:202 | `find_all("li", recursive=False)` yields only `<li>` elements |
| ListFlattener.DirectItemsOne | src/md_to_pptx.py:202 | a single child is found exactly when it is an `<li>` |
| ListFlattener.DirectItemsAppend | src/md_to_pptx.py:202 | the item filter distributes over concatenation, so every direct `<li>` is kept, in order |
| ListFlattener.ParseLi | src/md_to_pptx.py:200-207 | `parse_li` as written: a pre-order listing starting at the given level whose records at that level are the direct items' stripped texts, one per item, in order |
| ListFlattener.FlattenShaped | src/md_to_pptx.py:200-207 | every flattening is a pre-order listing: the first record is at the starting level, no record is above it, and each record is at most one level deeper than the one before |
| ListFlattener.FlattenTopLevel | src/md_to_pptx.py:202-203 | the records at the starting level are exactly the direct `<li>` children, in order, each with its stripped text |
| ListFlattener.UnorderedStopsAfterOneLevel | src/md_to_pptx.py:204-206 | in a tree without `<ol>`, `parse_li` as written never lists a `<ul>` item deeper than one level below the start |
| ListFlattener.UnorderedNestedFlat | src/md_to_pptx.py:204-206 | below an item of such a `<ul>`, the nested call lists a single flat level |
| ListFlattener.FlattenItemsFlatWithoutOl | src/md_to_pptx.py:204-206 | where no `<ol>` is left, a nested call lists the direct items only |
| ListFlattener.AsWrittenThreeDeep | src/md_to_pptx.py:206 | as written, an all-`<ul>` outline three levels deep flattens to levels [0, 1]: the third level is lost |
| ListFlattener.ParseLiFixedFollowsOutline | src/md_to_pptx.py:200-207 | with the list kind passed down, flattening a rendered outline gives one record per entry at the entry's depth, in document order |
| ListFlattener.ParseLiDropsThirdLevel | src/md_to_pptx.py:200-207 | on the three-deep `<ul>` outline, the outline and the corrected flattener both give levels [0, 1, 2], while the code as written gives [0, 1] |
| ListFlattener.ParseLiFollowsTwoLevels | src/md_to_pptx.py:200-207 | as written, flattening a bulleted outline of any shape lists the items of its first two levels at their depths, in document order, and drops every item below the second level |
| ListFlattener.ParseLiFixed | src/md_to_pptx.py:200-207 | the corrected flattener keeps the same shape and the same top-level records as `parse_li` |
| ListFlattener.FixedAgreesOnOrdered | src/md_to_pptx.py:256 | for an `<ol>` the corrected flattener is the code as written |
| Paragraphs.FirstBuChar | src/md_to_pptx.py:212 | `pPr.find("a:buChar")` gives the position of the first bullet character, or nothing exactly when there is none |
| Paragraphs.RemoveUnnumberedList | src/md_to_pptx.py:210-214 | removing the bullet takes out the first `<a:buChar>` child and keeps every other child in order; without one nothing changes |
| Paragraphs.RemoveUnnumberedListCount | src/md_to_pptx.py:210-214 | removal lowers the number of bullet characters, and the number of children, by one exactly when there was a bullet character |
| Paragraphs.ReplaceMarkers | src/md_to_pptx.py:217-237 | both replacements end the properties with the new marker (`buAutoNum` of the given scheme, or `buNone`), keep the other children in order and leave one bullet character fewer |
| BodyRenderer.ListLines | src/md_to_pptx.py:258-271 | one line per record with the record's text and level, numbered with `arabicPlain` for an `<ol>` and without explicit bullet properties for a `<ul>` |
| BodyRenderer.DrawNode | src/md_to_pptx.py:247-271 | a `<p>` with exactly one child adds one level-0 line whose bullet is `buNone`; an `<ol>` adds one numbered line per record of `parse_li` as written; a `<ul>` adds one plain line per record of `parse_li` as written; anything else adds nothing |
| BodyRenderer.DrawNodeFixed | src/md_to_pptx.py:264-271 | with the corrected flattener only a `<ul>` is drawn differently, with one plain line per corrected record |
| BodyRenderer.DrawNodeFixedFollowsOutline | src/md_to_pptx.py:264-271 | the corrected drawing of a rendered `<ul>` outline has one line per entry at the entry's depth |
| BodyRenderer.DrawAppend | src/md_to_pptx.py:244 | each body node is drawn on its own, so drawing two runs of nodes concatenates their lines |
| BodyRenderer.DrawOthers | src/md_to_pptx.py:154 | a body of nodes that are neither paragraphs nor lists draws nothing, which covers the `[soup]` body of a fragment without headings |
| BodyRenderer.NumberedTwoItems | src/md_to_pptx.py:254-262 | an `<ol>` of two one-line items draws two numbered level-0 lines carrying the items' stripped texts |
| Layouts.IndexOf | src/md_to_pptx.py:44 | `names.index(query)` gives the first position holding the query, or a `ValueError` exactly when no name matches |
| Layouts.GetLayoutByName | src/md_to_pptx.py:40-47 | the lookup succeeds exactly when some layout has the name, and then gives the first such layout; otherwise it fails with a `ValueError` for that name |
| Layouts.SetPositionMm | src/md_to_pptx.py:53-64 | each truthy argument (not `None`, not zero) sets its field to that many millimetres in EMU; every other field, and the name, stays as it was |
| Layouts.SetPositionNothing | src/md_to_pptx.py:57-64 | with no truthy argument the placeholder is unchanged |
| Layouts.SetPositionIdempotent | src/md_to_pptx.py:57-64 | repositioning twice with the same arguments is repositioning once |
| Layouts.SetPositionCompose | src/md_to_pptx.py:57-64 | two calls that set disjoint fields are one call with both sets of arguments |
| Layouts.Arrange | src/md_to_pptx.py:83-105 | the first placeholder becomes the title band from 20 mm to 50 mm down, the second the body area from 60 mm down; on a page wider than 40 mm both end 20 mm from the right edge, and on a page taller than 80 mm the body ends 20 mm from the bottom; the others are untouched, and a layout with fewer than two placeholders raises `IndexError` |
| Layouts.Configure | src/md_to_pptx.py:67-105 | on success the page size is the given millimetres in EMU, the layout names are unchanged and both named layouts exist |
| Layouts.ConfigureOutcome | src/md_to_pptx.py:67-105 | configuration succeeds exactly when both layouts exist with at least two placeholders each; it then arranges exactly those two layouts and leaves every other layout as it was |
| Slides.NonEmpty | src/md_to_pptx.py:127-129 | skipping empty pieces keeps only non-empty pieces of the input and loses no character |
| Slides.NonEmptyAppend | src/md_to_pptx.py:122-129 | skipping distributes over concatenation, so the kept pieces keep their order |
| Slides.Fragments | src/md_to_pptx.py:122-129 | the fragments are non-empty, none contains `<hr />`, and together they hold every character of the split pieces in order |
| Slides.FragmentsWithoutSeparator | src/md_to_pptx.py:122-129 | a document without `<hr />` is a single fragment, or none when it is empty |
| Slides.Classify | src/md_to_pptx.py:135-140 | the slide level is the finest heading level present (h3, else h2, else h1, else none); each present level takes the text of its first heading and each absent level keeps its old value |
| Slides.Step | src/md_to_pptx.py:134-162 | the title is the text of the first heading of the slide level; the body is the element siblings after it, or the whole fragment when there is no heading; the breadcrumb reads the updated context |
| Slides.Breadcrumb | src/md_to_pptx.py:156-162 | an `h2` or `h3` breadcrumb starts with the `h1` text; the breadcrumb is empty exactly for no heading, for `h1`, and for `h2` under an empty `h1` |
| Slides.StepBody | src/md_to_pptx.py:148-152 | when the first heading of the slide level is the top-level node at position k, the title is its text and the body is every element after it, in order |
| Slides.StepBreadcrumb | src/md_to_pptx.py:156-162 | the breadcrumb is empty for `h1` and for no heading, the (updated) `h1` text for `h2`, and `h1 + " > " + h2` for `h3` |
| Slides.Process | src/md_to_pptx.py:121-168 | a slide is kept exactly when its title is non-empty, and the kept slides' sources are, in order, the fragments that yield a title |
| Slides.ProcessContext | src/md_to_pptx.py:114-143 | the context the loop threads depends on the headings alone |
| Slides.ProcessAppendContext | src/md_to_pptx.py:121-143 | the context after two runs of fragments is the second run's context started from where the first left it |
| Slides.ProcessAppend | src/md_to_pptx.py:121-168 | the loop is a fold: processing two runs of fragments gives the first run's slides followed by the second run's |
| Presentation.SetFontSize | src/md_to_pptx.py:193-194 | every paragraph of the body frame gets the size, and nothing else about it changes |
| Presentation.AddSlide | src/md_to_pptx.py:173-197 | a slide on the given layout: the title at 40 pt aligned left, the body placeholder's initial empty paragraph followed by the drawn body lines, all at 30 pt, and the fragment's source as notes |
| Presentation.BuildSlides | src/md_to_pptx.py:121-168 | one slide per fragment with a non-empty title, in order, each noting its fragment and titled |
| Presentation.MakePresentation | src/md_to_pptx.py:108-170 | the conversion fails exactly when configuration fails, with the same error; otherwise it keeps the configured layouts and builds every slide on the "Title and Content" layout |
| Presentation.MakePresentationSlides | src/md_to_pptx.py:108-170 | a successful conversion has as many slides as fragments with a non-empty title, each noting its fragment, titled, and on the "Title and Content" layout |
| Presentation.SlideFromFragment | src/md_to_pptx.py:149-154 | every slide's fragment has a heading; the slide's title is that fragment's title and its body is the initial empty paragraph followed by the lines drawn from the nodes after the fragment's first heading of its finest level, all at 30 pt |
| Presentation.OneFragmentOneSlide | src/md_to_pptx.py:122-168 | a document without `<hr />` whose fragment has a titled heading makes exactly one slide, noting the whole document |
| Presentation.NoHeadingNoSlide | src/md_to_pptx.py:164-168 | when none of the document's fragments yields a title, no slide is made |
| Fences.Lines | src/generate_prompt.py:75 | the stripped text splits into at least one line, and no line holds a newline |
| Fences.Unfence | src/generate_prompt.py:76-79 | the surviving lines are the lines with one bare fence taken off each end where there is one; it fails with `IndexError` exactly when the only line is a bare fence |
| Fences.StripFences | src/generate_prompt.py:75-80 | the clean-up succeeds exactly when some lines survive the opening check, and otherwise raises `IndexError` |
| Fences.LoneFenceFails | src/generate_prompt.py:76-79 | the clean-up fails exactly on a text that is a lone "```" once stripped |
| Fences.InteriorKept | src/generate_prompt.py:75-80 | every line but the first and the last survives in place, and the output has as many lines as the stripped text minus the fence lines removed |
| Fences.FirstLineKept | src/generate_prompt.py:76-77 | a first line that is not exactly "```" is kept as the first line |
| Fences.TaggedFenceKept | src/generate_prompt.py:76-77 | an opening fence with a language tag, such as "```python", stays |
| Fences.NoFenceIsStrip | src/generate_prompt.py:75-80 | a text without fence lines comes out stripped and otherwise intact |
| Fences.OutputLines | src/generate_prompt.py:75-80 | splitting the output on newlines gives back the surviving lines |
| Fences.StripFencesFixed | src/generate_prompt.py:75-80 | the corrected clean-up agrees with the code wherever the code succeeds, and gives the empty text for a lone fence |
| Fences.FixedOutputLines | src/generate_prompt.py:75-80 | the corrected output splits into a single empty line for a lone fence or when no line survives, and otherwise into the stripped lines with one bare fence taken off each end where there is one |

## Left out

- Markdown rendering (`markdown.markdown`) and BeautifulSoup parsing: both are third-party code, so their effect is the `parse` parameter.
- python-pptx and lxml: a paragraph is a record of text, level, `<a:pPr>` children, font size and alignment, not OOXML. The pPr schema order of the appended marker is not modelled.
- Layouts.Mm: millimetres are exact reals, so the binary floating-point rounding of `338.67 - 40` before `int()` truncates is not modelled.
- python-pptx's checks on a paragraph level (0 to 8) are not modelled, so a list nested deeper than that is accepted.
- Presentation.AddSlide: a title holding a newline becomes one paragraph here, while python-pptx splits it into several.
- Presentation.AddSlide: `slide.shapes.placeholders[1]` is looked up by placeholder index in python-pptx; the model takes the body frame to exist, as it does on the default template.
- Logging, mlflow, the click command, `.env` loading and file reading and writing: I/O with no bearing on the output.
- `src/generate_images.py` and `src/generate_scenario.py`, and the model call in `src/generate_prompt.py`: network calls, image drawing and file output.

## Findings

| source | as written | input that shows it | evidently intended | confidence | as-written member | corrected member |
|---|---|---|---|---|---|---|
| src/md_to_pptx.py:206 | the recursive call `parse_li(nested, level + 1)` drops `ul_ol`, so every nested call searches for `ol` | `<ul><li>a<ul><li>b<ul><li>c</li></ul></li></ul></li></ul>` gives levels [0, 1]; item c gets no line of its own | pass `ul_ol` down, giving levels [0, 1, 2]; that also stops listing an `<ol>` nested under a second-level `<ul>` (`- a` / `    - b` / `        1. c`), which the code lists today at level 2. The slides are built with the code as written; `BodyRenderer.DrawNodeFixed` draws with the correction | medium, not executed | ListFlattener.AsWrittenThreeDeep | ListFlattener.ParseLiFixedFollowsOutline |
| src/generate_prompt.py:76-79 | after `del lines[0]` removes the only line, `lines[-1]` reads an empty list | a generated answer that is just "```" once stripped raises `IndexError` | an empty result, since the fence encloses nothing | medium, not executed | Fences.LoneFenceFails | Fences.StripFencesFixed |
