/** The clean-up of a generated Markdown answer in `generate_prompt.py`:
    strip the text, cut it into lines, drop an opening line and then a
    closing line that are exactly a bare code fence, and join the rest. */
module Fences {
  import opened Results
  import opened Strings

  /** A bare code fence line. */
  const Fence := "```"

  /** `str(raw).strip().split("\n")`: never empty. */
  function Lines(raw: string): (r: seq<string>)
    ensures |r| >= 1
    ensures forall i :: 0 <= i < |r| ==> '\n' !in r[i]
  {
    var r := Split(Strip(raw), "\n");
    SplitPiecesFree(Strip(raw), "\n");
    assert forall i :: 0 <= i < |r| ==> '\n' !in r[i] by {
      forall i | 0 <= i < |r|
        ensures '\n' !in r[i]
      {
        if '\n' in r[i] {
          CharContains(r[i], '\n');
        }
      }
    }
    r
  }

  /** How many lines a fence removes at the start and at the end of
      `lines`: one where the line there is exactly a fence. */
  function Opening(lines: seq<string>): nat
    requires |lines| >= 1
  {
    if lines[0] == Fence then 1 else 0
  }

  function Closing(lines: seq<string>): nat
    requires |lines| >= 1
  {
    if lines[|lines| - 1] == Fence then 1 else 0
  }

  /** The lines that survive among `lines`, as the code computes them:
      `del lines[0]` when it is a fence, then `lines[-1]`, which raises
      `IndexError` on the list the first deletion emptied, then
      `del lines[-1]` when it is a fence. The survivors are the lines with
      one fence taken off each end where there is one. */
  function Unfence(lines: seq<string>): (r: Result<seq<string>>)
    requires |lines| >= 1
    ensures r.Err? <==> lines == [Fence]
    ensures r.Err? ==> r.error == IndexError
    ensures r.Ok? ==>
              Opening(lines) <= |lines| - Closing(lines)
              && r.value == lines[Opening(lines)..|lines| - Closing(lines)]
  {
    var afterOpening := if lines[0] == Fence then lines[1..] else lines;
    if afterOpening == [] then Err(IndexError)
    else if afterOpening[|afterOpening| - 1] == Fence then Ok(afterOpening[..|afterOpening| - 1])
    else Ok(afterOpening)
  }

  /** The surviving lines of a generated text. */
  function KeptLines(raw: string): (r: Result<seq<string>>)
    ensures r.Err? <==> Lines(raw) == [Fence]
    ensures r.Err? ==> r.error == IndexError
    ensures r.Ok? ==>
              var lines := Lines(raw);
              Opening(lines) <= |lines| - Closing(lines)
              && r.value == lines[Opening(lines)..|lines| - Closing(lines)]
  {
    Unfence(Lines(raw))
  }

  /** The fence clean-up as written: the surviving lines joined with
      newlines, or the `IndexError` of a text that is a lone fence. */
  function StripFences(raw: string): (r: Result<string>)
    ensures r.Ok? <==> KeptLines(raw).Ok?
    ensures r.Err? ==> r.error == IndexError
  {
    var kept :- KeptLines(raw);
    Ok(Join(kept, "\n"))
  }

  /** The clean-up fails exactly on a text that is, once stripped, a lone
      fence: the first deletion then leaves nothing to look at. */
  lemma LoneFenceFails(raw: string)
    ensures StripFences(raw).Err? <==> Strip(raw) == Fence
  {
    var s := Strip(raw);
    JoinSplit(s, "\n");
    if s == Fence {
      NoCharNoContains(Fence, '\n');
      SplitWithoutSeparator(Fence, "\n");
    }
  }

  /** Every line of the stripped text but the first and the last survives
      in place, and the output has as many lines as the stripped text minus
      the fence lines removed. */
  lemma InteriorKept(raw: string)
    requires StripFences(raw).Ok?
    ensures var lines := Lines(raw);
            var kept := KeptLines(raw).value;
            |kept| == |lines| - Opening(lines) - Closing(lines)
            && forall i :: 1 <= i < |lines| - 1 ==> kept[i - Opening(lines)] == lines[i]
  {
  }

  /** A first line that is not exactly a fence, such as "```python", is
      kept as the first line of the output. */
  lemma FirstLineKept(raw: string)
    requires Lines(raw)[0] != Fence
    ensures KeptLines(raw).Ok?
    ensures |KeptLines(raw).value| >= 1 && KeptLines(raw).value[0] == Lines(raw)[0]
  {
    var lines := Lines(raw);
    if |lines| == 1 {
      assert Closing(lines) == 0;
    }
  }

  /** The fence of a language-tagged block is not a bare fence, so it stays. */
  lemma TaggedFenceKept(raw: string, lang: string)
    requires lang != "" && Lines(raw)[0] == Fence + lang
    ensures StripFences(raw).Ok? && KeptLines(raw).value[0] == Fence + lang
  {
    assert |Fence + lang| > |Fence|;
    FirstLineKept(raw);
  }

  /** A text without fence lines comes out stripped and otherwise intact:
      joining the lines of a split gives the text back. */
  lemma NoFenceIsStrip(raw: string)
    requires Lines(raw)[0] != Fence && Lines(raw)[|Lines(raw)| - 1] != Fence
    ensures StripFences(raw) == Ok(Strip(raw))
  {
    var lines := Lines(raw);
    assert Unfence(lines) == Ok(lines);
    JoinSplit(Strip(raw), "\n");
  }

  /** Lines free of a character stay free of it once unfenced. */
  lemma UnfenceKeepsFree(lines: seq<string>, c: char)
    requires |lines| >= 1 && Unfence(lines).Ok?
    requires forall i :: 0 <= i < |lines| ==> c !in lines[i]
    ensures forall i :: 0 <= i < |Unfence(lines).value| ==> c !in Unfence(lines).value[i]
  {
    var kept := Unfence(lines).value;
    var a := Opening(lines);
    assert forall i :: 0 <= i < |kept| ==> kept[i] == lines[i + a];
  }

  /** The surviving lines hold no newline, since the split removed them. */
  lemma KeptWithoutNewline(raw: string)
    requires KeptLines(raw).Ok?
    ensures forall i :: 0 <= i < |KeptLines(raw).value| ==> '\n' !in KeptLines(raw).value[i]
  {
    UnfenceKeepsFree(Lines(raw), '\n');
  }

  /** Splitting the output on newlines gives back the surviving lines,
      whenever at least one survives. */
  lemma OutputLines(raw: string)
    requires StripFences(raw).Ok? && KeptLines(raw).value != []
    ensures Split(StripFences(raw).value, "\n") == KeptLines(raw).value
  {
    var kept := KeptLines(raw).value;
    KeptWithoutNewline(raw);
    SplitJoin(kept, '\n');
  }

  /** The clean-up with the lone-fence case handled: a lone fence encloses
      no text, so nothing is left. */
  function StripFencesFixed(raw: string): (r: string)
    ensures StripFences(raw).Ok? ==> r == StripFences(raw).value
    ensures Strip(raw) == Fence ==> r == ""
  {
    LoneFenceFails(raw);
    match StripFences(raw)
    case Ok(s) => s
    case Err(_) => ""
  }

  /** The corrected clean-up's output splits into a single empty line for a
      lone fence, and otherwise into the stripped lines with one fence taken
      off each end where there is one, or a single empty line when no line
      is left. */
  lemma FixedOutputLines(raw: string)
    ensures Strip(raw) == Fence ==> Split(StripFencesFixed(raw), "\n") == [""]
    ensures Strip(raw) != Fence ==>
              var lines := Lines(raw);
              Opening(lines) <= |lines| - Closing(lines)
              && var kept := lines[Opening(lines)..|lines| - Closing(lines)];
                 Split(StripFencesFixed(raw), "\n") == if kept == [] then [""] else kept
  {
    LoneFenceFails(raw);
    if StripFences(raw).Ok? {
      if KeptLines(raw).value != [] {
        OutputLines(raw);
      } else {
        assert StripFencesFixed(raw) == Join([], "\n") == "";
      }
    }
  }
}
