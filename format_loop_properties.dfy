/** What the formatting loop guarantees over any block formatter. */
module FormatLoopProperties {
  import opened Wrappers
  import opened TextLines
  import opened TextDocument
  import opened CommentBlocks
  import opened FormatLoop

  /** The shifted end point stays inside the new buffer and, when it was
      outside the block, on the same line of text as before. */
  lemma ShiftedLineFollowsText(lines: seq<string>, s: nat, e: nat, text: string, line: nat)
    requires s <= e < |lines| && line < |lines|
    ensures var r := ShiftedLine(line, s, e, |SplitLines(text)|);
      var after := Replaced(lines, s, e, text);
      && r < |after|
      && (line < s ==> after[r] == lines[line])
      && (line > e ==> after[r] == lines[line])
  {
    var n := |SplitLines(text)|;
    var after := Replaced(lines, s, e, text);
    var r := ShiftedLine(line, s, e, n);
    if line < s {
      assert after[r] == after[..s][r];
    } else if line > e {
      assert after[r] == after[s + n..][line - e - 1];
    }
  }

  /** When the run succeeds, its result is true exactly when the first search
      finds a block. */
  lemma FoundIffBlock(classify: LineClassifier, lines: seq<string>, start: nat, endLine: nat, format: TextFormatter)
    requires start < |lines| && endLine < |lines|
    ensures var o := FormatFrom(classify, lines, start, endLine, format);
      o.result.Ok? ==> (o.result.value <==> ScanFrom(Kinds(classify, lines), start, endLine).0.Some?)
  {
  }

  /** When no block is found, the buffer is left as it is. */
  lemma NothingFoundNothingChanged(classify: LineClassifier, lines: seq<string>, start: nat, endLine: nat,
                                   format: TextFormatter)
    requires start < |lines| && endLine < |lines|
    requires ScanFrom(Kinds(classify, lines), start, endLine).0.None?
    ensures FormatFrom(classify, lines, start, endLine, format) == Outcome(lines, Ok(false))
  {
  }

  /** The formatter gives every text it accepts back unchanged. */
  ghost predicate KeepsText(format: TextFormatter) {
    forall text :: format(text).Ok? ==> format(text).value == text
  }

  /** A pass with such a formatter does not touch the buffer. */
  lemma UnchangedStep(classify: LineClassifier, lines: seq<string>, start: nat, endLine: nat, format: TextFormatter)
    requires start < |lines| && endLine < |lines|
    requires KeepsText(format)
    ensures match LoopStep(classify, lines, start, endLine, format)
      case Done(o) => o.lines == lines
      case Next(after, _, _) => after == lines
  {
    var block := ScanFrom(Kinds(classify, lines), start, endLine).0;
    if block.Some? {
      var (s, e) := block.value;
      var text := Join(lines[s..e + 1], "\n");
      assert format(text).Ok? ==> format(text) == Ok(text);
    }
  }

  /** A formatter that gives every block back unchanged leaves the buffer
      unchanged: a block is only rewritten when its text differs. */
  lemma {:induction false} UnchangedTextNoEdit(classify: LineClassifier, lines: seq<string>, start: nat, endLine: nat,
                                               format: TextFormatter)
    requires start < |lines| && endLine < |lines|
    requires KeepsText(format)
    ensures FormatFrom(classify, lines, start, endLine, format).lines == lines
    decreases |lines| - start
  {
    UnchangedStep(classify, lines, start, endLine, format);
    match LoopStep(classify, lines, start, endLine, format)
    case Done(_) =>
    case Next(after, next, end) =>
      UnchangedTextNoEdit(classify, after, next, end, format);
  }

  /** The written pass and the corrected one agree, except that where
      LineDown cannot move the written one goes on from the same line and the
      corrected one ends the run. */
  lemma AsWrittenStepAgreesElsewhere(classify: LineClassifier, lines: seq<string>, start: nat, endLine: nat,
                                     format: TextFormatter)
    requires start < |lines| && endLine < |lines|
    ensures match AsWrittenStep(classify, lines, start, endLine, format)
      case Done(o) => LoopStep(classify, lines, start, endLine, format) == Done(o)
      case Next(after, next, end) =>
        LoopStep(classify, lines, start, endLine, format) == Next(after, next, end)
        || (next == |after| - 1 && LoopStep(classify, lines, start, endLine, format) == Done(Outcome(after, Ok(true))))
  {
  }

  /** The written loop never ends on a block that reaches the last line of
      the buffer when the range ends there too and the formatter gives the
      block back unchanged: the pass leaves the buffer, the start line and the
      end line as they were, so the next pass finds the same block again. */
  lemma AsWrittenLoopRepeats(classify: LineClassifier, lines: seq<string>, s: nat, e: nat, format: TextFormatter)
    requires s <= e == |lines| - 1
    requires ScanFrom(Kinds(classify, lines), e, e).0 == Some((s, e))
    requires format(Join(lines[s..e + 1], "\n")) == Ok(Join(lines[s..e + 1], "\n"))
    ensures AsWrittenStep(classify, lines, e, e, format) == Next(lines, e, e)
  {
    KeptBlockEdit(lines, s, e, e, format);
  }

  /** From the same state the corrected loop ends the run with true. */
  lemma CorrectedLoopStops(classify: LineClassifier, lines: seq<string>, s: nat, e: nat, format: TextFormatter)
    requires s <= e == |lines| - 1
    requires ScanFrom(Kinds(classify, lines), e, e).0 == Some((s, e))
    requires format(Join(lines[s..e + 1], "\n")) == Ok(Join(lines[s..e + 1], "\n"))
    ensures FormatFrom(classify, lines, e, e, format) == Outcome(lines, Ok(true))
  {
    KeptBlockEdit(lines, s, e, e, format);
  }

  /** A block the formatter gives back unchanged leaves the buffer and the end
      line, and the next search moves down from the block's last line. */
  lemma KeptBlockEdit(lines: seq<string>, s: nat, e: nat, endLine: nat, format: TextFormatter)
    requires s <= e < |lines| && endLine < |lines|
    requires format(Join(lines[s..e + 1], "\n")) == Ok(Join(lines[s..e + 1], "\n"))
    ensures FormatBlock(lines, s, e, endLine, format) == Ok(BlockEdit(lines, e, endLine))
  {
  }

  /** One pass of the run from a line where the scan finds the block `s`..`e`:
      it ends with the parse error, ends with true when the next search
      would move down from the last line, or goes on below the block. */
  lemma StepOfBlock(classify: LineClassifier, lines: seq<string>, start: nat, endLine: nat, format: TextFormatter,
                    s: nat, e: nat)
    requires start < |lines| && endLine < |lines|
    requires ScanFrom(Kinds(classify, lines), start, endLine).0 == Some((s, e))
    ensures s <= e < |lines|
    ensures var fb := FormatBlock(lines, s, e, endLine, format);
      LoopStep(classify, lines, start, endLine, format) ==
        if fb.Err? then Done(Outcome(lines, Err(ParseFailed(fb.error))))
        else if fb.value.last == |fb.value.after| - 1 then Done(Outcome(fb.value.after, Ok(true)))
        else Next(fb.value.after, fb.value.last + 1, fb.value.end)
  {
  }

  /** A run is its first pass followed by the run it goes on with. */
  lemma RunUnfolds(classify: LineClassifier, lines: seq<string>, start: nat, endLine: nat, format: TextFormatter)
    requires start < |lines| && endLine < |lines|
    ensures FormatFrom(classify, lines, start, endLine, format) ==
      match LoopStep(classify, lines, start, endLine, format)
      case Done(o) => o
      case Next(after, next, end) => AfterFound(true, FormatFrom(classify, after, next, end, format))
  {
  }

  /** A block step keeps the buffer free of line feeds inside lines. */
  lemma BlockEditValid(lines: seq<string>, s: nat, e: nat, endLine: nat, format: TextFormatter)
    requires s <= e < |lines| && endLine < |lines|
    requires forall i :: 0 <= i < |lines| ==> NoLineFeed(lines[i])
    requires FormatBlock(lines, s, e, endLine, format).Ok?
    ensures var after := FormatBlock(lines, s, e, endLine, format).value.after;
      forall i :: 0 <= i < |after| ==> NoLineFeed(after[i])
  {
    var text := Join(lines[s..e + 1], "\n");
    if format(text).value != text {
      ReplacedValid(lines, s, e, format(text).value);
    }
  }

  /** One pass over a buffer free of line feeds inside lines, when the block
      step succeeds on the text of the block the scan finds: the run ends
      with a result, or goes on over a buffer that is again free of them. */
  lemma StepWhenBlockFormats(classify: LineClassifier, lines: seq<string>, start: nat, endLine: nat,
                             format: TextFormatter, s: nat, e: nat)
    requires start < |lines| && endLine < |lines|
    requires forall i :: 0 <= i < |lines| ==> NoLineFeed(lines[i])
    requires ScanFrom(Kinds(classify, lines), start, endLine).0 == Some((s, e))
    requires s <= e < |lines| && format(Join(lines[s..e + 1], "\n")).Ok?
    ensures var st := LoopStep(classify, lines, start, endLine, format);
      && (st.Done? ==> st.outcome.result.Ok?)
      && (st.Next? ==> forall i :: 0 <= i < |st.after| ==> NoLineFeed(st.after[i]))
  {
    StepOfBlock(classify, lines, start, endLine, format, s, e);
    BlockEditValid(lines, s, e, endLine, format);
  }
}

