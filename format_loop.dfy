/** The formatting command's loop over a buffer of lines, with the work done
    on one block's text left as a parameter: find a block, format it, move one
    line down and go on. */
module FormatLoop {
  import opened Wrappers
  import opened TextLines
  import opened TextDocument
  import opened CommentBlocks
  import opened CodeCommentParser

  /** What the command fails with: the search failed, or the located text
      has no comment line to parse. */
  datatype FormatError = SearchFailed(error: SearchError) | ParseFailed(parseError: ParseError)

  /** The end point's line after lines `s` to `e` were replaced by `n` lines:
      a point after the block moves with the text, one inside it ends up at
      the end of the inserted text, one before it stays. */
  function ShiftedLine(line: nat, s: nat, e: nat, n: nat): (r: nat)
    requires s <= e && n >= 1
    ensures line < s ==> r == line
    ensures s <= line <= e ==> r == s + n - 1
    ensures line > e ==> r > s + n - 1 && r - (s + n - 1) == line - e
  {
    if line > e then line - (e - s + 1) + n
    else if line >= s then s + n - 1
    else line
  }

  /** What a run returns: the buffer at the end and the command's result. */
  datatype Outcome = Outcome(lines: seq<string>, result: Result<bool, FormatError>)

  /** The outcome of the rest of a run once a block has been found: the
      command's flag is set, so a successful rest returns true. */
  function AfterFound(found: bool, o: Outcome): (r: Outcome)
    ensures r.lines == o.lines && (o.result.Err? ==> r.result == o.result)
    ensures o.result.Ok? ==> r.result == Ok(found || o.result.value)
  {
    if found && o.result.Ok? then Outcome(o.lines, Ok(true)) else o
  }

  /** How a line is classified: the comment-line regex of the run's language,
      applied to the line. */
  type LineClassifier = string -> LineKind

  /** The classification of every line of a buffer. */
  function Kinds(classify: LineClassifier, lines: seq<string>): (r: seq<LineKind>)
    ensures |r| == |lines|
    ensures forall i {:trigger r[i]} :: 0 <= i < |lines| ==> r[i] == classify(lines[i])
  {
    seq(|lines|, i requires 0 <= i < |lines| => classify(lines[i]))
  }

  /** What the loop does with the text of one block: parse it, then format the
      comment. */
  type TextFormatter = string -> Result<string, ParseError>

  /** What one block does to the buffer. */
  datatype BlockEdit = BlockEdit(after: seq<string>, last: nat, end: nat)

  /** One block, lines `s` to `e`: its text is formatted, and the buffer is
      rewritten only when the formatted text differs. Gives the new buffer, the
      line the next search moves down from (the block's last line, or the last
      line of the inserted text) and the end point's line. */
  function FormatBlock(lines: seq<string>, s: nat, e: nat, endLine: nat, format: TextFormatter)
    : (r: Result<BlockEdit, ParseError>)
    requires s <= e < |lines| && endLine < |lines|
    ensures r.Ok? ==> r.value.last < |r.value.after| && r.value.end < |r.value.after|
    ensures r.Ok? ==> |r.value.after| - r.value.last <= |lines| - e
    ensures var text := Join(lines[s..e + 1], "\n");
      && (r.Err? <==> format(text).Err?)
      && (format(text) == Ok(text) ==> r == Ok(BlockEdit(lines, e, endLine)))
      && (format(text).Ok? && format(text).value != text ==>
            var n := |SplitLines(format(text).value)|;
            && r.Ok? && r.value.after == Replaced(lines, s, e, format(text).value) && r.value.last == s + n - 1
            && Join(r.value.after[s..s + n], "\n") == format(text).value)
  {
    var originalText := Join(lines[s..e + 1], "\n");
    match format(originalText)
    case Err(err) => Err(err)
    case Ok(formattedText) =>
      if formattedText != originalText then
        var n := |SplitLines(formattedText)|;
        Ok(BlockEdit(Replaced(lines, s, e, formattedText), s + n - 1, ShiftedLine(endLine, s, e, n)))
      else Ok(BlockEdit(lines, e, endLine))
  }

  /** One pass of the command's loop: either the run is over, with its
      outcome, or it goes on over a new buffer from a new start line. */
  datatype Step = Done(outcome: Outcome) | Next(after: seq<string>, start: nat, end: nat)

  /** One pass of the loop from `start`: find a block; none ends the run with
      false, a parse error ends it with that error; otherwise the block is
      formatted, and the run ends with true when the line the search would
      move down from is the buffer's last line, or goes on from the line
      below it. */
  function LoopStep(classify: LineClassifier, lines: seq<string>, start: nat, endLine: nat, format: TextFormatter)
    : (st: Step)
    requires start < |lines| && endLine < |lines|
    ensures st.Next? ==> st.start < |st.after| && st.end < |st.after| && |st.after| - st.start < |lines| - start
    ensures ScanFrom(Kinds(classify, lines), start, endLine).0.None? <==> st == Done(Outcome(lines, Ok(false)))
    ensures st.Done? && st.outcome.result.Ok? ==>
      (st.outcome.result.value <==> ScanFrom(Kinds(classify, lines), start, endLine).0.Some?)
  {
    var block := ScanFrom(Kinds(classify, lines), start, endLine).0;
    if block.None? then Done(Outcome(lines, Ok(false)))
    else
      var fb := FormatBlock(lines, block.value.0, block.value.1, endLine, format);
      if fb.Err? then Done(Outcome(lines, Err(ParseFailed(fb.error))))
      else if fb.value.last == |fb.value.after| - 1 then Done(Outcome(fb.value.after, Ok(true)))
      else Next(fb.value.after, fb.value.last + 1, fb.value.end)
  }

  /** The command's loop from a start line on, with the searcher's regex
      settled: passes of LoopStep until one ends the run. A run that went on
      after a block returns true unless a later pass fails. */
  function FormatFrom(classify: LineClassifier, lines: seq<string>, start: nat, endLine: nat, format: TextFormatter)
    : (o: Outcome)
    requires start < |lines| && endLine < |lines|
    ensures o.result.Err? ==> o.result.error.ParseFailed?
    ensures o.result == Ok(false) ==> o.lines == lines
    decreases |lines| - start
  {
    match LoopStep(classify, lines, start, endLine, format)
    case Done(o) => o
    case Next(after, next, end) =>
      AfterFound(true, FormatFrom(classify, after, next, end, format))
  }

  /** The pass as the command's loop is written: after a block, the start
      point always goes one line down with LineDown and the loop goes on, also
      when LineDown cannot move because the block ends on the last line. */
  function AsWrittenStep(classify: LineClassifier, lines: seq<string>, start: nat, endLine: nat, format: TextFormatter)
    : (st: Step)
    requires start < |lines| && endLine < |lines|
    ensures st.Next? ==> st.start < |st.after| && st.end < |st.after|
  {
    var block := ScanFrom(Kinds(classify, lines), start, endLine).0;
    if block.None? then Done(Outcome(lines, Ok(false)))
    else
      var fb := FormatBlock(lines, block.value.0, block.value.1, endLine, format);
      if fb.Err? then Done(Outcome(lines, Err(ParseFailed(fb.error))))
      else Next(fb.value.after, MoveLine(|fb.value.after|, fb.value.last, Down), fb.value.end)
  }
}
