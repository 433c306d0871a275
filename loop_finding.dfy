/** Concrete runs of the formatting command on which the loop as written
    never ends: a C# document of one documentation-comment line whose
    formatted text is the text itself, and a two-line block whose text the
    formatter changes while the range ends on its first line. */
module LoopFinding {
  import opened Wrappers
  import opened TextLines
  import opened CodeCommentHelper
  import opened CommentLineRegex
  import opened TextDocument
  import opened CommentBlocks
  import opened FormatLoop
  import opened FormatLoopProperties
  import opened CommentFormatLogic

  /** The one-line document. */
  const OneLine: seq<string> := ["/// x"]

  /** A formatter that gives every text back as it is. */
  function KeepAll(): (f: TextFormatter)
    ensures forall t :: f(t) == Ok(t)
  {
    t => Ok(t)
  }

  /** The C# regex classifies the line as a "///" comment line with its spacer. */
  lemma OneLineIsBlockLine(re: CommentLineRegex)
    requires GetCommentLineRegex(CSharp) == Ok(re)
    ensures Classify(re, OneLine[0]) == Comment("///", true)
  {
    var line := OneLine[0];
    assert re.prefix == SlashPrefix;
    assert NoLineBreak(line);
    RunEndUnique(line, 0, 0, Blank);
    RunEndUnique(line, 0, 3, PrefixRun(SlashPrefix));
    ClassifyLine(re, line);
    assert line[0..3] == "///";
  }

  /** The search from the only line finds the block made of that line. */
  lemma OneLineBlock(re: CommentLineRegex)
    requires GetCommentLineRegex(CSharp) == Ok(re)
    ensures ScanFrom(Kinds(ClassifierFor(re), OneLine), 0, 0).0 == Some((0, 0))
  {
    OneLineIsBlockLine(re);
    SingleLineBlock(Kinds(ClassifierFor(re), OneLine), "///");
  }

  /** A buffer of one block line is a block of that line. */
  lemma SingleLineBlock(kinds: seq<LineKind>, p: string)
    requires |kinds| == 1 && kinds[0] == Comment(p, true)
    ensures ScanFrom(kinds, 0, 0).0 == Some((0, 0))
  {
    assert ExpandDirection(kinds, 0, Up) == Some(0);
    assert ExpandDirection(kinds, 0, Down) == Some(0);
  }

  /** As written, the pass over the block hands the next search the same
      buffer and the same range it started from, so the loop repeats forever. */
  lemma AsWrittenNeverEnds(re: CommentLineRegex)
    requires GetCommentLineRegex(CSharp) == Ok(re)
    ensures AsWrittenStep(ClassifierFor(re), OneLine, 0, 0, KeepAll()) == Next(OneLine, 0, 0)
  {
    OneLineBlock(re);
    AsWrittenLoopRepeats(ClassifierFor(re), OneLine, 0, 0, KeepAll());
  }

  /** The corrected loop stops after that block and reports a comment found. */
  lemma CorrectedEnds(re: CommentLineRegex)
    requires GetCommentLineRegex(CSharp) == Ok(re)
    ensures FormatFrom(ClassifierFor(re), OneLine, 0, 0, KeepAll()) == Outcome(OneLine, Ok(true))
  {
    OneLineBlock(re);
    CorrectedLoopStops(ClassifierFor(re), OneLine, 0, 0, KeepAll());
  }

  // ---------------------------------------------------------------- a changed block on a range ending early

  /** A classifier that takes every line for a "///" line with its spacer. */
  function AllBlockLines(): (c: LineClassifier)
    ensures forall line :: c(line) == Comment("///", true)
  {
    _ => Comment("///", true)
  }

  /** A formatter that rewrites the text "a\nb" as "c\nd" and keeps every
      other text. */
  function RewriteAB(): (f: TextFormatter)
    ensures f("a\nb") == Ok("c\nd")
    ensures forall t :: t != "a\nb" ==> f(t) == Ok(t)
  {
    t => if t == "a\nb" then Ok("c\nd") else Ok(t)
  }

  /** A buffer of two block lines with the same prefix is one block, found
      from either line. */
  lemma TwoLineBlock(kinds: seq<LineKind>, p: string, start: nat)
    requires |kinds| == 2 && kinds[0] == Comment(p, true) && kinds[1] == Comment(p, true)
    requires start < 2
    ensures ScanFrom(kinds, start, start).0 == Some((0, 1))
  {
    if start == 0 {
      assert ExpandFrom(kinds, 1, Down, Some(p), Some(0)) == Some(1);
    } else {
      assert ExpandFrom(kinds, 0, Up, Some(p), Some(1)) == Some(0);
    }
    assert ExpandDirection(kinds, start, Up) == Some(0);
    assert ExpandDirection(kinds, start, Down) == Some(1);
  }

  /** The rewritten text is two lines. */
  lemma SplitRewritten()
    ensures SplitLines("c\nd") == ["c", "d"]
  {
    var t := "c\nd";
    assert LineFeedFrom(t, 1) == 1;
    assert t[2..] == "d" && t[..1] == "c";
    assert LineFeedFrom("d", 1) == 1;
    assert SplitLines("d") == ["d"];
  }

  /** As written, a changed block also repeats when the range ends before the
      last line: the edit carries the end point onto the new last line, the
      next search starts there, finds the rewritten block, keeps its text and
      hands the same state on again. */
  lemma AsWrittenChangedRepeats()
    ensures AsWrittenStep(AllBlockLines(), ["a", "b"], 0, 0, RewriteAB()) == Next(["c", "d"], 1, 1)
    ensures AsWrittenStep(AllBlockLines(), ["c", "d"], 1, 1, RewriteAB()) == Next(["c", "d"], 1, 1)
  {
    var c := AllBlockLines();
    TwoLineBlock(Kinds(c, ["a", "b"]), "///", 0);
    TwoLineBlock(Kinds(c, ["c", "d"]), "///", 1);
    assert Join(["a", "b"], "\n") == "a\nb";
    assert Join(["c", "d"], "\n") == "c\nd";
    SplitRewritten();
  }

  /** The corrected loop stops after the rewritten block, which ends on the
      last line, and reports a comment found. */
  lemma CorrectedChangedEnds()
    ensures FormatFrom(AllBlockLines(), ["a", "b"], 0, 0, RewriteAB()) == Outcome(["c", "d"], Ok(true))
  {
    var c := AllBlockLines();
    TwoLineBlock(Kinds(c, ["a", "b"]), "///", 0);
    assert Join(["a", "b"], "\n") == "a\nb";
    SplitRewritten();
  }
}
