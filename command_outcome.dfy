/** What the whole command reports on a buffer of lines: every block the
    locator finds parses, so the command never ends with ParseFailed. */
module CommandOutcome {
  import opened Wrappers
  import opened TextLines
  import opened CodeCommentHelper
  import opened CommentLineRegex
  import opened CommentBlocks
  import opened CodeComment
  import opened CodeCommentParser
  import opened FormatLoop
  import opened FormatLoopProperties
  import opened BlockText
  import opened CommentFormatLogic

  /** The text of a block the locator found always parses, so the block
      step succeeds on it. */
  lemma BlockFormats<X>(re: CommentLineRegex, lang: CodeLanguage, lines: seq<string>, s: nat, e: nat, p: string,
                        options: FormatterOptions, xml: XmlReader<X>, render: Render<X>)
    requires GetCommentLineRegex(lang) == Ok(re)
    requires forall i :: 0 <= i < |lines| ==> NoLineFeed(lines[i])
    requires IsBlock(LineKinds(re, lines), s, e, p)
    ensures FormatterFor(re, lang, options, xml, render)(Join(lines[s..e + 1], "\n")).Ok?
  {
    ParseOfBlock(ParserFor(re, lang, options), lines, s, e, p, xml);
  }

  /** One pass of a run never ends with ParseFailed, and a pass that goes on
      leaves a buffer free of line feeds inside lines. */
  lemma StepNeverFailsToParse<X>(re: CommentLineRegex, lang: CodeLanguage, lines: seq<string>,
                                 start: nat, endLine: nat, options: FormatterOptions,
                                 xml: XmlReader<X>, render: Render<X>)
    requires GetCommentLineRegex(lang) == Ok(re)
    requires start < |lines| && endLine < |lines|
    requires forall i :: 0 <= i < |lines| ==> NoLineFeed(lines[i])
    ensures var st := LoopStep(ClassifierFor(re), lines, start, endLine, FormatterFor(re, lang, options, xml, render));
      && (st.Done? ==> st.outcome.result.Ok?)
      && (st.Next? ==> forall i :: 0 <= i < |st.after| ==> NoLineFeed(st.after[i]))
  {
    var format := FormatterFor(re, lang, options, xml, render);
    ClassifierKinds(re, lines);
    var block := ScanFrom(LineKinds(re, lines), start, endLine).0;
    if block.Some? {
      var (s, e) := block.value;
      var p := FoundBlockIsBlock(re, lines, start, endLine);
      BlockFormats(re, lang, lines, s, e, p, options, xml, render);
      StepWhenBlockFormats(ClassifierFor(re), lines, start, endLine, format, s, e);
    }
  }

  /** The block the scan finds is a block of some prefix. */
  lemma FoundBlockIsBlock(re: CommentLineRegex, lines: seq<string>, start: nat, endLine: nat) returns (p: string)
    requires start < |lines| && endLine < |lines|
    requires ScanFrom(LineKinds(re, lines), start, endLine).0.Some?
    ensures var (s, e) := ScanFrom(LineKinds(re, lines), start, endLine).0.value;
      IsBlock(LineKinds(re, lines), s, e, p)
  {
    var kinds := LineKinds(re, lines);
    ScanFromFindsFirstBlock(kinds, start, endLine);
    var at := ScanFrom(kinds, start, endLine).1;
    ExpandBlockIsBlock(kinds, at);
    p := kinds[at].prefix;
  }

  /** A run over a buffer of lines never ends with ParseFailed: every block
      it formats is one the locator found, and such a block parses. */
  lemma {:induction false} RunNeverFailsToParse<X>(re: CommentLineRegex, lang: CodeLanguage, lines: seq<string>,
                                                   start: nat, endLine: nat, options: FormatterOptions,
                                                   xml: XmlReader<X>, render: Render<X>)
    requires GetCommentLineRegex(lang) == Ok(re)
    requires start < |lines| && endLine < |lines|
    requires forall i :: 0 <= i < |lines| ==> NoLineFeed(lines[i])
    ensures FormatFrom(ClassifierFor(re), lines, start, endLine, FormatterFor(re, lang, options, xml, render)).result.Ok?
    decreases |lines| - start
  {
    var classify := ClassifierFor(re);
    var format := FormatterFor(re, lang, options, xml, render);
    StepNeverFailsToParse(re, lang, lines, start, endLine, options, xml, render);
    RunUnfolds(classify, lines, start, endLine, format);
    match LoopStep(classify, lines, start, endLine, format)
    case Done(o) =>
    case Next(after, next, end) =>
      RunNeverFailsToParse(re, lang, after, next, end, options, xml, render);
  }

  /** The whole command on a buffer of lines fails only in the search: with a
      regex for the language it always succeeds, and it never reports that a
      located block had no comment line to parse. */
  lemma CommandNeverFailsToParse<X>(lines: seq<string>, lang: CodeLanguage, start: nat, endLine: nat,
                                    options: FormatterOptions, xml: XmlReader<X>, render: Render<X>)
    requires start < |lines| && endLine < |lines|
    requires forall i :: 0 <= i < |lines| ==> NoLineFeed(lines[i])
    ensures var o := FormatCommentsOutcome(lines, lang, start, endLine, options, xml, render);
      && (GetCommentLineRegex(lang).Ok? ==> o.result.Ok?)
      && (o.result.Err? ==> o.result.error.SearchFailed?)
  {
    if GetCommentLineRegex(lang).Ok? {
      RunNeverFailsToParse(GetCommentLineRegex(lang).value, lang, lines, start, endLine, options, xml, render);
    }
  }
}
