/** The formatting command: find each comment block in a range of a document,
    parse and format it, and replace its text when the formatted text differs.
    The formatter itself is a parameter. */
module CommentFormatLogic {
  import opened Wrappers
  import opened TextLines
  import opened CodeCommentHelper
  import opened CommentLineRegex
  import opened TextDocument
  import opened CommentLocation
  import opened CommentBlocks
  import opened CommentSearcher
  import opened CodeComment
  import opened CodeCommentParser
  import opened FormatLoop
  import opened FormatLoopProperties

  /** The two persisted settings the command reads. */
  datatype Settings = Settings(commentRunDuringCleanup: bool, ignoreLinesStartingWith: seq<string>)

  /** CommentFormatter(comment).Format(options). */
  type Render<!X> = (CodeComment<X>, FormatterOptions) -> string

  /** The formatter options for a run: the document's tab size, and the
      host's task-list tokens (normalised) followed by the user's ignore list. */
  function OptionsFor(settings: Settings, tabSize: nat, taskListTokens: seq<string>): (o: FormatterOptions)
    ensures o.tabSize == tabSize
    ensures |o.ignoreTokens| == |taskListTokens| + |settings.ignoreLinesStartingWith|
    ensures forall i :: 0 <= i < |taskListTokens| ==> o.ignoreTokens[i] == TaskListToken(taskListTokens[i])
    ensures forall i :: 0 <= i < |settings.ignoreLinesStartingWith| ==>
      o.ignoreTokens[|taskListTokens| + i] == settings.ignoreLinesStartingWith[i]
  {
    FormatterOptions(tabSize, GetTaskListTokens(taskListTokens) + settings.ignoreLinesStartingWith)
  }

  /** The parser for the located block's language. */
  function ParserFor(re: CommentLineRegex, lang: CodeLanguage, options: FormatterOptions): (p: CodeCommentParser)
    requires GetCommentLineRegex(lang) == Ok(re)
    ensures NewCodeCommentParser(options, lang) == Ok(p) && p.commentLineRegex == re
  {
    CodeCommentParser(lang, re, options)
  }

  /** The block step for one language: CodeCommentParser.Parse followed by the
      formatter. It fails exactly when parsing fails. */
  function FormatText<X>(parser: CodeCommentParser, xml: XmlReader<X>, render: Render<X>, text: string)
    : (r: Result<string, ParseError>)
    ensures r.Err? <==> Parse(parser, text, xml).Err?
    ensures r.Err? ==> r.error == Parse(parser, text, xml).error
    ensures r.Ok? ==> r.value == render(Parse(parser, text, xml).value, parser.formatterOptions)
  {
    match Parse(parser, text, xml)
    case Err(err) => Err(err)
    case Ok(comment) => Ok(render(comment, parser.formatterOptions))
  }

  /** The line classifier of a run: the comment-line regex applied to a line. */
  function ClassifierFor(re: CommentLineRegex): (c: LineClassifier)
    ensures forall line :: c(line).NotComment? <==> Match(re, line).None?
    ensures forall line :: c(line).Comment? ==>
      && c(line).prefix == TrimStart(Match(re, line).value.prefix)
      && (c(line).hasSpacer <==> Match(re, line).value.initialSpacer.Some?)
  {
    line => Classify(re, line)
  }

  /** The block step of a run in `lang`. */
  function FormatterFor<X>(re: CommentLineRegex, lang: CodeLanguage, options: FormatterOptions, xml: XmlReader<X>,
                           render: Render<X>): (f: TextFormatter)
    requires GetCommentLineRegex(lang) == Ok(re)
    ensures forall text :: f(text).Err? <==> Parse(ParserFor(re, lang, options), text, xml).Err?
    ensures forall text :: f(text).Ok? ==>
      f(text).value == render(Parse(ParserFor(re, lang, options), text, xml).value, options)
  {
    text => FormatText(ParserFor(re, lang, options), xml, render, text)
  }

  /** The classifier sees the buffer as the searcher does. */
  lemma ClassifierKinds(re: CommentLineRegex, lines: seq<string>)
    ensures Kinds(ClassifierFor(re), lines) == LineKinds(re, lines)
  {
  }

  /** The whole command on a range of one document: the first Find settles
      the searcher's regex, or fails. */
  function FormatCommentsOutcome<X>(lines: seq<string>, lang: CodeLanguage, start: nat, endLine: nat,
                                    options: FormatterOptions, xml: XmlReader<X>, render: Render<X>): (o: Outcome)
    requires start < |lines| && endLine < |lines|
    ensures o.result == Ok(false) ==> o.lines == lines
    ensures (o.result.Err? && o.result.error.SearchFailed?) <==>
      GetCommentLineRegex(lang).Err? && (lang != Unknown || start <= endLine)
    ensures GetCommentLineRegex(lang).Err? ==> o.lines == lines && o.result != Ok(true)
  {
    match GetCommentLineRegex(lang)
    case Ok(re) => FormatFrom(ClassifierFor(re), lines, start, endLine, FormatterFor(re, lang, options, xml, render))
    case Err(e) =>
      if lang != Unknown then Outcome(lines, Err(SearchFailed(UnsupportedLanguage(e))))
      else if start > endLine then Outcome(lines, Ok(false))
      else Outcome(lines, Err(SearchFailed(NullRegex)))
  }

  /** When the first search finds nothing, the command changes nothing and
      reports that it found no comments. */
  lemma NothingFoundOutcome<X>(lines: seq<string>, lang: CodeLanguage, start: nat, endLine: nat,
                               options: FormatterOptions, xml: XmlReader<X>, render: Render<X>)
    requires start < |lines| && endLine < |lines|
    requires GetCommentLineRegex(lang).Ok? ==>
      ScanFrom(LineKinds(GetCommentLineRegex(lang).value, lines), start, endLine).0.None?
    requires GetCommentLineRegex(lang).Err? ==> lang == Unknown && start > endLine
    ensures FormatCommentsOutcome(lines, lang, start, endLine, options, xml, render) == Outcome(lines, Ok(false))
  {
    match GetCommentLineRegex(lang)
    case Ok(re) =>
      ClassifierKinds(re, lines);
      NothingFoundNothingChanged(ClassifierFor(re), lines, start, endLine,
                                 FormatterFor(re, lang, options, xml, render));
    case Err(_) =>
  }

  /** The body of the command's loop for one located block: read its text,
      parse and format it, and replace the text when the formatted text
      differs. It does to the document what FormatBlock says. */
  method FormatBlockIn(doc: TextDocument, s: nat, e: nat, endLine: nat, format: TextFormatter)
    returns (res: Result<BlockEdit, ParseError>)
    modifies doc
    requires doc.Valid() && s <= e < |doc.lines| && endLine < |doc.lines|
    ensures doc.Valid()
    ensures res == FormatBlock(old(doc.lines), s, e, endLine, format)
    ensures doc.lines == if res.Ok? then res.value.after else old(doc.lines)
  {
    var originalText := doc.GetText(s, e);
    var formatted := format(originalText);
    if formatted.Err? {
      return Err(formatted.error);
    }
    var formattedText := formatted.value;
    if formattedText != originalText {
      var n := |SplitLines(formattedText)|;
      var cursorLine := doc.ReplaceLines(s, e, formattedText);
      res := Ok(BlockEdit(doc.lines, cursorLine, ShiftedLine(endLine, s, e, n)));
    } else {
      res := Ok(BlockEdit(doc.lines, e, endLine));
    }
  }

  /** Find once the searcher has settled on the document's language: the
      block the scan finds, with the searcher as it was. `classify` is the
      regex's line classifier. */
  method FindSettled(searcher: CommentSearcher, doc: TextDocument, re: CommentLineRegex, ghost classify: LineClassifier,
                     start: EditPoint, end: EditPoint)
    returns (location: Location)
    modifies searcher
    requires classify == ClassifierFor(re)
    requires searcher.codeLanguage == doc.language && searcher.commentLineRegex == Some(re)
    requires start.parent == doc && end.parent == doc
    requires start.line < |doc.lines| && end.line < |doc.lines|
    ensures searcher.codeLanguage == doc.language && searcher.commentLineRegex == Some(re)
    ensures location == BlockLocation(doc, doc.lines, ScanFrom(Kinds(classify, doc.lines), start.line, end.line).0,
                                      doc.language)
  {
    ClassifierKinds(re, doc.lines);
    var found, cursor := searcher.Find(start, end);
    location := found.value;
  }

  /** One pass of the command's loop over a located block: format it, and
      either stop (a parse error, or the block just handled reaches the last
      line) or give the points the next search starts from, one line below
      the block. What it does is the loop's LoopStep on the buffer. */
  method LoopPass(doc: TextDocument, ghost classify: LineClassifier, format: TextFormatter, start: EditPoint,
                  end: EditPoint, location: Location)
    returns (stop: Option<Result<bool, FormatError>>, start': EditPoint, end': EditPoint)
    modifies doc
    requires doc.Valid() && start.parent == doc && end.parent == doc
    requires start.line < |doc.lines| && end.line < |doc.lines|
    requires location == BlockLocation(doc, doc.lines, ScanFrom(Kinds(classify, doc.lines), start.line, end.line).0,
                                       doc.language)
    requires location.valid
    ensures doc.Valid() && start'.parent == doc && end'.parent == doc
    ensures stop.None? ==> start'.line < |doc.lines| && end'.line < |doc.lines|
    ensures match LoopStep(classify, old(doc.lines), start.line, end.line, format)
      case Done(o) => stop == Some(o.result) && doc.lines == o.lines
      case Next(after, next, nextEnd) =>
        stop.None? && doc.lines == after && start'.line == next && end'.line == nextEnd
  {
    var s, e := location.startPoint.value.line, location.endPoint.value.line;
    StepOfBlock(classify, doc.lines, start.line, end.line, format, s, e);
    start', end' := start, end;
    var edit := FormatBlockIn(doc, s, e, end.line, format);
    if edit.Err? {
      return Some(Err(ParseFailed(edit.error))), start', end';
    }
    if edit.value.last == |doc.lines| - 1 {
      return Some(Ok(true)), start', end';
    }
    stop := None;
    start' := EditPoint(doc, edit.value.last + 1, 0);
    end' := EditPoint(doc, edit.value.end, end.col);
  }

  /** The command's loop once the first search has found a block; the
      buffer and the result are the run's outcome. */
  method FormatLoopFrom(doc: TextDocument, searcher: CommentSearcher, re: CommentLineRegex,
                        ghost classify: LineClassifier, format: TextFormatter, start: EditPoint, end: EditPoint,
                        location: Location)
    returns (r: Result<bool, FormatError>)
    modifies doc, searcher
    requires classify == ClassifierFor(re)
    requires doc.Valid() && start.parent == doc && end.parent == doc
    requires start.line < |doc.lines| && end.line < |doc.lines|
    requires searcher.codeLanguage == doc.language && searcher.commentLineRegex == Some(re)
    requires location == BlockLocation(doc, doc.lines, ScanFrom(Kinds(classify, doc.lines), start.line, end.line).0,
                                       doc.language)
    ensures doc.Valid()
    ensures var o := FormatFrom(classify, old(doc.lines), start.line, end.line, format);
      doc.lines == o.lines && r == o.result
  {
    ghost var target := FormatFrom(classify, doc.lines, start.line, end.line, format);
    var found := false;
    var location := location;
    var start, end := start, end;
    while location.valid
      invariant doc.Valid() && start.parent == doc && end.parent == doc
      invariant start.line < |doc.lines| && end.line < |doc.lines|
      invariant searcher.codeLanguage == doc.language && searcher.commentLineRegex == Some(re)
      invariant location == BlockLocation(doc, doc.lines, ScanFrom(Kinds(classify, doc.lines), start.line, end.line).0,
                                          doc.language)
      invariant target == AfterFound(found, FormatFrom(classify, doc.lines, start.line, end.line, format))
      decreases |doc.lines| - start.line
    {
      RunUnfolds(classify, doc.lines, start.line, end.line, format);
      var stop;
      stop, start, end := LoopPass(doc, classify, format, start, end, location);
      found := true;
      if stop.Some? {
        return stop.value;
      }
      assert start.line < |doc.lines| && end.line < |doc.lines|;
      location := FindSettled(searcher, doc, re, classify, start, end);
    }
    NothingFoundNothingChanged(classify, doc.lines, start.line, end.line, format);
    r := Ok(found);
  }

  /** FormatComments(startPoint, endPoint): reformat every comment block that
      starts on a line of the range. The host's task-list tokens and the
      comment parser's XML reader and the formatter are parameters. */
  method FormatCommentsInRange<X>(startPoint: EditPoint, endPoint: EditPoint, settings: Settings,
                                  taskListTokens: seq<string>, xml: XmlReader<X>, render: Render<X>)
    returns (r: Result<bool, FormatError>)
    modifies startPoint.parent
    requires startPoint.parent.Valid()
    requires startPoint.line < |startPoint.parent.lines| && endPoint.line < |endPoint.parent.lines|
    ensures startPoint.parent.Valid()
    ensures startPoint.parent != endPoint.parent ==>
      r == Err(SearchFailed(CrossDocumentRange)) && startPoint.parent.lines == old(startPoint.parent.lines)
    ensures startPoint.parent == endPoint.parent ==>
      var doc := startPoint.parent;
      var o := FormatCommentsOutcome(old(doc.lines), doc.language, startPoint.line, endPoint.line,
                                     OptionsFor(settings, doc.tabSize, taskListTokens), xml, render);
      doc.lines == o.lines && r == o.result
  {
    var doc := startPoint.parent;
    var options := OptionsFor(settings, doc.tabSize, taskListTokens);
    var searcher := new CommentSearcher();
    var found, cursor := searcher.Find(startPoint, endPoint);
    if found.Err? {
      return Err(SearchFailed(found.error));
    }
    if !found.value.valid {
      NothingFoundOutcome(doc.lines, doc.language, startPoint.line, endPoint.line, options, xml, render);
      return Ok(false);
    }
    var re := searcher.commentLineRegex.value;
    var format := FormatterFor(re, doc.language, options, xml, render);
    ClassifierKinds(re, doc.lines);
    r := FormatLoopFrom(doc, searcher, re, ClassifierFor(re), format, startPoint, endPoint, found.value);
  }

  /** FormatComments(textDocument): with the "run during cleanup" setting off
      nothing happens; otherwise the range from the document's start point
      (line 0) to its end point (its last line) is reformatted. `error` is
      what the run throws, if anything. */
  method FormatComments<X>(doc: TextDocument, settings: Settings, taskListTokens: seq<string>, xml: XmlReader<X>,
                           render: Render<X>)
    returns (error: Option<FormatError>)
    modifies doc
    requires doc.Valid()
    ensures doc.Valid()
    ensures !settings.commentRunDuringCleanup ==> doc.lines == old(doc.lines) && error.None?
    ensures settings.commentRunDuringCleanup ==>
      var o := FormatCommentsOutcome(old(doc.lines), doc.language, old(doc.StartPoint()).line,
                                     old(doc.EndPoint()).line, OptionsFor(settings, doc.tabSize, taskListTokens),
                                     xml, render);
      doc.lines == o.lines && (error.Some? <==> o.result.Err?) && (error.Some? ==> error.value == o.result.error)
  {
    if !settings.commentRunDuringCleanup {
      return None;
    }
    var startPoint, endPoint := doc.StartPoint(), doc.EndPoint();
    var r := FormatCommentsInRange(startPoint, endPoint, settings, taskListTokens, xml, render);
    error := if r.Err? then Some(r.error) else None;
  }
}
