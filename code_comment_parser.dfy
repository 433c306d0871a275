/** The parser front end: it strips the comment prefix from every line of a
    located block and decides between an XML comment and one plain text line. */
module CodeCommentParser {
  import opened Wrappers
  import opened TextLines
  import opened CodeCommentHelper
  import opened CommentLineRegex
  import opened CodeComment

  /** Environment.NewLine on the host platform. */
  const NewLine: string := "\r\n"

  /** Parse dereferences the first match; with no match at all that is a
      null reference. */
  datatype ParseError = NoCommentLines

  /** XElement.Parse of the wrapped body followed by CommentLineXml's lines:
      None when the markup does not parse; a reading with no lines is kept as
      a comment without lines. */
  type XmlReader<X> = (string, FormatterOptions) -> Option<seq<X>>

  datatype CodeCommentParser = CodeCommentParser(
    codeLanguage: CodeLanguage, commentLineRegex: CommentLineRegex, formatterOptions: FormatterOptions)

  /** The constructor looks up the language's comment-line regex, and fails
      as the lookup does. */
  function NewCodeCommentParser(formatterOptions: FormatterOptions, codeLanguage: CodeLanguage)
    : (r: Result<CodeCommentParser, HelperError>)
    ensures r.Ok? <==> GetCommentPrefixForLanguage(codeLanguage).Ok?
    ensures r.Ok? ==>
      && r.value.codeLanguage == codeLanguage && r.value.formatterOptions == formatterOptions
      && r.value.commentLineRegex.prefix == GetCommentPrefixForLanguage(codeLanguage).value
    ensures r.Err? ==> r.error == NoCommentPrefix(codeLanguage)
  {
    match GetCommentLineRegex(codeLanguage)
    case Ok(re) => Ok(CodeCommentParser(codeLanguage, re, formatterOptions))
    case Err(e) => Err(e)
  }

  /** The `line` groups of the matches, in order. */
  function LineGroups(ms: seq<LineMatch>): (r: seq<string>)
    ensures |r| == |ms|
    ensures forall i :: 0 <= i < |ms| ==> r[i] == ms[i].line
  {
    seq(|ms|, i requires 0 <= i < |ms| => ms[i].line)
  }

  /** The comment text without prefixes: the lines joined by NewLine. */
  function CommentBody(ms: seq<LineMatch>): (r: string)
    ensures ms == [] ==> r == ""
    ensures |ms| == 1 ==> r == ms[0].line
  {
    Join(LineGroups(ms), NewLine)
  }

  /** The body holds markup, and Parse tries the XML reading, exactly when
      one of the comment's lines holds a '<'. */
  lemma BodyMarkup(ms: seq<LineMatch>)
    ensures '<' in CommentBody(ms) <==> exists i :: 0 <= i < |ms| && '<' in ms[i].line
  {
    JoinContains(LineGroups(ms), NewLine, '<');
    if i :| 0 <= i < |ms| && '<' in ms[i].line {
      assert LineGroups(ms)[i] == ms[i].line;
    }
  }

  /** The lines of the comment: the XML reader's lines when the body holds a
      '<' and parses once wrapped in a `<doc>` root, otherwise the whole body
      as one plain line. */
  function ReadLines<X>(body: string, xml: XmlReader<X>, options: FormatterOptions): (r: seq<CommentLine<X>>)
    ensures '<' !in body ==> r == [TextLine(body)]
    ensures '<' in body ==>
      match xml("<doc>" + body + "</doc>", options)
      case None => r == [TextLine(body)]
      case Some(ls) => |r| == |ls| && forall i :: 0 <= i < |ls| ==> r[i] == XmlLine(ls[i])
  {
    if '<' in body then
      match xml("<doc>" + body + "</doc>", options)
      case None => [TextLine(body)]
      case Some(ls) => seq(|ls|, i requires 0 <= i < |ls| => XmlLine(ls[i]))
    else [TextLine(body)]
  }

  /** Parse: the comment's options come from the first match, its lines from
      the joined `line` groups of all matches. With no match it fails. */
  function Parse<X>(parser: CodeCommentParser, text: string, xml: XmlReader<X>): (r: Result<CodeComment<X>, ParseError>)
    ensures r.Err? <==> Matches(parser.commentLineRegex, text) == []
    ensures r.Ok? ==>
      var ms := Matches(parser.commentLineRegex, text);
      && r.value.options == CommentOptions(ms[0].indent, ms[0].prefix, parser.codeLanguage)
      && r.value.lines == ReadLines(CommentBody(ms), xml, parser.formatterOptions)
  {
    var ms := Matches(parser.commentLineRegex, text);
    if |ms| == 0 then Err(NoCommentLines)
    else
      var options := CommentOptions(ms[0].indent, ms[0].prefix, parser.codeLanguage);
      Ok(CodeComment(ReadLines(CommentBody(ms), xml, parser.formatterOptions), options))
  }

  /** The options do not depend on which branch produced the lines. */
  lemma OptionsIndependentOfXml<X>(parser: CodeCommentParser, text: string, xml1: XmlReader<X>, xml2: XmlReader<X>)
    ensures Parse(parser, text, xml1).Ok? <==> Parse(parser, text, xml2).Ok?
    ensures Parse(parser, text, xml1).Ok? ==>
      Parse(parser, text, xml1).value.options == Parse(parser, text, xml2).value.options
  {
  }

  /** Without a '<' the result is one plain line holding the whole body,
      whatever the XML reader would do. */
  lemma PlainWithoutAngleBracket<X>(parser: CodeCommentParser, text: string, xml: XmlReader<X>)
    requires Parse(parser, text, xml).Ok?
    requires '<' !in CommentBody(Matches(parser.commentLineRegex, text))
    ensures Parse(parser, text, xml).value.lines == [TextLine(CommentBody(Matches(parser.commentLineRegex, text)))]
  {
  }

  /** Markup that does not parse never escapes: the comment is the same
      single plain line as without any '<'. */
  lemma XmlFailureFallsBack<X>(parser: CodeCommentParser, text: string, xml: XmlReader<X>)
    requires Parse(parser, text, xml).Ok?
    requires xml("<doc>" + CommentBody(Matches(parser.commentLineRegex, text)) + "</doc>", parser.formatterOptions).None?
    ensures Parse(parser, text, xml).value.lines == [TextLine(CommentBody(Matches(parser.commentLineRegex, text)))]
  {
  }
}
