/** The parsed comment the formatter receives, its per-comment options, and
    the two formatter options the formatting command sets itself. */
module CodeComment {
  import opened CodeCommentHelper

  /** CommentOptions: the first comment line's indent and prefix, and the language. */
  datatype CommentOptions = CommentOptions(indent: string, prefix: string, language: CodeLanguage)

  /** ICommentLine: a plain text line, or a line the XML reader built from the
      parsed document (`X`, left abstract). */
  datatype CommentLine<X> = TextLine(text: string) | XmlLine(line: X)

  datatype CodeComment<X> = CodeComment(lines: seq<CommentLine<X>>, options: CommentOptions)

  /** FormatterOptions, as far as the front half sets it: the tab size and the
      tokens that mark lines the formatter leaves alone. */
  datatype FormatterOptions = FormatterOptions(tabSize: nat, ignoreTokens: seq<string>)
}
