/** The comment reader: the same regex cache and Find as the searcher. */
module CommentReader {
  import opened Wrappers
  import opened CodeCommentHelper
  import opened CommentLineRegex
  import opened TextDocument
  import opened CommentLocation
  import opened CommentBlocks

  class CommentReader {
    /** The language the cached regex was looked up for. */
    var codeLanguage: CodeLanguage
    /** The cached comment-line regex; null until a lookup succeeds. */
    var commentLineRegex: Option<CommentLineRegex>

    constructor()
      ensures codeLanguage == Unknown && commentLineRegex == None
      ensures Coherent(codeLanguage, commentLineRegex)
    {
      codeLanguage := Unknown;
      commentLineRegex := None;
    }

    /** Find the first comment block that starts between the two points'
        lines (it may extend beyond them). `cursor` is where the caller's
        start point is left. */
    method Find(startPoint: EditPoint, endPoint: EditPoint)
      returns (r: Result<CommentReaderLocation, SearchError>, cursor: EditPoint)
      modifies this
      requires startPoint.line < |startPoint.parent.lines| && endPoint.line < |endPoint.parent.lines|
      ensures startPoint.parent != endPoint.parent ==>
        r == Err(CrossDocumentRange) && cursor == startPoint
        && codeLanguage == old(codeLanguage) && commentLineRegex == old(commentLineRegex)
      ensures startPoint.parent == endPoint.parent ==>
        var doc := startPoint.parent;
        var (l, re, err) := Lookup(old(codeLanguage), old(commentLineRegex), doc.language);
        && codeLanguage == l && commentLineRegex == re
        && (err.Some? ==> r == Err(err.value) && cursor == startPoint)
        && (err.None? ==> (r, cursor) == SearchResult(doc, doc.lines, re, l, startPoint, endPoint.line))
    {
      codeLanguage, commentLineRegex, r, cursor := FindWith(codeLanguage, commentLineRegex, startPoint, endPoint);
    }
  }
}
