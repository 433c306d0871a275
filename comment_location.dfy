/** The result of locating a comment block: its first and last position, the
    language it was found in, and whether it is a block at all. The searcher's
    and the reader's location structs are the same value under two names. */
module CommentLocation {
  import opened Wrappers
  import opened CodeCommentHelper
  import opened TextDocument

  /** `valid` is computed once, when the location is built, and never changes. */
  datatype Location = Location(
    startPoint: Option<EditPoint>,
    endPoint: Option<EditPoint>,
    codeLanguage: CodeLanguage,
    valid: bool)

  type CommentSearcherLocation = Location
  type CommentReaderLocation = Location

  /** The location constructor: it stores its arguments and is valid exactly
      when both points are present. */
  function NewLocation(startPoint: Option<EditPoint>, endPoint: Option<EditPoint>, codeLanguage: CodeLanguage): (r: Location)
    ensures r.startPoint == startPoint && r.endPoint == endPoint && r.codeLanguage == codeLanguage
    ensures r.valid <==> startPoint.Some? && endPoint.Some?
  {
    Location(startPoint, endPoint, codeLanguage, startPoint.Some? && endPoint.Some?)
  }

  /** `None`: no points, language Unknown, not valid. */
  function NoLocation(): (r: Location)
    ensures !r.valid && r.codeLanguage == Unknown
    ensures r.startPoint.None? && r.endPoint.None?
  {
    NewLocation(None, None, Unknown)
  }
}
