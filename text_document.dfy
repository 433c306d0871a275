/** The host editor's document, reduced to what the comment core uses: a
    buffer of lines, the document's language and tab size, positions in it,
    line-wise movement, reading the text of a range of whole lines and
    replacing such a range with new text. Lines are separated by one line feed. */
module TextDocument {
  import opened TextLines
  import opened CodeCommentHelper

  class TextDocument {
    /** The buffer; line numbers are indexes into it, counted from 0. */
    var lines: seq<string>
    const language: CodeLanguage
    const tabSize: nat

    /** A buffer always has a line, and no line holds a line feed. */
    ghost predicate Valid()
      reads this
    {
      |lines| >= 1 && forall i :: 0 <= i < |lines| ==> NoLineFeed(lines[i])
    }

    /** A document holding `text`. */
    constructor(text: string, language: CodeLanguage, tabSize: nat)
      ensures Valid()
      ensures lines == SplitLines(text) && Join(lines, "\n") == text
      ensures this.language == language && this.tabSize == tabSize
    {
      lines := SplitLines(text);
      this.language := language;
      this.tabSize := tabSize;
      new;
      JoinSplitLines(text);
    }

    /** The position at the start of the document. */
    function StartPoint(): (p: EditPoint)
      reads this
      requires Valid()
      ensures p.parent == this && p.line == 0 && p.col == 0
    {
      EditPoint(this, 0, 0)
    }

    /** The position at the end of the document: the end of its last line. */
    function EndPoint(): (p: EditPoint)
      reads this
      requires Valid()
      ensures p.parent == this && p.line == |lines| - 1 && p.col == |lines[|lines| - 1]|
    {
      EditPoint(this, |lines| - 1, |lines[|lines| - 1]|)
    }

    /** The text from the start of line `s` to the end of line `e`; splitting
        it at its line feeds gives those lines back. */
    function GetText(s: nat, e: nat): (r: string)
      reads this
      requires Valid() && s <= e < |lines|
      ensures SplitLines(r) == lines[s..e + 1]
    {
      SplitJoinLines(lines[s..e + 1]);
      Join(lines[s..e + 1], "\n")
    }

    /** Deletes the text from the start of line `s` to the end of line `e` and
        inserts `text` there; the point that did the insertion ends at the end
        of the inserted text, the returned line. */
    method ReplaceLines(s: nat, e: nat, text: string) returns (cursorLine: nat)
      modifies this
      requires Valid() && s <= e < |lines|
      ensures Valid()
      ensures lines == Replaced(old(lines), s, e, text)
      ensures cursorLine == s + |SplitLines(text)| - 1
    {
      ReplacedValid(lines, s, e, text);
      lines := Replaced(lines, s, e, text);
      cursorLine := s + |SplitLines(text)| - 1;
    }
  }

  /** A position in a document: a line and a column. Only the line takes part
      in the comment core's movement; the column records where a position was
      snapped to. */
  datatype EditPoint = EditPoint(parent: TextDocument, line: nat, col: nat)

  datatype Direction = Up | Down

  /** EditPoint.LineUp and EditPoint.LineDown: one line in the direction, or
      no movement at the first or last line. */
  function MoveLine(lineCount: nat, line: nat, dir: Direction): (r: nat)
    requires line < lineCount
    ensures r < lineCount
    ensures dir == Up ==> (r == line <==> line == 0) && (line > 0 ==> r == line - 1)
    ensures dir == Down ==> (r == line <==> line == lineCount - 1) && (line < lineCount - 1 ==> r == line + 1)
  {
    match dir
    case Up => if line > 0 then line - 1 else line
    case Down => if line + 1 < lineCount then line + 1 else line
  }

  /** The buffer after the lines `s` to `e` are replaced by the lines of
      `text`: the lines before and after are kept, and the new range reads
      back as `text`. */
  function Replaced(lines: seq<string>, s: nat, e: nat, text: string): (r: seq<string>)
    requires s <= e < |lines|
    ensures |r| == |lines| - (e - s + 1) + |SplitLines(text)|
    ensures r[..s] == lines[..s]
    ensures r[s + |SplitLines(text)|..] == lines[e + 1..]
    ensures Join(r[s..s + |SplitLines(text)|], "\n") == text
  {
    var r := lines[..s] + SplitLines(text) + lines[e + 1..];
    assert r[s..s + |SplitLines(text)|] == SplitLines(text);
    JoinSplitLines(text);
    r
  }

  /** A replacement keeps every line free of line feeds. */
  lemma ReplacedValid(lines: seq<string>, s: nat, e: nat, text: string)
    requires s <= e < |lines|
    requires forall i :: 0 <= i < |lines| ==> NoLineFeed(lines[i])
    ensures |Replaced(lines, s, e, text)| >= 1
    ensures forall i :: 0 <= i < |Replaced(lines, s, e, text)| ==> NoLineFeed(Replaced(lines, s, e, text)[i])
  {
    var r := Replaced(lines, s, e, text);
    var n := |SplitLines(text)|;
    forall i | 0 <= i < |r|
      ensures NoLineFeed(r[i])
    {
      if i < s {
        assert r[i] == r[..s][i] == lines[i];
      } else if i < s + n {
        assert r[i] == SplitLines(text)[i - s];
      } else {
        assert r[i] == r[s + n..][i - s - n] == lines[e + 1 + (i - s - n)];
      }
    }
  }
}
