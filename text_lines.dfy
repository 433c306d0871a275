/** Text as a sequence of lines: joining lines with a separator and splitting a
    text at its line feeds. The document buffer and the parser both use these. */
module TextLines {

  /** string.Join(sep, lines). */
  function Join(lines: seq<string>, sep: string): (r: string)
    ensures lines == [] ==> r == ""
    ensures |lines| == 1 ==> r == lines[0]
  {
    if |lines| == 0 then ""
    else if |lines| == 1 then lines[0]
    else lines[0] + sep + Join(lines[1..], sep)
  }

  predicate NoLineFeed(s: string) {
    forall i :: 0 <= i < |s| ==> s[i] != '\n'
  }

  /** Index of the first line feed at or after `from`, or |s| when there is none. */
  function LineFeedFrom(s: string, from: nat): (k: nat)
    requires from <= |s|
    ensures from <= k <= |s|
    ensures forall i :: from <= i < k ==> s[i] != '\n'
    ensures k < |s| ==> s[k] == '\n'
    decreases |s| - from
  {
    if from == |s| || s[from] == '\n' then from else LineFeedFrom(s, from + 1)
  }

  /** The lines of a text: the pieces between its line feeds (always at least one). */
  function SplitLines(s: string): (r: seq<string>)
    ensures |r| >= 1
    ensures forall i :: 0 <= i < |r| ==> NoLineFeed(r[i])
    decreases |s|
  {
    var k := LineFeedFrom(s, 0);
    if k == |s| then [s] else [s[..k]] + SplitLines(s[k + 1..])
  }

  /** Splitting a text and joining the pieces again gives the text back. */
  lemma {:induction false} JoinSplitLines(s: string)
    ensures Join(SplitLines(s), "\n") == s
    decreases |s|
  {
    var k := LineFeedFrom(s, 0);
    if k < |s| {
      var rest := SplitLines(s[k + 1..]);
      JoinSplitLines(s[k + 1..]);
      assert SplitLines(s) == [s[..k]] + rest;
      assert s == s[..k] + "\n" + s[k + 1..];
    }
  }

  /** Joining lines that hold no line feed and splitting again gives the lines back. */
  lemma {:induction false} SplitJoinLines(lines: seq<string>)
    requires |lines| >= 1
    requires forall i :: 0 <= i < |lines| ==> NoLineFeed(lines[i])
    ensures SplitLines(Join(lines, "\n")) == lines
    decreases |lines|
  {
    var s := Join(lines, "\n");
    var k := LineFeedFrom(s, 0);
    if |lines| == 1 {
      assert k == |s|;
    } else {
      var rest := Join(lines[1..], "\n");
      assert s == lines[0] + "\n" + rest;
      assert s[|lines[0]|] == '\n';
      assert LineFeedFrom(s, 0) == |lines[0]| by {
        LineFeedAt(s, |lines[0]|);
      }
      assert s[..k] == lines[0];
      assert s[k + 1..] == rest;
      SplitJoinLines(lines[1..]);
    }
  }

  /** The first line feed of `s` is at `k` when `s[k]` is one and none comes before it. */
  lemma LineFeedAt(s: string, k: nat)
    requires k < |s| && s[k] == '\n'
    requires forall i :: 0 <= i < k ==> s[i] != '\n'
    ensures LineFeedFrom(s, 0) == k
  {
  }

  /** A character that is not in the separator is in the joined text exactly
      when it is in one of the lines. */
  lemma {:induction false} JoinContains(lines: seq<string>, sep: string, c: char)
    requires c !in sep
    ensures c in Join(lines, sep) <==> exists i :: 0 <= i < |lines| && c in lines[i]
    decreases |lines|
  {
    if |lines| > 1 {
      JoinContains(lines[1..], sep, c);
      assert Join(lines, sep) == lines[0] + sep + Join(lines[1..], sep);
      if i :| 0 < i < |lines| && c in lines[i] {
        assert lines[1..][i - 1] == lines[i];
      }
      if i :| 0 <= i < |lines| - 1 && c in lines[1..][i] {
        assert lines[1..][i] == lines[i + 1];
      }
    }
  }
}
