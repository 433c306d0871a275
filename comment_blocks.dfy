/** The comment-block locator that the searcher and the reader share: how one
    line is classified, how an expansion walks up or down from a line, how the
    two directions make a block, and how a range of lines is scanned for the
    first block. Each operation is a function on the document's lines here;
    the methods at the end run the same steps as loops over a `TextDocument`
    and are proved to compute these functions. */
module CommentBlocks {
  import opened Wrappers
  import opened CodeCommentHelper
  import opened CommentLineRegex
  import opened TextDocument
  import opened CommentLocation

  // ------------------------------------------------------------ one line

  /** char.IsWhiteSpace, for the characters below U+0100. */
  predicate IsWhiteSpace(c: char) {
    c == ' ' || ('\t' <= c <= '\r') || c == '\U{85}' || c == '\U{A0}'
  }

  /** string.TrimStart(): the text after its leading white space. The search
      only trims prefix groups, which start with '/', '#' or '\'' (see
      TrimStartOfPrefixWord), so the white space above U+0100 that IsWhiteSpace
      leaves out never changes a result. */
  function TrimStart(s: string): (r: string)
    ensures |r| <= |s| && r == s[|s| - |r|..]
    ensures forall i :: 0 <= i < |s| - |r| ==> IsWhiteSpace(s[i])
    ensures r == [] || !IsWhiteSpace(r[0])
  {
    if s != [] && IsWhiteSpace(s[0]) then TrimStart(s[1..]) else s
  }

  /** A prefix group starts with '/', '#' or '\'', so trimming it changes nothing. */
  lemma TrimStartOfPrefixWord(p: PrefixPattern, s: string)
    requires IsPrefixWord(p, s)
    ensures TrimStart(s) == s
  {
    assert s[0] == PrefixChar(p);
  }

  /** What the expansion learns from matching one line: not a comment line,
      or a comment line with its (trimmed) prefix and whether the initial
      spacer group matched. */
  datatype LineKind = NotComment | Comment(prefix: string, hasSpacer: bool)

  function Classify(re: CommentLineRegex, line: string): (k: LineKind)
    ensures k.NotComment? <==> Match(re, line).None?
  {
    match Match(re, line)
    case None => NotComment
    case Some(m) => Comment(TrimStart(m.prefix), m.initialSpacer.Some?)
  }

  /** On a line without CR or LF: the line is a comment line exactly when its
      first non-blank characters begin a prefix; the prefix is then the longest
      one there, and the spacer is present exactly when a blank follows it. */
  lemma ClassifyLine(re: CommentLineRegex, line: string)
    requires NoLineBreak(line)
    ensures var q := RunEnd(line, 0, Blank);
      match LongestPrefixEnd(re.prefix, line, q)
      case None => Classify(re, line) == NotComment
      case Some(r) => Classify(re, line) == Comment(line[q..r], r < |line| && InClass(Blank, line[r]))
  {
    SingleLineMatch(re, line);
    var q := RunEnd(line, 0, Blank);
    var pre := LongestPrefixEnd(re.prefix, line, q);
    if pre.Some? {
      var r := pre.value;
      assert AcceptsPrefix(re.prefix, line, q, r);
      var s := line[q..r];
      assert forall i :: 0 <= i < |s| ==> s[i] == line[q + i];
      TrimStartOfPrefixWord(re.prefix, s);
    }
  }

  /** The classification of every line of a document. The locator only ever
      looks at a line through its classification. */
  function LineKinds(re: CommentLineRegex, lines: seq<string>): (r: seq<LineKind>)
    ensures |r| == |lines|
    ensures forall i {:trigger r[i]} :: 0 <= i < |lines| ==> r[i] == Classify(re, lines[i])
  {
    seq(|lines|, i requires 0 <= i < |lines| => Classify(re, lines[i]))
  }

  /** The line belongs to a block with prefix `p`: it matches with that
      prefix and has the initial spacer. */
  predicate BlockLine(k: LineKind, p: string) {
    k == Comment(p, true)
  }

  /** The line matches with prefix `p`, spacer or not. */
  predicate SamePrefix(k: LineKind, p: string) {
    k.Comment? && k.prefix == p
  }

  // ------------------------------------------------------- one direction

  /** The line `k` steps from `c` in direction `dir`. */
  function Offset(c: nat, k: nat, dir: Direction): int {
    if dir == Down then c + k else c - k
  }

  predicate InDoc(kinds: seq<LineKind>, i: int) {
    0 <= i < |kinds|
  }

  function Remaining(lineCount: nat, c: nat, dir: Direction): nat
    requires c < lineCount
  {
    if dir == Up then c else lineCount - c
  }

  /** The do-while loop of the directional Expand, from line `c` on, with the
      prefix fixed so far (none before the first line) and the last line
      accepted so far. */
  function ExpandFrom(kinds: seq<LineKind>, c: nat, dir: Direction,
                      prefix: Option<string>, result: Option<nat>): (r: Option<nat>)
    requires c < |kinds|
    ensures r.Some? ==> r == result || r.value < |kinds|
    decreases Remaining(|kinds|, c, dir)
  {
    match kinds[c]
    case NotComment => result
    case Comment(p, spacer) =>
      if prefix.Some? && prefix.value != p then result
      else if !spacer then None
      else
        var next := MoveLine(|kinds|, c, dir);
        if next == c then Some(c) else ExpandFrom(kinds, next, dir, Some(p), Some(c))
  }

  /** The directional Expand: the last line of the block in direction `dir`,
      or None when there is no formattable comment on `start`. */
  function ExpandDirection(kinds: seq<LineKind>, start: nat, dir: Direction): (r: Option<nat>)
    requires start < |kinds|
    ensures r.Some? ==> r.value < |kinds|
  {
    ExpandFrom(kinds, start, dir, None, None)
  }

  /** How many lines, from `c` on in direction `dir`, are block lines with prefix `p`. */
  function RunLength(kinds: seq<LineKind>, c: nat, dir: Direction, p: string): (n: nat)
    requires c < |kinds|
    ensures forall k :: 0 <= k < n ==> InDoc(kinds, Offset(c, k, dir)) && BlockLine(kinds[Offset(c, k, dir)], p)
    ensures InDoc(kinds, Offset(c, n, dir)) ==> !BlockLine(kinds[Offset(c, n, dir)], p)
    decreases Remaining(|kinds|, c, dir)
  {
    if !BlockLine(kinds[c], p) then 0
    else
      var next := MoveLine(|kinds|, c, dir);
      if next == c then 1
      else
        var n := 1 + RunLength(kinds, next, dir, p);
        assert forall k :: 1 <= k < n ==> Offset(c, k, dir) == Offset(next, k - 1, dir);
        assert Offset(c, n, dir) == Offset(next, n - 1, dir);
        n
  }

  /** The line after the run is a same-prefix line without the spacer: this
      voids the expansion. */
  predicate VoidsAfterRun(kinds: seq<LineKind>, c: nat, dir: Direction, p: string)
    requires c < |kinds|
  {
    var after := Offset(c, RunLength(kinds, c, dir, p), dir);
    InDoc(kinds, after) && kinds[after] == Comment(p, false)
  }

  /** A reference for the directional expansion written with the run length:
      no block when `start` is not a comment line, when `start` itself lacks
      the spacer, or when the run of block lines ends at a same-prefix line
      without it; otherwise the block ends at the run's last line. */
  function DirectionReference(kinds: seq<LineKind>, start: nat, dir: Direction): Option<nat>
    requires start < |kinds|
  {
    match kinds[start]
    case NotComment => None
    case Comment(p, _) =>
      var n := RunLength(kinds, start, dir, p);
      if n == 0 || VoidsAfterRun(kinds, start, dir, p) then None
      else Some(Offset(start, n - 1, dir) as nat)
  }

  /** The loop from a line on, once the prefix is fixed, follows the run. */
  lemma {:induction false} ExpandFromFollowsRun(kinds: seq<LineKind>, c: nat, dir: Direction,
                                                p: string, result: Option<nat>)
    requires c < |kinds|
    ensures ExpandFrom(kinds, c, dir, Some(p), result) ==
      var n := RunLength(kinds, c, dir, p);
      if VoidsAfterRun(kinds, c, dir, p) then None
      else if n == 0 then result
      else Some(Offset(c, n - 1, dir) as nat)
    decreases Remaining(|kinds|, c, dir)
  {
    var n := RunLength(kinds, c, dir, p);
    if BlockLine(kinds[c], p) {
      var next := MoveLine(|kinds|, c, dir);
      if next != c {
        ExpandFromFollowsRun(kinds, next, dir, p, Some(c));
        var m := RunLength(kinds, next, dir, p);
        assert n == 1 + m;
        assert Offset(c, n, dir) == Offset(next, m, dir);
        assert m > 0 ==> Offset(c, n - 1, dir) == Offset(next, m - 1, dir);
      } else {
        assert n == 1;
        assert !InDoc(kinds, Offset(c, 1, dir));
      }
    } else {
      assert n == 0 && Offset(c, 0, dir) == c;
    }
  }

  /** The directional Expand is its run-length reference. */
  lemma ExpandDirectionIsReference(kinds: seq<LineKind>, start: nat, dir: Direction)
    requires start < |kinds|
    ensures ExpandDirection(kinds, start, dir) == DirectionReference(kinds, start, dir)
  {
    match kinds[start]
    case NotComment =>
    case Comment(p, spacer) =>
      ExpandFromFollowsRun(kinds, start, dir, p, None);
      assert ExpandFrom(kinds, start, dir, None, None) == ExpandFrom(kinds, start, dir, Some(p), None);
  }

  /** The run length of a run marked out explicitly: `m` block lines, then the
      edge of the document or a line that is not a block line. */
  lemma RunLengthOfRun(kinds: seq<LineKind>, c: nat, dir: Direction, p: string, m: nat)
    requires c < |kinds|
    requires forall k :: 0 <= k < m ==> InDoc(kinds, Offset(c, k, dir)) && BlockLine(kinds[Offset(c, k, dir)], p)
    requires InDoc(kinds, Offset(c, m, dir)) ==> !BlockLine(kinds[Offset(c, m, dir)], p)
    ensures RunLength(kinds, c, dir, p) == m
  {
  }

  // -------------------------------------------------------------- a block

  /** Expand(EditPoint): the first and last line of the block through `line`,
      when both directions find one. */
  function ExpandBlock(kinds: seq<LineKind>, line: nat): (r: Option<(nat, nat)>)
    requires line < |kinds|
    ensures r.Some? ==> r.value.0 <= line <= r.value.1 < |kinds|
  {
    match ExpandDirection(kinds, line, Up)
    case None => None
    case Some(s) =>
      match ExpandDirection(kinds, line, Down)
      case None => None
      case Some(e) =>
        ExpandDirectionIsReference(kinds, line, Up);
        ExpandDirectionIsReference(kinds, line, Down);
        Some((s, e))
  }

  /** Lines `s` to `e` form a block with prefix `p`: every one is a block line,
      and the lines just outside are missing or do not have that prefix. */
  predicate IsBlock(kinds: seq<LineKind>, s: nat, e: nat, p: string) {
    && s <= e < |kinds|
    && (forall i :: s <= i <= e ==> BlockLine(kinds[i], p))
    && (s > 0 ==> !SamePrefix(kinds[s - 1], p))
    && (e + 1 < |kinds| ==> !SamePrefix(kinds[e + 1], p))
  }

  /** What the loop of one direction finds: from a block line of prefix `p`
      the run of block lines up to the edge or a line with another prefix. */
  lemma DirectionShape(kinds: seq<LineKind>, line: nat, dir: Direction, x: nat)
    requires line < |kinds| && ExpandDirection(kinds, line, dir) == Some(x)
    ensures kinds[line].Comment?
    ensures var p := kinds[line].prefix;
      && BlockLine(kinds[line], p)
      && (dir == Up ==> x <= line && (forall i :: x <= i <= line ==> BlockLine(kinds[i], p))
                        && (x > 0 ==> !SamePrefix(kinds[x - 1], p)))
      && (dir == Down ==> line <= x && (forall i :: line <= i <= x ==> BlockLine(kinds[i], p))
                          && (x + 1 < |kinds| ==> !SamePrefix(kinds[x + 1], p)))
  {
    ExpandDirectionIsReference(kinds, line, dir);
    var p := kinds[line].prefix;
    var n := RunLength(kinds, line, dir, p);
    assert Offset(line, 0, dir) == line;
    if dir == Up {
      forall i | x <= i <= line
        ensures BlockLine(kinds[i], p)
      {
        assert Offset(line, line - i, dir) == i;
      }
      assert Offset(line, n, dir) == x - 1;
    } else {
      forall i | line <= i <= x
        ensures BlockLine(kinds[i], p)
      {
        assert Offset(line, i - line, dir) == i;
      }
      assert Offset(line, n, dir) == x + 1;
    }
  }

  /** Every block Expand returns contains the starting line, all its lines are
      block lines with the starting line's prefix, and it cannot be extended:
      the line above and the line below, where they exist, have another
      prefix or are not comment lines. */
  lemma ExpandBlockIsBlock(kinds: seq<LineKind>, line: nat)
    requires line < |kinds| && ExpandBlock(kinds, line).Some?
    ensures var (s, e) := ExpandBlock(kinds, line).value;
      && kinds[line].Comment?
      && IsBlock(kinds, s, e, kinds[line].prefix)
  {
    var (s, e) := ExpandBlock(kinds, line).value;
    DirectionShape(kinds, line, Up, s);
    DirectionShape(kinds, line, Down, e);
  }

  /** Conversely, from any line of a block Expand returns that block. */
  lemma BlockFromAnyLine(kinds: seq<LineKind>, s: nat, e: nat, p: string, line: nat)
    requires IsBlock(kinds, s, e, p) && s <= line <= e
    ensures ExpandBlock(kinds, line) == Some((s, e))
  {
    ExpandDirectionIsReference(kinds, line, Up);
    ExpandDirectionIsReference(kinds, line, Down);
    assert BlockLine(kinds[line], p);
    forall k | 0 <= k < line - s + 1
      ensures InDoc(kinds, Offset(line, k, Up)) && BlockLine(kinds[Offset(line, k, Up)], p)
    {
      assert Offset(line, k, Up) == line - k;
    }
    assert Offset(line, line - s + 1, Up) == s - 1;
    RunLengthOfRun(kinds, line, Up, p, line - s + 1);
    forall k | 0 <= k < e - line + 1
      ensures InDoc(kinds, Offset(line, k, Down)) && BlockLine(kinds[Offset(line, k, Down)], p)
    {
      assert Offset(line, k, Down) == line + k;
    }
    assert Offset(line, e - line + 1, Down) == e + 1;
    RunLengthOfRun(kinds, line, Down, p, e - line + 1);
  }

  /** Expand finds nothing on a line exactly when the line is not a block
      line, or walking up or down through the block lines of its prefix ends
      at a same-prefix line without the spacer (taken for commented-out code). */
  lemma ExpandBlockNone(kinds: seq<LineKind>, line: nat)
    requires line < |kinds|
    ensures ExpandBlock(kinds, line).None? <==>
      match kinds[line]
      case NotComment => true
      case Comment(p, spacer) =>
        !spacer || VoidsAfterRun(kinds, line, Up, p) || VoidsAfterRun(kinds, line, Down, p)
  {
    ExpandDirectionIsReference(kinds, line, Up);
    ExpandDirectionIsReference(kinds, line, Down);
    assert Offset(line, 0, Up) == line && Offset(line, 0, Down) == line;
  }

  // ---------------------------------------------------------- the scan

  /** The loop of Find from line `line` on: the first line, no later than
      `endLine`, from which Expand finds a block, and the line the caller's
      start point is left on. LineDown on the last line cannot move, and that
      ends the scan. */
  function ScanFrom(kinds: seq<LineKind>, line: nat, endLine: nat): (r: (Option<(nat, nat)>, nat))
    requires line < |kinds| && endLine < |kinds|
    ensures r.1 < |kinds| && (line <= endLine ==> line <= r.1 <= endLine + 1) && (line > endLine ==> r.1 == line)
    ensures r.0.Some? ==> line <= r.1 <= endLine
    ensures r.0.Some? ==> r.0.value.0 <= r.1 <= r.0.value.1 < |kinds|
    decreases |kinds| - line
  {
    if line > endLine then (None, line)
    else
      match ExpandBlock(kinds, line)
      case Some(b) => (Some(b), line)
      case None =>
        var next := MoveLine(|kinds|, line, Down);
        if next == line then (None, line) else ScanFrom(kinds, next, endLine)
  }

  /** The scan stops at the first line from which Expand finds a block, and
      the block is the one Expand finds there; when it finds none, Expand
      finds nothing from any line of the range. */
  lemma {:induction false} ScanFromFindsFirstBlock(kinds: seq<LineKind>, line: nat, endLine: nat)
    requires line < |kinds| && endLine < |kinds|
    ensures var r := ScanFrom(kinds, line, endLine);
      && (r.0.Some? ==> r.0 == ExpandBlock(kinds, r.1))
      && (forall j :: line <= j < r.1 ==> ExpandBlock(kinds, j).None?)
      && (r.0.None? ==> forall j :: line <= j <= endLine ==> ExpandBlock(kinds, j).None?)
    decreases |kinds| - line
  {
    if line <= endLine && ExpandBlock(kinds, line).None? {
      var next := MoveLine(|kinds|, line, Down);
      if next != line {
        ScanFromFindsFirstBlock(kinds, next, endLine);
      }
    }
  }

  /** The location Expand returns for a block: its start snapped to the start
      of its first line and its end to the end of its last line. */
  function BlockLocation(doc: TextDocument, lines: seq<string>, block: Option<(nat, nat)>, lang: CodeLanguage): (r: Location)
    requires block.Some? ==> block.value.1 < |lines|
    ensures r.valid <==> block.Some?
    ensures block.None? ==> r == NoLocation()
    ensures block.Some? ==> var (s, e) := block.value;
      r.startPoint == Some(EditPoint(doc, s, 0)) && r.endPoint == Some(EditPoint(doc, e, |lines[e]|))
      && r.codeLanguage == lang
  {
    match block
    case None => NoLocation()
    case Some((s, e)) => NewLocation(Some(EditPoint(doc, s, 0)), Some(EditPoint(doc, e, |lines[e]|)), lang)
  }

  /** A block is found exactly when both directions find an end, and it
      spans from the upper end to the lower one. */
  lemma ExpandBlockParts(kinds: seq<LineKind>, line: nat)
    requires line < |kinds|
    ensures ExpandBlock(kinds, line).Some? <==>
      ExpandDirection(kinds, line, Up).Some? && ExpandDirection(kinds, line, Down).Some?
    ensures ExpandBlock(kinds, line).Some? ==>
      ExpandBlock(kinds, line).value == (ExpandDirection(kinds, line, Up).value, ExpandDirection(kinds, line, Down).value)
  {
  }

  // --------------------------------------------------- the loops themselves

  function LineOf(p: Option<EditPoint>): Option<nat> {
    match p
    case None => None
    case Some(q) => Some(q.line)
  }

  /** Expand(TextPoint, Action): the do-while loop, moving a copy of `point`
      line by line in direction `dir`. */
  method ExpandPoint(doc: TextDocument, re: CommentLineRegex, point: EditPoint, dir: Direction)
    returns (result: Option<EditPoint>)
    requires point.parent == doc && point.line < |doc.lines|
    ensures LineOf(result) == ExpandDirection(LineKinds(re, doc.lines), point.line, dir)
    ensures result.Some? ==> result.value.parent == doc && result.value.col == point.col
  {
    ghost var kinds := LineKinds(re, doc.lines);
    var current: Option<EditPoint> := Some(point);
    result := None;
    var prefix: Option<string> := None;
    while current.Some?
      invariant current.Some? ==> current.value.parent == doc && current.value.line < |doc.lines|
      invariant current.Some? ==> current.value.col == point.col
      invariant result.Some? ==> result.value.parent == doc && result.value.col == point.col
      invariant current.Some? ==>
        ExpandDirection(kinds, point.line, dir) ==
        ExpandFrom(kinds, current.value.line, dir, prefix, LineOf(result))
      invariant current.None? ==> ExpandDirection(kinds, point.line, dir) == LineOf(result)
      decreases if current.Some? then 1 + Remaining(|doc.lines|, current.value.line, dir) else 0
    {
      var c := current.value;
      var text := doc.lines[c.line];
      var m := Match(re, text);
      assert kinds[c.line] == Classify(re, text);
      if m.Some? {
        var currentPrefix := TrimStart(m.value.prefix);
        if prefix.Some? && prefix.value != currentPrefix {
          break;
        }
        prefix := Some(currentPrefix);
        if m.value.initialSpacer.Some? {
          result := Some(c);
          var moved := EditPoint(doc, MoveLine(|doc.lines|, c.line, dir), c.col);
          if moved.line == c.line {
            break;
          }
          current := Some(moved);
        } else {
          result := None;
          current := None;
        }
      } else {
        current := None;
      }
    }
  }

  /** Expand(EditPoint): both directions, then the snap to whole lines. */
  method ExpandAt(doc: TextDocument, re: CommentLineRegex, lang: CodeLanguage, point: EditPoint)
    returns (loc: Location)
    requires point.parent == doc && point.line < |doc.lines|
    ensures loc == BlockLocation(doc, doc.lines, ExpandBlock(LineKinds(re, doc.lines), point.line), lang)
  {
    ghost var kinds := LineKinds(re, doc.lines);
    var startPoint := ExpandPoint(doc, re, point, Up);
    if startPoint.None? {
      ExpandBlockParts(kinds, point.line);
      return NoLocation();
    }
    var endPoint := ExpandPoint(doc, re, point, Down);
    if endPoint.None? {
      ExpandBlockParts(kinds, point.line);
      return NoLocation();
    }
    ExpandBlockParts(kinds, point.line);
    var first := EditPoint(doc, startPoint.value.line, 0);
    var last := EditPoint(doc, endPoint.value.line, |doc.lines[endPoint.value.line]|);
    loc := NewLocation(Some(first), Some(last), lang);
  }

  /** The loop of Find: expand at each line from the start point's down to
      the end line; the start point is the caller's and is left where the
      scan stopped, which `cursor` returns. */
  method ScanRange(doc: TextDocument, re: CommentLineRegex, lang: CodeLanguage, startPoint: EditPoint, endLine: nat)
    returns (loc: Location, cursor: EditPoint)
    requires startPoint.parent == doc && startPoint.line < |doc.lines| && endLine < |doc.lines|
    ensures var (block, last) := ScanFrom(LineKinds(re, doc.lines), startPoint.line, endLine);
      loc == BlockLocation(doc, doc.lines, block, lang) && cursor == EditPoint(doc, last, startPoint.col)
  {
    ghost var kinds := LineKinds(re, doc.lines);
    cursor := startPoint;
    while cursor.line <= endLine
      invariant cursor.parent == doc && cursor.line < |doc.lines| && cursor.col == startPoint.col
      invariant ScanFrom(kinds, startPoint.line, endLine) == ScanFrom(kinds, cursor.line, endLine)
      decreases |doc.lines| - cursor.line
    {
      loc := ExpandAt(doc, re, lang, cursor);
      if loc.valid {
        return;
      }
      var moved := MoveLine(|doc.lines|, cursor.line, Down);
      var atEnd := moved == cursor.line;
      cursor := EditPoint(doc, moved, cursor.col);
      if atEnd {
        break;
      }
    }
    loc := NoLocation();
  }

  // ------------------------------------------------------------- Find

  /** Why Find raises instead of returning a location. */
  datatype SearchError =
    | CrossDocumentRange
    | UnsupportedLanguage(error: HelperError)
      /** The cached regex is null: the first Find on a document whose
          language is the cache's initial `Unknown` never looks one up. */
    | NullRegex

  /** The regex cache of Find: the lookup happens only when the document's
      language differs from the cached one, and the language is stored before
      the lookup, so a failed lookup leaves the previous regex in place. */
  function Lookup(cachedLanguage: CodeLanguage, cachedRegex: Option<CommentLineRegex>, language: CodeLanguage)
    : (r: (CodeLanguage, Option<CommentLineRegex>, Option<SearchError>))
    ensures r.0 == language
    ensures cachedLanguage == language ==> r.1 == cachedRegex && r.2 == None
    ensures cachedLanguage != language && GetCommentLineRegex(language).Ok? ==>
      r.1 == Some(GetCommentLineRegex(language).value) && r.2 == None
    ensures cachedLanguage != language && GetCommentLineRegex(language).Err? ==>
      r.1 == cachedRegex && r.2 == Some(UnsupportedLanguage(GetCommentLineRegex(language).error))
  {
    if cachedLanguage == language then (cachedLanguage, cachedRegex, None)
    else
      match GetCommentLineRegex(language)
      case Ok(re) => (language, Some(re), None)
      case Err(e) => (language, cachedRegex, Some(UnsupportedLanguage(e)))
  }

  /** The cache holds the regex of its language, or nothing when that
      language has none. */
  predicate Coherent(cachedLanguage: CodeLanguage, cachedRegex: Option<CommentLineRegex>) {
    match GetCommentLineRegex(cachedLanguage)
    case Ok(re) => cachedRegex == Some(re)
    case Err(_) => cachedRegex.None?
  }

  /** A coherent cache stays coherent through a lookup that succeeds, and the
      regex it then holds is the language's. */
  lemma LookupKeepsCoherence(cachedLanguage: CodeLanguage, cachedRegex: Option<CommentLineRegex>, language: CodeLanguage)
    requires Coherent(cachedLanguage, cachedRegex)
    ensures var (l, re, err) := Lookup(cachedLanguage, cachedRegex, language);
      err.None? ==> Coherent(l, re) && (GetCommentLineRegex(language).Ok? <==> re.Some?)
  {
  }

  /** A fresh cache (language Unknown, no regex) is coherent. */
  lemma InitialCacheCoherent()
    ensures Coherent(Unknown, None)
  {
  }

  /** The cache goes stale after a failed lookup: a document in a language
      without a prefix, searched after a C# one, keeps the C# regex, and the
      next search in that language reuses it instead of failing. */
  lemma StaleRegexAfterFailedLookup(other: string)
    ensures var (l1, re1, _) := Lookup(Unknown, None, CSharp);
      var (l2, re2, err2) := Lookup(l1, re1, OtherLanguage(other));
      var (l3, re3, err3) := Lookup(l2, re2, OtherLanguage(other));
      && err2 == Some(UnsupportedLanguage(NoCommentPrefix(OtherLanguage(other))))
      && !Coherent(l2, re2)
      && err3.None? && re3 == Some(CommentLineRegex(SlashPrefix))
  {
  }

  /** What Find returns once the cache is settled: no scan at all when the
      start line is past the end line; a null regex fails at the first line
      scanned; otherwise the first block of the scan. The second component is
      where the caller's start point is left. */
  function SearchResult(doc: TextDocument, lines: seq<string>, regex: Option<CommentLineRegex>, lang: CodeLanguage,
                        startPoint: EditPoint, endLine: nat): (r: (Result<Location, SearchError>, EditPoint))
    requires startPoint.line < |lines| && endLine < |lines|
    ensures startPoint.line > endLine ==> r == (Ok(NoLocation()), startPoint)
    ensures r.0.Err? ==> r.0 == Err(NullRegex) && regex.None? && r.1 == startPoint
  {
    if startPoint.line > endLine then (Ok(NoLocation()), startPoint)
    else
      match regex
      case None => (Err(NullRegex), startPoint)
      case Some(re) =>
        var (block, last) := ScanFrom(LineKinds(re, lines), startPoint.line, endLine);
        (Ok(BlockLocation(doc, lines, block, lang)), EditPoint(startPoint.parent, last, startPoint.col))
  }

  /** Find, on the cache passed in and handed back: the same-document check,
      the cache refresh, then the scan. */
  method FindWith(cachedLanguage: CodeLanguage, cachedRegex: Option<CommentLineRegex>,
                  startPoint: EditPoint, endPoint: EditPoint)
    returns (language: CodeLanguage, regex: Option<CommentLineRegex>,
             r: Result<Location, SearchError>, cursor: EditPoint)
    requires startPoint.line < |startPoint.parent.lines| && endPoint.line < |endPoint.parent.lines|
    ensures startPoint.parent != endPoint.parent ==>
      r == Err(CrossDocumentRange) && language == cachedLanguage && regex == cachedRegex && cursor == startPoint
    ensures startPoint.parent == endPoint.parent ==>
      var doc := startPoint.parent;
      var (l, re, err) := Lookup(cachedLanguage, cachedRegex, doc.language);
      && language == l && regex == re
      && (err.Some? ==> r == Err(err.value) && cursor == startPoint)
      && (err.None? ==> (r, cursor) == SearchResult(doc, doc.lines, re, l, startPoint, endPoint.line))
  {
    if startPoint.parent != endPoint.parent {
      return cachedLanguage, cachedRegex, Err(CrossDocumentRange), startPoint;
    }
    var doc := startPoint.parent;
    language, regex := cachedLanguage, cachedRegex;
    if language != doc.language {
      language := doc.language;
      var lookedUp := GetCommentLineRegex(language);
      if lookedUp.Err? {
        return language, regex, Err(UnsupportedLanguage(lookedUp.error)), startPoint;
      }
      regex := Some(lookedUp.value);
    }
    if startPoint.line > endPoint.line {
      return language, regex, Ok(NoLocation()), startPoint;
    }
    if regex.None? {
      return language, regex, Err(NullRegex), startPoint;
    }
    var loc;
    loc, cursor := ScanRange(doc, regex.value, language, startPoint, endPoint.line);
    r := Ok(loc);
  }
}
