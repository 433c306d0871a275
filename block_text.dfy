/** The text of a located block as the parser sees it: the block's lines
    joined by line feeds. The locator matches the comment-line regex against
    each line on its own; the parser runs Regex.Matches over the joined text.
    Every line of a block is a comment line with its initial spacer, so the
    joined text gives one match per line, with the groups the line gives on
    its own, and Parse succeeds. */
module BlockText {
  import opened Wrappers
  import opened TextLines
  import opened CodeCommentHelper
  import opened CommentLineRegex
  import opened CommentBlocks
  import opened CodeComment
  import opened CodeCommentParser

  // ---------------------------------------------------------------- one line inside a text

  /** `line` stands at `d` in `text`, and after it the text ends or goes on
      with a line feed and a character that is not a line feed. */
  predicate Window(text: string, d: nat, line: string) {
    && d + |line| <= |text| && (forall k {:trigger line[k]} :: 0 <= k < |line| ==> text[d + k] == line[k])
    && (d + |line| < |text| ==> d + |line| + 1 < |text| && text[d + |line|] == '\n' && text[d + |line| + 1] != '\n')
  }

  lemma CharInWindow(text: string, d: nat, line: string, k: nat)
    requires Window(text, d, line) && k < |line|
    ensures text[d + k] == line[k]
  {
  }

  /** A run inside the window ends where it ends in the line: a line feed
      belongs to no class. */
  lemma RunEndInWindow(text: string, d: nat, line: string, k: nat, cls: CharClass)
    requires Window(text, d, line) && NoLineFeed(line) && k <= |line|
    ensures RunEnd(text, d + k, cls) == d + RunEnd(line, k, cls)
  {
    var e := RunEnd(line, k, cls);
    forall j | d + k <= j < d + e ensures InClass(cls, text[j]) {
      CharInWindow(text, d, line, j - d);
    }
    if d + e < |text| && e < |line| {
      CharInWindow(text, d, line, e);
    }
    RunEndUnique(text, d + k, d + e, cls);
  }

  /** Inside a line without line feeds `\n?$` holds only at its end; there the
      window's text keeps the line feed out of the match. */
  lemma NewlineEndInWindow(text: string, d: nat, line: string, u: nat)
    requires Window(text, d, line) && NoLineFeed(line) && u <= |line|
    ensures NewlineEnd(line, u) == (if u == |line| then Some(u) else None)
    ensures NewlineEnd(text, d + u) == (if u == |line| then Some(d + u) else None)
  {
    if u < |line| {
      CharInWindow(text, d, line, u);
    }
  }

  // ---------------------------------------------------------------- the match of one line

  /** The match of a comment line standing alone, moved to `d`. */
  function MovedTo(m: LineMatch, d: nat): LineMatch {
    LineMatch(d, m.indent, m.prefix, m.initialSpacer, m.line, d + m.end)
  }

  /** A comment line with its initial spacer, inside the window, is matched
      in the text as it is on its own; the match ends at the line's end. */
  lemma MatchAtInWindow(re: CommentLineRegex, text: string, d: nat, line: string)
    requires Window(text, d, line) && NoLineFeed(line) && AtLineStart(text, d)
    requires MatchAt(re, line, 0).Some? && MatchAt(re, line, 0).value.initialSpacer.Some?
    ensures MatchAt(re, line, 0).value.end == |line|
    ensures MatchAt(re, text, d) == Some(MovedTo(MatchAt(re, line, 0).value, d))
  {
    var q, r, c := LineParts(re, line);
    TextParts(re, text, d, line, q, r, c);
    MovedParts(line, q, r, c, d);
  }

  lemma MovedParts(line: string, q: nat, r: nat, c: nat, d: nat)
    requires q <= r < c <= |line|
    ensures MovedTo(PartsMatch(line, q, r, c, 0), d) == PartsMatch(line, q, r, c, d)
  {
  }

  /** Where the indent, the prefix and the line group of a comment line with
      its spacer end: at `q`, at `r` (the spacer is `line[r]`) and at `c`;
      only carriage returns follow. */
  predicate LineShape(p: PrefixPattern, line: string, q: nat, r: nat, c: nat) {
    && q <= r < c <= |line|
    && q == RunEnd(line, 0, Blank) && LongestPrefixEnd(p, line, q) == Some(r)
    && IsSpacerChar(line[r])
    && c == RunEnd(line, r + 1, Content) && RunEnd(line, c, CarriageReturn) == |line|
  }

  /** The match those parts make, placed at `d`. */
  function PartsMatch(line: string, q: nat, r: nat, c: nat, d: nat): LineMatch
    requires q <= r < c <= |line|
  {
    LineMatch(d, line[0..q], line[q..r], Some(line[r]), line[r + 1..c], d + |line|)
  }

  /** The parts of a comment line's match when it has its spacer. */
  lemma LineParts(re: CommentLineRegex, line: string) returns (q: nat, r: nat, c: nat)
    requires NoLineFeed(line)
    requires MatchAt(re, line, 0).Some? && MatchAt(re, line, 0).value.initialSpacer.Some?
    ensures LineShape(re.prefix, line, q, r, c)
    ensures MatchAt(re, line, 0) == Some(PartsMatch(line, q, r, c, 0))
  {
    MatchAtParts(re, line, 0);
    q := RunEnd(line, 0, Blank);
    r := LongestPrefixEnd(re.prefix, line, q).value;
    SpacerOfLine(line, r);
    c := RunEnd(line, r + 1, Content);
  }

  /** An initial spacer in a line on its own: the line group runs to the
      first CR, and only CRs follow it up to the line's end. */
  lemma SpacerOfLine(line: string, r: nat)
    requires NoLineFeed(line) && r <= |line|
    requires SpacerTail(line, r).Some? && SpacerTail(line, r).value.spacer.Some?
    ensures r < |line| && IsSpacerChar(line[r])
    ensures var c := RunEnd(line, r + 1, Content);
      && RunEnd(line, c, CarriageReturn) == |line|
      && SpacerTail(line, r) == Some(Tail(Some(line[r]), r + 1, c, |line|))
  {
  }

  /** The same parts, found at `d` in the text. */
  lemma TextParts(re: CommentLineRegex, text: string, d: nat, line: string, q: nat, r: nat, c: nat)
    requires Window(text, d, line) && NoLineFeed(line) && AtLineStart(text, d)
    requires LineShape(re.prefix, line, q, r, c)
    ensures MatchAt(re, text, d) == Some(PartsMatch(line, q, r, c, d))
  {
    var q', r', c', n' := TextEnds(re, text, d, line, q, r, c);
    MatchFromEnds(re, text, d, q', r', c', n', line[r]);
    TextSlices(text, d, line, q, r, c, q', r', c');
    SameGroups(text, d, q', r', c', n', line[0..q], line[q..r], line[r], line[r + 1..c], MatchAt(re, text, d));
  }

  /** Where the groups of a match at `d` end: the indent at `q`, the prefix
      at `r`, then the spacer, the line group up to `c` and the tail up to `n`. */
  predicate EndsAt(re: CommentLineRegex, text: string, d: nat, q: nat, r: nat, c: nat, n: nat, spacer: char) {
    && d <= q <= r && r + 1 <= c <= n <= |text| && AtLineStart(text, d)
    && RunEnd(text, d, Blank) == q && LongestPrefixEnd(re.prefix, text, q) == Some(r)
    && SpacerTail(text, r) == Some(Tail(Some(spacer), r + 1, c, n))
  }

  /** What the groups of that match hold. */
  predicate HoldsAt(text: string, d: nat, q: nat, r: nat, c: nat, indent: string, prefix: string, group: string) {
    d <= q <= r && r + 1 <= c <= |text| && text[d..q] == indent && text[q..r] == prefix && text[r + 1..c] == group
  }

  /** The ends of the line's groups, moved to `d` in the text. */
  lemma TextEnds(re: CommentLineRegex, text: string, d: nat, line: string, q: nat, r: nat, c: nat)
      returns (q': nat, r': nat, c': nat, n': nat)
    requires Window(text, d, line) && NoLineFeed(line) && AtLineStart(text, d)
    requires LineShape(re.prefix, line, q, r, c)
    ensures q' == d + q && r' == d + r && c' == d + c && n' == d + |line|
    ensures EndsAt(re, text, d, q', r', c', n', line[r])
  {
    q', r', c', n' := d + q, d + r, d + c, d + |line|;
    TextHead(re.prefix, text, d, line, q, r, q', r');
    TextTail(text, d, line, r, c, r', c', n');
  }

  /** The match at `d`, put together from where its groups end. */
  lemma MatchFromEnds(re: CommentLineRegex, text: string, d: nat, q: nat, r: nat, c: nat, n: nat, spacer: char)
    requires EndsAt(re, text, d, q, r, c, n, spacer)
    ensures MatchAt(re, text, d) == Some(LineMatch(d, text[d..q], text[q..r], Some(spacer), text[r + 1..c], n))
  {
    MatchAtIs(re, text, d, q, r, Tail(Some(spacer), r + 1, c, n));
  }

  /** The same match, with its groups written as what they hold. */
  lemma SameGroups(text: string, d: nat, q: nat, r: nat, c: nat, n: nat,
                   indent: string, prefix: string, spacer: char, group: string, x: Option<LineMatch>)
    requires HoldsAt(text, d, q, r, c, indent, prefix, group)
    requires x == Some(LineMatch(d, text[d..q], text[q..r], Some(spacer), text[r + 1..c], n))
    ensures x == Some(LineMatch(d, indent, prefix, Some(spacer), group, n))
  {
  }

  /** The indent and the prefix, found at `d` in the text. */
  lemma TextHead(p: PrefixPattern, text: string, d: nat, line: string, q: nat, r: nat, q': nat, r': nat)
    requires Window(text, d, line) && NoLineFeed(line)
    requires q == RunEnd(line, 0, Blank) && LongestPrefixEnd(p, line, q) == Some(r)
    requires q' == d + q && r' == d + r
    ensures RunEnd(text, d, Blank) == q'
    ensures LongestPrefixEnd(p, text, q') == Some(r')
  {
    RunEndInWindow(text, d, line, 0, Blank);
    PrefixInWindow(p, text, d, line, q);
  }

  lemma TextSlices(text: string, d: nat, line: string, q: nat, r: nat, c: nat, q': nat, r': nat, c': nat)
    requires Window(text, d, line) && q <= r && r + 1 <= c <= |line|
    requires q' == d + q && r' == d + r && c' == d + c
    ensures HoldsAt(text, d, q', r', c', line[0..q], line[q..r], line[r + 1..c])
  {
    SliceInWindow(text, d, line, 0, q);
    SliceInWindow(text, d, line, q, r);
    SliceInWindow(text, d, line, r + 1, c);
  }

  /** The spacer and the line group after it, found in the text. */
  lemma TextTail(text: string, d: nat, line: string, r: nat, c: nat, r': nat, c': nat, n': nat)
    requires Window(text, d, line) && NoLineFeed(line)
    requires r < |line| && IsSpacerChar(line[r])
    requires c == RunEnd(line, r + 1, Content) && RunEnd(line, c, CarriageReturn) == |line|
    requires r' == d + r && c' == d + c && n' == d + |line|
    ensures SpacerTail(text, r') == Some(Tail(Some(line[r]), r' + 1, c', n'))
  {
    assert text[r'] == line[r] by { CharInWindow(text, d, line, r); }
    assert RunEnd(text, r' + 1, Content) == c' by { RunEndInWindow(text, d, line, r + 1, Content); }
    assert RunEnd(text, c', CarriageReturn) == n' by { RunEndInWindow(text, d, line, c, CarriageReturn); }
    assert NewlineEnd(text, n') == Some(n') by { NewlineEndInWindow(text, d, line, |line|); }
    TailAt(text, r', c', n');
  }

  /** The spacer alternative at `r`, given where its runs end. */
  lemma TailAt(text: string, r: nat, c: nat, u: nat)
    requires r < |text| && IsSpacerChar(text[r])
    requires r + 1 <= |text| && RunEnd(text, r + 1, Content) == c
    requires c <= |text| && RunEnd(text, c, CarriageReturn) == u
    requires u <= |text| && NewlineEnd(text, u) == Some(u)
    ensures SpacerTail(text, r) == Some(Tail(Some(text[r]), r + 1, c, u))
  {
  }

  /** What a match at `p` is made of. */
  lemma MatchAtParts(re: CommentLineRegex, text: string, p: nat)
    requires p <= |text| && MatchAt(re, text, p).Some?
    ensures AtLineStart(text, p)
    ensures var q := RunEnd(text, p, Blank);
      && LongestPrefixEnd(re.prefix, text, q).Some?
      && var r := LongestPrefixEnd(re.prefix, text, q).value;
      && SpacerTail(text, r).Some?
      && var tl := SpacerTail(text, r).value;
      MatchAt(re, text, p) == Some(LineMatch(p, text[p..q], text[q..r], tl.spacer, text[tl.lineStart..tl.lineEnd], tl.end))
  {
  }

  /** The match at `p` put together from its parts. */
  lemma MatchAtIs(re: CommentLineRegex, text: string, p: nat, q: nat, r: nat, tl: Tail)
    requires p <= |text| && AtLineStart(text, p) && q == RunEnd(text, p, Blank)
    requires LongestPrefixEnd(re.prefix, text, q) == Some(r) && SpacerTail(text, r) == Some(tl)
    ensures MatchAt(re, text, p) == Some(LineMatch(p, text[p..q], text[q..r], tl.spacer, text[tl.lineStart..tl.lineEnd], tl.end))
  {
  }

  lemma SliceInWindow(text: string, d: nat, line: string, a: nat, b: nat)
    requires Window(text, d, line) && a <= b <= |line|
    ensures text[d + a..d + b] == line[a..b]
  {
    forall k | 0 <= k < b - a ensures text[d + a..d + b][k] == line[a..b][k] {
      assert text[d + a..d + b][k] == text[d + a + k];
    }
  }

  lemma PrefixInWindow(p: PrefixPattern, text: string, d: nat, line: string, q: nat)
    requires Window(text, d, line) && NoLineFeed(line) && q <= |line|
    ensures var l := LongestPrefixEnd(p, line, q);
      LongestPrefixEnd(p, text, d + q) == if l.Some? then Some(d + l.value) else None
  {
    RunEndInWindow(text, d, line, q, PrefixRun(p));
  }

  /** The spacer alternative is taken when it can be. */
  lemma SpacerTaken(text: string, r: nat)
    requires r < |text| && IsSpacerChar(text[r]) && LineTail(text, r + 1).Some?
    ensures SpacerTail(text, r) == Some(Tail(Some(text[r]), r + 1, RunEnd(text, r + 1, Content), LineTail(text, r + 1).value))
  {
  }

  // ---------------------------------------------------------------- the joined text

  /** A comment line with its initial spacer, matched on its own. */
  predicate SpacedLine(re: CommentLineRegex, line: string) {
    NoLineFeed(line) && MatchAt(re, line, 0).Some? && MatchAt(re, line, 0).value.initialSpacer.Some?
  }

  /** Every line is a comment line with its spacer. */
  predicate AllSpaced(re: CommentLineRegex, ls: seq<string>)
    decreases |ls|
  {
    |ls| == 0 || (SpacedLine(re, ls[0]) && AllSpaced(re, ls[1..]))
  }

  lemma {:induction false} AllSpacedOf(re: CommentLineRegex, ls: seq<string>)
    requires forall i :: 0 <= i < |ls| ==> SpacedLine(re, ls[i])
    ensures AllSpaced(re, ls)
    decreases |ls|
  {
    if |ls| > 0 {
      forall i | 0 <= i < |ls| - 1
        ensures SpacedLine(re, ls[1..][i])
      {
        assert ls[1..][i] == ls[i + 1];
      }
      AllSpacedOf(re, ls[1..]);
    }
  }

  /** From `d` on, the text is the lines joined by line feeds. */
  predicate JoinedAt(text: string, d: nat, ls: seq<string>) {
    d <= |text| && text[d..] == Join(ls, "\n")
  }

  lemma SpacedLineNotEmpty(re: CommentLineRegex, line: string)
    requires SpacedLine(re, line)
    ensures |line| > 0 && line[0] != '\n' && line[|line| - 1] != '\n'
  {
  }

  /** A joined text begins with its first line. */
  lemma JoinHead(ls: seq<string>, sep: string)
    requires |ls| >= 1
    ensures |ls[0]| <= |Join(ls, sep)| && Join(ls, sep)[..|ls[0]|] == ls[0]
  {
    if |ls| > 1 {
      assert Join(ls, sep) == ls[0] + sep + Join(ls[1..], sep);
    }
  }

  /** The first line of a joined text stands in a window, and the rest of
      the text is the other lines joined. */
  lemma WindowOfJoin(re: CommentLineRegex, text: string, d: nat, ls: seq<string>)
    requires |ls| >= 1 && JoinedAt(text, d, ls) && AllSpaced(re, ls)
    ensures Window(text, d, ls[0])
    ensures |ls| == 1 ==> d + |ls[0]| == |text|
    ensures |ls| > 1 ==> d + |ls[0]| < |text| && text[d + |ls[0]|] == '\n' && JoinedAt(text, d + |ls[0]| + 1, ls[1..])
  {
    var j := Join(ls, "\n");
    var n := |ls[0]|;
    JoinHead(ls, "\n");
    forall k | 0 <= k < n
      ensures text[d + k] == ls[0][k]
    {
      assert text[d..][k] == j[k];
      assert j[..n][k] == j[k];
    }
    if |ls| > 1 {
      var rest := Join(ls[1..], "\n");
      assert j == ls[0] + "\n" + rest;
      assert ls[1..][0] == ls[1];
      SpacedLineNotEmpty(re, ls[1]);
      JoinHead(ls[1..], "\n");
      assert rest[..|ls[1]|][0] == rest[0];
      assert text[d + n] == j[n];
      assert text[d + n + 1] == j[n + 1] == rest[0];
      assert text[d + n + 1..] == rest by {
        assert text[d + n + 1..] == text[d..][n + 1..];
        assert j[n + 1..] == rest;
      }
    }
  }

  /** Matches from a position where the regex matches. */
  lemma MatchesAt(re: CommentLineRegex, text: string, p: nat, m: LineMatch)
    requires p <= |text| && MatchAt(re, text, p) == Some(m)
    ensures MatchesFrom(re, text, p) == [m] + MatchesFrom(re, text, m.end)
  {
    assert FirstMatchFrom(re, text, p) == Some(m);
  }

  /** Matches from a position where the regex does not match start one
      position later, or are none at the end of the text. */
  lemma MatchesPast(re: CommentLineRegex, text: string, p: nat)
    requires p <= |text| && MatchAt(re, text, p).None?
    ensures MatchesFrom(re, text, p) == if p == |text| then [] else MatchesFrom(re, text, p + 1)
  {
    if p < |text| {
      assert FirstMatchFrom(re, text, p) == FirstMatchFrom(re, text, p + 1);
    }
  }

  /** `m` is the match `line` gives on its own, moved to where `m` stands. */
  predicate AloneMatch(re: CommentLineRegex, line: string, m: LineMatch) {
    MatchAt(re, line, 0).Some? && MovedTo(MatchAt(re, line, 0).value, m.index) == m
  }

  /** The first line of a joined text gives the match at `d`, which ends at
      the line's end; then the text ends or the next line starts after a
      line feed. */
  lemma FirstLineOfJoin(re: CommentLineRegex, text: string, d: nat, ls: seq<string>) returns (m: LineMatch)
    requires |ls| >= 1 && JoinedAt(text, d, ls) && AtLineStart(text, d) && AllSpaced(re, ls)
    ensures AloneMatch(re, ls[0], m) && MatchAt(re, text, d) == Some(m)
    ensures m.end == d + |ls[0]| && 0 < m.end <= |text| && text[m.end - 1] != '\n'
    ensures |ls| == 1 ==> m.end == |text|
    ensures |ls| > 1 ==> m.end < |text| && JoinedAt(text, m.end + 1, ls[1..]) && AtLineStart(text, m.end + 1)
  {
    var n := |ls[0]|;
    WindowOfJoin(re, text, d, ls);
    MatchAtInWindow(re, text, d, ls[0]);
    m := MovedTo(MatchAt(re, ls[0], 0).value, d);
    SpacedLineNotEmpty(re, ls[0]);
    CharInWindow(text, d, ls[0], n - 1);
  }

  /** After a match that ends a line without taking its line feed, the
      matches go on after the line feed, or stop at the end of the text. */
  lemma MatchesStep(re: CommentLineRegex, text: string, d: nat, m: LineMatch)
    requires d <= |text| && MatchAt(re, text, d) == Some(m)
    requires 0 < m.end <= |text| && text[m.end - 1] != '\n'
    ensures m.end == |text| ==> MatchesFrom(re, text, d) == [m]
    ensures m.end < |text| ==> MatchesFrom(re, text, d) == [m] + MatchesFrom(re, text, m.end + 1)
  {
    MatchesAt(re, text, d, m);
    MatchesPast(re, text, m.end);
  }

  /** `rel` holds between the elements of `xs` and `ys` at each position. */
  predicate Paired<A, B>(rel: (A, B) -> bool, xs: seq<A>, ys: seq<B>) {
    |xs| == |ys| && forall i :: 0 <= i < |xs| ==> rel(xs[i], ys[i])
  }

  lemma PairedCons<A, B>(rel: (A, B) -> bool, x: A, xs: seq<A>, y: B, ys: seq<B>)
    requires rel(x, y) && Paired(rel, xs, ys)
    ensures Paired(rel, [x] + xs, [y] + ys)
  {
    forall i | 0 < i < |xs| + 1
      ensures rel(([x] + xs)[i], ([y] + ys)[i])
    {
      assert ([y] + ys)[i] == ys[i - 1];
      assert ([x] + xs)[i] == xs[i - 1];
    }
  }

  /** Each line paired with the match it gives on its own. */
  function AloneMatches(re: CommentLineRegex): (string, LineMatch) -> bool {
    (line, m) => AloneMatch(re, line, m)
  }

  /** From `d` on, the text is comment lines with their spacers joined by
      line feeds, starting at a line start. */
  predicate SpacedJoin(re: CommentLineRegex, text: string, d: nat, ls: seq<string>) {
    |ls| >= 1 && JoinedAt(text, d, ls) && AtLineStart(text, d) && AllSpaced(re, ls)
  }

  /** Regex.Matches from `d` over comment lines with their spacers, joined by
      line feeds: one match per line, each with the groups the line gives on
      its own. */
  lemma {:induction false} MatchesOfJoin(re: CommentLineRegex, text: string, d: nat, ls: seq<string>)
    requires SpacedJoin(re, text, d, ls)
    ensures Paired(AloneMatches(re), ls, MatchesFrom(re, text, d))
    decreases |ls|
  {
    var m, next := FirstAndRest(re, text, d, ls);
    if |ls| == 1 {
      ConsPaired(AloneMatches(re), ls, m, [], MatchesFrom(re, text, d));
    } else {
      MatchesOfJoin(re, text, next, ls[1..]);
      ConsPaired(AloneMatches(re), ls, m, MatchesFrom(re, text, next), MatchesFrom(re, text, d));
    }
  }

  /** Pairing a head and a tail pairs the whole sequence. */
  lemma ConsPaired<A, B>(rel: (A, B) -> bool, xs: seq<A>, y: B, ys: seq<B>, zs: seq<B>)
    requires |xs| >= 1 && rel(xs[0], y) && Paired(rel, xs[1..], ys) && zs == [y] + ys
    ensures Paired(rel, xs, zs)
  {
    assert xs == [xs[0]] + xs[1..];
    PairedCons(rel, xs[0], xs[1..], y, ys);
  }

  /** The first line's match, and where the other lines start. */
  lemma FirstAndRest(re: CommentLineRegex, text: string, d: nat, ls: seq<string>) returns (m: LineMatch, next: nat)
    requires SpacedJoin(re, text, d, ls)
    ensures AloneMatches(re)(ls[0], m)
    ensures |ls| == 1 ==> MatchesFrom(re, text, d) == [m] + []
    ensures |ls| > 1 ==> next <= |text| && SpacedJoin(re, text, next, ls[1..])
    ensures |ls| > 1 ==> MatchesFrom(re, text, d) == [m] + MatchesFrom(re, text, next)
  {
    m, next := FirstMatches(re, text, d, ls);
    if |ls| > 1 {
      SpacedTail(re, text, next, ls);
    }
  }

  /** The first line's match, and the matches after it. */
  lemma FirstMatches(re: CommentLineRegex, text: string, d: nat, ls: seq<string>) returns (m: LineMatch, next: nat)
    requires SpacedJoin(re, text, d, ls)
    ensures AloneMatches(re)(ls[0], m)
    ensures |ls| == 1 ==> MatchesFrom(re, text, d) == [m] + []
    ensures |ls| > 1 ==> next <= |text| && JoinedAt(text, next, ls[1..]) && AtLineStart(text, next)
    ensures |ls| > 1 ==> MatchesFrom(re, text, d) == [m] + MatchesFrom(re, text, next)
  {
    m := FirstLineOfJoin(re, text, d, ls);
    next := m.end + 1;
    MatchesStep(re, text, d, m);
  }

  /** The lines after the first, joined from `next` on. */
  lemma SpacedTail(re: CommentLineRegex, text: string, next: nat, ls: seq<string>)
    requires |ls| > 1 && AllSpaced(re, ls)
    requires next <= |text| && JoinedAt(text, next, ls[1..]) && AtLineStart(text, next)
    ensures SpacedJoin(re, text, next, ls[1..])
  {
  }

  // ---------------------------------------------------------------- a located block

  /** On a line without line feeds the search finds the match at its start. */
  lemma MatchOfLine(re: CommentLineRegex, line: string)
    requires NoLineFeed(line)
    ensures Match(re, line) == MatchAt(re, line, 0)
  {
    if MatchAt(re, line, 0).None? && |line| > 0 {
      NoLaterLineStart(re, line, 1);
    }
  }

  /** A line the locator put in a block with prefix `p` is a comment line
      with its spacer, and the prefix group of its match is `p`. */
  lemma BlockLineSpaced(re: CommentLineRegex, line: string, p: string)
    requires NoLineFeed(line) && BlockLine(Classify(re, line), p)
    ensures SpacedLine(re, line) && MatchAt(re, line, 0).value.prefix == p
  {
    MatchOfLine(re, line);
    MatchAtWellFormed(re, line, 0);
    TrimStartOfPrefixWord(re.prefix, MatchAt(re, line, 0).value.prefix);
  }

  /** The groups of a match that a comment line with its spacer gives: the
      whole run of leading blanks, the longest prefix, the spacer, and the
      rest of the line up to the carriage returns that end it. */
  lemma AloneMatchShape(re: CommentLineRegex, line: string, m: LineMatch) returns (q: nat)
    requires SpacedLine(re, line) && AloneMatch(re, line, m)
    ensures q == RunEnd(line, 0, Blank) && m.indent == line[..q]
    ensures LongestPrefixEnd(re.prefix, line, q) == Some(q + |m.prefix|)
    ensures m.initialSpacer.Some? && IsSpacerChar(m.initialSpacer.value) && NoLineBreak(m.line)
    ensures |Groups(m)| <= |line| && line[..|Groups(m)|] == Groups(m)
    ensures forall k :: |Groups(m)| <= k < |line| ==> line[k] == '\r'
  {
    var r, c;
    q, r, c := LineParts(re, line);
    PartsShape(re.prefix, line, q, r, c, m);
  }

  lemma PartsShape(p: PrefixPattern, line: string, q: nat, r: nat, c: nat, m: LineMatch)
    requires LineShape(p, line, q, r, c)
    requires MovedTo(PartsMatch(line, q, r, c, 0), m.index) == m
    ensures m.indent == line[..q] && LongestPrefixEnd(p, line, q) == Some(q + |m.prefix|)
    ensures m.initialSpacer.Some? && IsSpacerChar(m.initialSpacer.value) && NoLineBreak(m.line)
    ensures |Groups(m)| <= |line| && line[..|Groups(m)|] == Groups(m)
    ensures forall k :: |Groups(m)| <= k < |line| ==> line[k] == '\r'
  {
    assert Groups(m) == line[0..q] + line[q..r] + [line[r]] + line[r + 1..c];
    assert line[..c] == line[0..q] + line[q..r] + [line[r]] + line[r + 1..c];
    forall k | 0 <= k < |m.line|
      ensures m.line[k] != '\r' && m.line[k] != '\n'
    {
      assert m.line[k] == line[r + 1 + k];
      assert InClass(Content, line[r + 1 + k]);
    }
    forall k | c <= k < |line|
      ensures line[k] == '\r'
    {
      assert InClass(CarriageReturn, line[k]);
    }
  }

  /** The text the parser is given for lines `s` to `e`. */
  function BlockTextOf(lines: seq<string>, s: nat, e: nat): string
    requires s <= e < |lines|
  {
    Join(lines[s..e + 1], "\n")
  }

  /** Regex.Matches over a located block's text gives one match per line of
      the block, each the match its line gives on its own, with the block's
      prefix. */
  lemma MatchesOfBlock(re: CommentLineRegex, lines: seq<string>, s: nat, e: nat, p: string)
    requires forall i :: 0 <= i < |lines| ==> NoLineFeed(lines[i])
    requires IsBlock(LineKinds(re, lines), s, e, p)
    ensures var ms := Matches(re, BlockTextOf(lines, s, e));
      && |ms| == e - s + 1
      && (forall i :: 0 <= i < |ms| ==> AloneMatch(re, lines[s + i], ms[i]) && ms[i].prefix == p)
  {
    var ls := lines[s..e + 1];
    forall i | 0 <= i < |ls|
      ensures SpacedLine(re, ls[i]) && MatchAt(re, ls[i], 0).value.prefix == p
    {
      assert ls[i] == lines[s + i];
      assert LineKinds(re, lines)[s + i] == Classify(re, lines[s + i]);
      BlockLineSpaced(re, ls[i], p);
    }
    var text := Join(ls, "\n");
    assert text[0..] == text;
    AllSpacedOf(re, ls);
    assert SpacedJoin(re, text, 0, ls);
    MatchesOfJoin(re, text, 0, ls);
    var ms := Matches(re, text);
    forall i | 0 <= i < |ms|
      ensures AloneMatch(re, lines[s + i], ms[i]) && ms[i].prefix == p
    {
      assert AloneMatches(re)(ls[i], ms[i]);
      assert ls[i] == lines[s + i];
    }
  }

  /** The groups of a block line's match: all the line's leading blanks, the
      block's prefix, which is the longest one there, a space or tab spacer,
      and a `line` group without CR or LF that is the rest of the line up to
      its trailing carriage returns. */
  predicate BlockLineGroupsOf(re: CommentLineRegex, line: string, p: string, m: LineMatch) {
    var q := RunEnd(line, 0, Blank);
    && m.indent == line[..q] && m.prefix == p
    && LongestPrefixEnd(re.prefix, line, q) == Some(q + |p|)
    && m.initialSpacer.Some? && IsSpacerChar(m.initialSpacer.value) && NoLineBreak(m.line)
    && |Groups(m)| <= |line| && line[..|Groups(m)|] == Groups(m)
    && (forall k :: |Groups(m)| <= k < |line| ==> line[k] == '\r')
  }

  /** The match Regex.Matches gives for line `s + i` of a located block has
      that line's groups. */
  lemma BlockMatchShape(re: CommentLineRegex, lines: seq<string>, s: nat, e: nat, p: string, i: nat) returns (m: LineMatch)
    requires forall j :: 0 <= j < |lines| ==> NoLineFeed(lines[j])
    requires IsBlock(LineKinds(re, lines), s, e, p) && i <= e - s
    ensures |Matches(re, BlockTextOf(lines, s, e))| == e - s + 1 && m == Matches(re, BlockTextOf(lines, s, e))[i]
    ensures BlockLineGroupsOf(re, lines[s + i], p, m)
  {
    MatchesOfBlock(re, lines, s, e, p);
    m := Matches(re, BlockTextOf(lines, s, e))[i];
    assert LineKinds(re, lines)[s + i] == Classify(re, lines[s + i]);
    BlockLineSpaced(re, lines[s + i], p);
    SpacedGroups(re, lines[s + i], p, m);
  }

  lemma SpacedGroups(re: CommentLineRegex, line: string, p: string, m: LineMatch)
    requires SpacedLine(re, line) && AloneMatch(re, line, m) && m.prefix == p
    ensures BlockLineGroupsOf(re, line, p, m)
  {
    var q := AloneMatchShape(re, line, m);
  }

  /** The `line` group of a line's own match. */
  function OwnLineGroup(re: CommentLineRegex, line: string): string {
    match Match(re, line)
    case None => ""
    case Some(m) => m.line
  }

  /** The `line` groups of lines `s` to `e`, each matched on its own. */
  function BlockLineGroups(re: CommentLineRegex, lines: seq<string>, s: nat, e: nat): (r: seq<string>)
    requires s <= e < |lines|
    ensures |r| == e - s + 1
    ensures forall i :: 0 <= i < |r| ==> r[i] == OwnLineGroup(re, lines[s + i])
  {
    seq(e - s + 1, i requires 0 <= i < e - s + 1 => OwnLineGroup(re, lines[s + i]))
  }

  /** Parse never fails on a block the locator found: the options carry the
      first line's leading blanks and the block's prefix, and the comment's
      body is the block lines' own `line` groups joined by NewLine. */
  lemma ParseOfBlock<X>(parser: CodeCommentParser, lines: seq<string>, s: nat, e: nat, p: string, xml: XmlReader<X>)
    requires forall i :: 0 <= i < |lines| ==> NoLineFeed(lines[i])
    requires IsBlock(LineKinds(parser.commentLineRegex, lines), s, e, p)
    ensures var r := Parse(parser, BlockTextOf(lines, s, e), xml);
      var body := Join(BlockLineGroups(parser.commentLineRegex, lines, s, e), NewLine);
      && r.Ok?
      && CommentBody(Matches(parser.commentLineRegex, BlockTextOf(lines, s, e))) == body
      && r.value.options == CommentOptions(lines[s][..RunEnd(lines[s], 0, Blank)], p, parser.codeLanguage)
      && r.value.lines == ReadLines(body, xml, parser.formatterOptions)
  {
    var re := parser.commentLineRegex;
    MatchesOfBlock(re, lines, s, e, p);
    BodyOfBlock(re, lines, s, e, p);
    FirstOfBlock(re, lines, s, e, p);
  }

  lemma BodyOfBlock(re: CommentLineRegex, lines: seq<string>, s: nat, e: nat, p: string)
    requires forall i :: 0 <= i < |lines| ==> NoLineFeed(lines[i])
    requires IsBlock(LineKinds(re, lines), s, e, p)
    ensures LineGroups(Matches(re, BlockTextOf(lines, s, e))) == BlockLineGroups(re, lines, s, e)
  {
    MatchesOfBlock(re, lines, s, e, p);
    var ms := Matches(re, BlockTextOf(lines, s, e));
    var groups := BlockLineGroups(re, lines, s, e);
    forall i | 0 <= i < |ms|
      ensures LineGroups(ms)[i] == groups[i]
    {
      MatchOfLine(re, lines[s + i]);
    }
  }

  lemma FirstOfBlock(re: CommentLineRegex, lines: seq<string>, s: nat, e: nat, p: string)
    requires forall i :: 0 <= i < |lines| ==> NoLineFeed(lines[i])
    requires IsBlock(LineKinds(re, lines), s, e, p)
    ensures var ms := Matches(re, BlockTextOf(lines, s, e));
      |ms| > 0 && ms[0].indent == lines[s][..RunEnd(lines[s], 0, Blank)] && ms[0].prefix == p
  {
    MatchesOfBlock(re, lines, s, e, p);
    var ms := Matches(re, BlockTextOf(lines, s, e));
    assert LineKinds(re, lines)[s] == Classify(re, lines[s]);
    BlockLineSpaced(re, lines[s], p);
    var q := AloneMatchShape(re, lines[s], ms[0]);
  }
}
