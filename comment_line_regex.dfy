/** The comment-line regex built by GetCommentLineRegex,

      ^(?<indent>[\t ]*)(?<prefix>P)(?<initialspacer>( |\t|\r|\n))?(?<line>[^\r\n]*)\r*\n?$

    with RegexOptions.Multiline, for the three prefix patterns P. Instead of a
    regex engine the model has two matchers for this one pattern: `MatchAt`
    computes the groups directly, and `BacktrackingMatchAt` tries the
    alternatives in the order the .NET engine does (every greedy quantifier
    longest first, every optional group taken first). They are proved equal. */
module CommentLineRegex {
  import opened Wrappers
  import opened CodeCommentHelper

  /** A compiled comment-line regex; only its prefix pattern varies. */
  datatype CommentLineRegex = CommentLineRegex(prefix: PrefixPattern)

  /** The regex for a language; fails like GetCommentPrefixForLanguage. */
  function GetCommentLineRegex(language: CodeLanguage): (r: Result<CommentLineRegex, HelperError>)
    ensures r.Ok? <==> GetCommentPrefixForLanguage(language).Ok?
    ensures r.Ok? ==> r.value.prefix == GetCommentPrefixForLanguage(language).value
    ensures r.Err? ==> r.error == NoCommentPrefix(language)
  {
    match GetCommentPrefixForLanguage(language)
    case Ok(p) => Ok(CommentLineRegex(p))
    case Err(e) => Err(e)
  }

  // ---------------------------------------------------------------- classes

  datatype CharClass = Blank | Content | CarriageReturn | PrefixRun(pattern: PrefixPattern)

  function PrefixChar(p: PrefixPattern): char {
    match p
    case SlashPrefix => '/'
    case HashPrefix => '#'
    case QuotePrefix => '\''
  }

  /** `[\t ]`, `[^\r\n]`, `\r` and the prefix pattern's character. */
  predicate InClass(cls: CharClass, c: char) {
    match cls
    case Blank => c == ' ' || c == '\t'
    case Content => c != '\r' && c != '\n'
    case CarriageReturn => c == '\r'
    case PrefixRun(p) => c == PrefixChar(p)
  }

  /** The initial spacer alternatives `( |\t|\r|\n)`. */
  predicate IsSpacerChar(c: char) {
    c == ' ' || c == '\t' || c == '\r' || c == '\n'
  }

  predicate AllIn(text: string, i: nat, j: nat, cls: CharClass)
    requires i <= j <= |text|
  {
    forall k :: i <= k < j ==> InClass(cls, text[k])
  }

  /** End of the longest run of `cls` characters starting at `i`. */
  function RunEnd(text: string, i: nat, cls: CharClass): (e: nat)
    requires i <= |text|
    ensures i <= e <= |text|
    ensures AllIn(text, i, e, cls)
    ensures e < |text| ==> !InClass(cls, text[e])
    decreases |text| - i
  {
    if i == |text| || !InClass(cls, text[i]) then i else RunEnd(text, i + 1, cls)
  }

  lemma RunEndUnique(text: string, i: nat, e: nat, cls: CharClass)
    requires i <= e <= |text|
    requires AllIn(text, i, e, cls)
    requires e < |text| ==> !InClass(cls, text[e])
    ensures RunEnd(text, i, cls) == e
  {
  }

  /** Starting a run later inside the same run ends it at the same place. */
  lemma RunEndSkip(text: string, i: nat, j: nat, cls: CharClass)
    requires i <= j <= |text|
    requires AllIn(text, i, j, cls)
    ensures RunEnd(text, i, cls) == RunEnd(text, j, cls)
  {
    RunEndUnique(text, i, RunEnd(text, j, cls), cls);
  }

  // ---------------------------------------------------------------- anchors

  /** Multiline `^`: the start of the text or just after a line feed. */
  predicate AtLineStart(text: string, p: nat)
    requires p <= |text|
  {
    p == 0 || text[p - 1] == '\n'
  }

  /** Multiline `$`: the end of the text or just before a line feed. */
  predicate DollarAt(text: string, v: nat)
    requires v <= |text|
  {
    v == |text| || text[v] == '\n'
  }

  /** `\n?$` at `u`: the line feed is taken when `$` still holds after it. */
  function NewlineEnd(text: string, u: nat): (r: Option<nat>)
    requires u <= |text|
    ensures r.Some? ==> u <= r.value <= |text| && DollarAt(text, r.value)
    ensures r.Some? ==> r.value == u || (r.value == u + 1 && text[u] == '\n')
    ensures r.None? <==> !DollarAt(text, u)
  {
    if u < |text| && text[u] == '\n' && DollarAt(text, u + 1) then Some(u + 1)
    else if DollarAt(text, u) then Some(u)
    else None
  }

  // ---------------------------------------------------------------- prefix

  /** Whether text[q..r] is a word of the prefix pattern: `//` or `///`, or a
      non-empty run of `#` or of `'`. */
  predicate AcceptsPrefix(p: PrefixPattern, text: string, q: nat, r: nat)
    requires q <= r <= |text|
  {
    && AllIn(text, q, r, PrefixRun(p))
    && (if p == SlashPrefix then r - q == 2 || r - q == 3 else r > q)
  }

  /** The longest prefix the pattern accepts at `q`. */
  function LongestPrefixEnd(p: PrefixPattern, text: string, q: nat): (r: Option<nat>)
    requires q <= |text|
    ensures r.Some? ==> q < r.value <= |text| && AcceptsPrefix(p, text, q, r.value)
  {
    var e := RunEnd(text, q, PrefixRun(p));
    if p == SlashPrefix then
      (if e - q >= 3 then Some(q + 3) else if e - q == 2 then Some(q + 2) else None)
    else if e > q then Some(e)
    else None
  }

  /** Every prefix the pattern accepts at `q` ends at or before the longest. */
  lemma LongestPrefixIsLongest(p: PrefixPattern, text: string, q: nat)
    requires q <= |text|
    ensures forall k :: q <= k <= |text| && AcceptsPrefix(p, text, q, k) ==>
      LongestPrefixEnd(p, text, q).Some? && k <= LongestPrefixEnd(p, text, q).value
  {
    var e := RunEnd(text, q, PrefixRun(p));
    forall k | q <= k <= |text| && AllIn(text, q, k, PrefixRun(p)) ensures k <= e {
    }
  }

  // ---------------------------------------------------------------- direct matcher

  /** Where the `line` group starts and ends, what the initial spacer is, and
      where the whole match ends. */
  datatype Tail = Tail(spacer: Option<char>, lineStart: nat, lineEnd: nat, end: nat)

  /** `(?<line>[^\r\n]*)\r*\n?$` from `s`: the line runs to the first CR or LF,
      then every CR is taken; the match ends there or one line feed later. */
  function LineTail(text: string, s: nat): (r: Option<nat>)
    requires s <= |text|
    ensures r.Some? ==> RunEnd(text, s, Content) <= r.value <= |text|
  {
    NewlineEnd(text, RunEnd(text, RunEnd(text, s, Content), CarriageReturn))
  }

  /** The optional initial spacer at `r`, taken whenever the rest still matches. */
  function SpacerTail(text: string, r: nat): (t: Option<Tail>)
    requires r <= |text|
    ensures t.Some? ==> r <= t.value.lineStart <= t.value.lineEnd <= t.value.end <= |text|
  {
    if r < |text| && IsSpacerChar(text[r]) && LineTail(text, r + 1).Some? then
      Some(Tail(Some(text[r]), r + 1, RunEnd(text, r + 1, Content), LineTail(text, r + 1).value))
    else
      match LineTail(text, r)
      case None => None
      case Some(e) => Some(Tail(None, r, RunEnd(text, r, Content), e))
  }

  /** The longest prefix at `q`, then the spacer and line after it. */
  function PrefixThenTail(p: PrefixPattern, text: string, q: nat): (r: Option<(nat, Tail)>)
    requires q <= |text|
    ensures r.Some? ==> q < r.value.0 <= r.value.1.lineStart <= r.value.1.lineEnd <= r.value.1.end <= |text|
  {
    match LongestPrefixEnd(p, text, q)
    case None => None
    case Some(r) =>
      match SpacerTail(text, r)
      case None => None
      case Some(tl) => Some((r, tl))
  }

  /** One match: its position (Match.Index), its four groups, and where it ends. */
  datatype LineMatch = LineMatch(
    index: nat, indent: string, prefix: string, initialSpacer: Option<char>, line: string, end: nat)

  function SpacerText(spacer: Option<char>): string {
    match spacer
    case None => ""
    case Some(c) => [c]
  }

  /** The groups in the order they appear in the text. */
  function Groups(m: LineMatch): string {
    m.indent + m.prefix + SpacerText(m.initialSpacer) + m.line
  }

  /** What the prefix group can hold. */
  predicate IsPrefixWord(p: PrefixPattern, s: string) {
    && (forall i :: 0 <= i < |s| ==> s[i] == PrefixChar(p))
    && (if p == SlashPrefix then |s| == 2 || |s| == 3 else |s| >= 1)
  }

  predicate IsBlankRun(s: string) {
    forall i :: 0 <= i < |s| ==> s[i] == ' ' || s[i] == '\t'
  }

  predicate NoLineBreak(s: string) {
    forall i :: 0 <= i < |s| ==> s[i] != '\r' && s[i] != '\n'
  }

  /** What any match of the comment-line regex at `p` in `text` looks like. */
  ghost predicate WellFormedMatch(re: CommentLineRegex, text: string, p: nat, m: LineMatch)
    requires p <= |text|
  {
    var n := |Groups(m)|;
    && m.index == p
    && AtLineStart(text, p)
    && IsBlankRun(m.indent)
    && IsPrefixWord(re.prefix, m.prefix)
    && (m.initialSpacer.Some? ==> IsSpacerChar(m.initialSpacer.value))
    && NoLineBreak(m.line)
    && p + n <= m.end <= |text|
    && text[p..p + n] == Groups(m)
    && (forall k :: p + n <= k < m.end ==> text[k] == '\r' || (k == m.end - 1 && text[k] == '\n'))
    && DollarAt(text, m.end)
  }

  /** The match of the regex that starts at `p`, if any. The indent is the
      whole run of blanks, the prefix the longest the pattern accepts there,
      and the line runs to the first CR or LF. */
  function MatchAt(re: CommentLineRegex, text: string, p: nat): (r: Option<LineMatch>)
    requires p <= |text|
    ensures r.Some? ==> r.value.index == p && p < r.value.end <= |text|
  {
    if !AtLineStart(text, p) then None
    else
      var q := RunEnd(text, p, Blank);
      match PrefixThenTail(re.prefix, text, q)
      case None => None
      case Some((r, tl)) =>
        Some(LineMatch(p, text[p..q], text[q..r], tl.spacer, text[tl.lineStart..tl.lineEnd], tl.end))
  }

  lemma SliceSplit(s: string, a: nat, b: nat, c: nat)
    requires a <= b <= c <= |s|
    ensures s[a..c] == s[a..b] + s[b..c]
  {
  }

  /** The spacer sits between the prefix and the line, and after the line come
      only carriage returns and at most one line feed. */
  lemma SpacerTailShape(text: string, r: nat, tl: Tail)
    requires r <= |text|
    requires SpacerTail(text, r) == Some(tl)
    ensures text[r..tl.lineStart] == SpacerText(tl.spacer)
    ensures tl.spacer.Some? ==> IsSpacerChar(tl.spacer.value)
    ensures tl.lineEnd == RunEnd(text, tl.lineStart, Content)
    ensures forall k :: tl.lineEnd <= k < tl.end ==> text[k] == '\r' || (k == tl.end - 1 && text[k] == '\n')
    ensures DollarAt(text, tl.end)
  {
    var c := RunEnd(text, tl.lineEnd, CarriageReturn);
    assert NewlineEnd(text, c) == Some(tl.end);
  }

  /** The four groups, read off the text side by side. */
  lemma GroupsInText(text: string, p: nat, q: nat, r: nat, ls: nat, le: nat, spacer: Option<char>)
    requires p <= q <= r <= ls <= le <= |text|
    requires text[r..ls] == SpacerText(spacer)
    ensures text[p..le] == text[p..q] + text[q..r] + SpacerText(spacer) + text[ls..le]
  {
    SliceSplit(text, p, q, r);
    SliceSplit(text, p, r, ls);
    SliceSplit(text, p, ls, le);
  }

  lemma SliceOfClass(text: string, i: nat, j: nat, cls: CharClass)
    requires i <= j <= |text| && AllIn(text, i, j, cls)
    ensures forall k :: 0 <= k < j - i ==> InClass(cls, text[i..j][k])
  {
    assert forall k :: 0 <= k < j - i ==> text[i..j][k] == text[i + k];
  }

  /** Every match `MatchAt` finds has the shape the regex describes: the four
      groups lie side by side in the text, the indent is blanks, the prefix a
      word of the pattern, the spacer one of its four characters, the line free
      of CR and LF, and what follows up to the match end is `\r*\n?`. */
  lemma MatchAtWellFormed(re: CommentLineRegex, text: string, p: nat)
    requires p <= |text|
    ensures MatchAt(re, text, p).Some? ==> WellFormedMatch(re, text, p, MatchAt(re, text, p).value)
  {
    if MatchAt(re, text, p).Some? {
      var q := RunEnd(text, p, Blank);
      var (r, tl) := PrefixThenTail(re.prefix, text, q).value;
      PartsWellFormed(re, text, p, q, r, tl);
    }
  }

  /** The groups cut out of the text at the ends the matcher found form a
      well-formed match. */
  lemma PartsWellFormed(re: CommentLineRegex, text: string, p: nat, q: nat, r: nat, tl: Tail)
    requires p <= |text| && AtLineStart(text, p) && q == RunEnd(text, p, Blank)
    requires LongestPrefixEnd(re.prefix, text, q) == Some(r) && SpacerTail(text, r) == Some(tl)
    requires r <= tl.lineStart <= tl.lineEnd <= tl.end <= |text|
    ensures WellFormedMatch(re, text, p,
      LineMatch(p, text[p..q], text[q..r], tl.spacer, text[tl.lineStart..tl.lineEnd], tl.end))
  {
    var m := LineMatch(p, text[p..q], text[q..r], tl.spacer, text[tl.lineStart..tl.lineEnd], tl.end);
    SpacerTailShape(text, r, tl);
    GroupsInText(text, p, q, r, tl.lineStart, tl.lineEnd, tl.spacer);
    assert |Groups(m)| == tl.lineEnd - p;
    GroupShapes(re, text, p, q, r, tl);
  }

  /** Each group cut out of the text holds the characters its part of the
      pattern allows. */
  lemma GroupShapes(re: CommentLineRegex, text: string, p: nat, q: nat, r: nat, tl: Tail)
    requires p <= |text| && q == RunEnd(text, p, Blank)
    requires LongestPrefixEnd(re.prefix, text, q) == Some(r) && SpacerTail(text, r) == Some(tl)
    requires r <= tl.lineStart <= tl.lineEnd <= tl.end <= |text|
    ensures IsBlankRun(text[p..q]) && IsPrefixWord(re.prefix, text[q..r])
    ensures NoLineBreak(text[tl.lineStart..tl.lineEnd])
  {
    SpacerTailShape(text, r, tl);
    SliceOfClass(text, p, q, Blank);
    SliceOfClass(text, q, r, PrefixRun(re.prefix));
    SliceOfClass(text, tl.lineStart, tl.lineEnd, Content);
  }

  /** No longer prefix than the one in the match is accepted at its position. */
  lemma MatchAtLongestPrefix(re: CommentLineRegex, text: string, p: nat, k: nat)
    requires p <= |text|
    requires MatchAt(re, text, p).Some?
    requires var q := p + |MatchAt(re, text, p).value.indent|;
      q <= k <= |text| && AcceptsPrefix(re.prefix, text, q, k)
    ensures k <= p + |MatchAt(re, text, p).value.indent| + |MatchAt(re, text, p).value.prefix|
  {
  }

  // ---------------------------------------------------------------- backtracking reference

  /** `\r*` then `\n?$`, trying the run of carriage returns ending at `u` first
      and shorter runs after it. */
  function TryCr(text: string, t: nat, u: nat): (r: Option<nat>)
    requires t <= u <= |text|
    ensures r.Some? ==> t <= r.value <= |text|
    decreases u - t
  {
    if AllIn(text, t, u, CarriageReturn) && NewlineEnd(text, u).Some? then NewlineEnd(text, u)
    else if u == t then None
    else TryCr(text, t, u - 1)
  }

  /** `(?<line>[^\r\n]*)` starting at `s`, trying the line ending at `t` first. */
  function TryLine(text: string, s: nat, t: nat): (r: Option<(nat, nat)>)
    requires s <= t <= |text|
    ensures r.Some? ==> s <= r.value.0 <= r.value.1 <= |text|
    decreases t - s
  {
    if AllIn(text, s, t, Content) && TryCr(text, t, |text|).Some? then Some((t, TryCr(text, t, |text|).value))
    else if t == s then None
    else TryLine(text, s, t - 1)
  }

  /** `(?<initialspacer>( |\t|\r|\n))?` at `r`: taken first, skipped on failure. */
  function TrySpacer(text: string, r: nat): (t: Option<Tail>)
    requires r <= |text|
    ensures t.Some? ==> r <= t.value.lineStart <= t.value.lineEnd <= t.value.end <= |text|
  {
    if r < |text| && IsSpacerChar(text[r]) && TryLine(text, r + 1, |text|).Some? then
      var (t, e) := TryLine(text, r + 1, |text|).value;
      Some(Tail(Some(text[r]), r + 1, t, e))
    else
      match TryLine(text, r, |text|)
      case None => None
      case Some((t, e)) => Some(Tail(None, r, t, e))
  }

  /** `(?<prefix>P)` at `q`, trying the accepted prefix ending at `r` first. */
  function TryPrefix(p: PrefixPattern, text: string, q: nat, r: nat): (t: Option<(nat, Tail)>)
    requires q <= r <= |text|
    ensures t.Some? ==> q <= t.value.0 <= t.value.1.lineStart <= t.value.1.lineEnd <= t.value.1.end <= |text|
    decreases r - q
  {
    if AcceptsPrefix(p, text, q, r) && TrySpacer(text, r).Some? then Some((r, TrySpacer(text, r).value))
    else if r == q then None
    else TryPrefix(p, text, q, r - 1)
  }

  /** `(?<indent>[\t ]*)` at `p`, trying the indent ending at `q` first. */
  function TryIndent(p: PrefixPattern, text: string, start: nat, q: nat): (t: Option<(nat, nat, Tail)>)
    requires start <= q <= |text|
    ensures t.Some? ==> start <= t.value.0 <= t.value.1 <= t.value.2.lineStart <= t.value.2.lineEnd <= t.value.2.end <= |text|
    decreases q - start
  {
    if AllIn(text, start, q, Blank) && TryPrefix(p, text, q, |text|).Some? then
      var (r, tl) := TryPrefix(p, text, q, |text|).value;
      Some((q, r, tl))
    else if q == start then None
    else TryIndent(p, text, start, q - 1)
  }

  /** The first match at `p` in the engine's backtracking order. */
  function BacktrackingMatchAt(re: CommentLineRegex, text: string, p: nat): (r: Option<LineMatch>)
    requires p <= |text|
    ensures r.Some? ==> AtLineStart(text, p) && r.value.index == p && p <= r.value.end <= |text|
  {
    if !AtLineStart(text, p) then None
    else
      match TryIndent(re.prefix, text, p, |text|)
      case None => None
      case Some((q, r, tl)) =>
        Some(LineMatch(p, text[p..q], text[q..r], tl.spacer, text[tl.lineStart..tl.lineEnd], tl.end))
  }

  lemma {:induction false} TryCrGreedy(text: string, t: nat, u: nat)
    requires t <= u <= |text|
    ensures TryCr(text, t, u) ==
      if u >= RunEnd(text, t, CarriageReturn) then NewlineEnd(text, RunEnd(text, t, CarriageReturn)) else None
    decreases u - t
  {
    var c := RunEnd(text, t, CarriageReturn);
    if u > c {
      assert !InClass(CarriageReturn, text[c]);
      TryCrGreedy(text, t, u - 1);
    } else if u == c {
      if NewlineEnd(text, u).None? && u > t {
        TryCrGreedy(text, t, u - 1);
      }
    } else {
      assert text[u] == '\r';
      assert NewlineEnd(text, u).None?;
      if u > t {
        TryCrGreedy(text, t, u - 1);
      }
    }
  }

  lemma {:induction false} TryLineGreedy(text: string, s: nat, t: nat)
    requires s <= t <= |text|
    ensures TryLine(text, s, t) ==
      if t >= RunEnd(text, s, Content) && LineTail(text, s).Some?
      then Some((RunEnd(text, s, Content), LineTail(text, s).value)) else None
    decreases t - s
  {
    var c := RunEnd(text, s, Content);
    TryCrGreedy(text, t, |text|);
    if t > c {
      assert !InClass(Content, text[c]);
      TryLineGreedy(text, s, t - 1);
    } else if t == c {
      assert TryCr(text, t, |text|) == LineTail(text, s);
      if LineTail(text, s).None? && t > s {
        TryLineGreedy(text, s, t - 1);
      }
    } else {
      assert InClass(Content, text[t]);
      assert RunEnd(text, t, CarriageReturn) == t;
      assert TryCr(text, t, |text|).None?;
      if t > s {
        TryLineGreedy(text, s, t - 1);
      }
    }
  }

  lemma TrySpacerIsSpacerTail(text: string, r: nat)
    requires r <= |text|
    ensures TrySpacer(text, r) == SpacerTail(text, r)
  {
    TryLineGreedy(text, r, |text|);
    if r < |text| {
      TryLineGreedy(text, r + 1, |text|);
    }
  }

  /** A shorter accepted prefix leaves the same line and tail, so it fails
      whenever the longest one failed. */
  lemma {:induction false} TryPrefixBelowLongest(p: PrefixPattern, text: string, q: nat, r: nat, l: nat)
    requires q <= r < l <= |text|
    requires AcceptsPrefix(p, text, q, l)
    requires SpacerTail(text, l).None?
    ensures TryPrefix(p, text, q, r).None?
    decreases r - q
  {
    if AcceptsPrefix(p, text, q, r) {
      TrySpacerIsSpacerTail(text, r);
      assert AllIn(text, r, l, Content) by {
        forall k | r <= k < l ensures InClass(Content, text[k]) {
          assert InClass(PrefixRun(p), text[k]);
        }
      }
      RunEndSkip(text, r, l, Content);
      assert InClass(PrefixRun(p), text[r]);
      assert !IsSpacerChar(text[r]);
      assert LineTail(text, r) == LineTail(text, l);
    }
    if r > q {
      TryPrefixBelowLongest(p, text, q, r - 1, l);
    }
  }

  lemma TryPrefixGreedy(p: PrefixPattern, text: string, q: nat, r: nat)
    requires q <= r <= |text|
    requires LongestPrefixEnd(p, text, q).Some? ==> r >= LongestPrefixEnd(p, text, q).value
    ensures TryPrefix(p, text, q, r) == PrefixThenTail(p, text, q)
  {
    LongestPrefixIsLongest(p, text, q);
    TryPrefixAboveLongest(p, text, q, r);
    var l := LongestPrefixEnd(p, text, q);
    if l.Some? {
      TrySpacerIsSpacerTail(text, l.value);
      if SpacerTail(text, l.value).None? {
        TryPrefixBelowLongest(p, text, q, l.value - 1, l.value);
      }
    } else {
      assert !AcceptsPrefix(p, text, q, q);
    }
  }

  /** A prefix longer than the longest is never accepted, so trying from `r`
      comes down to trying from the longest prefix, or from `q` when there is
      none. */
  lemma {:induction false} TryPrefixAboveLongest(p: PrefixPattern, text: string, q: nat, r: nat)
    requires q <= r <= |text|
    requires forall k :: q <= k <= |text| && AcceptsPrefix(p, text, q, k) ==>
      LongestPrefixEnd(p, text, q).Some? && k <= LongestPrefixEnd(p, text, q).value
    requires LongestPrefixEnd(p, text, q).Some? ==> r >= LongestPrefixEnd(p, text, q).value
    ensures var l := LongestPrefixEnd(p, text, q);
      TryPrefix(p, text, q, r) == TryPrefix(p, text, q, if l.Some? then l.value else q)
    decreases r - q
  {
    var l := LongestPrefixEnd(p, text, q);
    var target := if l.Some? then l.value else q;
    if r > target {
      assert !AcceptsPrefix(p, text, q, r);
      TryPrefixAboveLongest(p, text, q, r - 1);
    }
  }

  /** Below the longest indent the next character is a blank, never a prefix. */
  lemma {:induction false} TryIndentBelowLongest(p: PrefixPattern, text: string, start: nat, q: nat)
    requires start <= |text| && start <= q < RunEnd(text, start, Blank)
    ensures TryIndent(p, text, start, q).None?
    decreases q - start
  {
    assert InClass(Blank, text[q]);
    assert LongestPrefixEnd(p, text, q).None? by {
      assert RunEnd(text, q, PrefixRun(p)) == q;
    }
    TryPrefixGreedy(p, text, q, |text|);
    if q > start {
      TryIndentBelowLongest(p, text, start, q - 1);
    }
  }

  /** Any indent longer than the run of blanks fails at once, so trying from
      `q` comes down to trying from the end of the run. */
  lemma {:induction false} TryIndentAboveRun(p: PrefixPattern, text: string, start: nat, q: nat)
    requires start <= |text| && RunEnd(text, start, Blank) <= q <= |text|
    ensures TryIndent(p, text, start, q) == TryIndent(p, text, start, RunEnd(text, start, Blank))
    decreases q - start
  {
    var b := RunEnd(text, start, Blank);
    if q > b {
      assert !InClass(Blank, text[b]);
      assert !AllIn(text, start, q, Blank);
      TryIndentAboveRun(p, text, start, q - 1);
    }
  }

  /** At the end of the run of blanks the backtracking order finds what the
      direct matcher finds after that indent. */
  lemma TryIndentAtRun(p: PrefixPattern, text: string, start: nat)
    requires start <= |text|
    ensures var b := RunEnd(text, start, Blank);
      TryIndent(p, text, start, b) ==
      match PrefixThenTail(p, text, b)
      case None => None
      case Some((r, tl)) => Some((b, r, tl))
  {
    var b := RunEnd(text, start, Blank);
    TryPrefixGreedy(p, text, b, |text|);
    assert AllIn(text, start, b, Blank);
    if PrefixThenTail(p, text, b).None? && b > start {
      TryIndentBelowLongest(p, text, start, b - 1);
    }
  }

  /** The direct matcher and the backtracking order agree on every text and
      position: in particular the prefix group is always the longest run the
      pattern allows, because the optional spacer and the unrestricted rest
      never make a shorter prefix succeed where the longest failed. */
  lemma MatchAtIsBacktrackingMatch(re: CommentLineRegex, text: string, p: nat)
    requires p <= |text|
    ensures MatchAt(re, text, p) == BacktrackingMatchAt(re, text, p)
  {
    if AtLineStart(text, p) {
      TryIndentAboveRun(re.prefix, text, p, |text|);
      TryIndentAtRun(re.prefix, text, p);
    }
  }

  // ---------------------------------------------------------------- scanning

  /** Regex.Match from `pos`: the first position at or after `pos` where a match starts. */
  function FirstMatchFrom(re: CommentLineRegex, text: string, pos: nat): (r: Option<LineMatch>)
    requires pos <= |text|
    ensures r.Some? ==> pos <= r.value.index < r.value.end <= |text|
    decreases |text| - pos
  {
    match MatchAt(re, text, pos)
    case Some(m) => Some(m)
    case None => if pos == |text| then None else FirstMatchFrom(re, text, pos + 1)
  }

  /** The search finds the match at the first position from `pos` where the
      regex matches, and nothing when it matches nowhere from `pos` on. */
  lemma {:induction false} FirstMatchFromIsFirst(re: CommentLineRegex, text: string, pos: nat)
    requires pos <= |text|
    ensures var r := FirstMatchFrom(re, text, pos);
      && (r.Some? ==> MatchAt(re, text, r.value.index) == r)
      && (r.Some? ==> forall k :: pos <= k < r.value.index ==> MatchAt(re, text, k).None?)
      && (r.None? ==> forall k :: pos <= k <= |text| ==> MatchAt(re, text, k).None?)
    decreases |text| - pos
  {
    var m := MatchAt(re, text, pos);
    if m.Some? {
      assert FirstMatchFrom(re, text, pos) == m;
    } else if pos == |text| {
      assert FirstMatchFrom(re, text, pos).None?;
    } else {
      FirstMatchFromIsFirst(re, text, pos + 1);
      var r := FirstMatchFrom(re, text, pos + 1);
      assert FirstMatchFrom(re, text, pos) == r;
      var last := if r.Some? then r.value.index else |text| + 1;
      forall k | pos <= k < last
        ensures MatchAt(re, text, k).None?
      {
        if k > pos {
          assert pos + 1 <= k < last;
        }
      }
    }
  }

  /** Regex.Match(text). */
  function Match(re: CommentLineRegex, text: string): (r: Option<LineMatch>)
    ensures r.Some? ==> r.value.index < r.value.end <= |text|
  {
    FirstMatchFrom(re, text, 0)
  }

  /** Regex.Matches(text): successive matches, each search resuming where the
      previous match ended. */
  function MatchesFrom(re: CommentLineRegex, text: string, pos: nat): (r: seq<LineMatch>)
    requires pos <= |text|
    ensures forall i :: 0 <= i < |r| ==> pos <= r[i].index < r[i].end <= |text|
    ensures forall i :: 0 <= i < |r| - 1 ==> r[i].end <= r[i + 1].index
    decreases |text| - pos
  {
    var f := FirstMatchFrom(re, text, pos);
    if f.None? then []
    else
      var m := f.value;
      var rest := MatchesFrom(re, text, m.end);
      MatchesPrepend(m, rest, pos, m.end, |text|);
      [m] + rest
  }

  /** Putting a match in front of the later ones keeps them in order. */
  lemma MatchesPrepend(m: LineMatch, rest: seq<LineMatch>, pos: nat, from: nat, n: nat)
    requires pos <= m.index < m.end == from
    requires forall i :: 0 <= i < |rest| ==> from <= rest[i].index < rest[i].end <= n
    requires forall i :: 0 <= i < |rest| - 1 ==> rest[i].end <= rest[i + 1].index
    requires m.end <= n
    ensures var r := [m] + rest;
      && (forall i :: 0 <= i < |r| ==> pos <= r[i].index < r[i].end <= n)
      && (forall i :: 0 <= i < |r| - 1 ==> r[i].end <= r[i + 1].index)
  {
    var r := [m] + rest;
    assert forall i :: 1 <= i < |r| ==> r[i] == rest[i - 1];
  }

  /** Each element of Matches is the match of the regex at its own index. */
  lemma {:induction false} MatchesFromAreMatches(re: CommentLineRegex, text: string, pos: nat, i: nat)
    requires pos <= |text|
    requires i < |MatchesFrom(re, text, pos)|
    ensures MatchAt(re, text, MatchesFrom(re, text, pos)[i].index) == Some(MatchesFrom(re, text, pos)[i])
    decreases |text| - pos
  {
    FirstMatchFromIsFirst(re, text, pos);
    var m := FirstMatchFrom(re, text, pos).value;
    var rest := MatchesFrom(re, text, m.end);
    assert MatchesFrom(re, text, pos) == [m] + rest;
    if i > 0 {
      MatchesFromAreMatches(re, text, m.end, i - 1);
      assert MatchesFrom(re, text, pos)[i] == rest[i - 1];
    }
  }

  function Matches(re: CommentLineRegex, text: string): (r: seq<LineMatch>)
    ensures forall i :: 0 <= i < |r| ==> r[i].index < r[i].end <= |text|
    ensures forall i :: 0 <= i < |r| - 1 ==> r[i].end <= r[i + 1].index
  {
    MatchesFrom(re, text, 0)
  }

  // ---------------------------------------------------------------- one physical line

  /** On one line the line group runs to its end and the tail always matches. */
  lemma LineTailOnOneLine(line: string, s: nat)
    requires NoLineBreak(line) && s <= |line|
    ensures RunEnd(line, s, Content) == |line|
    ensures LineTail(line, s) == Some(|line|)
  {
    RunEndUnique(line, s, |line|, Content);
  }

  /** Without line feeds the only line start is position 0. */
  lemma {:induction false} NoLaterLineStart(re: CommentLineRegex, text: string, pos: nat)
    requires 0 < pos <= |text|
    requires forall i :: 0 <= i < |text| ==> text[i] != '\n'
    ensures FirstMatchFrom(re, text, pos).None?
    decreases |text| - pos
  {
    assert !AtLineStart(text, pos);
    if pos < |text| {
      NoLaterLineStart(re, text, pos + 1);
    }
  }

  /** On a text holding no CR or LF (one line as the document returns it), the
      regex matches exactly when the first non-blank characters begin a prefix;
      the match then covers the whole text, which is indent, longest prefix,
      the spacer when the next character is a blank, and the rest. */
  lemma SingleLineMatch(re: CommentLineRegex, line: string)
    requires NoLineBreak(line)
    ensures Match(re, line) == MatchAt(re, line, 0)
    ensures Match(re, line).Some? <==> LongestPrefixEnd(re.prefix, line, RunEnd(line, 0, Blank)).Some?
    ensures Match(re, line).Some? ==>
      var m := Match(re, line).value;
      var q := RunEnd(line, 0, Blank);
      var r := LongestPrefixEnd(re.prefix, line, q).value;
      && m.indent == line[..q]
      && m.prefix == line[q..r]
      && m.initialSpacer == (if r < |line| && InClass(Blank, line[r]) then Some(line[r]) else None)
      && Groups(m) == line
      && m.end == |line|
  {
    if MatchAt(re, line, 0).None? && |line| > 0 {
      NoLaterLineStart(re, line, 1);
    }
    SingleLineMatchAt(re, line);
  }

  /** The same facts about the match at position 0. */
  lemma SingleLineMatchAt(re: CommentLineRegex, line: string)
    requires NoLineBreak(line)
    ensures MatchAt(re, line, 0).Some? <==> LongestPrefixEnd(re.prefix, line, RunEnd(line, 0, Blank)).Some?
    ensures MatchAt(re, line, 0).Some? ==>
      var m := MatchAt(re, line, 0).value;
      var q := RunEnd(line, 0, Blank);
      var r := LongestPrefixEnd(re.prefix, line, q).value;
      && m.indent == line[..q]
      && m.prefix == line[q..r]
      && m.initialSpacer == (if r < |line| && InClass(Blank, line[r]) then Some(line[r]) else None)
      && Groups(m) == line
      && m.end == |line|
  {
    var q := RunEnd(line, 0, Blank);
    var pre := LongestPrefixEnd(re.prefix, line, q);
    if pre.Some? {
      var r := pre.value;
      LineTailOnOneLine(line, r);
      if r < |line| {
        LineTailOnOneLine(line, r + 1);
        assert IsSpacerChar(line[r]) <==> InClass(Blank, line[r]);
      }
      var tl := SpacerTail(line, r).value;
      assert PrefixThenTail(re.prefix, line, q) == Some((r, tl));
      var m := MatchAt(re, line, 0).value;
      SpacerTailShape(line, r, tl);
      GroupsInText(line, 0, q, r, tl.lineStart, tl.lineEnd, tl.spacer);
      assert line[0..|line|] == line;
    }
  }
}
