/** The words regex built by GetCommentWordsRegex,

      ^(?<indent>[\t ]*)(?<line>(?<listprefix>[-=\*\+]+[ \t]*|\w+[\):][ \t]+|\d+\.[ \t]+)?((?<words>[^\t\r\n ]+)*[\t ]*)*)\r*\n?$

    with RegexOptions.Multiline. The `line` group can hold any run of
    characters other than CR and LF, so the match at a line start succeeds
    exactly when the comment-line regex's tail `\r*\n?$` does, and nothing
    after the indent ever forces backtracking: the indent is the whole run of
    blanks, the list prefix is the first alternative that matches (each
    quantifier taken longest), and the words are the maximal runs of
    non-blank characters after it. */
module CommentWordsRegex {
  import opened Wrappers
  import opened TextLines
  import opened CommentLineRegex

  /** One match: its position, the indent, line and list-prefix groups, the
      captures of the words group in order, and where the match ends. */
  datatype WordsMatch = WordsMatch(
    index: nat, indent: string, line: string, listPrefix: Option<string>, words: seq<string>, end: nat)

  // ---------------------------------------------------------------- runs on slices

  /** The classes only this regex uses: `\w` and `\d` (on ASCII), the list
      marks `[-=\*\+]`, and `[^\t\r\n ]`. */
  datatype WordsClass = WordChar | Digit | ListMark | NonBlank

  predicate InWordsClass(cls: WordsClass, c: char) {
    match cls
    case WordChar => 'a' <= c <= 'z' || 'A' <= c <= 'Z' || '0' <= c <= '9' || c == '_'
    case Digit => '0' <= c <= '9'
    case ListMark => c == '-' || c == '=' || c == '*' || c == '+'
    case NonBlank => !InClass(Blank, c) && InClass(Content, c)
  }

  /** Every character of each class can stand in the line group. */
  lemma WordsClassIsContent(cls: WordsClass, c: char)
    requires InWordsClass(cls, c)
    ensures InClass(Content, c)
  {
  }

  predicate AllInWords(text: string, i: nat, j: nat, cls: WordsClass)
    requires i <= j <= |text|
  {
    forall k :: i <= k < j ==> InWordsClass(cls, text[k])
  }

  /** End of the longest run of `cls` characters starting at `i`. */
  function SpanEnd(text: string, i: nat, cls: WordsClass): (e: nat)
    requires i <= |text|
    ensures i <= e <= |text|
    ensures AllInWords(text, i, e, cls)
    ensures e < |text| ==> !InWordsClass(cls, text[e])
    decreases |text| - i
  {
    if i == |text| || !InWordsClass(cls, text[i]) then i else SpanEnd(text, i + 1, cls)
  }

  lemma SpanEndUnique(text: string, i: nat, e: nat, cls: WordsClass)
    requires i <= e <= |text|
    requires AllInWords(text, i, e, cls)
    requires e < |text| ==> !InWordsClass(cls, text[e])
    ensures SpanEnd(text, i, cls) == e
  {
  }

  /** A run of a class inside a slice ends where the run in the whole text
      ends, or at the end of the slice. */
  lemma SpanEndInSlice(text: string, q: nat, k: nat, cls: WordsClass)
    requires q <= k <= |text|
    ensures var e := SpanEnd(text, q, cls);
      SpanEnd(text[q..k], 0, cls) == (if e <= k then e else k) - q
  {
    var e := SpanEnd(text, q, cls);
    var m := if e <= k then e else k;
    SpanEndUnique(text[q..k], 0, m - q, cls);
  }

  /** A stretch of characters that belong to a class lies inside the run of
      any wider class. */
  lemma RunCovers(text: string, q: nat, r: nat, cls: CharClass)
    requires q <= r <= |text| && AllIn(text, q, r, cls)
    ensures r <= RunEnd(text, q, cls)
  {
  }

  // ---------------------------------------------------------------- list prefix

  /** `[-=\*\+]+[ \t]*`: list marks, then blanks. */
  predicate MarkListPrefix(s: string) {
    var a := SpanEnd(s, 0, ListMark);
    a > 0 && AllIn(s, a, |s|, Blank)
  }

  /** `\w+[\):][ \t]+` and `\d+\.[ \t]+`: a run of `cls`, the closing
      character, then at least one blank. */
  predicate ClosedListPrefix(s: string, cls: WordsClass, close: set<char>) {
    var a := SpanEnd(s, 0, cls);
    0 < a && a + 1 < |s| && s[a] in close && AllIn(s, a + 1, |s|, Blank)
  }

  /** What the list-prefix group can hold. */
  predicate IsListPrefix(s: string) {
    MarkListPrefix(s) || ClosedListPrefix(s, WordChar, {')', ':'}) || ClosedListPrefix(s, Digit, {'.'})
  }

  /** No start of the line has the shape of a list prefix. */
  predicate NoListPrefix(line: string) {
    forall k :: 0 < k <= |line| ==> !IsListPrefix(line[..k])
  }

  /** The end of `run`: `cls` at `q`, then the closing character, then at
      least one blank, all taken longest. */
  function ClosedEnd(text: string, q: nat, cls: WordsClass, close: set<char>): (r: Option<nat>)
    requires q <= |text|
    ensures r.Some? ==> q < r.value <= |text|
  {
    var a := SpanEnd(text, q, cls);
    if q < a && a + 1 < |text| && text[a] in close && InClass(Blank, text[a + 1]) then Some(RunEnd(text, a + 1, Blank))
    else None
  }

  /** The optional list-prefix group at `q`: the alternatives are tried in
      order and the first that applies is taken, each quantifier longest. */
  function ListPrefixEnd(text: string, q: nat): (r: Option<nat>)
    requires q <= |text|
    ensures r.Some? ==> q < r.value <= |text|
  {
    var m := SpanEnd(text, q, ListMark);
    if m > q then Some(RunEnd(text, m, Blank))
    else
      match ClosedEnd(text, q, WordChar, {')', ':'})
      case Some(r) => Some(r)
      case None => ClosedEnd(text, q, Digit, {'.'})
  }

  /** A closed alternative, when it applies, covers a list prefix of that
      shape inside the line. */
  lemma ClosedEndShape(text: string, q: nat, cls: WordsClass, close: set<char>)
    requires q <= |text|
    requires forall c :: c in close ==> InClass(Content, c)
    ensures var r := ClosedEnd(text, q, cls, close);
      r.Some? ==> r.value <= RunEnd(text, q, Content) && ClosedListPrefix(text[q..r.value], cls, close)
  {
    var a := SpanEnd(text, q, cls);
    var r := ClosedEnd(text, q, cls, close);
    if r.Some? {
      var b := RunEnd(text, a + 1, Blank);
      SpanEndInSlice(text, q, b, cls);
      assert AllIn(text, q, b, Content) by {
        forall i | q <= i < b ensures InClass(Content, text[i]) {
          if i < a { WordsClassIsContent(cls, text[i]); } else if i > a { assert InClass(Blank, text[i]); }
        }
      }
      RunCovers(text, q, b, Content);
      ClosedSlice(text, q, a, b);
    }
  }

  /** Cutting the text at `q` keeps the closing character at `a` and the
      blanks after it. */
  lemma ClosedSlice(text: string, q: nat, a: nat, b: nat)
    requires q <= a < b <= |text| && AllIn(text, a + 1, b, Blank)
    ensures text[q..b][a - q] == text[a]
    ensures AllIn(text[q..b], a - q + 1, b - q, Blank)
  {
    var s := text[q..b];
    forall i | a - q + 1 <= i < b - q ensures InClass(Blank, s[i]) {
      assert s[i] == text[q + i];
    }
  }

  /** A closed alternative applies whenever some slice from `q` has its shape. */
  lemma ClosedEndComplete(text: string, q: nat, k: nat, cls: WordsClass, close: set<char>)
    requires q < k <= |text|
    requires forall c :: c in close ==> !InWordsClass(cls, c)
    requires ClosedListPrefix(text[q..k], cls, close)
    ensures ClosedEnd(text, q, cls, close).Some?
  {
    var s := text[q..k];
    SpanEndInSlice(text, q, k, cls);
    var a' := SpanEnd(s, 0, cls);
    assert s[a'] == text[q + a'] && s[a' + 1] == text[q + a' + 1];
  }

  /** The list-prefix group as the regex gives it: the part of the line it
      covers has the shape of one of the alternatives, no longer start of the
      text has such a shape, and it is missing only when no start of the line
      has one. */
  lemma ListPrefixShape(text: string, q: nat)
    requires q <= |text|
    ensures var r := ListPrefixEnd(text, q);
      r.Some? ==> r.value <= RunEnd(text, q, Content) && IsListPrefix(text[q..r.value])
    ensures forall k :: q < k <= |text| && IsListPrefix(text[q..k]) ==>
      ListPrefixEnd(text, q).Some? && k <= ListPrefixEnd(text, q).value
    ensures ListPrefixEnd(text, q).None? <==> NoListPrefix(text[q..RunEnd(text, q, Content)])
  {
    forall k | q < k <= |text| && IsListPrefix(text[q..k])
      ensures ListPrefixEnd(text, q).Some? && k <= ListPrefixEnd(text, q).value
    {
      ListPrefixLongest(text, q, k);
    }
    ListPrefixFound(text, q);
  }

  /** The shape of a found list prefix, and when none is found. */
  lemma ListPrefixFound(text: string, q: nat)
    requires q <= |text|
    ensures var r := ListPrefixEnd(text, q);
      r.Some? ==> r.value <= RunEnd(text, q, Content) && IsListPrefix(text[q..r.value])
    ensures ListPrefixEnd(text, q).None? <==> NoListPrefix(text[q..RunEnd(text, q, Content)])
  {
    var le := RunEnd(text, q, Content);
    ListPrefixFoundShape(text, q);
    if ListPrefixEnd(text, q).None? {
      ListPrefixComplete(text, q);
    } else {
      var r := ListPrefixEnd(text, q).value;
      assert text[q..le][..r - q] == text[q..r];
    }
  }

  lemma ListPrefixFoundShape(text: string, q: nat)
    requires q <= |text|
    ensures var r := ListPrefixEnd(text, q);
      r.Some? ==> r.value <= RunEnd(text, q, Content) && IsListPrefix(text[q..r.value])
  {
    MarkPrefixShape(text, q);
    ClosedEndShape(text, q, WordChar, {')', ':'});
    ClosedEndShape(text, q, Digit, {'.'});
  }

  /** A stretch of characters of a class lies inside the class's run. */
  lemma SpanEndCovers(text: string, i: nat, j: nat, cls: WordsClass)
    requires i <= j <= |text| && AllInWords(text, i, j, cls)
    ensures j <= SpanEnd(text, i, cls)
  {
  }

  /** Blanks at the end of a slice are blanks of the text. */
  lemma BlanksOfSlice(text: string, q: nat, k: nat, i: nat)
    requires q <= k <= |text| && i <= k - q && AllIn(text[q..k], i, k - q, Blank)
    ensures AllIn(text, q + i, k, Blank)
  {
    forall j | q + i <= j < k ensures InClass(Blank, text[j]) {
      assert text[q..k][j - q] == text[j];
    }
  }

  /** The list-prefix group is the longest start of the line with a list
      prefix's shape, and of the same alternative as every other such start:
      the alternatives never apply at the same place (a list mark is no word
      character, and `\w+` and `\d+` end where the same character follows),
      so this is the first alternative that applies, each quantifier taken
      longest. In particular every blank after it is taken. */
  lemma ListPrefixLongest(text: string, q: nat, k: nat)
    requires q < k <= |text| && IsListPrefix(text[q..k])
    ensures var r := ListPrefixEnd(text, q);
      && r.Some? && k <= r.value
      && (MarkListPrefix(text[q..k]) ==> MarkListPrefix(text[q..r.value]))
      && (ClosedListPrefix(text[q..k], WordChar, {')', ':'}) ==> ClosedListPrefix(text[q..r.value], WordChar, {')', ':'}))
      && (ClosedListPrefix(text[q..k], Digit, {'.'}) ==> ClosedListPrefix(text[q..r.value], Digit, {'.'}))
  {
    var s := text[q..k];
    if MarkListPrefix(s) {
      MarkLongest(text, q, k);
    }
    if ClosedListPrefix(s, WordChar, {')', ':'}) {
      WordLongest(text, q, k);
    }
    if ClosedListPrefix(s, Digit, {'.'}) {
      DigitLongest(text, q, k);
    }
  }

  lemma MarkLongest(text: string, q: nat, k: nat)
    requires q < k <= |text| && MarkListPrefix(text[q..k])
    ensures var r := ListPrefixEnd(text, q);
      r.Some? && k <= r.value && MarkListPrefix(text[q..r.value])
  {
    var m := SpanEnd(text, q, ListMark);
    MarkPrefixShape(text, q);
    SpanEndInSlice(text, q, k, ListMark);
    if k > m {
      BlanksOfSlice(text, q, k, m - q);
      RunCovers(text, m, k, Blank);
    }
  }

  lemma WordLongest(text: string, q: nat, k: nat)
    requires q < k <= |text| && ClosedListPrefix(text[q..k], WordChar, {')', ':'})
    ensures var r := ListPrefixEnd(text, q);
      r.Some? && k <= r.value && ClosedListPrefix(text[q..r.value], WordChar, {')', ':'})
  {
    var s := text[q..k];
    assert s[0] == text[q];
    ClosedEndShape(text, q, WordChar, {')', ':'});
    SpanEndInSlice(text, q, k, WordChar);
    var a := SpanEnd(text, q, WordChar);
    assert s[a - q] == text[a];
    BlanksOfSlice(text, q, k, a - q + 1);
    RunCovers(text, a + 1, k, Blank);
    assert SpanEnd(text, q, ListMark) == q;
  }

  lemma DigitLongest(text: string, q: nat, k: nat)
    requires q < k <= |text| && ClosedListPrefix(text[q..k], Digit, {'.'})
    ensures var r := ListPrefixEnd(text, q);
      r.Some? && k <= r.value && ClosedListPrefix(text[q..r.value], Digit, {'.'})
  {
    var s := text[q..k];
    assert s[0] == text[q];
    ClosedEndShape(text, q, Digit, {'.'});
    SpanEndInSlice(text, q, k, Digit);
    var d := SpanEnd(text, q, Digit);
    var w := SpanEnd(text, q, WordChar);
    assert s[d - q] == text[d];
    SpanEndCovers(text, q, d, WordChar);
    assert w == d;
    BlanksOfSlice(text, q, k, d - q + 1);
    RunCovers(text, d + 1, k, Blank);
    assert SpanEnd(text, q, ListMark) == q;
  }

  /** The list prefix lies inside the line. */
  lemma ListPrefixInLine(text: string, q: nat)
    requires q <= |text|
    ensures ListPrefixEnd(text, q).Some? ==> ListPrefixEnd(text, q).value <= RunEnd(text, q, Content)
  {
    MarkPrefixShape(text, q);
    ClosedEndShape(text, q, WordChar, {')', ':'});
    ClosedEndShape(text, q, Digit, {'.'});
  }

  /** The first alternative, when it applies, covers a list prefix of its
      shape inside the line. */
  lemma MarkPrefixShape(text: string, q: nat)
    requires q <= |text|
    ensures var m := SpanEnd(text, q, ListMark);
      m > q ==> RunEnd(text, m, Blank) <= RunEnd(text, q, Content) && MarkListPrefix(text[q..RunEnd(text, m, Blank)])
  {
    var m := SpanEnd(text, q, ListMark);
    if m > q {
      var b := RunEnd(text, m, Blank);
      SpanEndInSlice(text, q, b, ListMark);
      assert AllIn(text, q, b, Content) by {
        forall i | q <= i < b ensures InClass(Content, text[i]) {
          if i < m { assert InWordsClass(ListMark, text[i]); } else { assert InClass(Blank, text[i]); }
        }
      }
      RunCovers(text, q, b, Content);
      var s := text[q..b];
      assert AllIn(s, m - q, |s|, Blank) by {
        forall i | m - q <= i < |s| ensures InClass(Blank, s[i]) { assert s[i] == text[q + i]; }
      }
    }
  }

  /** When no alternative applies at `q`, no start of the line is a list prefix. */
  lemma ListPrefixComplete(text: string, q: nat)
    requires q <= |text| && ListPrefixEnd(text, q).None?
    ensures NoListPrefix(text[q..RunEnd(text, q, Content)])
  {
    var le := RunEnd(text, q, Content);
    forall k | 0 < k <= le - q ensures !IsListPrefix(text[q..le][..k]) {
      assert text[q..le][..k] == text[q..q + k];
      NoAlternativeAt(text, q, q + k);
    }
  }

  lemma NoAlternativeAt(text: string, q: nat, k: nat)
    requires q < k <= |text| && ListPrefixEnd(text, q).None?
    ensures !IsListPrefix(text[q..k])
  {
    SpanEndInSlice(text, q, k, ListMark);
    if ClosedListPrefix(text[q..k], WordChar, {')', ':'}) {
      ClosedEndComplete(text, q, k, WordChar, {')', ':'});
    }
    if ClosedListPrefix(text[q..k], Digit, {'.'}) {
      ClosedEndComplete(text, q, k, Digit, {'.'});
    }
  }

  // ---------------------------------------------------------------- words

  /** The characters of the `line` group: no CR or LF. */
  predicate IsContent(s: string) {
    AllIn(s, 0, |s|, Content)
  }

  /** A capture of the words group: a non-empty run of non-blank characters. */
  predicate IsWord(w: string) {
    |w| > 0 && AllInWords(w, 0, |w|, NonBlank)
  }

  /** The captures of `((?<words>[^\t\r\n ]+)*[\t ]*)*` over a line: the
      maximal runs of non-blank characters, in order. */
  function Words(s: string): (r: seq<string>)
    requires IsContent(s)
    ensures forall i :: 0 <= i < |r| ==> IsWord(r[i])
    decreases |s|
  {
    if s == [] then []
    else if InClass(Blank, s[0]) then
      assert IsContent(s[1..]) by { assert forall i :: 0 <= i < |s| - 1 ==> s[1..][i] == s[i + 1]; }
      Words(s[1..])
    else
      var e := SpanEnd(s, 0, NonBlank);
      assert IsContent(s[e..]) by { assert forall i :: 0 <= i < |s| - e ==> s[e..][i] == s[e + i]; }
      assert IsWord(s[..e]) by { assert forall i :: 0 <= i < e ==> s[..e][i] == s[i]; }
      [s[..e]] + Words(s[e..])
  }

  /** The characters of the words, put together. */
  function Concat(ws: seq<string>): string {
    if ws == [] then "" else ws[0] + Concat(ws[1..])
  }

  /** The non-blank characters of a text, in order. */
  function NonBlanks(s: string): (r: string)
    ensures |r| <= |s|
  {
    if s == [] then "" else (if InClass(Blank, s[0]) then "" else [s[0]]) + NonBlanks(s[1..])
  }

  lemma {:induction false} NonBlanksAppend(a: string, b: string)
    ensures NonBlanks(a + b) == NonBlanks(a) + NonBlanks(b)
    decreases |a|
  {
    if a != [] {
      assert (a + b)[0] == a[0] && (a + b)[1..] == a[1..] + b;
      NonBlanksAppend(a[1..], b);
    } else {
      assert a + b == b;
    }
  }

  lemma {:induction false} NonBlanksOfWord(w: string)
    requires AllInWords(w, 0, |w|, NonBlank)
    ensures NonBlanks(w) == w
    decreases |w|
  {
    if w != [] {
      assert AllInWords(w[1..], 0, |w| - 1, NonBlank) by { assert forall i :: 0 <= i < |w| - 1 ==> w[1..][i] == w[i + 1]; }
      NonBlanksOfWord(w[1..]);
      assert [w[0]] + w[1..] == w;
    }
  }

  /** The words hold every non-blank character of the line, in order, and
      nothing else. */
  lemma {:induction false} WordsConcat(s: string)
    requires IsContent(s)
    ensures Concat(Words(s)) == NonBlanks(s)
    decreases |s|
  {
    if s == [] {
    } else if InClass(Blank, s[0]) {
      assert IsContent(s[1..]) by { assert forall i :: 0 <= i < |s| - 1 ==> s[1..][i] == s[i + 1]; }
      WordsConcat(s[1..]);
    } else {
      var e := SpanEnd(s, 0, NonBlank);
      assert IsContent(s[e..]) by { assert forall i :: 0 <= i < |s| - e ==> s[e..][i] == s[e + i]; }
      assert AllInWords(s[..e], 0, e, NonBlank) by { assert forall i :: 0 <= i < e ==> s[..e][i] == s[i]; }
      WordsConcat(s[e..]);
      var ws := Words(s);
      assert ws[1..] == Words(s[e..]);
      NonBlanksOfWord(s[..e]);
      assert s == s[..e] + s[e..];
      NonBlanksAppend(s[..e], s[e..]);
    }
  }

  /** Words separated by single spaces split back into the same words. */
  lemma {:induction false} WordsOfJoin(ws: seq<string>)
    requires forall i :: 0 <= i < |ws| ==> IsWord(ws[i])
    ensures IsContent(Join(ws, " ")) && Words(Join(ws, " ")) == ws
    decreases |ws|
  {
    if |ws| == 0 {
    } else {
      var w := ws[0];
      var rest := Join(ws[1..], " ");
      var s := Join(ws, " ");
      WordsOfJoin(ws[1..]);
      if |ws| == 1 {
        assert s == w;
        SpanEndUnique(s, 0, |w|, NonBlank);
        assert s[..|w|] == w && s[|w|..] == [];
      } else {
        assert s == w + (" " + rest);
        WordThenBlank(w, " " + rest);
        assert (" " + rest)[1..] == rest;
      }
    }
  }

  /** A word followed by text that is empty or starts with a blank: the word
      is the first capture, and the rest are those of the text after it. */
  lemma WordThenBlank(w: string, rest: string)
    requires IsWord(w) && IsContent(rest)
    requires rest == [] || InClass(Blank, rest[0])
    ensures IsContent(w + rest) && Words(w + rest) == [w] + Words(rest)
  {
    var s := w + rest;
    assert IsContent(s) by {
      forall i | 0 <= i < |s| ensures InClass(Content, s[i]) {
        if i < |w| { assert s[i] == w[i]; } else { assert s[i] == rest[i - |w|]; }
      }
    }
    if rest != [] {
      assert s[|w|] == rest[0];
    }
    SpanEndUnique(s, 0, |w|, NonBlank);
    assert s[..|w|] == w;
    assert s[|w|..] == rest;
  }

  /** Blanks only. */
  predicate IsBlanks(s: string) {
    AllIn(s, 0, |s|, Blank)
  }

  /** The text `gaps[0] + ws[0] + gaps[1] + ... + ws[n - 1] + gaps[n]`. */
  function Layout(gaps: seq<string>, ws: seq<string>): string
    requires |gaps| == |ws| + 1
    decreases |ws|
  {
    if ws == [] then gaps[0] else gaps[0] + ws[0] + Layout(gaps[1..], ws[1..])
  }

  /** Gaps that separate words: blanks only, and at least one blank between
      two words (the first and the last gap may be empty). */
  predicate Separates(gaps: seq<string>) {
    && (forall i :: 0 <= i < |gaps| ==> IsBlanks(gaps[i]))
    && (forall i :: 0 < i < |gaps| - 1 ==> |gaps[i]| > 0)
  }

  /** Leading blanks add no capture. */
  lemma {:induction false} WordsSkipBlanks(b: string, u: string)
    requires IsBlanks(b) && IsContent(u)
    ensures IsContent(b + u) && Words(b + u) == Words(u)
    decreases |b|
  {
    var s := b + u;
    assert IsContent(s) by {
      forall i | 0 <= i < |s| ensures InClass(Content, s[i]) {
        if i < |b| { assert s[i] == b[i]; } else { assert s[i] == u[i - |b|]; }
      }
    }
    if b != [] {
      assert IsBlanks(b[1..]) by { assert forall i :: 0 <= i < |b| - 1 ==> b[1..][i] == b[i + 1]; }
      WordsSkipBlanks(b[1..], u);
      assert s[0] == b[0] && s[1..] == b[1..] + u;
    } else {
      assert s == u;
    }
  }

  /** Text split into words with blanks between them: the words are exactly
      the captures, whatever blanks (spaces or tabs, one or more) separate
      them. So the captures are the only way to cut the text into maximal
      blank-free runs. */
  lemma {:induction false} WordsOfLayout(gaps: seq<string>, ws: seq<string>)
    requires |gaps| == |ws| + 1 && Separates(gaps)
    requires forall i :: 0 <= i < |ws| ==> IsWord(ws[i])
    ensures IsContent(Layout(gaps, ws)) && Words(Layout(gaps, ws)) == ws
    decreases |ws|
  {
    if ws == [] {
      assert Layout(gaps, ws) == gaps[0] + [];
      WordsSkipBlanks(gaps[0], []);
    } else {
      var rest := Layout(gaps[1..], ws[1..]);
      assert Separates(gaps[1..]) by {
        assert forall i :: 0 <= i < |gaps| - 1 ==> gaps[1..][i] == gaps[i + 1];
      }
      WordsOfLayout(gaps[1..], ws[1..]);
      if |ws| > 1 {
        assert rest == gaps[1] + ws[1] + Layout(gaps[2..], ws[2..]);
        assert rest[0] == gaps[1][0];
      } else {
        assert rest == gaps[1];
      }
      WordThenBlank(ws[0], rest);
      WordsSkipBlanks(gaps[0], ws[0] + rest);
      assert Layout(gaps, ws) == gaps[0] + (ws[0] + rest);
      assert ws == [ws[0]] + ws[1..];
    }
  }

  /** The blanks around the captures of `s`: before the first, between two,
      and after the last. */
  function Gaps(s: string): (r: seq<string>)
    requires IsContent(s)
    ensures |r| == |Words(s)| + 1
    decreases |s|
  {
    if s == [] then [""]
    else if InClass(Blank, s[0]) then
      assert IsContent(s[1..]) by { assert forall i :: 0 <= i < |s| - 1 ==> s[1..][i] == s[i + 1]; }
      var g := Gaps(s[1..]);
      [[s[0]] + g[0]] + g[1..]
    else
      var e := SpanEnd(s, 0, NonBlank);
      assert IsContent(s[e..]) by { assert forall i :: 0 <= i < |s| - e ==> s[e..][i] == s[e + i]; }
      [""] + Gaps(s[e..])
  }

  /** The captures and the blanks around them make up the whole text. */
  lemma {:induction false} LayoutOfWords(s: string)
    requires IsContent(s)
    ensures Separates(Gaps(s)) && Layout(Gaps(s), Words(s)) == s
    decreases |s|
  {
    if s == [] {
    } else if InClass(Blank, s[0]) {
      assert IsContent(s[1..]) by { assert forall i :: 0 <= i < |s| - 1 ==> s[1..][i] == s[i + 1]; }
      LayoutOfWords(s[1..]);
      LayoutConsBlank(s[0], Gaps(s[1..]), Words(s[1..]), s[1..]);
      assert s == [s[0]] + s[1..];
    } else {
      var e := SpanEnd(s, 0, NonBlank);
      assert IsContent(s[e..]) by { assert forall i :: 0 <= i < |s| - e ==> s[e..][i] == s[e + i]; }
      var ws := Words(s[e..]);
      var gaps' := Gaps(s[e..]);
      LayoutOfWords(s[e..]);
      if ws != [] {
        assert Layout(gaps', ws) == gaps'[0] + (ws[0] + Layout(gaps'[1..], ws[1..]));
        GapAfterWord(s, e, gaps'[0], ws[0] + Layout(gaps'[1..], ws[1..]));
      }
      LayoutConsWord(s[..e], gaps', ws, s[e..]);
      assert s == s[..e] + s[e..];
    }
  }

  /** A blank in front of a layout joins its first gap. */
  lemma LayoutConsBlank(c: char, gaps': seq<string>, ws: seq<string>, t: string)
    requires InClass(Blank, c) && |gaps'| == |ws| + 1 && Separates(gaps') && Layout(gaps', ws) == t
    ensures var gaps := [[c] + gaps'[0]] + gaps'[1..];
      |gaps| == |ws| + 1 && Separates(gaps) && Layout(gaps, ws) == [c] + t
  {
    var gaps := [[c] + gaps'[0]] + gaps'[1..];
    forall i | 0 <= i < |gaps| ensures IsBlanks(gaps[i]) {
      if i == 0 {
        forall j | 0 <= j < |gaps[0]| ensures InClass(Blank, gaps[0][j]) {
          if j > 0 { assert gaps[0][j] == gaps'[0][j - 1]; }
        }
      } else {
        assert gaps[i] == gaps'[i];
      }
    }
    forall i | 0 < i < |gaps| - 1 ensures |gaps[i]| > 0 {
      assert gaps[i] == gaps'[i];
    }
    if ws == [] {
      assert Layout(gaps, ws) == gaps[0];
    } else {
      var rest := Layout(gaps'[1..], ws[1..]);
      assert gaps[1..] == gaps'[1..];
      assert Layout(gaps, ws) == gaps[0] + ws[0] + rest;
      assert gaps[0] + ws[0] + rest == [c] + (gaps'[0] + ws[0] + rest);
    }
  }

  /** A word in front of a layout starts it, after an empty gap. */
  lemma LayoutConsWord(w: string, gaps': seq<string>, ws: seq<string>, t: string)
    requires |gaps'| == |ws| + 1 && Separates(gaps') && Layout(gaps', ws) == t
    requires ws != [] ==> |gaps'[0]| > 0
    ensures var gaps := [""] + gaps';
      |gaps| == |ws| + 2 && Separates(gaps) && Layout(gaps, [w] + ws) == w + t
  {
    var gaps := [""] + gaps';
    assert gaps[1..] == gaps';
    assert ([w] + ws)[1..] == ws;
    forall i | 0 <= i < |gaps| ensures IsBlanks(gaps[i]) {
      if i > 0 { assert gaps[i] == gaps'[i - 1]; }
    }
    forall i | 0 < i < |gaps| - 1 ensures |gaps[i]| > 0 {
      assert gaps[i] == gaps'[i - 1];
    }
    assert Layout(gaps, [w] + ws) == "" + w + t;
  }

  /** After the run of non-blanks ends at `e`, the text goes on with a blank,
      so the gap it starts with is not empty. */
  lemma GapAfterWord(s: string, e: nat, g: string, w: string)
    requires IsContent(s) && e < |s| && !InWordsClass(NonBlank, s[e])
    requires s[e..] == g + w && |w| > 0 && !InClass(Blank, w[0])
    ensures |g| > 0
  {
  }

  // ---------------------------------------------------------------- the match

  /** The match of the words regex that starts at `p`, if any. */
  function WordsMatchAt(text: string, p: nat): (r: Option<WordsMatch>)
    requires p <= |text|
    ensures r.Some? ==> r.value.index == p && p <= r.value.end <= |text|
    ensures r.Some? <==> AtLineStart(text, p) && LineTail(text, p).Some?
    ensures r.Some? && r.value.listPrefix.Some? ==> |r.value.listPrefix.value| <= |r.value.line|
  {
    var q := RunEnd(text, p, Blank);
    RunCovers(text, p, q, Content);
    RunEndSkip(text, p, q, Content);
    if !AtLineStart(text, p) then None
    else
      match LineTail(text, q)
      case None => None
      case Some(end) =>
        var le := RunEnd(text, q, Content);
        ListPrefixInLine(text, q);
        var lp := ListPrefixEnd(text, q);
        var w := if lp.Some? then lp.value else q;
        assert IsContent(text[w..le]) by {
          forall i | 0 <= i < le - w ensures InClass(Content, text[w..le][i]) { assert text[w..le][i] == text[w + i]; }
        }
        Some(WordsMatch(p, text[p..q], text[q..le], if lp.Some? then Some(text[q..lp.value]) else None,
                        Words(text[w..le]), end))
  }

  /** The indent and line groups of a match: the indent is every blank at
      the line start and the line all the rest up to the CR or LF. */
  lemma WordsMatchIndent(text: string, p: nat)
    requires p <= |text| && WordsMatchAt(text, p).Some?
    ensures var m := WordsMatchAt(text, p).value;
      && m.indent + m.line == text[p..RunEnd(text, p, Content)]
      && AllIn(m.indent, 0, |m.indent|, Blank)
      && (|m.line| > 0 ==> !InClass(Blank, m.line[0]))
      && IsContent(m.line)
  {
    var q := RunEnd(text, p, Blank);
    RunCovers(text, p, q, Content);
    RunEndSkip(text, p, q, Content);
    IndentThenLine(text, p, q, RunEnd(text, q, Content));
  }

  /** The blanks from `p` and the rest of the line after them. */
  lemma IndentThenLine(text: string, p: nat, q: nat, le: nat)
    requires p <= q <= le <= |text|
    requires q == RunEnd(text, p, Blank) && le == RunEnd(text, q, Content) && le == RunEnd(text, p, Content)
    ensures text[p..q] + text[q..le] == text[p..le]
    ensures AllIn(text[p..q], 0, q - p, Blank) && IsContent(text[q..le])
    ensures q < le ==> !InClass(Blank, text[q..le][0])
  {
    assert text[p..le] == text[p..q] + text[q..le];
    SliceOfClass(text, p, q, Blank);
    SliceOfClass(text, q, le, Content);
    if q < le {
      assert text[q..le][0] == text[q];
    }
  }

  /** The list-prefix group of a match: it begins the line, has the shape
      of one alternative and is the longest start of the line that has one,
      and it is missing only when no alternative applies. */
  lemma WordsMatchListPrefix(text: string, p: nat)
    requires p <= |text| && WordsMatchAt(text, p).Some?
    ensures var m := WordsMatchAt(text, p).value;
      && (m.listPrefix.Some? ==> m.listPrefix.value <= m.line && IsListPrefix(m.listPrefix.value))
      && (forall k :: 0 < k <= |m.line| && IsListPrefix(m.line[..k]) ==>
            m.listPrefix.Some? && k <= |m.listPrefix.value|)
      && (m.listPrefix.None? <==> NoListPrefix(m.line))
  {
    var m := WordsMatchAt(text, p).value;
    var q := RunEnd(text, p, Blank);
    var le := RunEnd(text, q, Content);
    var lp := ListPrefixEnd(text, q);
    ListPrefixShape(text, q);
    assert m.line == text[q..le];
    if lp.Some? {
      assert text[q..lp.value] <= text[q..le];
    }
    forall k | 0 < k <= |m.line| && IsListPrefix(m.line[..k])
      ensures m.listPrefix.Some? && k <= |m.listPrefix.value|
    {
      assert m.line[..k] == text[q..q + k];
    }
  }

  /** The words group of a match: its captures are the words of the line
      after the list prefix. */
  lemma WordsMatchWords(text: string, p: nat)
    requires p <= |text| && WordsMatchAt(text, p).Some?
    ensures var m := WordsMatchAt(text, p).value;
      var rest := m.line[if m.listPrefix.Some? then |m.listPrefix.value| else 0..];
      IsContent(rest) && m.words == Words(rest)
  {
    var m := WordsMatchAt(text, p).value;
    var q := RunEnd(text, p, Blank);
    var le := RunEnd(text, q, Content);
    var lp := ListPrefixEnd(text, q);
    ListPrefixInLine(text, q);
    var w := if lp.Some? then lp.value else q;
    assert m.line == text[q..le];
    assert m.listPrefix == (if lp.Some? then Some(text[q..lp.value]) else None);
    assert m.words == Words(text[w..le]);
    ContentSlice(text, q, w, le);
  }

  /** The part of the line group after the list prefix is the slice of the
      text from the prefix end, and holds only content characters. */
  lemma ContentSlice(text: string, q: nat, w: nat, le: nat)
    requires q <= w <= le <= |text| && AllIn(text, q, le, Content)
    ensures IsContent(text[w..le]) && text[q..le][w - q..] == text[w..le]
  {
    forall i | 0 <= i < le - w ensures InClass(Content, text[w..le][i]) {
      assert text[w..le][i] == text[w + i];
    }
  }

  /** Every line without CR or LF is matched whole: the indent and the line
      group together are the line. */
  lemma SingleLineWordsMatch(line: string)
    requires NoLineBreak(line)
    ensures var r := WordsMatchAt(line, 0);
      r.Some? && r.value.end == |line| && r.value.indent + r.value.line == line
  {
    RunEndUnique(line, 0, |line|, Content);
    RunEndUnique(line, |line|, |line|, CarriageReturn);
    WordsMatchIndent(line, 0);
  }
}
