/** The language-to-prefix registry, the keep-together spacer swap and the
    task-list token normalisation of the comment helper. */
module CodeCommentHelper {
  import opened Wrappers

  /** The languages a document can be in. `OtherLanguage` stands for every
      member of the host's language enumeration that the registry does not name. */
  datatype CodeLanguage =
    | Unknown
    | CPlusPlus | CSharp | CSS | FSharp | JavaScript | LESS | PHP | SCSS | TypeScript
    | PowerShell | R
    | VisualBasic
    | OtherLanguage(name: string)

  /** The three comment-prefix patterns: `///?`, `#+` and `'+`. */
  datatype PrefixPattern = SlashPrefix | HashPrefix | QuotePrefix {
    /** The pattern's text as it is spliced into the line regex. */
    function Pattern(): string {
      match this
      case SlashPrefix => "///?"
      case HashPrefix => "#+"
      case QuotePrefix => "'+"
    }
  }

  datatype HelperError = NoCommentPrefix(language: CodeLanguage)

  predicate IsCFamily(language: CodeLanguage) {
    || language == CPlusPlus || language == CSharp || language == CSS
    || language == FSharp || language == JavaScript || language == LESS
    || language == PHP || language == SCSS || language == TypeScript
  }

  predicate IsScriptFamily(language: CodeLanguage) {
    language == PowerShell || language == R
  }

  /** The comment prefix for a language; an unmapped language is an error. */
  function GetCommentPrefixForLanguage(language: CodeLanguage): (r: Result<PrefixPattern, HelperError>)
    ensures IsCFamily(language) <==> r == Ok(SlashPrefix)
    ensures IsScriptFamily(language) <==> r == Ok(HashPrefix)
    ensures language == VisualBasic <==> r == Ok(QuotePrefix)
    ensures r.Err? <==> !IsCFamily(language) && !IsScriptFamily(language) && language != VisualBasic
    ensures r.Err? ==> r.error == NoCommentPrefix(language)
  {
    match language
    case CPlusPlus => Ok(SlashPrefix)
    case CSharp => Ok(SlashPrefix)
    case CSS => Ok(SlashPrefix)
    case FSharp => Ok(SlashPrefix)
    case JavaScript => Ok(SlashPrefix)
    case LESS => Ok(SlashPrefix)
    case PHP => Ok(SlashPrefix)
    case SCSS => Ok(SlashPrefix)
    case TypeScript => Ok(SlashPrefix)
    case PowerShell => Ok(HashPrefix)
    case R => Ok(HashPrefix)
    case VisualBasic => Ok(QuotePrefix)
    case _ => Err(NoCommentPrefix(language))
  }

  /** The character that stands for a space inside a keep-together run. */
  const KeepTogetherSpacer: char := '\U{7}'
  const Spacer: char := ' '

  /** string.Replace(char, char): every `from` becomes `to`, nothing else changes. */
  function Replace(value: string, from: char, to: char): (r: string)
    ensures |r| == |value|
    ensures forall i :: 0 <= i < |value| ==> r[i] == (if value[i] == from then to else value[i])
  {
    if value == [] then []
    else [if value[0] == from then to else value[0]] + Replace(value[1..], from, to)
  }

  function SpaceToFake(value: string): (r: string)
    ensures |r| == |value|
    ensures Spacer !in r
    ensures forall i :: 0 <= i < |value| && value[i] != Spacer ==> r[i] == value[i]
  {
    Replace(value, Spacer, KeepTogetherSpacer)
  }

  function FakeToSpace(value: string): (r: string)
    ensures |r| == |value|
    ensures KeepTogetherSpacer !in r
    ensures forall i :: 0 <= i < |value| && value[i] != KeepTogetherSpacer ==> r[i] == value[i]
  {
    Replace(value, KeepTogetherSpacer, Spacer)
  }

  /** Collapsing spaces to the sentinel and expanding them back is the identity
      on text that does not already hold the sentinel. */
  lemma FakeToSpaceUndoesSpaceToFake(value: string)
    requires KeepTogetherSpacer !in value
    ensures FakeToSpace(SpaceToFake(value)) == value
  {
    var r := FakeToSpace(SpaceToFake(value));
    assert forall i :: 0 <= i < |value| ==> r[i] == value[i];
  }

  /** string.LastIndexOf(char): -1 when the character does not occur. */
  function LastIndexOf(s: string, c: char): (i: int)
    ensures -1 <= i < |s|
    ensures i >= 0 ==> s[i] == c
    ensures forall k :: i < k < |s| ==> s[k] != c
  {
    if |s| == 0 then -1
    else if s[|s| - 1] == c then |s| - 1
    else LastIndexOf(s[..|s| - 1], c)
  }

  /** A task-list setting "NAME:PRIORITY" becomes the ignore token "NAME: ":
      the text up to and including its last colon, then one space. */
  function TaskListToken(token: string): (r: string)
    ensures |r| >= 1 && r[|r| - 1] == ' '
    ensures r[..|r| - 1] <= token
    ensures ':' !in token <==> r == " "
    ensures ':' in token ==> |r| >= 2 && r[|r| - 2] == ':' && ':' !in token[|r| - 1..]
  {
    var k := LastIndexOf(token, ':');
    var r := token[..k + 1] + " ";
    assert r[..|r| - 1] == token[..k + 1];
    assert ':' in token ==> k >= 0 by {
      if ':' in token { var j :| 0 <= j < |token| && token[j] == ':'; }
    }
    r
  }

  /** The per-token transform applied to the host's task-list settings, in order. */
  function GetTaskListTokens(tokens: seq<string>): (r: seq<string>)
    ensures |r| == |tokens|
    ensures forall i :: 0 <= i < |tokens| ==> r[i] == TaskListToken(tokens[i])
  {
    seq(|tokens|, i requires 0 <= i < |tokens| => TaskListToken(tokens[i]))
  }
}
