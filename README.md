# CodeMaid comment core, modelled in Dafny

This project models the front half of CodeMaid's comment reformatter. The formatter that reflows a comment's words is not part of this model. The front half has four parts:

- **Prefix registry and line matchers** (`CodeCommentHelper`). A language maps to one of three comment-prefix patterns: `///?`, `#+` or `'+`. The comment-line regex built from the pattern is a hand-written matcher (`CommentLineRegex`). A backtracking reference of the regex engine's search order is proved equal to it. The comment-words regex is a second matcher (`CommentWordsRegex`). The module also holds the keep-together spacer swap and the task-list token transform.
- **Comment block locator** (`CommentSearcher` and `CommentReader`). The two classes contain the same algorithm; both are classes whose `Find` updates the cached language and regex. `Find` scans down from a start line. At each line it expands up and down while lines match with the same prefix. A same-prefix line without the initial spacer voids the expansion. The loops are imperative methods in `CommentBlocks`. Each is proved equal to a function on the buffer's line classification, and block maximality and prefix uniformity are proved about that function.
- **Parser front end** (`CodeCommentParser.Parse`):
  - it runs `Regex.Matches` over the block text;
  - it takes the comment options from the first match;
  - it joins the `line` groups with `"\r\n"`;
  - it chooses between the XML reading and one plain line, and falls back to the plain line when the XML reading fails.

  On the text of a block the locator found, `Regex.Matches` gives one match per block line with that line's own groups, so `Parse` always succeeds there (`BlockText`). The whole command therefore never ends with a parse failure (`CommandOutcome`).
- **The formatting command** (`CommentFormatLogic.FormatComments`). It is a method over a mutable document (`TextDocument`, a class holding a `seq<string>` of lines) that repeats these steps:
  1. locate a block;
  2. parse and format it;
  3. replace its text only when the formatted text differs;
  4. move one line down and search again.

  The method is proved equal to a function (`FormatLoop.FormatFrom`). The loop's properties are lemmas about that function (`FormatLoopProperties`).

The host editor is modelled as follows:

- A document is a buffer of lines separated by a single line feed.
- An edit point is a document reference, a line and a column.
- `LineUp` and `LineDown` saturate at the first and last line.
- `AtEndOfDocument` after `LineDown` is modelled as "LineDown could not move" (see Left out).
- `GetText(start, end)` between a start of line and an end of line is the lines joined by line feeds.
- `Delete` plus `Insert` is the replacement of whole lines by the lines of the new text.
- The end point, which the editor shifts with the text, is modelled by `FormatLoop.ShiftedLine`.

Things the model takes as parameters:

- the parse of the `<doc>`-wrapped body by `XElement.Parse` followed by `CommentLineXml.Lines`: a function returning either no value or a sequence of opaque lines;
- the formatter's `Format(options)`: a function from a comment and options to text;
- the task-list tokens the IDE stores;
- the two settings the command reads.

Exceptions are modelled as `Err` results:

- `InvalidOperationException` for two documents becomes `CrossDocumentRange`;
- the one for a language without a prefix becomes `UnsupportedLanguage`;
- the null regex of a first search in language `Unknown` becomes `NullRegex`;
- the null dereference in `Parse` when no line matches becomes `NoCommentLines`.

Code behaviours the model follows:

- `CommentSearcher.Find` calls `GetCommentRegex`, which the helper does not define. It is taken to be `GetCommentLineRegex`, which `CommentReader.Find` calls.
- Neither regex is cached per language: every call to `GetCommentLineRegex` builds a new regex. The one cache is the searcher's pair of fields, refreshed only when the document's language differs from the cached one. That language is stored before the lookup, so a failed lookup leaves the previous language's regex in place (`CommentBlocks.StaleRegexAfterFailedLookup`).
- The parser does not match each physical line on its own. It runs `Regex.Matches` in multiline mode over the whole block text. With line-feed separators, a prefix with no space after it takes the line feed as its initial spacer, and its `line` group is then the next line. On a block the locator found this never happens, because every block line has its spacer (`BlockText.MatchesOfBlock`).
- When no line of the text matches, `Parse` dereferences the missing first match. The model gives `NoCommentLines` there.
- After a block, the command moves one line down with `LineDown`. On a block that ends on the document's last line it does not move at all (see Findings).

## Model

| member | source | states |
|---|---|---|
| CodeCommentHelper.GetCommentPrefixForLanguage | CodeMaid/Helpers/CodeCommentHelper.cs:74-98 | the nine C-family languages map exactly to `///?`, PowerShell and R exactly to `#+`, VisualBasic exactly to `'+`; every other language, Unknown included, is an error naming the language |
| CodeCommentHelper.Replace | CodeMaid/Helpers/CodeCommentHelper.cs:39 | `string.Replace` on one character: the same length, each occurrence replaced and every other character kept |
| CodeCommentHelper.SpaceToFake | CodeMaid/Helpers/CodeCommentHelper.cs:127-130 | keeps the length, leaves no space, keeps every character that is not a space |
| CodeCommentHelper.FakeToSpace | CodeMaid/Helpers/CodeCommentHelper.cs:37-40 | keeps the length, leaves no `'\a'`, keeps every character that is not `'\a'` |
| CodeCommentHelper.FakeToSpaceUndoesSpaceToFake | CodeMaid/Helpers/CodeCommentHelper.cs:37-40 | on text without `'\a'`, FakeToSpace after SpaceToFake gives the text back |
| CodeCommentHelper.LastIndexOf | CodeMaid/Helpers/CodeCommentHelper.cs:34 | -1 or the index of the character, with no later occurrence |
| CodeCommentHelper.TaskListToken | CodeMaid/Helpers/CodeCommentHelper.cs:32-34 | the token up to and including its last `':'`, then exactly one space; a token without `':'` becomes `" "` |
| CodeCommentHelper.GetTaskListTokens | CodeMaid/Helpers/CodeCommentHelper.cs:25-35 | one normalised token per stored token, in order |
| CommentLineRegex.GetCommentLineRegex | CodeMaid/Helpers/CodeCommentHelper.cs:100-111 | a regex exists exactly when the language has a prefix, and it carries that prefix; otherwise the prefix lookup's error |
| CommentLineRegex.LongestPrefixIsLongest | CodeMaid/Helpers/CodeCommentHelper.cs:109 | no prefix the pattern accepts ends after the one the matcher takes |
| CommentLineRegex.LongestPrefixEnd | CodeMaid/Helpers/CodeCommentHelper.cs:109 | the `prefix` group taken after the indent is a non-empty run inside the text that the prefix pattern accepts; that it is the longest is LongestPrefixIsLongest |
| CommentLineRegex.MatchAtWellFormed | CodeMaid/Helpers/CodeCommentHelper.cs:104-109 | a match at a line start has a blank indent, a prefix word of the pattern, an optional space/tab/CR/LF spacer and a line without CR or LF; these groups lie side by side in the text, followed by `\r*\n?` and an end of line |
| CommentLineRegex.PartsWellFormed | CodeMaid/Helpers/CodeCommentHelper.cs:109 | the groups cut at the ends the matcher finds form such a match |
| CommentLineRegex.MatchAtLongestPrefix | CodeMaid/Helpers/CodeCommentHelper.cs:109 | the prefix group of a match is the longest run the pattern accepts at that point |
| CommentLineRegex.TryCrGreedy | CodeMaid/Helpers/CodeCommentHelper.cs:109 | backtracking over `\r*\n?$` succeeds exactly after the whole run of CRs |
| CommentLineRegex.TryLineGreedy | CodeMaid/Helpers/CodeCommentHelper.cs:109 | backtracking over the `line` group takes it up to the first CR or LF, and fails exactly when the tail after it fails |
| CommentLineRegex.TrySpacerIsSpacerTail | CodeMaid/Helpers/CodeCommentHelper.cs:109 | trying the optional spacer first and then no spacer gives what the direct matcher gives |
| CommentLineRegex.TryPrefixBelowLongest | CodeMaid/Helpers/CodeCommentHelper.cs:109 | when the longest prefix fails, no shorter one succeeds |
| CommentLineRegex.TryPrefixAboveLongest | CodeMaid/Helpers/CodeCommentHelper.cs:109 | prefixes longer than the longest accepted one are skipped without effect |
| CommentLineRegex.TryPrefixGreedy | CodeMaid/Helpers/CodeCommentHelper.cs:109 | backtracking over the prefix group gives what the longest prefix gives |
| CommentLineRegex.TryIndentBelowLongest | CodeMaid/Helpers/CodeCommentHelper.cs:109 | an indent shorter than the run of blanks never matches |
| CommentLineRegex.TryIndentAboveRun | CodeMaid/Helpers/CodeCommentHelper.cs:109 | indents longer than the run of blanks are skipped without effect |
| CommentLineRegex.TryIndentAtRun | CodeMaid/Helpers/CodeCommentHelper.cs:109 | at the end of the run of blanks, backtracking finds what the direct matcher finds |
| CommentLineRegex.MatchAtIsBacktrackingMatch | CodeMaid/Helpers/CodeCommentHelper.cs:109-110 | at every position the direct matcher equals the first match in the engine's backtracking order |
| CommentLineRegex.MatchAt | CodeMaid/Helpers/CodeCommentHelper.cs:109-110 | a match at a position starts there and ends after it, inside the text; MatchAtWellFormed gives its groups and MatchAtIsBacktrackingMatch shows it is the engine's match |
| CommentLineRegex.BacktrackingMatchAt | CodeMaid/Helpers/CodeCommentHelper.cs:109-110 | the engine-order reference matches only at a line start (`^` under Multiline), and its match starts at that position and ends inside the text |
| CommentLineRegex.FirstMatchFromIsFirst | CodeMaid/Model/Comments/CommentSearcher.cs:124 | `Regex.Match` finds the match at the first position where one starts; when it finds none, there is none at any position |
| CommentLineRegex.FirstMatchFrom | CodeMaid/Model/Comments/CommentSearcher.cs:124 | a match found from a position starts at or after it and ends inside the text; that it is the leftmost one is FirstMatchFromIsFirst |
| CommentLineRegex.Match | CodeMaid/Model/Comments/CommentSearcher.cs:124 | `Regex.Match` on a text gives a match lying inside the text |
| CommentLineRegex.MatchesFrom | CodeMaid/Model/Comments/CodeCommentParser.cs:29 | `Regex.Matches` gives matches in text order that do not overlap, each one starting where the previous one ended or later |
| CommentLineRegex.Matches | CodeMaid/Model/Comments/CodeCommentParser.cs:29 | `Regex.Matches` over a whole text gives matches inside it, in text order and without overlap |
| CommentLineRegex.MatchesPrepend | CodeMaid/Model/Comments/CodeCommentParser.cs:29 | a match before later ordered matches keeps the sequence ordered |
| CommentLineRegex.MatchesFromAreMatches | CodeMaid/Model/Comments/CodeCommentParser.cs:29 | every element of `Matches` is the regex's match at its own index |
| CommentLineRegex.LineTailOnOneLine | CodeMaid/Helpers/CodeCommentHelper.cs:109 | on a line without CR or LF, the `line` group runs to the end of the line and the tail always matches |
| CommentLineRegex.NoLaterLineStart | CodeMaid/Model/Comments/CommentSearcher.cs:122-124 | on text without a line feed, no match starts after position 0 |
| CommentLineRegex.SingleLineMatch | CodeMaid/Model/Comments/CommentSearcher.cs:122-124 | on one line the match, if any, is at position 0; it exists exactly when a prefix follows the blanks; the groups are the blanks, the longest prefix, a following blank as spacer and the rest, and together they are the whole line |
| CommentBlocks.TrimStart | CodeMaid/Model/Comments/CommentSearcher.cs:130 | a suffix of the text that starts with no white space, with only white space removed |
| CommentBlocks.TrimStartOfPrefixWord | CodeMaid/Model/Comments/CommentSearcher.cs:130 | trimming a prefix group changes nothing |
| CommentBlocks.Classify | CodeMaid/Model/Comments/CommentSearcher.cs:124-142 | a line is a comment line exactly when the regex matches it |
| CommentBlocks.ClassifyLine | CodeMaid/Model/Comments/CommentSearcher.cs:121-142 | on one line: no prefix after the blanks means not a comment; otherwise the prefix is the longest one and the spacer is present exactly when a blank follows it |
| CommentBlocks.LineKinds | CodeMaid/Model/Comments/CommentSearcher.cs:121-124 | the classification of each line of the buffer |
| CommentBlocks.ExpandFrom | CodeMaid/Model/Comments/CommentSearcher.cs:119-167 | the do-while from a line: the result is the one carried in or a line of the document |
| CommentBlocks.ExpandDirection | CodeMaid/Model/Comments/CommentSearcher.cs:113-170 | the end line the expansion in one direction returns is in the document |
| CommentBlocks.RunLength | CodeMaid/Model/Comments/CommentSearcher.cs:125-153 | the length of the run of same-prefix lines with a spacer in one direction, and the line after it is not one |
| CommentBlocks.ExpandFromFollowsRun | CodeMaid/Model/Comments/CommentSearcher.cs:119-167 | the loop returns the last line of that run; it returns null when the run is followed by a same-prefix line without a spacer; an empty run keeps the earlier result |
| CommentBlocks.ExpandDirectionIsReference | CodeMaid/Model/Comments/CommentSearcher.cs:113-170 | the directional expansion equals its description as a run of block lines |
| CommentBlocks.RunLengthOfRun | CodeMaid/Model/Comments/CommentSearcher.cs:125-153 | any run of block lines ending at a non-block line has that length |
| CommentBlocks.ExpandBlock | CodeMaid/Model/Comments/CommentSearcher.cs:77-102 | a block found from a line contains it and lies in the document |
| CommentBlocks.DirectionShape | CodeMaid/Model/Comments/CommentSearcher.cs:125-166 | a found direction starts at a comment line with a spacer; every line up to its end has that prefix and a spacer; the line beyond the end is absent, not a match or of another prefix |
| CommentBlocks.ExpandBlockIsBlock | CodeMaid/Model/Comments/CommentSearcher.cs:77-102 | every block is uniform in prefix, has a spacer on every line and is maximal: the lines just outside it do not match or have another prefix |
| CommentBlocks.BlockFromAnyLine | CodeMaid/Model/Comments/CommentSearcher.cs:77-102 | expanding from any line of a maximal block gives that block |
| CommentBlocks.ExpandBlockNone | CodeMaid/Model/Comments/CommentSearcher.cs:84-161 | no block is found exactly when the line is not a comment, has no spacer, or either direction runs into a same-prefix line without a spacer |
| CommentBlocks.ExpandBlockParts | CodeMaid/Model/Comments/CommentSearcher.cs:84-97 | a block is found exactly when both directions find an end, and it spans from one end to the other |
| CommentBlocks.ScanFrom | CodeMaid/Model/Comments/CommentSearcher.cs:51-64 | the scan stops on a line between the start line and the end line, or one past it; a block it finds contains that line |
| CommentBlocks.ScanFromFindsFirstBlock | CodeMaid/Model/Comments/CommentSearcher.cs:51-66 | the scan returns the block of the first line from the start from which one expands, and nothing when no line up to the end line has one |
| CommentBlocks.BlockLocation | CodeMaid/Model/Comments/CommentSearcher.cs:99-101 | a block's location is valid, starts at column 0 of its first line, ends at the end of its last line and carries the language; no block gives None |
| CommentBlocks.ExpandPoint | CodeMaid/Model/Comments/CommentSearcher.cs:113-170 | the do-while loop returns the line ExpandDirection gives, keeping the point's document and column |
| CommentBlocks.ExpandAt | CodeMaid/Model/Comments/CommentSearcher.cs:77-102 | Expand(EditPoint) returns the location of ExpandBlock's block |
| CommentBlocks.ScanRange | CodeMaid/Model/Comments/CommentSearcher.cs:51-66 | Find's loop returns the location of ScanFrom's block and leaves the caller's start point on ScanFrom's last line |
| CommentBlocks.Lookup | CodeMaid/Model/Comments/CommentSearcher.cs:45-49 | the language is always stored; the regex is looked up only on a language change; a failed lookup keeps the old regex and raises |
| CommentBlocks.LookupKeepsCoherence | CodeMaid/Model/Comments/CommentSearcher.cs:45-49 | a cache holding its language's regex still does so after a lookup that does not raise |
| CommentBlocks.InitialCacheCoherent | CodeMaid/Model/Comments/CommentSearcher.cs:31-32 | the initial cache (Unknown, null) is coherent |
| CommentBlocks.StaleRegexAfterFailedLookup | CodeMaid/Model/Comments/CommentSearcher.cs:45-49 | after C# and then a language without a prefix, the next search in that language skips the lookup and uses the C# regex |
| CommentBlocks.SearchResult | CodeMaid/Model/Comments/CommentSearcher.cs:51-66 | a start after the end line gives None at once; only a null regex raises, and it leaves the point in place |
| CommentBlocks.FindWith | CodeMaid/Model/Comments/CommentSearcher.cs:38-67 | two documents raise before the cache is touched; otherwise the cache is updated as Lookup says, a failed lookup raises, and the scan gives SearchResult |
| CommentLocation.NewLocation | CodeMaid/Model/Comments/CommentReaderLocation.cs:8-14 | stores the points and language unchanged; valid exactly when both points are present |
| CommentLocation.NoLocation | CodeMaid/Model/Comments/CommentReaderLocation.cs:16 | None is not valid, has no points and carries language Unknown |
| CommentSearcher.CommentSearcher.constructor | CodeMaid/Model/Comments/CommentSearcher.cs:29-32 | the cache starts as language Unknown with no regex |
| CommentSearcher.CommentSearcher.Find | CodeMaid/Model/Comments/CommentSearcher.cs:38-67 | the class's Find updates its fields as Lookup says and returns what FindWith returns |
| CommentReader.CommentReader.constructor | CodeMaid/Model/Comments/CommentReader.cs:8-11 | the cache starts as language Unknown with no regex |
| CommentReader.CommentReader.Find | CodeMaid/Model/Comments/CommentReader.cs:17-46 | the same contract as the searcher's Find |
| CodeCommentParser.NewCodeCommentParser | CodeMaid/Model/Comments/CodeCommentParser.cs:20-25 | the parser stores the language and options and the language's regex; a language without a prefix raises |
| CodeCommentParser.LineGroups | CodeMaid/Model/Comments/CodeCommentParser.cs:44 | the `line` group of each match, in order |
| CodeCommentParser.CommentBody | CodeMaid/Model/Comments/CodeCommentParser.cs:44 | no match gives the empty body and one match gives its own `line` group; BodyOfBlock gives the body of a located block |
| CodeCommentParser.BodyMarkup | CodeMaid/Model/Comments/CodeCommentParser.cs:44-47 | the body holds a `'<'`, so the XML reading is tried, exactly when one of the `line` groups holds one |
| CodeCommentParser.ReadLines | CodeMaid/Model/Comments/CodeCommentParser.cs:46-64 | no `'<'`: one plain line holding the body; otherwise the XML reading of `<doc>` + body + `</doc>`, or that same plain line when it fails |
| CodeCommentParser.Parse | CodeMaid/Model/Comments/CodeCommentParser.cs:27-67 | fails exactly when nothing matches; otherwise the options are the first match's indent and prefix with the parser's language, and the lines are ReadLines of the `line` groups joined by `"\r\n"` |
| CodeCommentParser.OptionsIndependentOfXml | CodeMaid/Model/Comments/CodeCommentParser.cs:34-39 | success and the options do not depend on how the XML reading behaves |
| CodeCommentParser.PlainWithoutAngleBracket | CodeMaid/Model/Comments/CodeCommentParser.cs:47-64 | a body without `'<'` gives exactly one plain line holding the body |
| BlockText.MatchAtInWindow | CodeMaid/Helpers/CodeCommentHelper.cs:109 | a comment line with its spacer, standing at a line start of a text and followed by a line feed or the end, is matched there with the groups it has on its own, ending at the line's end |
| BlockText.FirstLineOfJoin | CodeMaid/Model/Comments/CodeCommentParser.cs:29 | in lines joined by line feeds, the first line gives the match at its start, which ends before the line feed; the rest of the text is the other lines joined |
| BlockText.MatchesStep | CodeMaid/Model/Comments/CodeCommentParser.cs:29 | after a match that ends a line without its line feed, Matches goes on from the next line |
| BlockText.MatchesOfJoin | CodeMaid/Model/Comments/CodeCommentParser.cs:29 | `Regex.Matches` over comment lines with their spacers joined by line feeds gives one match per line, each the line's own match moved to where the line stands |
| BlockText.BlockLineSpaced | CodeMaid/Model/Comments/CommentSearcher.cs:124-142 | a line the locator put in a block of prefix `p` is a comment line with its spacer whose prefix group is `p` |
| BlockText.AloneMatchShape | CodeMaid/Helpers/CodeCommentHelper.cs:109 | a spaced comment line's own match: the indent is all its leading blanks, the prefix the longest one, a space or tab spacer, and a `line` group without CR or LF that runs to the carriage returns ending the line |
| BlockText.MatchesOfBlock | CodeMaid/Model/Comments/CodeCommentParser.cs:29 | over a located block's text, Matches gives exactly one match per block line, each that line's own match, with the block's prefix |
| BlockText.SpacedGroups | CodeMaid/Helpers/CodeCommentHelper.cs:109 | a spaced comment line's own match with prefix `p` has BlockLineGroupsOf's groups: all leading blanks, `p` as the longest prefix, a space or tab spacer, and the rest of the line without its trailing CRs |
| BlockText.BlockMatchShape | CodeMaid/Model/Comments/CodeCommentParser.cs:29-44 | the i-th match Parse gets from a located block has line `s + i`'s leading blanks as indent, the block's prefix (the longest there), a blank spacer, and that line's text after the spacer with its trailing CRs removed as `line` group |
| BlockText.BodyOfBlock | CodeMaid/Model/Comments/CodeCommentParser.cs:44 | the `line` groups of those matches are the block lines' own `line` groups |
| BlockText.FirstOfBlock | CodeMaid/Model/Comments/CodeCommentParser.cs:34-39 | the first match's indent is the first block line's leading blanks and its prefix is the block's prefix |
| BlockText.ParseOfBlock | CodeMaid/Model/Comments/CodeCommentParser.cs:27-67 | Parse of a located block succeeds; the options are the first line's leading blanks, the block's prefix and the language; the body is the lines' own `line` groups joined by NewLine, and the lines are ReadLines of that body |
| CodeCommentParser.XmlFailureFallsBack | CodeMaid/Model/Comments/CodeCommentParser.cs:49-64 | a failed XML reading gives the same single plain line |
| TextLines.Join | CodeMaid/Logic/Formatting/CommentFormatLogic.cs:79 | joining no lines is empty, and joining one line is that line |
| TextLines.SplitLines | CodeMaid/Logic/Formatting/CommentFormatLogic.cs:91 | a text's lines: at least one, none holding a line feed |
| TextLines.JoinSplitLines | CodeMaid/Logic/Formatting/CommentFormatLogic.cs:91 | joining a text's lines gives the text back |
| TextLines.SplitJoinLines | CodeMaid/Logic/Formatting/CommentFormatLogic.cs:79 | splitting joined lines gives the lines back |
| TextDocument.TextDocument.constructor | CodeMaid/Logic/Formatting/CommentFormatLogic.cs:45 | a document whose lines join to its text |
| TextDocument.TextDocument.StartPoint | CodeMaid/Logic/Formatting/CommentFormatLogic.cs:49 | the start of the document is line 0, column 0 |
| TextDocument.TextDocument.EndPoint | CodeMaid/Logic/Formatting/CommentFormatLogic.cs:49 | the end of the document is the end of its last line |
| TextDocument.TextDocument.GetText | CodeMaid/Logic/Formatting/CommentFormatLogic.cs:79 | the text from one line's start to another's end splits back into exactly those lines |
| TextDocument.TextDocument.ReplaceLines | CodeMaid/Logic/Formatting/CommentFormatLogic.cs:89-91 | Delete then Insert: the lines become Replaced's, and the cursor ends on the inserted text's last line |
| TextDocument.MoveLine | CodeMaid/Model/Comments/CommentSearcher.cs:145-153 | LineUp and LineDown move one line, or stay exactly at the first and last line |
| TextDocument.Replaced | CodeMaid/Logic/Formatting/CommentFormatLogic.cs:89-91 | the lines before and after the range are kept, and the new range reads back as the inserted text |
| TextDocument.ReplacedValid | CodeMaid/Logic/Formatting/CommentFormatLogic.cs:89-91 | a replacement keeps at least one line and no line feed inside a line |
| FormatLoop.AfterFound | CodeMaid/Logic/Formatting/CommentFormatLogic.cs:78 | once a block is found the result is true unless a later pass fails; the buffer is untouched |
| FormatLoop.ShiftedLine | CodeMaid/Logic/Formatting/CommentFormatLogic.cs:89-91 | after lines s..e are replaced by n lines, a line before the block stays, a line inside it lands on the last inserted line, and a line after it keeps its distance from the block's end |
| FormatLoop.Kinds | CodeMaid/Model/Comments/CommentSearcher.cs:121-124 | the classification of each line |
| FormatLoop.FormatBlock | CodeMaid/Logic/Formatting/CommentFormatLogic.cs:79-98 | fails exactly when formatting fails; equal text leaves the buffer and the next line alone; changed text replaces exactly the block, reads back as the formatted text, and the next search starts from its last line |
| FormatLoop.LoopStep | CodeMaid/Logic/Formatting/CommentFormatLogic.cs:76-100 | the run stops with false and an unchanged buffer exactly when no block is found; a successful stop returns true exactly when one was found; a pass that goes on moves strictly closer to the end |
| FormatLoop.AsWrittenStep | CodeMaid/Logic/Formatting/CommentFormatLogic.cs:93-100 | the loop as written: after a block it always goes on from LineDown's line, so the next start stays in the buffer |
| FormatLoop.FormatFrom | CodeMaid/Logic/Formatting/CommentFormatLogic.cs:74-104 | inside the loop only parsing can fail, and a run that returns false has left the buffer unchanged; FoundIffBlock and FormatLoopFrom relate it to the first search and to the while loop |
| FormatLoopProperties.ShiftedLineFollowsText | CodeMaid/Logic/Formatting/CommentFormatLogic.cs:89-91 | the end point moves with the text: a line before or after the replaced range still points at the same text |
| FormatLoopProperties.FoundIffBlock | CodeMaid/Logic/Formatting/CommentFormatLogic.cs:61-103 | a run that does not fail returns true exactly when the first search finds a block |
| FormatLoopProperties.NothingFoundNothingChanged | CodeMaid/Logic/Formatting/CommentFormatLogic.cs:76-103 | no block: the buffer is unchanged and the result is false |
| FormatLoopProperties.UnchangedStep | CodeMaid/Logic/Formatting/CommentFormatLogic.cs:87-98 | a formatter that keeps every text leaves the buffer of a pass untouched |
| FormatLoopProperties.UnchangedTextNoEdit | CodeMaid/Logic/Formatting/CommentFormatLogic.cs:87-98 | such a formatter leaves the buffer of the whole run untouched |
| FormatLoopProperties.KeptBlockEdit | CodeMaid/Logic/Formatting/CommentFormatLogic.cs:95-98 | equal text: no edit, and the next search starts below the block's last line |
| FormatLoopProperties.StepOfBlock | CodeMaid/Logic/Formatting/CommentFormatLogic.cs:76-100 | a pass with a found block parses and formats it, then stops at the last line or goes on from the line below |
| FormatLoopProperties.RunUnfolds | CodeMaid/Logic/Formatting/CommentFormatLogic.cs:76-101 | a run is one pass followed by the rest of the run |
| FormatLoopProperties.AsWrittenStepAgreesElsewhere | CodeMaid/Logic/Formatting/CommentFormatLogic.cs:93-100 | the loop as written does what the corrected one does, except when the next start would be the buffer's last line |
| FormatLoopProperties.AsWrittenLoopRepeats | CodeMaid/Logic/Formatting/CommentFormatLogic.cs:93-100 | as written, a kept block on the last line leads to the same pass again |
| FormatLoopProperties.CorrectedLoopStops | CodeMaid/Logic/Formatting/CommentFormatLogic.cs:93-100 | the corrected loop stops there with true and the buffer unchanged |
| CommentFormatLogic.OptionsFor | CodeMaid/Logic/Formatting/CommentFormatLogic.cs:63-72 | the tab size is the document's; the ignore tokens are the normalised task-list tokens and then the user's list, in order |
| CommentFormatLogic.ParserFor | CodeMaid/Logic/Formatting/CommentFormatLogic.cs:81 | the parser built for the location's language |
| CommentFormatLogic.FormatText | CodeMaid/Logic/Formatting/CommentFormatLogic.cs:81-85 | fails exactly when Parse fails; otherwise the rendered comment |
| CommentFormatLogic.FormatterFor | CodeMaid/Logic/Formatting/CommentFormatLogic.cs:81-85 | the block step fails exactly when the language's parser fails on the text, and otherwise gives the rendered comment with the command's options |
| CommentFormatLogic.ClassifierFor | CodeMaid/Model/Comments/CommentSearcher.cs:121-142 | a line is a comment line exactly when the regex matches it; its prefix is the trimmed `prefix` group, and it has a spacer exactly when the `initialspacer` group is present |
| CommentFormatLogic.ClassifierKinds | CodeMaid/Logic/Formatting/CommentFormatLogic.cs:76 | the loop classifies lines as the searcher does |
| CommentFormatLogic.NothingFoundOutcome | CodeMaid/Logic/Formatting/CommentFormatLogic.cs:61-103 | when the first search finds nothing, the command changes nothing and returns false |
| CommentFormatLogic.FormatCommentsOutcome | CodeMaid/Logic/Formatting/CommentFormatLogic.cs:59-104 | a run that returns false leaves the buffer unchanged; the command fails with a search error exactly when the language has no regex and either the language is not Unknown (the lookup raises) or the range is not empty (the null regex is used), and then nothing changes |
| CommandOutcome.BlockFormats | CodeMaid/Logic/Formatting/CommentFormatLogic.cs:79-85 | the text of a block the locator found always parses, so the block formatter succeeds on it |
| CommandOutcome.FoundBlockIsBlock | CodeMaid/Model/Comments/CommentSearcher.cs:51-66 | the block the scan finds is uniform in some prefix, spaced and maximal |
| CommandOutcome.StepNeverFailsToParse | CodeMaid/Logic/Formatting/CommentFormatLogic.cs:76-101 | a pass that stops never stops with a parse failure, and a pass that goes on leaves no line feed inside a line |
| CommandOutcome.RunNeverFailsToParse | CodeMaid/Logic/Formatting/CommentFormatLogic.cs:76-103 | with the language's regex and parser, a whole run succeeds |
| CommandOutcome.CommandNeverFailsToParse | CodeMaid/Logic/Formatting/CommentFormatLogic.cs:59-104 | the command succeeds whenever the language has a regex, and an error it gives is always the search's, never ParseFailed |
| CommentFormatLogic.FormatBlockIn | CodeMaid/Logic/Formatting/CommentFormatLogic.cs:79-98 | the loop body does to the document exactly what FormatBlock says |
| CommentFormatLogic.FindSettled | CodeMaid/Logic/Formatting/CommentFormatLogic.cs:76 | with the searcher's cache settled, Find returns the location of the first block from the start line |
| CommentFormatLogic.LoopPass | CodeMaid/Logic/Formatting/CommentFormatLogic.cs:78-100 | one pass on the document does what LoopStep says |
| CommentFormatLogic.FormatLoopFrom | CodeMaid/Logic/Formatting/CommentFormatLogic.cs:76-103 | the while loop leaves the document and returns the result FormatFrom gives |
| CommentFormatLogic.FormatCommentsInRange | CodeMaid/Logic/Formatting/CommentFormatLogic.cs:59-104 | two documents raise with the document unchanged; otherwise the document and the result are those of the whole command on the range |
| CommentFormatLogic.FormatComments | CodeMaid/Logic/Formatting/CommentFormatLogic.cs:45-50 | with the setting off nothing changes and nothing is raised; otherwise the buffer is the outcome of the range run from the document's start point to its end point (lines 0 and the last line, by TextDocument.StartPoint and EndPoint), and the error raised is exactly the run's error |
| CommentWordsRegex.WordsClassIsContent | CodeMaid/Helpers/CodeCommentHelper.cs:123 | every list-prefix or word character is neither CR nor LF |
| CommentWordsRegex.SpanEnd | CodeMaid/Helpers/CodeCommentHelper.cs:123 | the end of the longest run of one character class |
| CommentWordsRegex.ClosedEnd | CodeMaid/Helpers/CodeCommentHelper.cs:121-123 | the end of `\w+[):][ \t]+` or `\d+\.[ \t]+` lies after its start |
| CommentWordsRegex.ListPrefixEnd | CodeMaid/Helpers/CodeCommentHelper.cs:121-123 | a list prefix found ends after its start and inside the text; its shape and that it is the longest are ListPrefixShape |
| CommentWordsRegex.ClosedEndShape | CodeMaid/Helpers/CodeCommentHelper.cs:121-123 | a closed list prefix found lies in the line and has its shape |
| CommentWordsRegex.ClosedEndComplete | CodeMaid/Helpers/CodeCommentHelper.cs:121-123 | a closed list prefix present at the start is found |
| CommentWordsRegex.MarkPrefixShape | CodeMaid/Helpers/CodeCommentHelper.cs:121-123 | the marks alternative takes its marks and blanks and lies in the line |
| CommentWordsRegex.ListPrefixShape | CodeMaid/Helpers/CodeCommentHelper.cs:121-123 | a list prefix found lies in the line and has one of the three shapes; every start of the text with such a shape is no longer than it (so `-- x` gives `-- `); none is found exactly when no start of the line has one |
| CommentWordsRegex.ListPrefixFound | CodeMaid/Helpers/CodeCommentHelper.cs:121-123 | a found list prefix lies in the line and has one of the three shapes; none is found exactly when no start of the line has one |
| CommentWordsRegex.ListPrefixLongest | CodeMaid/Helpers/CodeCommentHelper.cs:121-123 | for any start of the text with a list prefix's shape, one is found that is at least as long and of the same alternative, with every following blank taken |
| CommentWordsRegex.MarkLongest | CodeMaid/Helpers/CodeCommentHelper.cs:121-123 | `[-=\*\+]+[ \t]*`: the marks and all the blanks after them are taken, so the prefix found covers any such start |
| CommentWordsRegex.WordLongest | CodeMaid/Helpers/CodeCommentHelper.cs:121-123 | `\w+[):][ \t]+`: the prefix found covers any such start and has the same shape |
| CommentWordsRegex.DigitLongest | CodeMaid/Helpers/CodeCommentHelper.cs:121-123 | `\d+\.[ \t]+`: the prefix found covers any such start and has the same shape |
| CommentWordsRegex.ListPrefixComplete | CodeMaid/Helpers/CodeCommentHelper.cs:121-123 | when none is found, no prefix of the line is a list prefix |
| CommentWordsRegex.NoAlternativeAt | CodeMaid/Helpers/CodeCommentHelper.cs:121-123 | when none is found, no text from that point is a list prefix |
| CommentWordsRegex.Words | CodeMaid/Helpers/CodeCommentHelper.cs:122-123 | each `words` capture is a non-empty run without blanks; that they are all the runs, split at any blanks, is WordsOfLayout and LayoutOfWords |
| CommentWordsRegex.NonBlanksAppend | CodeMaid/Helpers/CodeCommentHelper.cs:122 | removing blanks distributes over concatenation |
| CommentWordsRegex.NonBlanksOfWord | CodeMaid/Helpers/CodeCommentHelper.cs:122 | a word has no blank to remove |
| CommentWordsRegex.WordsConcat | CodeMaid/Helpers/CodeCommentHelper.cs:122-123 | the words concatenated are the line's non-blank characters, in order |
| CommentWordsRegex.WordsOfJoin | CodeMaid/Helpers/CodeCommentHelper.cs:122-123 | words joined by single spaces split back into the same words |
| CommentWordsRegex.WordThenBlank | CodeMaid/Helpers/CodeCommentHelper.cs:122-123 | a word followed by nothing or by text starting with a space or tab is the first capture, and the rest are the text's captures |
| CommentWordsRegex.WordsSkipBlanks | CodeMaid/Helpers/CodeCommentHelper.cs:122-123 | leading spaces and tabs add no capture |
| CommentWordsRegex.WordsOfLayout | CodeMaid/Helpers/CodeCommentHelper.cs:122-123 | words laid out with any runs of spaces and tabs between them, and any blanks before and after, give back exactly those words (so `a\tb` gives `["a", "b"]`) |
| CommentWordsRegex.LayoutOfWords | CodeMaid/Helpers/CodeCommentHelper.cs:122-123 | every line is its captures with runs of blanks between them, so the captures are the only such split |
| CommentWordsRegex.WordsMatchAt | CodeMaid/Helpers/CodeCommentHelper.cs:116-125 | the pattern matches at a position exactly when it is a line start and `\r*\n?$` follows the line; a list prefix is no longer than the line |
| CommentWordsRegex.WordsMatchIndent | CodeMaid/Helpers/CodeCommentHelper.cs:119-120 | the indent is every blank at the line start, and indent and line together are the text up to CR or LF |
| CommentWordsRegex.IndentThenLine | CodeMaid/Helpers/CodeCommentHelper.cs:119-120 | the indent is blanks, the line group is content, and the line does not start with a blank |
| CommentWordsRegex.WordsMatchListPrefix | CodeMaid/Helpers/CodeCommentHelper.cs:121 | a `listprefix` capture is a start of the line with one of the three shapes, and no start of the line with such a shape is longer; it is absent exactly when no start of the line has one |
| CommentWordsRegex.WordsMatchWords | CodeMaid/Helpers/CodeCommentHelper.cs:122 | the `words` captures are the words of the line after the list prefix |
| CommentWordsRegex.ContentSlice | CodeMaid/Helpers/CodeCommentHelper.cs:120-122 | the rest of the line after the list prefix is content |
| CommentWordsRegex.SingleLineWordsMatch | CodeMaid/Helpers/CodeCommentHelper.cs:123 | every line without CR or LF matches whole, and indent and line together are the line |
| LoopFinding.OneLineIsBlockLine | CodeMaid/Model/Comments/CommentSearcher.cs:124-142 | in C#, `/// x` is a comment line with prefix `///` and a spacer |
| LoopFinding.SingleLineBlock | CodeMaid/Model/Comments/CommentSearcher.cs:77-102 | a one-line buffer holding a comment line with a spacer is one block |
| LoopFinding.OneLineBlock | CodeMaid/Model/Comments/CommentSearcher.cs:51-57 | the search over the buffer `["/// x"]` finds the block of line 0 |
| LoopFinding.AsWrittenNeverEnds | CodeMaid/Logic/Formatting/CommentFormatLogic.cs:93-100 | as written, that buffer leads to the same pass again, from the same line with the same buffer |
| LoopFinding.CorrectedEnds | CodeMaid/Logic/Formatting/CommentFormatLogic.cs:93-100 | the corrected loop ends on that buffer with true and the buffer unchanged |
| LoopFinding.AsWrittenChangedRepeats | CodeMaid/Logic/Formatting/CommentFormatLogic.cs:89-100 | as written, on a two-line block whose text the formatter changes and a range that ends at line 0, the first pass moves the end point onto the new last line and starts the next search there, and from then on every pass hands on the same buffer, start and end |
| LoopFinding.CorrectedChangedEnds | CodeMaid/Logic/Formatting/CommentFormatLogic.cs:89-100 | the corrected loop ends on that buffer after the one rewrite, with true and the rewritten buffer |

## Left out

- The comment formatter itself (`CommentFormatter`, `CommentLine`, `CommentLineXml` and the options it reads) is not part of this model. It is a parameter, so there is no word wrap, no XML rendering and no idempotence of formatting.
- `CodeCommentHelper.Format` is not modelled. It is wiring over persisted settings and the formatter.
- The IDE read of the task-list tokens is not modelled. The stored tokens are a parameter, and only the per-token transform is modelled.
- `XElement.Parse` and `CommentLineXml.Lines` are not modelled. They are one parameter function that may fail.
- `CodeModelBuilder` and the test helper are not modelled. They are host plumbing, with a parallel walk, unrelated to comments.
- `GetInstance` and the other singletons, and settings persistence, are not modelled. The settings are a parameter.
- EnvDTE is not modelled. The document is an in-memory line buffer, and an edit point is a line and a column. Only the line takes part in the movement. The column only records the start-of-line and end-of-line snapping.
- Documents are assumed to use single line-feed separators. Carriage returns are ordinary characters of a line, and the regexes treat them as the code does.
- The general regex engine is not modelled. The line regex and the words regex are hand-written matchers. `\w` is read as an ASCII letter, digit or underscore, and `\d` as an ASCII digit; the engine's Unicode classes are not modelled.
- CommentWordsRegex.WordsMatchAt: only the match at a given position is modelled. The scan `Regex.Match` would make over a text is not, because the formatter that uses this regex is not part of this model.
- `GetCommentLineRegex` builds a new `Regex` on each call. The model's regex is a value carrying the prefix pattern, so object identity is not modelled.
- FormatLoop.FormatFrom and the methods proved against it: the command's loop is the corrected one. As written, the loop does not terminate on a block that ends on the last line when the range reaches the last line too, as it always does for the whole-document command, or when the edit carries the end point onto the last line (see Findings). With a range that ends earlier and a block whose text is kept, the next search starts past the range's end and finds nothing. A block whose text changes moves the end point by the model's ShiftedLine rule: an end point inside the block lands on the last inserted line, which is then the buffer's last line, so the loop repeats there too (LoopFinding.AsWrittenChangedRepeats). The editor's real rule for moving that point is not modelled (see FormatLoop.FormatBlock below). That loop is given as FormatLoop.AsWrittenStep, one pass at a time.
- FormatLoop.FormatBlock: the editor moves the end point with the text. The model moves it by FormatLoop.ShiftedLine. An end point inside the replaced block is taken to land on the last inserted line, and the editor's own rule for a point inside a deleted range is not modelled.
- The loop's spec functions take the line classifier and the block formatter as function values. The methods pass in the ones for the searcher's regex and the language's parser.
- CommentBlocks.ScanRange and CommentBlocks.FindWith: `AtEndOfDocument` after `LineDown` is modelled as "LineDown could not move". In the editor it also depends on the column: LineDown keeps the column when the next line is long enough and otherwise ends up at that line's end, and the point is at the end of the document only on the last line's last column. The editor's column rule is not modelled. With the point at column 24 of `["/// a long first comment", "int x;", "/// z"]`, LineDown lands at the end of line 1 and then at the end of line 2. So the editor breaks before expanding `/// z`, while the model expands it. The rule also leaves open what LineDown does on the last line. If it leaves the point where it is, a point before the end of the last line never reaches the end of the document. `AtEndOfDocument` then stays false while `startPoint.Line <= endPoint.Line` keeps holding, so Find as written expands the same last line again and again. FormatComments on the one-line document `["int x;"]`, searching from column 0, is such a case. There the model's ScanFrom returns `(None, 0)`, and the command ends with Ok(false). If LineDown on the last line moves to that line's end instead, the test holds after that move, as in the model.
- CommentSearcher.CommentSearcher.constructor and CommentReader.CommentReader.constructor: the C# field `codeLanguage` starts at the enum's default value. The model sets it to `Unknown`, which takes that default to be `Unknown`; the enum's declaration is not part of this model.
- `CommentReader` and `CommentSearcher` share one model of the algorithm in `CommentBlocks`, because the two source files contain the same algorithm. Each class keeps its own cached fields.

## Findings

| source | as written | input that shows it | evidently intended | confidence | as-written member | corrected member |
|---|---|---|---|---|---|---|
| CodeMaid/Logic/Formatting/CommentFormatLogic.cs:93-100 | after a block, `startPoint.LineDown()` moves the search one line down and the loop searches again; on the last line LineDown cannot move, so when the range reaches the last line, as it always does for the whole-document command, or the end point is carried onto it by the edit, the next search starts on the block's own last line, finds the same block and repeats | a C# document whose only line is `/// x`, with a formatter that keeps the text; or the buffer `["a", "b"]` of two comment lines with the range ending at line 0 and a formatter that rewrites `a\nb` as `c\nd`, after which the pass from line 1 repeats on `["c", "d"]` | the search moves past each block, and the run ends when the block ends on the last line | not executed | LoopFinding.AsWrittenNeverEnds | LoopFinding.CorrectedEnds |
