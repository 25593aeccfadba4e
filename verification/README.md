# Advanced Notepad — a Dafny model of its editing logic

Advanced Notepad is a single-window Swing text editor. Its menus offer New, Open and Save,
Cut, Copy and Paste, Find & Replace, a dark-mode toggle and seven font sizes. A label under
the text area shows a live word count. Almost all of the program is Swing wiring. This
project models the two parts that carry logic:

- **The word counter** (`updateWordCount`): `text.trim()`, then 0 if the result is empty,
  otherwise the number of pieces `split("\\s+")` returns. Module `WordCounter` models Java's
  `trim` as its two index loops. It models `split` with limit 0 as `java.util.regex.Pattern`
  runs it: the pieces between greedy matches of `\s+`, the whole input when nothing
  matches, and trailing empty strings dropped. The count is proved equal to the number of
  maximal runs of non-`\s` characters in the trimmed text. Two character classes differ
  here. `trim` strips everything at or below U+0020. `\s` is only space and U+0009 to
  U+000D. So a control character such as U+0001 at an edge is trimmed away, while one
  inside the text counts as a word.
- **The editor commands** (`actionPerformed`, `toggleDarkMode`, the Font Size items and
  the Replace All button). Module `Notepad` has a pure specification, `Step(session,
  command)`, over a `Session`: the text, an `Appearance` and the error dialogs shown so
  far. The `Appearance` holds the dark-mode flag, the background, foreground and caret
  colours, and the font. Class `AdvancedNotepad` holds the same state in fields. It has
  one method per command, and each method promises exactly the new state `Step` gives.
  Lemmas about `Step` state what each command changes and what it leaves alone.
- **The Font Size menu** (module `FontMenu`). The constructor's `for` loop builds the items
  12, 16, …, 36. Each item is labelled with `String.valueOf(size)`, and its listener reads
  the label back with `Integer.parseInt`. Both conversions are modelled. Parsing the
  label is proved to give back the size for every `int`.

Colours are AWT `Color` values given by their RGB components (`WHITE`, `BLACK`,
`DARK_GRAY` = 64,64,64). Fonts are (name, style, size) triples. The look-and-feel decides
the text area's colours and font before the first toggle or font choice, so the
constructor takes them as parameters.

Three things come from outside the program, so the model takes them as parameters:

- the result of the file chooser plus reader (`OpenOutcome`);
- the result of the file chooser plus writer (`SaveOutcome`);
- the regex engine behind `String.replaceAll` (a `Replacer` function value, which answers `None` where `replaceAll` would throw).

A few facts about the program that shape the model:

- Find & Replace treats the find text as a regular expression.
- Toggle Dark Mode sets three colours: background, foreground and caret.
- The displayed count is not kept in sync after Open (see "Left out").

## Model

| member | source | states |
|---|---|---|
| `WordCounter.SpaceIsTrimmable` | AdvancedNotepad.java:175-176 | every character `split("\\s+")` separates on is also one `trim()` strips |
| `WordCounter.TrimStart` | AdvancedNotepad.java:175 | `trim`'s first loop stops at the first character above U+0020 (or the end), having passed only characters at or below it |
| `WordCounter.TrimEnd` | AdvancedNotepad.java:175 | `trim`'s second loop never passes the start cut, stops just after a character above U+0020 (or at the start cut), and passes only characters at or below it |
| `WordCounter.TrimCuts` | AdvancedNotepad.java:175 | everything outside the two cuts is trimmable, and a non-empty kept part starts and ends above U+0020 |
| `WordCounter.Trim` | AdvancedNotepad.java:175 | the trimmed text is empty exactly when every character is at or below U+0020; otherwise it starts and ends above U+0020 |
| `WordCounter.TrimUnique` | AdvancedNotepad.java:175 | any bounds that have the trimming property give exactly what `trim` returns |
| `WordCounter.TrimBounds` | AdvancedNotepad.java:175 | `trim` returns the part of the text between bounds that have the trimming property |
| `WordCounter.TrimIdempotent` | AdvancedNotepad.java:175 | trimming twice equals trimming once |
| `WordCounter.TrimPadded` | AdvancedNotepad.java:175 | adding characters at or below U+0020 at either end does not change what `trim` returns |
| `WordCounter.LeadingToken` | AdvancedNotepad.java:176 | the text before the first `\s+` match is a prefix free of `\s`, ending at a `\s` character or at the end |
| `WordCounter.SkipSpaces` | AdvancedNotepad.java:176 | one greedy `\s+` match removes a prefix made only of `\s` characters and leaves nothing or a non-`\s` first character |
| `WordCounter.Fields` | AdvancedNotepad.java:176 | the pieces between the `\s+` matches are at least one, and none contains a `\s` character |
| `WordCounter.DropTrailingEmpty` | AdvancedNotepad.java:176 | `split` with limit 0 keeps a prefix of the pieces, removes only empty strings, and keeps a non-empty last piece |
| `WordCounter.Split` | AdvancedNotepad.java:176 | no piece `split("\\s+")` returns contains a `\s` character |
| `WordCounter.FieldsStep` | AdvancedNotepad.java:176 | on text that starts and ends outside `\s` and holds a `\s` character, the first piece is the leading token, which is one run, and the rest of the pieces come from what follows the next `\s+` match |
| `WordCounter.FieldsAreRuns` | AdvancedNotepad.java:176 | for text that starts and ends outside `\s`, there are as many pieces as maximal non-`\s` runs |
| `WordCounter.FieldsNonEmpty` | AdvancedNotepad.java:176 | for text that starts and ends outside `\s`, no piece is empty |
| `WordCounter.SplitTrimmed` | AdvancedNotepad.java:175-176 | on non-empty trimmed text, `split` yields as many pieces as there are maximal non-`\s` runs, with no empty piece at either end |
| `WordCounter.WordCount` | AdvancedNotepad.java:174-176 | the count `text.trim().isEmpty() ? 0 : text.trim().split("\\s+").length` equals the number of maximal runs of non-`\s` characters in the trimmed text |
| `WordCounter.WordsOfTrimmedText` | AdvancedNotepad.java:175-176 | every word counted is non-empty and free of `\s` |
| `WordCounter.WordCountZeroIff` | AdvancedNotepad.java:175-176 | the count is 0 if and only if every character of the text is at or below U+0020 |
| `WordCounter.RunsBound` | AdvancedNotepad.java:176 | a text of length n has at most (n + 1) / 2 maximal non-`\s` runs |
| `WordCounter.WordCountBounds` | AdvancedNotepad.java:176 | when the trimmed text is non-empty the count is at least 1 and at most (its length + 1) / 2 |
| `WordCounter.WordCountPadded` | AdvancedNotepad.java:175 | characters at or below U+0020 added at either end leave the count unchanged |
| `WordCounter.WordCountBlankExamples` | AdvancedNotepad.java:175-176 | `""` and `"  "` count 0 |
| `WordCounter.TrimKeeps` | AdvancedNotepad.java:175 | a text that starts and ends above U+0020 is left whole by `trim` |
| `WordCounter.WordCountSpacesExample` | AdvancedNotepad.java:176 | `"a b  c"` counts 3: a run of two spaces separates like one |
| `WordCounter.WordCountInteriorControlExample` | AdvancedNotepad.java:175-176 | `"a \u0001 b"` counts 3: an interior control character is a word |
| `WordCounter.WordCountEdgeControlExample` | AdvancedNotepad.java:175-176 | `"\u0001 a"` counts 1: a control character at the edge is trimmed away |
| `FontMenu.FontSizesExactly` | AdvancedNotepad.java:52 | the menu's sizes are exactly the multiples of 4 from 12 to 36 |
| `FontMenu.NatToDecimal` | AdvancedNotepad.java:53 | the digits `String.valueOf` writes for a non-negative number: non-empty, all decimal, with a leading '0' only for 0 |
| `FontMenu.ValueOf` | AdvancedNotepad.java:53 | `String.valueOf(int)` writes a '-' exactly for a negative number, followed by decimal digits without a leading zero (a lone "0" for 0) |
| `FontMenu.ParseInt` | AdvancedNotepad.java:54 | `Integer.parseInt` succeeds only on a non-empty label, with a value in the `int` range, and non-negative unless the label starts with '-' |
| `FontMenu.DecimalRoundTrip` | AdvancedNotepad.java:53-54 | reading back the digits `valueOf` writes gives the number |
| `FontMenu.ParseValueOf` | AdvancedNotepad.java:53-54 | `parseInt(valueOf(n)) == n` for every `int` n |
| `FontMenu.FontLabelsParse` | AdvancedNotepad.java:52-54 | every Font Size label parses back to its size |
| `FontMenu.BuildFontMenu` | AdvancedNotepad.java:52-56 | the loop builds seven labels, the i-th being `valueOf` of the i-th size, each parsing back to that size |
| `Notepad.ToggleDarkMode` | AdvancedNotepad.java:135-142 | the flag flips, the font is untouched, and the colours are determined by the new flag: dark mode gives background DARK_GRAY, foreground WHITE and caret WHITE (white text on dark gray); light mode gives background WHITE, foreground BLACK and caret BLACK (black text on white) |
| `Notepad.ToggleTwiceRestoresFlag` | AdvancedNotepad.java:136 | toggling twice restores the flag and the font |
| `Notepad.ToggleTwiceRestores` | AdvancedNotepad.java:135-142 | once the colours follow the flag, toggling twice restores the flag and all three colours |
| `Notepad.NewClearsText` | AdvancedNotepad.java:83-85 | New sets the text to `""`, so the count becomes 0; look and errors are unchanged |
| `Notepad.OpenEffect` | AdvancedNotepad.java:87-96 | a read file replaces the text; a failed read keeps the text and adds exactly one "Error opening file."; a completed read whose reader then fails to close replaces the text and adds that one error; cancelling changes nothing; the look never changes |
| `Notepad.SaveEffect` | AdvancedNotepad.java:98-107 | Save never changes text or look; a failed write adds exactly one "Error saving file." |
| `Notepad.FontItemEffect` | AdvancedNotepad.java:52-54 | choosing the item for any menu size installs Arial plain at exactly that size, and nothing else changes |
| `Notepad.FontItemMalformed` | AdvancedNotepad.java:54 | a label `parseInt` rejects changes nothing |
| `Notepad.ReplaceAllEffect` | AdvancedNotepad.java:161-168 | an empty find text leaves everything unchanged; otherwise only the text changes, to the regex engine's `replaceAll` result, and nothing changes when `replaceAll` throws |
| `Notepad.Step` | AdvancedNotepad.java:79-168 | the effect of each menu command and the Replace All button on text, look and shown errors: only New, Open and Replace All touch the text; only Toggle Dark Mode and Font Size touch the look; the error list grows only through a failed Open or Save, by one message |
| `Notepad.StepKeepsThemed` | AdvancedNotepad.java:135-142 | once the colours follow the flag, every command keeps them so |
| `Notepad.FindReplaceDialog.constructor` | AdvancedNotepad.java:145-171 | a new dialog is visible |
| `Notepad.AdvancedNotepad.constructor` | AdvancedNotepad.java:11-56 | a new window has empty text, dark mode off, no errors, the look-and-feel colours and font, and the seven Font Size labels, the i-th being `String.valueOf` of the i-th size and parsing back to it |
| `Notepad.AdvancedNotepad.New` | AdvancedNotepad.java:83-85 | the new state is `Step` of the old one under New |
| `Notepad.AdvancedNotepad.Open` | AdvancedNotepad.java:87-96 | the new state is `Step` of the old one under Open with the given outcome |
| `Notepad.AdvancedNotepad.Save` | AdvancedNotepad.java:98-107 | the new state is `Step` of the old one under Save with the given outcome |
| `Notepad.AdvancedNotepad.ToggleDarkMode` | AdvancedNotepad.java:129-142 | the new state is `Step` of the old one under Toggle Dark Mode, and its colours follow the flag |
| `Notepad.AdvancedNotepad.ChooseFontSize` | AdvancedNotepad.java:54 | the new state is `Step` of the old one under the Font Size item with that action command |
| `Notepad.AdvancedNotepad.ShowFindReplaceDialog` | AdvancedNotepad.java:144-172 | Find & Replace opens a new, visible dialog and changes nothing else |
| `Notepad.AdvancedNotepad.ReplaceAllPressed` | AdvancedNotepad.java:161-169 | the new state is `Step` of the old one under Replace All; the dialog is disposed exactly when the find text is non-empty and `replaceAll` does not throw |

## Left out

- Swing construction (frame, menu bar, layout, the File and Edit item loop, dialog layout) and `main`: UI wiring with no behaviour to state.
- Exit (`System.exit(0)`): process termination is outside the model.
- Cut, Copy and Paste: they go through the platform clipboard and Swing's selection handling, which are not part of this model.
- File contents: Open and Save are modelled only by their outcome: cancelled, succeeded (with the text read), failed with an `IOException`, or, for Open, read completely and then failed when the try-with-resources block closed the reader (text replaced and the error shown). Readers, writers, encodings and the line-separator conversion of `JTextArea.read`/`write` are not modelled. `content` in `OpenRead` stands for whatever the reader produced.
- The regex semantics of `String.replaceAll`, for both the pattern and the `$`/`\` syntax of the replacement: the `java.util.regex` engine is a parameter. Which inputs make it throw (an invalid pattern; once the pattern matches, a replacement with a trailing `\`, a bare `$` or a group reference the pattern lacks) is left to that parameter. The model only captures the consequence: when it throws, the text and the open dialog are kept.
- The word-count label and its `DocumentListener`: the model treats the count as a function of the current text. The source attaches the listener to the text area's first document only. `JTextArea.read` installs a new document, so after an Open the label stops tracking edits. The model makes no claim that the label is current.
- Notepad.ToggleTwiceRestores: requires that the colours already follow the flag. They do after any toggle. Before the first toggle, the colours are the look-and-feel defaults, and two toggles give WHITE/BLACK/BLACK, which may differ from them.
- FontMenu.ParseInt: accepts only ASCII digits; Java's `parseInt` also accepts other Unicode decimal digits (never present in the menu's labels).
- WordCounter.Trim: characters are Unicode scalar values here, while a Java `String` holds UTF-16 code units. A supplementary character is one `char` here and two in Java. Both halves of a surrogate pair are above U+0020 and not `\s`, so counts agree. Unpaired surrogates cannot be represented.
- AWT `Color` alpha and `Font` objects beyond name, style and size are not modelled.
