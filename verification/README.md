# Timestamper: a verified model of the timestamp insertion engine

This project models the core of the Obsidian "Timestamper" plugin (`main.js`) in Dafny. The plugin
adds a timestamp line (by default `# HH:MM`) to a note. It places the line by one of three
strategies:

- **chain mode**: after the content block of the last timestamp already in the note, stopping
  at a configured separator line;
- **end of document**;
- **cursor**: at the first blank line at or below the cursor.

After the edit it moves the cursor.

The model has these modules:

- `Text` (`text.dfy`): the JavaScript string operations the plugin relies on.
  - `trim` strips JavaScript's white-space and line-terminator code points.
  - `split` on one character.
  - `replace` with a string pattern replaces only the first occurrence.
- `Timestamp` (`timestamp.dfy`): the timestamp template.
  - Rendering with zero-padded hour and minute.
  - The recogniser the plugin builds as a regular expression. Every metacharacter is escaped and
    the first `HH` and `MM` become `\d{2}`. It is modelled as a sequence of tokens, each a literal
    character or a digit pair, matched against a prefix of the trimmed line.
- `Separators` (`separators.dfy`): parsing the separator setting and the separator-line test.
- `Buffer` (`buffer.dfy`): the host editor as a class `Editor`.
  - It holds the document as a sequence of lines and a cursor.
  - It offers `lineCount`, `getLine`, `getCursor`, `setCursor` and `replaceRange`.
  - `replaceRange` is specified by a splice of the document text.
- `Scans` (`scans.dfy`): what the three scans compute, as functions on the lines.
- `Planner` (`planner.dfy`): each strategy as the `replaceRange`/`setCursor` arguments it
  produces, with lemmas giving the exact resulting lines and cursor.
- `Plugin` (`plugin.dfy`): the plugin class.
  - Its settings.
  - The three scans as loops, each proved equal to its specification function.
  - The three insertion methods and their dispatch, and the cursor move of `scrollToBottom`.
  - The settings tab's change handlers.
  - The daily-note path.
- `Scenarios` (`scenarios.dfy`): worked examples of each strategy on small documents.
- `PluginScenarios` (`plugin_scenarios.dfy`): a verified end-to-end scenario of the plugin class on a fresh editor with the default settings.

Assumptions about the host editor, which `main.js` does not define:

- **`getLine` out of range**: `getLine` of a line index outside the document gives `""`.
- **Clipping**: positions outside the document are clipped the way CodeMirror clips them. A line
  past the last one means the end of the document, and a column past the end of its line means
  the end of that line.
- **Cursor during `replaceRange`**: `replaceRange` leaves the cursor where it was, clipped to
  the new document. Every call in `main.js` is followed by `setCursor`.

The cursor strategy's guard (main.js:300) is `emptyLineContent && emptyLineContent.trim() === ''`.
`""` is falsy in JavaScript, so a truly empty line does not take the "replace this line" branch.
Instead it gets `"\n" + timestamp + "\n"` inserted in front of it. A description of the plugin
that treats every blank line alike would say otherwise. The model follows the code, in
`Planner.CursorEdit` and `Plugin.Timestamper.InsertTimestampAtCursorPosition`, and
`Planner.CursorEffect` states both outcomes.

Chain mode finds its anchor with the trimmed line but an untrimmed pattern (main.js:187-197).
A template with white space at its end, which the format field stores as typed (main.js:384),
therefore never recognises a line that consists of a timestamp it rendered. In a document where
no line is recognised yet, every chain insertion with such a template falls back to the end of
the document, and the document still has no recognised line afterwards
(`Planner.PaddedTemplateNeverChains`). A line with more text after the rendered timestamp, such
as `# 12:00 x`, is still recognised and anchors the chain (`Scenarios.PaddedTemplateAnchorsExample`).
A template that starts with white space recognises no line at all, because a trimmed line never
starts with white space (`Timestamp.LeadingSpaceTemplateRecognisesNothing`).
`Planner.InsertedTimestampIsLast` states the chaining that holds for templates without white
space at either end.

The host editor is given to the plugin by Obsidian. `Buffer.Editor`'s constructor, which opens a
document from its text, is there only for `PluginScenarios.DefaultInsertScenario`, a verified end-to-end scenario of the
plugin on a fresh editor.

## Model

| member | source | states |
|---|---|---|
| `Text.Trim` | main.js:178 | `s.trim()`: white space stripped at the front, then at the back; its meaning is fixed by the lemmas below |
| `Text.TrimStartSpaces` | main.js:178 | What `trim` removes at the front is white space, what it keeps is a suffix of the input, and the kept text does not start with white space |
| `Text.TrimEndSpaces` | main.js:178 | What `trim` removes at the back is white space, what it keeps is a prefix, and the kept text does not end with white space |
| `Text.TrimSlice` | main.js:197 | The trimmed line is a slice of the line with only white space on either side |
| `Text.BlankIffAllSpace` | main.js:178 | `line.trim() === ''` holds exactly when every character of the line is white space |
| `Text.IsBlank` | main.js:178 | The test `x.trim() === ''`, also used at main.js:206, 234, 283 and 300. `Text.BlankIffAllSpace` states that it holds exactly when every character is JavaScript white space |
| `Text.IsPrefix` | main.js:220 | `s.startsWith(p)`, and the `^` anchor of the expression built at main.js:191. `Timestamp.EscapeMatchesPrefix` states that the escaped text matches exactly the strings that start with it |
| `Text.TrimIdempotent` | main.js:211 | Trimming a trimmed piece changes nothing |
| `Text.TrimChars` | main.js:211 | Trimming adds no characters |
| `Text.Split` | main.js:210 | `split(',')` gives at least one piece; no piece contains the separator, and every character of a piece is from the input |
| `Text.JoinSplit` | main.js:210 | Joining the pieces of a split with the separator gives back the input |
| `Text.SplitJoin` | main.js:210 | Splitting the join of separator-free pieces gives back the pieces |
| `Text.ReplaceFirst` | main.js:189-190 | `s.replace(pat, rep)` with a string pattern: the first occurrence, if any, is replaced; its meaning is fixed by the three lemmas below |
| `Text.ReplaceFirstLeftmost` | main.js:250 | `replace` with a string pattern swaps the leftmost occurrence, and only it, for the replacement |
| `Text.ReplaceFirstAbsent` | main.js:251 | `replace` leaves a string without the pattern unchanged |
| `Text.ReplaceFirstSameLength` | main.js:250 | A same-length replacement keeps the length; every character it changes comes from the replacement and stood where a character of the pattern stood |
| `Text.SplitAfterSep` | main.js:210 | A separator-free piece, the separator and a tail split into that piece followed by the tail's pieces |
| `Timestamp.Pad2` | main.js:246-247 | `String(n).padStart(2, '0')` is two ASCII digits that read back as `n` |
| `Timestamp.Render` | main.js:249-251 | The template with its first `HH` replaced by the padded hour, then the first `MM` of the result by the padded minute |
| `Timestamp.RenderChars` | main.js:249-251 | Rendering keeps the template's length and changes a character only to a digit, and only where the template has `H` or `M` |
| `Timestamp.RenderAddsOnlyDigits` | main.js:249-251 | A non-digit character that is not in the template is not in the rendered timestamp either |
| `Timestamp.TimestampPattern` | main.js:187-191 | The expression built from the template: each character escaped into a literal, then the first `HH` and the first `MM` turned into `\d{2}` |
| `Timestamp.MatchesPrefix` | main.js:191 | `new RegExp('^' + pattern).test(s)`: the tokens match the start of `s`, a literal its own character and `\d{2}` two ASCII digits |
| `Timestamp.IsTimestampLine` | main.js:197 | `regex.test(line.trim())`: the pattern is tested against the trimmed line |
| `Timestamp.RenderAccepted` | main.js:187-191 | The pattern built from a template accepts the timestamp rendered from the same template, at any hour and minute |
| `Timestamp.DefaultTemplateExample` | main.js:8 | The default template `# HH:MM` at 09:05 renders as `# 09:05` |
| `Timestamp.RepeatedTokenExample` | main.js:249-251 | Only the first `HH` and the first `MM` are substituted: `HH:MM HH:MM` at 14:30 gives `14:30 HH:MM` |
| `Timestamp.LiteralTemplate` | main.js:187-197 | A template with neither `HH` nor `MM` renders as itself at any time, and recognises exactly the lines whose trimmed text starts with it |
| `Timestamp.EscapeMatchesPrefix` | main.js:188 | After escaping, the pattern for a plain text matches exactly the texts starting with it |
| `Timestamp.RenderedLineIsTimestamp` | main.js:187-197 | Round trip: for a template without surrounding white space, a line holding the rendered timestamp followed by anything is recognised as a timestamp line |
| `Timestamp.TimestampPatternMatches` | main.js:187-197 | The recogniser exactly: the pattern matches the start of `s` if and only if `s` starts with the template whose first `HH` is replaced by some two digits and then whose first `MM` by some two digits (any digits, such as `99`) |
| `Timestamp.AcceptsReplace` | main.js:189-190 | Replacing the first `aa` by `\d{2}` in the pattern and by any two digits in a matched text keeps the text matched |
| `Timestamp.AcceptsReplaceBack` | main.js:189-190 | Conversely, a text matched after the first `aa` became `\d{2}` is a text matched before, with its first `aa` replaced by two digits |
| `Timestamp.EscapeAcceptsOnly` | main.js:188 | The escaped template matches, in full, the template and nothing else |
| `Timestamp.Escape` | main.js:188 | The metacharacter escape: every character of the template becomes a literal token of the same length. `Timestamp.EscapeMatchesPrefix` and `Timestamp.EscapeAcceptsOnly` state that the result matches exactly the texts that start with the template, and in full only the template itself |
| `Timestamp.DefaultPatternExample` | main.js:187-191 | The default template builds the expression `^# \d{2}:\d{2}` |
| `Timestamp.DefaultTemplateRecognises` | main.js:187-197 | With the default template a line is a timestamp line exactly when its trimmed text starts with `#`, a space, two digits, `:` and two digits |
| `Timestamp.PaddedTemplateNotRecognised` | main.js:197 | A template ending in white space never recognises a line that trims to its own rendering, because the line is trimmed and the pattern is not |
| `Timestamp.LeadingSpaceTemplateRecognisesNothing` | main.js:187-197 | A template that starts with white space recognises no line, since the tested line is trimmed and the pattern starts with that white space |
| `Timestamp.DefaultPatternShape` | main.js:187-191 | The default template's expression `^# \d{2}:\d{2}` matches exactly the texts that start with `#`, a space, two digits, `:` and two digits |
| `Timestamp.PatternNonEmpty` | main.js:187-191 | A non-empty template gives a non-empty pattern, which never recognises an empty line |
| `Timestamp.RecognisedLinesStartLikeTemplate` | main.js:191-197 | With a template not starting with `H` or `M`, every recognised line's trimmed text starts with the template's first character |
| `Separators.ParseSeparators` | main.js:205-213 | `getSeparatorList`: `[]` for an empty or blank setting, otherwise split on `,`, trim each piece, drop empty pieces |
| `Separators.DropEmpty` | main.js:212 | After `filter(s => s.length > 0)`, a string is in the list exactly when it is a non-empty member of the input |
| `Separators.TrimEach` | main.js:211 | `.map(s => s.trim())`: the same number of pieces, each the trimmed piece at the same index |
| `Separators.DropEmptyConcat` | main.js:212 | Filtering keeps order: it distributes over concatenation |
| `Separators.BlankShortcutAgrees` | main.js:206-207 | Split, trim and filter also give `[]` for a blank setting, so the early return agrees with the general path |
| `Separators.ParseIsFiltered` | main.js:205-213 | `getSeparatorList` is always split on `,`, trim each piece, drop empty ones |
| `Separators.ParseSeparatorsSpec` | main.js:205-213 | A blank setting gives `[]`; every parsed separator is non-empty, trimmed and comma-free; the parsed separators are exactly the non-empty trimmed pieces |
| `Separators.CommasOnlyExample` | main.js:205-213 | The setting `","` is not blank, yet it gives no separators |
| `Separators.ParseExample` | main.js:209-212 | `"---, %% ,,  foo"` parses to `["---", "%%", "foo"]`, in that order |
| `Separators.StartsWithAny` | main.js:220 | `some(sep => s.startsWith(sep))` holds iff some listed separator is a prefix |
| `Separators.IsSeparatorLine` | main.js:215-221 | A line is a separator iff its trimmed text starts with one of the parsed separators |
| `Separators.NoSeparatorWhenBlank` | main.js:206-217 | With a blank setting no line is a separator, and a blank line is never a separator |
| `Scans.NextBlank` | main.js:173-183 | The result is within `[start, lineCount]`; every line from `start` up to the result is non-blank; a result below `lineCount` is a blank line |
| `Scans.LastMatchBefore` | main.js:193-200 | The last recognised line before `k`, or -1 exactly when no line before `k` is recognised |
| `Scans.LastTimestamp` | main.js:185-203 | -1 exactly when no trimmed line matches; otherwise a matching line with no matching line after it |
| `Scans.SeparatorStop` | main.js:227-232 | The first separator line at or after `i`, or `lineCount` |
| `Scans.ContentEndFrom` | main.js:227-237 | From line `i` with `last` so far, the loop's result is `last` or a non-blank line before the next separator, with only blank lines between it and that separator |
| `Scans.ContentEnd` | main.js:223-240 | For `t` inside the document: the result is in `[t, lineCount)`; it is `t` or a non-blank line before the first separator after `t`; every line after it up to that separator is blank |
| `Scans.ContentEndBeforeSeparator` | main.js:230-232 | No separator line lies between the timestamp line and the content end |
| `Scans.ContentEndWithoutSeparators` | main.js:223-240 | Whenever the setting gives no separators (blank, or only commas and white space), the content end is `t` or the last non-blank line, and only blank lines follow it |
| `Buffer.ReplacedSplices` | main.js:273 | `replaceRange(text, from, to)` makes the document text the old text before `from`, then `text`, then the old text from `to` on |
| `Buffer.TextAround` | main.js:280 | A valid position cuts the document text into the text before it and the text after it |
| `Buffer.Replaced` | main.js:285 | The lines after `replaceRange` are a well-formed document: at least one line, none containing a line break |
| `Buffer.Clip` | main.js:274 | The position the editor uses is valid, equals the requested one when that is valid, and is the document end for a line past the last |
| `Buffer.LineAt` | main.js:177 | `getLine(i)` on the document: line `i` when it exists, `""` otherwise, as also used at main.js:196, 228 and 297 |
| `Buffer.DocEnd` | main.js:38-40 | The end of the last line, a valid position on the last line, as `scrollToBottom` computes it and as `insertTimestampAtDocumentEnd` does at main.js:280-281 |
| `Buffer.Editor.LineCount` | main.js:174 | `lineCount()` is the number of lines, which is at least one |
| `Buffer.Editor.GetLine` | main.js:297 | `getLine(i)` is line `i`, and an empty line for an index outside the document |
| `Buffer.Editor.GetCursor` | main.js:295 | `getCursor()` is a valid position of the document |
| `Buffer.Editor.ReplaceRange` | main.js:285 | `replaceRange` updates the lines to the spliced document and keeps the editor well-formed |
| `Buffer.Editor.SetCursor` | main.js:286 | `setCursor` moves the cursor to the clipped position and changes no line |
| `Planner.EndEdit` | main.js:277-292 | The `replaceRange`/`setCursor` arguments of `insertTimestampAtDocumentEnd` in both branches of main.js:283 |
| `Planner.ChainEdit` | main.js:262-275 | The arguments of `insertTimestampChain`: the end-of-document edit when no timestamp line exists, otherwise `"\n\n" + ts + "\n"` at the end of the content-end line and the cursor three lines below it |
| `Planner.CursorEdit` | main.js:294-313 | The arguments of `insertTimestampAtCursorPosition`, with the guard `content && content.trim() === ''` |
| `Planner.Apply` | main.js:285-286 | The `replaceRange` then `setCursor` every insertion performs: the spliced document, well formed, with the requested cursor clipped into it. `Buffer.ReplacedSplices` states the splice |
| `Planner.EditsApplicable` | main.js:285 | Every strategy's range runs forward, so its edit applies to any document |
| `Planner.ReplaceLineEffect` | main.js:301-307 | Replacing a whole line by the timestamp and a line break puts the timestamp there, then an empty line, with the cursor on it |
| `Planner.AppendAfterLineEffect` | main.js:273-274 | Two line breaks, the timestamp and a line break after a line give an empty line, the timestamp and an empty line after it, with the cursor on the second empty line |
| `Planner.InsertBeforeLineEffect` | main.js:309-311 | A line break, the timestamp and a line break at a line's start put an empty line and the timestamp before that line, with the cursor on the old line |
| `Planner.InsertPastEndEffect` | main.js:309-311 | Inserting at line `lineCount` appends the timestamp and an empty line after the last line, with the cursor on that empty line |
| `Planner.EndEffect` | main.js:277-292 | A blank last line becomes the timestamp plus an empty line, cursor `(last+1, 0)`; otherwise `""`, the timestamp and `""` are appended, cursor `(last+3, 0)`; earlier lines never change |
| `Planner.ChainEffect` | main.js:262-275 | With no timestamp line, the chain edit is the end-of-document edit. Otherwise the lines up to the content end `c` stay, then come `""`, the timestamp and `""`, then the old lines after `c`; the cursor is at `(c+3, 0)` |
| `Planner.CursorEffect` | main.js:294-313 | With a blank line `e` at or below the cursor: a non-empty white-space line `e` becomes the timestamp plus `""`, cursor `(e+1, 0)`. An empty line `e` gets `""` and the timestamp in front of it, cursor `(e+2, 0)` |
| `Planner.CursorEffectNoBlank` | main.js:296-311 | With no blank line below the cursor, the edit inserts `"\n" + ts + "\n"` at `(lineCount, 0)` with the cursor asked at `lineCount + 2`. Clipped, the timestamp and an empty line are appended |
| `Planner.LastTimestampAt` | main.js:195-200 | A recognised line with no recognised line after it is what `findLastTimestamp` returns |
| `Planner.InsertedTimestampIsLast` | main.js:262-292 | For a non-empty template with no white space at either end and no line break: after a chain or end-of-document insertion, the line above the cursor is the new timestamp and is now the last timestamp line, so chaining continues from it |
| `Planner.PaddedTemplateNeverChains` | main.js:262-292 | For a template ending in white space, in a document with no timestamp line, a chain insertion is the end-of-document insertion and leaves the document still without a timestamp line, so chain mode never anchors on its own timestamps |
| `Planner.AppendedIsLast` | main.js:262-275 | A timestamp inserted after the content end of the last timestamp becomes the last timestamp line |
| `Plugin.EditFor` | main.js:253-259 | The edit `insertTimestamp` makes: chain mode first, then insert-at-end, then the cursor strategy |
| `Plugin.DailyNotePath` | main.js:77-81 | The path always ends in `filename + ".md"`. When the folder is set, non-empty and not `/`, it starts with `folder + "/"`; otherwise it is `filename + ".md"` alone |
| `Plugin.RootFolderIgnored` | main.js:77 | A missing, empty or root folder all give `filename + ".md"` |
| `Plugin.UsesFolder` | main.js:77 | The truthiness and `/` test on the folder setting: a folder is used only when it is set, non-empty and not `/`. `Plugin.DailyNotePath` and `Plugin.RootFolderIgnored` state the two paths it selects |
| `Plugin.Defaults` | main.js:3-10 | `DEFAULT_SETTINGS`: auto-open and scroll-to-bottom on, insert-at-end on, chain mode off, template `# HH:MM`, no separators |
| `Plugin.DefaultFormat` | main.js:8 | The default template `# HH:MM` |
| `Plugin.Timestamper.constructor` | main.js:3-10 | The plugin starts with the default settings |
| `Plugin.Timestamper.FindNextEmptyLine` | main.js:173-183 | The loop returns `NextBlank(lines, startLine)` |
| `Plugin.Timestamper.FindLastTimestamp` | main.js:185-203 | The loop returns `LastTimestamp(lines, format)` |
| `Plugin.Timestamper.FindContentEndAfterTimestamp` | main.js:223-240 | The loop, with its `break` at a separator, returns `ContentEnd(lines, separators, t)` |
| `Plugin.Timestamper.InsertTimestampAtDocumentEnd` | main.js:277-292 | The editor ends with the lines and cursor of the end-of-document edit applied to the old lines |
| `Plugin.Timestamper.InsertTimestampChain` | main.js:262-275 | The editor ends with the lines and cursor of the chain edit, including the fallback, applied to the old lines |
| `Plugin.Timestamper.InsertTimestampAtCursorPosition` | main.js:294-313 | The editor ends with the lines and cursor of the cursor edit for the old cursor applied to the old lines |
| `Plugin.Timestamper.InsertTimestamp` | main.js:242-260 | With no editor, nothing happens. Otherwise the timestamp rendered for the given time goes in by chain mode, else insert-at-end, else the cursor strategy |
| `Plugin.Timestamper.ScrollToBottom` | main.js:35-41 | With an editor and the setting on, the cursor goes to the end of the last line; otherwise it stays; the lines never change |
| `Plugin.Timestamper.InsertAndScroll` | main.js:168-169 | Inserting then scrolling leaves the inserted lines, with the cursor at the document end when scroll-to-bottom is on |
| `Plugin.Timestamper.SetAutoOpenDailyNote` | main.js:333-336 | The toggle sets only its own flag |
| `Plugin.Timestamper.SetScrollToBottom` | main.js:343-346 | The toggle sets only its own flag |
| `Plugin.Timestamper.SetInsertAtEnd` | main.js:353-358 | Turning insert-at-end on turns chain mode off; afterwards the two modes are never both on |
| `Plugin.Timestamper.SetChainMode` | main.js:367-373 | Turning chain mode on turns insert-at-end and scroll-to-bottom off; afterwards the two modes are never both on |
| `Plugin.Timestamper.SetTimestampFormat` | main.js:383-385 | An empty format falls back to `# HH:MM`, so the format is never empty |
| `Plugin.Timestamper.SetSeparators` | main.js:394-396 | The separators field is set as typed |
| `Scenarios.EndOnBlankLineExample` | main.js:283-286 | `["a", "b", ""]` at 09:05 becomes `["a", "b", "# 09:05", ""]` with the cursor at `(3, 0)` |
| `Scenarios.EndAfterTextExample` | main.js:287-290 | `["a"]` at 14:30 becomes `["a", "", "# 14:30", ""]` with the cursor at `(3, 0)` |
| `Scenarios.CursorWithoutBlankLineExample` | main.js:308-311 | On `["x", "y"]` with the cursor on line 0 the edit inserts `"\n# 10:00\n"` at `(2, 0)` and asks for the cursor at `(4, 0)` |
| `Scenarios.CursorOnEmptyLineExample` | main.js:300-311 | An empty line under the cursor is kept and gets `""` and the timestamp in front of it |
| `Scenarios.SingleSeparator` | main.js:209-212 | The setting `"---"` parses to `["---"]` |
| `Scenarios.ChainLastTimestampExample` | main.js:185-203 | In `["# 09:05", "note1", "---", "tail"]` the last timestamp line is line 0 |
| `Scenarios.ChainContentEndExample` | main.js:223-240 | With separator `---` the content after line 0 ends at line 1 |
| `Scenarios.ChainWithSeparatorExample` | main.js:262-275 | Chain mode on that document inserts after `note1`, before `---`, with the cursor at `(4, 0)` |
| `Scenarios.PaddedRenderExample` | main.js:249-251 | The template `"# HH:MM "` renders 12:00 as `"# 12:00 "`, keeping the trailing space |
| `Scenarios.PaddedTemplateAnchorsExample` | main.js:185-197 | With the template `"# HH:MM "`, the line `# 12:00 x` is recognised, so it is the last timestamp line of `["# 12:00 x"]` |
| `PluginScenarios.DefaultInsertOutcome` | main.js:3-10 | With `DEFAULT_SETTINGS` at 09:05, `["a", "b"]` becomes `["a", "b", "", "# 09:05", ""]` with the cursor at `(4, 0)` |
| `PluginScenarios.DefaultInsertScenario` | main.js:242-260 | A fresh plugin inserting into an editor opened on `"a\nb"` leaves `["a", "b", "", "# 09:05", ""]` with the cursor at `(4, 0)` |

## Left out

- Daily-note resolution and vault I/O (`getDailyNoteConfiguration`, `openTodaysDailyNote`, `isCurrentNoteTodaysDailyNote`, main.js:49-131) are foreign, asynchronous Obsidian calls. `window.moment` date formatting is left out too: `Plugin.DailyNotePath` takes the formatted file name as input.
- A folder setting that is not a string is not modelled. JavaScript's truthiness test on it is modelled only for a missing value and strings.
- View switching, focus and leaf handling in `handleTimestampInsertion` (main.js:133-171) are workspace UI state. Only its final insert-then-scroll step is modelled.
- The DOM scrolling in `scrollToBottom` (main.js:42-46) is left out; only its cursor move is modelled.
- Settings persistence (`loadSettings`, `saveSettings`, main.js:27-33) is left out. Merging arbitrary loaded JSON is not modelled, and the settings tab's widget construction is not modelled apart from the change handlers.
- The clock (`new Date()`, main.js:245) is not modelled: hour and minute are parameters, with 0-23 and 0-59 as preconditions.
- What the host editor does at line index `lineCount` is not defined by `main.js`. This arises in the cursor strategy when no blank line is found. The model clips such positions CodeMirror-style and gives `getLine` an empty line there. `Planner.CursorEffectNoBlank` states the edit's own arguments separately from the clipped outcome.
- The host editor's mapping of the cursor through a `replaceRange` is not modelled: the cursor is only clipped. Every call site sets the cursor immediately afterwards.
- Line breaks other than `\n` (such as `\r\n`) are not modelled: the document is split on `\n` only.
- The effect lemmas in `Planner` assume a timestamp without a line break. A template containing `\n` would make the inserted text span more lines; the edit itself is still modelled exactly.
- JavaScript strings are UTF-16 and `length` counts code units. Dafny strings are sequences of Unicode characters, so column numbers differ for characters outside the Basic Multilingual Plane.
