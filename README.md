# PageDown editor core: regions, commands and undo history

This project models, in Dafny, the text-transformation and undo engine of the
PageDown Markdown editor (`src/js/Markdown.Editor.js`), and proves properties
of that model. The browser, the DOM and the timers are left at the edges.
Every command is a method over a `Chunk` object. The chunk holds the five
regions of the text area: `before`, `startTag`, `selection`, `endTag` and
`after`. Each method updates those regions in place, the way the editor's
commands do. Each one is proved equal to a specification function on the
`Regions` value, and the lemmas state what the commands promise in terms of
those functions.

Modules, one file each:

- `Wrappers`: the option type.
- `Strings`: character classes, runs, split and join, and `fixEolChars` and `escapeRegExp`.
- `Hooks`: `HookCollection`.
- `Texts`: `getString` and the default texts.
- `Chunks`: the `Regions` value, the `Chunk` class, `findTags`, `trimWhitespace` and `skipLines`.
- `Textarea`: `TextareaState` with `getChunks` and `setChunks`.
- `UndoHistory`: the `UndoManager` and its key mappings.
- `Wrapping`: `unwrap` and `wrap`.
- `Emphasis`: `doWrap`, `bold` and `italic`.
- `LinkDefs`: `stripLinkDefs`, `addLinkDef` and `getLinkDef`.
- `Links`: bracket escaping, `properlyEncoded`, `linkEnteredCallback` and `linkOrImage`.
- `Lines`: line prefixes.
- `Quote`: `quote`.
- `Code`: `code`.

Regular expressions are written out as explicit scans. Each scan follows the
matching (and, where it matters, the backtracking) of the pattern it stands
for. Integers are unbounded, and positions count characters.

## Model

| member | source | states |
|---|---|---|
| Hooks.ChainHook | src/js/Markdown.Editor.js:63-76 | the hook `chain` installs applies the new function to the result of the original hook, for every argument |
| Hooks.HookCollection.constructor | src/js/Markdown.Editor.js:59 | a new collection holds no hooks |
| Hooks.HookCollection.AddNoop | src/js/Markdown.Editor.js:82-84 | `addNoop` installs the identity under the name and changes no other hook |
| Hooks.HookCollection.AddFalse | src/js/Markdown.Editor.js:85-87 | `addFalse` installs a hook that answers false, and changes no other hook |
| Hooks.HookCollection.Set | src/js/Markdown.Editor.js:77-81 | `set` throws exactly when no hook was added under the name, and then changes nothing; otherwise only that hook is replaced |
| Hooks.HookCollection.Chain | src/js/Markdown.Editor.js:63-76 | `chain` throws exactly when no hook was added under the name; the set of names is kept, the named hook becomes the new function after the old hook, and every other hook is unchanged |
| Texts.GetString | src/js/Markdown.Editor.js:115-126 | an application text that is present and non-empty wins; otherwise the built-in default of lines 30-40 is used (the `\|\|` at line 126) |
| Strings.FixEolChars | src/js/Markdown.Editor.js:533-539 | the result is the one-pass conversion `EolFixed`: each `\r\n` and each lone `\r` becomes one `\n`, and every other character is kept; so no `\r` is left, and text without `\r` is returned unchanged |
| Strings.FixEolCharsSinglePass | src/js/Markdown.Editor.js:535-539 | the two global replacements, `\r\n` first and then `\r`, together equal the one-pass conversion |
| Strings.EscapeRegExp | src/js/Markdown.Editor.js:574-576 | every one of `.*+?^${}()\|[]/\` in the input comes out with one backslash in front, and no other character does (`Escaped`); removing those backslashes gives back the input |
| Strings.EscapedUnique | src/js/Markdown.Editor.js:574-576 | two escaped texts that stand for the same input are equal, so the escaping contract determines its result |
| Strings.JoinSplit | src/js/Markdown.Editor.js:1447 | joining the lines that `split("\n")` produces gives back the text |
| Strings.NatToString | src/js/Markdown.Editor.js:1217 | the reference number written into a label is a non-empty string of decimal digits whose value is the number |
| Textarea.RegionsOf | src/js/Markdown.Editor.js:931-942 | `getChunks` cuts the text at `start` and `end` into `before`, `selection` and `after`, with empty tags and without `\r` |
| Textarea.StateOf | src/js/Markdown.Editor.js:944-953 | `setChunks` writes the concatenation of the five regions, with `start` after `before + startTag` and `end` after the selection |
| Textarea.StateOfRegionsOf | src/js/Markdown.Editor.js:931-953 | for text without `\r` and `0 <= start <= end <= \|text\|`, `setChunks(getChunks())` reproduces the state exactly |
| Textarea.RegionsOfStateOf | src/js/Markdown.Editor.js:931-953 | reading back what `setChunks` wrote folds the tags into `before` and `after` and keeps the selection |
| Textarea.TextareaState.constructor | src/js/Markdown.Editor.js:822-838 | the state holds the text, the selection and the scroll position that `init` reads from the text area |
| Textarea.TextareaState.GetChunks | src/js/Markdown.Editor.js:931-942 | a fresh chunk holding the regions of the state |
| Textarea.TextareaState.SetChunks | src/js/Markdown.Editor.js:944-953 | the state becomes the flattened chunk; the chunk's tags are folded into `before` and `after` as the editor does |
| UndoHistory.Save | src/js/Markdown.Editor.js:678-701 | the stack stays well formed. In moving mode the history is kept and only the first capture is held. Otherwise the held capture is pushed only if its text differs from the top, the current capture is pushed, redo becomes impossible, and the snapshots below the pointer are untouched |
| UndoHistory.Initial | src/js/Markdown.Editor.js:808-812 | after `init` the stack holds the initial snapshot at slot 0, and neither undo nor redo is possible |
| UndoHistory.AfterSetMode | src/js/Markdown.Editor.js:599-613 | setting the current mode again changes nothing; a new mode saves unless `noSave` |
| UndoHistory.AfterSetCommandMode | src/js/Markdown.Editor.js:620-624 | command mode always saves: the pointer advances, the capture is on top and redo is impossible |
| UndoHistory.Undone | src/js/Markdown.Editor.js:638-660 | with a snapshot to undo and none held, the pointer steps back, the current state is stored above it and redo becomes possible; with one held, only that snapshot is dropped; the mode becomes `none` |
| UndoHistory.UndoRestored | src/js/Markdown.Editor.js:638-660 | `undo` restores a snapshot exactly when `canUndo` holds |
| UndoHistory.Redone | src/js/Markdown.Editor.js:662-675 | the pointer advances exactly when `canRedo` holds; the stack is untouched and the mode becomes `none` |
| UndoHistory.RedoRestored | src/js/Markdown.Editor.js:662-675 | `redo` restores a snapshot exactly when `canRedo` holds |
| UndoHistory.ModeForKey | src/js/Markdown.Editor.js:744-777 | without Ctrl or Meta: keys 33-40 and 63232-63235 select moving, 8, 46 and 127 deleting, 13 newlines, 27 escape, and any other key except 16-20 and 91 typing; each exactly so |
| UndoHistory.ModeForKeyNone | src/js/Markdown.Editor.js:744-777 | the mode is left alone exactly when Ctrl or Meta is held, or the key is 16-20 or 91 |
| UndoHistory.CommandForKey | src/js/Markdown.Editor.js:703-742 | with Ctrl or Meta and without Alt, `z` (either case) undoes exactly when Shift is not held; `y`, and `z` with Shift, redo; nothing else triggers either |
| UndoHistory.SetModeOncePerBurst | src/js/Markdown.Editor.js:599-613 | a repeated mode, such as a burst of typing, saves only once |
| UndoHistory.MovingHoldsFirstSnapshot | src/js/Markdown.Editor.js:686-691 | while the caret moves, the first capture is held and later ones are ignored |
| UndoHistory.UndoAfterSave | src/js/Markdown.Editor.js:638-701 | undo right after a save restores the saved snapshot, and the pointer is back where it was |
| UndoHistory.RedoAfterUndo | src/js/Markdown.Editor.js:638-675 | redo right after undo restores the state undo stored, and brings the pointer back |
| UndoHistory.SavesPush | src/js/Markdown.Editor.js:678-701 | commands save their snapshots one above the other, keep every slot below the pointer, and leave nothing to redo |
| UndoHistory.UndosToBottom | src/js/Markdown.Editor.js:638-660 | undoing all the way down writes back the snapshots below the pointer from the top down, ends unable to undo, and changes only the slot at the starting pointer |
| UndoHistory.RedosUp | src/js/Markdown.Editor.js:662-675 | redoing over filled slots writes them back from the bottom up, leaves the stack alone and ends unable to redo |
| UndoHistory.UndoRedoRoundTrip | src/js/Markdown.Editor.js:638-701 | after N commands, N undos restore the saved snapshots newest first and then cannot undo; N redos restore the later snapshots and the final text, oldest first, return the pointer and then cannot redo |
| UndoHistory.UndoManager.constructor | src/js/Markdown.Editor.js:808-812 | the manager starts with the initial history |
| UndoHistory.UndoManager.CanUndo | src/js/Markdown.Editor.js:626-628 | `canUndo` holds exactly when `undo` would restore a snapshot |
| UndoHistory.UndoManager.CanRedo | src/js/Markdown.Editor.js:630-635 | `canRedo` holds exactly when `redo` would restore a snapshot, and exactly when it would move the pointer forward |
| UndoHistory.UndoManager.SaveState | src/js/Markdown.Editor.js:678-701 | the sparse stack, the pointer, the mode and the held capture become `Save` of the old ones |
| UndoHistory.UndoManager.SetMode | src/js/Markdown.Editor.js:599-613 | the history becomes `AfterSetMode` of the old one |
| UndoHistory.UndoManager.SetCommandMode | src/js/Markdown.Editor.js:620-624 | the history becomes `AfterSetCommandMode` of the old one |
| UndoHistory.UndoManager.HandleModeChange | src/js/Markdown.Editor.js:744-777 | the mode the key selects is set, with a save on a change; other keys change nothing |
| UndoHistory.UndoManager.HandlePaste | src/js/Markdown.Editor.js:788-796 | a paste sets the mode to `paste` and saves |
| UndoHistory.UndoManager.Undo | src/js/Markdown.Editor.js:638-660 | the history becomes `Undone`, and the snapshot returned is the one to restore |
| UndoHistory.UndoManager.Redo | src/js/Markdown.Editor.js:662-675 | the history becomes `Redone`, and the snapshot returned is the one to restore |
| Chunks.MatchAtStart | src/js/Markdown.Editor.js:1373 | the matchers of `findTags`: a backtick match is one leading backtick; a link-close match starts with `]`; a link-open match ends with `[` |
| Chunks.LinkOpenAtEnd | src/js/Markdown.Editor.js:1373 | `/\s*!?\[$/` matches exactly when the text ends with `[`, taking all the white space before it |
| Chunks.FindTagsKeepsText | src/js/Markdown.Editor.js:165-201 | `findTags` moves text between regions without losing or reordering any, unless both end-side matches are non-empty, or a start match is cut when `startTag` is already non-empty |
| Chunks.FindTagsSwapsEndMatches | src/js/Markdown.Editor.js:186-200 | both end-side replacements prepend to `endTag`: selection `x]` with after `] [z]` gives `endTag` `] [z]]`, and the text changes |
| Chunks.TrimWhitespaceSelection | src/js/Markdown.Editor.js:207-217 | the selection loses its leading and trailing white space; the tags stay; with `remove`, `before` and `after` stay too |
| Chunks.TrimWhitespaceMovesSpace | src/js/Markdown.Editor.js:207-217 | without `remove`, only white space is appended to `before` and prepended to `after` |
| Chunks.TrimWhitespaceKeepsText | src/js/Markdown.Editor.js:207-217 | with empty tags, `trimWhitespace` keeps the text |
| Chunks.SkipLinesSelection | src/js/Markdown.Editor.js:241-250 | after `skipLines` the selection is the old one with its edge newlines stripped |
| Chunks.SkipLinesSelectionEdges | src/js/Markdown.Editor.js:220-281 | after `skipLines` the selection neither starts nor ends with a newline |
| Chunks.SkipLinesPadding | src/js/Markdown.Editor.js:252-280 | a non-empty `before` ends with at least `nb + 1` newlines and a non-empty `after` starts with at least `na + 1`, exactly that many when `extra` is set |
| Chunks.SkipLinesMovesOnlyNewlines | src/js/Markdown.Editor.js:220-281 | `skipLines` changes only newlines, region by region, including the `RegExp.$1` newlines moved to the end of `after` |
| Chunks.NewlineReplacement | src/js/Markdown.Editor.js:255-260 | the loop building the padding pattern ends with `k` optional newlines and a replacement of `k` newlines |
| Chunks.Chunk.constructor | src/js/Markdown.Editor.js:159-161 | a chunk holds the given regions |
| Chunks.Chunk.FindTags | src/js/Markdown.Editor.js:165-201 | the regions become `FindTagsSpec` of the old ones |
| Chunks.Chunk.TrimWhitespace | src/js/Markdown.Editor.js:207-217 | the regions become `TrimWhitespaceSpec` of the old ones |
| Chunks.Chunk.SkipLines | src/js/Markdown.Editor.js:220-281 | the regions become `SkipLinesSpec` of the old ones |
| Chunks.Chunk.PadBeforeLines | src/js/Markdown.Editor.js:252-265 | the newlines at the end of `before` are padded (or, with `extra`, set) to `k` |
| Chunks.Chunk.PadAfterLines | src/js/Markdown.Editor.js:267-280 | the newlines at the start of `after` are padded (or, with `extra`, set) to `k` |
| Wrapping.UnwrapAsWritten | src/js/Markdown.Editor.js:1088-1094 | `unwrap`, with `prefixes` as written, keeps the length, only turns newlines into spaces, and so keeps every character other than white space |
| Wrapping.Unwrap | src/js/Markdown.Editor.js:1088-1094 | `unwrap`, with `prefixes` corrected, keeps the length and only turns newlines into spaces |
| Wrapping.UnwrapKeepsDefinitionLines | src/js/Markdown.Editor.js:1088-1094 | with the corrected prefix pattern, a newline before a definition line `[id]:` is kept |
| Wrapping.UnwrapAsWrittenJoinsDefinition | src/js/Markdown.Editor.js:1088-1094 | as written, `"a\n[1]:"` is joined into `"a [1]:"` |
| Wrapping.BreakLengthGreedy | src/js/Markdown.Editor.js:1101-1106 | a line breaks at the last space that fits in `len`; no later break point fits |
| Wrapping.WrapFromWithout | src/js/Markdown.Editor.js:1096-1109 | wrapping from any position changes only white space |
| Wrapping.Wrap | src/js/Markdown.Editor.js:1088-1109 | `wrap`, with `prefixes` as written, changes only white space, and leaves no trailing white space |
| Emphasis.CollapseNewlines | src/js/Markdown.Editor.js:1136 | collapsing keeps emptiness and the first character's newline-ness |
| Emphasis.CollapseNewlinesProperties | src/js/Markdown.Editor.js:1136 | after `/\n{2,}/g` becomes `"\n"`, no blank line is left, and only newlines were removed |
| Emphasis.CollapseNewlinesIdentity | src/js/Markdown.Editor.js:1136 | a selection without a blank line is left alone |
| Emphasis.Prepare | src/js/Markdown.Editor.js:1132-1136 | the regions become the trimmed selection with collapsed newlines |
| Emphasis.Mark | src/js/Markdown.Editor.js:1144-1163 | the regions become `Marked` of the old ones: the markers are removed or added |
| Emphasis.DoWrap | src/js/Markdown.Editor.js:1130-1164 | `finish` runs exactly when the prepared selection is non-empty; the state becomes `DoWrapState` |
| Emphasis.Bold | src/js/Markdown.Editor.js:1122-1124 | bold is `doWrap("**", "**", true)` |
| Emphasis.Italic | src/js/Markdown.Editor.js:1126-1128 | italic is `doWrap("*", "*", true)` |
| Emphasis.DoWrapBlankSelection | src/js/Markdown.Editor.js:1132-1142 | `doWrap` stops without `finish` exactly when the selection is all white space |
| Emphasis.PreparedIdentity | src/js/Markdown.Editor.js:1132-1136 | a trimmed selection without blank lines is not changed by the preparation |
| Emphasis.AddMarksUnmarks | src/js/Markdown.Editor.js:1144-1152 | markers added where none were make the toggle test fire, and it did not fire before |
| Emphasis.RemoveAddMarks | src/js/Markdown.Editor.js:1149-1163 | removing the markers just added gives back the regions |
| Emphasis.ToggleRoundTrip | src/js/Markdown.Editor.js:1130-1164 | toggling adds the markers, and toggling again removes them |
| Emphasis.ReadBack | src/js/Markdown.Editor.js:931-953 | regions with empty tags and no `\r` are read back unchanged after being written |
| Emphasis.BoldTwice | src/js/Markdown.Editor.js:1122-1164 | bold applied twice to a trimmed selection with no `*` around it restores the text and the selection |
| Emphasis.MarkOnceState | src/js/Markdown.Editor.js:1130-1164 | one toggle on such a selection writes the markers around it and selects the same text |
| LinkDefs.DefinitionAt | src/js/Markdown.Editor.js:1167 | a definition match has a numeric label and lies inside the text |
| LinkDefs.DefinitionLines | src/js/Markdown.Editor.js:1167 | the scan finds a definition at a position exactly when the `stripLinkDefs` pattern matches there |
| LinkDefs.StripFromUnchanged | src/js/Markdown.Editor.js:1166-1180 | stripping leaves the text unchanged exactly when no definition is found, and then records nothing; otherwise the text gets shorter |
| LinkDefs.StripLinkDefs | src/js/Markdown.Editor.js:1166-1180 | `stripLinkDefs` changes the text exactly when a definition line occurs in it; an unchanged text records nothing, a changed one gets shorter |
| LinkDefs.StripLinkDefsLabelled | src/js/Markdown.Editor.js:1166-1180 | every definition recorded in `defsToAdd` is labelled with its own id |
| LinkDefs.RenumberedLabel | src/js/Markdown.Editor.js:1215-1219 | `addDefNumber` replaces the label by `  [n]:` and keeps the rest of the definition |
| LinkDefs.NumberedAppend | src/js/Markdown.Editor.js:1215-1248 | numbering a concatenation of reference ids numbers the first part, then carries on from where it stopped |
| LinkDefs.RewriteNumbering | src/js/Markdown.Editor.js:1226-1248 | the definitions emitted by the `getLink` replacement are one per reference occurrence whose id has a stripped definition, in the order of the scan, inner references first |
| LinkDefs.NumberedDense | src/js/Markdown.Editor.js:1215-1219 | the emitted definitions are labelled 1, 2, … consecutively |
| LinkDefs.RewriteOnlyRenumbers | src/js/Markdown.Editor.js:1226-1248 | the `getLink` replacement changes only digits in the text |
| LinkDefs.RewriteWithoutDefinitions | src/js/Markdown.Editor.js:1226-1248 | text whose references have no stripped definitions is left unchanged, and nothing is emitted |
| LinkDefs.DropTrailingNewlines | src/js/Markdown.Editor.js:1250-1256 | `/\n*$/` replaced by nothing leaves a prefix without a trailing newline, and removes only newlines |
| LinkDefs.AddLinkDef | src/js/Markdown.Editor.js:1204-1258 | the regions and the returned number become `AddLinkDefSpec` of the old regions and the new definition |
| LinkDefs.StripChunkDefs | src/js/Markdown.Editor.js:1204-1210 | `before`, `selection` and `after` are stripped in that order into one `defsToAdd` |
| LinkDefs.RenumberChunk | src/js/Markdown.Editor.js:1235-1248 | `before`, then the new definition or else the selection, then `after` are renumbered, and `refOut` is the count reached before `after` |
| LinkDefs.StrippedTableLabelled | src/js/Markdown.Editor.js:1204-1210 | the table `addLinkDef` builds holds only labelled definitions |
| LinkDefs.AddLinkDefNumbering | src/js/Markdown.Editor.js:1204-1258 | the emitted definitions are numbered 1, 2, … and `refOut` is at most their count; a new definition is emitted as number `refOut`, renumbered |
| LinkDefs.RenumberingNumbered | src/js/Markdown.Editor.js:1235-1248 | the same numbering facts for any labelled table |
| LinkDefs.RewriteKeepsNumbered | src/js/Markdown.Editor.js:1226-1248 | a rewrite only extends a numbered list of definitions and keeps it numbered |
| LinkDefs.AddLinkDefOnlyRenumbers | src/js/Markdown.Editor.js:1204-1248 | apart from stripping, `addLinkDef` changes only digits; with a new definition the selection is not renumbered |
| LinkDefs.AddLinkDefLayout | src/js/Markdown.Editor.js:1250-1258 | `after` loses its trailing newlines and ends with `"\n\n"` and one `"\n  [k]: …"` line per definition, the new one at number `refOut` |
| LinkDefs.FinishedAround | src/js/Markdown.Editor.js:1250-1258 | the definitions are appended after `after` in their numbered order |
| LinkDefs.NumericRef | src/js/Markdown.Editor.js:1183 | the reference found in the end tag is a non-empty numeral; with the one-digit pattern it has one digit |
| LinkDefs.AnyRef | src/js/Markdown.Editor.js:1184 | the fallback capture is non-empty and holds no `]` |
| LinkDefs.DefinitionUrlAt | src/js/Markdown.Editor.js:1189-1190 | the line `[n]: url` gives back `url` |
| LinkDefs.GetLinkDefReadsBack | src/js/Markdown.Editor.js:1182-1202 | with the corrected pattern, `getLinkDef` gives back the URL on the line `  [n]: url` for the reference `][n]`, for every `n`, when the label `[n]:` does not occur earlier in `after` (the unanchored search takes the first one) |
| LinkDefs.GetLinkDefAsWrittenMissesTwoDigits | src/js/Markdown.Editor.js:1182-1202 | as written, the reference `][12]` gives `"12"` rather than the URL |
| LinkDefs.GetLinkDefAsWritten | src/js/Markdown.Editor.js:1182-1202 | below 10, the pattern as written and the corrected one agree |
| Links.EscapeBrackets | src/js/Markdown.Editor.js:1313-1331 | the space-prefixed lookahead replacement puts one backslash before every bracket that follows an even number of backslashes, and changes nothing else |
| Links.BracketScanEscapes | src/js/Markdown.Editor.js:1331 | from a character that is not a backslash, the regex scan escapes exactly as the parity definition does |
| Links.EscapeFromOnlyBackslashes | src/js/Markdown.Editor.js:1313-1331 | escaping inserts backslashes and nothing else |
| Links.EscapeFromIdempotent | src/js/Markdown.Editor.js:1313-1331 | escaping an escaped text changes nothing, since every bracket is then after an odd number of backslashes |
| Links.EscapeBracketsProperties | src/js/Markdown.Editor.js:1331 | the escaping of the selection inserts only backslashes, and a second pass changes nothing |
| Links.EncodeLinkIdempotent | src/js/Markdown.Editor.js:1265-1293 | encoding an encoded URL changes nothing (given how `encodeURI` behaves) |
| Links.EncodeLink | src/js/Markdown.Editor.js:1265-1293 | a URL made only of word characters, `-`, `.` and `/` is left as it is |
| Links.EncodeLinkUpperEscapes | src/js/Markdown.Editor.js:1271-1293 | every `%` in the encoded URL opens an escape with two uppercase hexadecimal digits, as section 2.1 of RFC 3986 asks |
| Links.EncodeQueryNoPlus | src/js/Markdown.Editor.js:1280-1290 | after a `?`, no `+` is left: each one becomes `%20` |
| Links.EncodeLinkQuery | src/js/Markdown.Editor.js:1280-1290 | the first `?` splits the URL: the part before it is encoded outside the query string, where `+` goes to `encodeURI`, and the part after it inside |
| Links.EscapeTitle | src/js/Markdown.Editor.js:1295-1298 | the escaped title holds none of `"`, `(`, `)`, `<`, `>` |
| Links.EscapeTitleChainPerChar | src/js/Markdown.Editor.js:1298 | the five global replacements in a row escape the title one character at a time |
| Links.TitleEntitiesRoundTrip | src/js/Markdown.Editor.js:1298 | with `&quot;`, the escaped title of a text without `&` decodes back to the title |
| Links.TitleAsWrittenLosesQuote | src/js/Markdown.Editor.js:1298 | as written, `"` becomes `quot;`, which decodes to those letters and not to a quotation mark |
| Links.TitleStart | src/js/Markdown.Editor.js:1263 | the lazy URL group ends at the first white space where the title group can match |
| Links.SplitBareLink | src/js/Markdown.Editor.js:1263 | a URL without white space is matched whole, with no title |
| Links.SplitTitledLink | src/js/Markdown.Editor.js:1263 | a URL, one space and a quoted title split into that URL and that title |
| Links.ProperlyEncodedTitled | src/js/Markdown.Editor.js:1262-1302 | a URL with a title becomes the encoded URL, one space, and the trimmed title in quotes, escaped as written (`"` becomes `quot;`) |
| Links.ProperlyEncoded | src/js/Markdown.Editor.js:1262-1302 | a URL alone, without white space, becomes the encoded URL |
| Links.FixProtocol | src/js/Markdown.Editor.js:1309-1311 | the result has an `http`, `https` or `ftp` scheme; `http://` is dropped before another scheme and added to a link without one; any other link is kept |
| Links.DropLinkOpenLeavesSpace | src/js/Markdown.Editor.js:1349 | removing `!?[` from a start tag found by `findTags` leaves its white space |
| Links.DialogLabel | src/js/Markdown.Editor.js:1333 | the dialog's ` [999]:` label is renumbered to `  [n]:` with the encoded link after it |
| Links.LinkedReference | src/js/Markdown.Editor.js:1331-1346 | a URL entered makes the selection a reference `[…][k]` (or `![…][k]`) with a non-empty text, and the definition `  [k]: url` among the definitions after `after` |
| Links.LinkEnteredReference | src/js/Markdown.Editor.js:1306-1346 | for any non-empty link, the reference number in the end tag is the number of the definition line holding the encoded URL |
| Links.LinkEnteredReadsBack | src/js/Markdown.Editor.js:1182-1346 | the link entered in the dialog, once encoded, is what `getLinkDef` (corrected) reads back from the reference it became, when the encoded link is one non-blank line and its label does not occur earlier in `after` |
| Links.DescriptionNotEmpty | src/js/Markdown.Editor.js:1339-1346 | the description put in an empty selection is never empty |
| Links.LinkEnteredCallback | src/js/Markdown.Editor.js:1306-1359 | the state becomes the flattened chunk: unchanged on cancel, unlinked on `""`, linked for a URL |
| Links.MakeReference | src/js/Markdown.Editor.js:1331-1346 | the regions become `Linked`: escaped selection, definition added, reference tags |
| Links.MarkReference | src/js/Markdown.Editor.js:1336-1346 | the tags become `[` or `![` and `][n]`, and an empty selection gets the description |
| Links.RemoveLink | src/js/Markdown.Editor.js:1348-1352 | the `[` goes from the start tag, the end tag is emptied and the definitions are renumbered |
| Links.LinkOrImage | src/js/Markdown.Editor.js:1369-1393 | the state and the text shown in the dialog become `LinkOrImageSpec` of the old state and the dialog's answer; the dialog text is `getLinkDef` as written |
| Links.Prompt | src/js/Markdown.Editor.js:1376-1392 | a found link opens the dialog with `getLinkDef` as written (one-digit reference numbers); otherwise the tags are folded back, and a blank line in the selection stops the command without `finish` |
| Links.FoldTags | src/js/Markdown.Editor.js:1384-1385 | the tags are moved back into the selection |
| Links.LinkChunkText | src/js/Markdown.Editor.js:1371-1373 | trimming and finding the link tags keep the text, unless both end-side matches are non-empty |
| Links.LinkOrImageCancelKeepsText | src/js/Markdown.Editor.js:1353-1393 | cancelling the dialog leaves the text unchanged |
| Links.CancelOn | src/js/Markdown.Editor.js:1353-1393 | on cancel the state is unchanged, or only the chunk's text is written back |
| Quote.NewlinesOutKeepsText | src/js/Markdown.Editor.js:1398-1403 | moving the selection's edge newlines out keeps the text |
| Quote.NewlinesOutStrips | src/js/Markdown.Editor.js:1398-1403 | a selection with some other character loses exactly its edge newlines |
| Quote.MarkerToSelectionKeepsText | src/js/Markdown.Editor.js:1405-1409 | moving a trailing `>` and its blanks from `before` into the selection keeps the text |
| Quote.QuoteSelection | src/js/Markdown.Editor.js:1411-1412 | the selection is never empty; one holding more than white space and `>` is kept |
| Quote.ScanQuote | src/js/Markdown.Editor.js:1444-1477 | the backward line scan loop computes `ScanBefore` |
| Quote.ScanFromConcat | src/js/Markdown.Editor.js:1448-1471 | at every step of the loop, `leftOver + match` is the lines read so far, each followed by a newline |
| Quote.ScanBeforeParts | src/js/Markdown.Editor.js:1444-1477 | the new start tag is empty or has a line starting with `>`; `leftOver + startTag` is `before` with a final newline |
| Quote.ScanKeepsQuoteBefore | src/js/Markdown.Editor.js:1444-1477 | when the last line of `before` starts with `>`, the start tag ends with that line |
| Quote.LeadWithNewline | src/js/Markdown.Editor.js:1482-1484 | a non-empty `after` starts with exactly one added or kept newline |
| Quote.QuoteTailFromQuoteLine | src/js/Markdown.Editor.js:1486-1490 | after a newline and `>`, the end-tag pattern matches at least that line |
| Quote.EndTagKeepsQuoteAfter | src/js/Markdown.Editor.js:1482-1490 | the end tag and the new `after` make up the old `after`, and the end tag takes the quoted line after the selection |
| Quote.BlankLinesIdempotent | src/js/Markdown.Editor.js:1492-1508 | replacing blank quote lines a second time changes nothing |
| Quote.ReplacementsBlank | src/js/Markdown.Editor.js:1494 | both replacements, `"> "` and `""`, are themselves blank quote lines |
| Quote.StripPrefixLines | src/js/Markdown.Editor.js:1510-1519 | removing `> ` from every line undoes quoting it |
| Quote.PrefixLinesAllQuoted | src/js/Markdown.Editor.js:1512 | after `> ` is put before every line, every line is quoted |
| Quote.MarkerToTag | src/js/Markdown.Editor.js:1531-1537 | on a one-line quoted selection, the `>` and spaces move to the start tag; `startTag + selection` is kept |
| Quote.QuoteBranchSelection | src/js/Markdown.Editor.js:1510-1514 | the quoting branch wraps to 70 columns (with `prefixes` as written), prefixes every line with `> ` and strips the edge newlines |
| Quote.QuoteBranchQuotes | src/js/Markdown.Editor.js:1510-1514 | a selection with an unquoted line comes out all quoted, and unquoting it gives the wrapped text |
| Quote.ReplaceBlanksInTags | src/js/Markdown.Editor.js:1492-1508 | the regions become `ReplaceBlanks` of the old ones |
| Quote.UnquoteLines | src/js/Markdown.Editor.js:1515-1527 | the regions become the unquoting branch of the old ones, unwrapped with `prefixes` as written |
| Quote.SpaceTagsOf | src/js/Markdown.Editor.js:1519-1525 | an unquoted selection gets a blank line from each non-empty tag: at most two newlines are replaced by exactly two |
| Quote.QuoteLines | src/js/Markdown.Editor.js:1510-1514 | the regions become the quoting branch of the old ones, wrapped with `prefixes` as written |
| Quote.Prepare | src/js/Markdown.Editor.js:1398-1412 | the regions become the prepared selection |
| Quote.FindQuoteTags | src/js/Markdown.Editor.js:1444-1490 | the regions get the start and end tags of the scans |
| Quote.Finish | src/js/Markdown.Editor.js:1529-1537 | the hook is applied to the selection, then a leading `>` of a one-line selection goes to the start tag |
| Quote.QuoteChunk | src/js/Markdown.Editor.js:1395-1537 | the regions become `QuoteRegions` of the old ones |
| Quote.QuoteCommand | src/js/Markdown.Editor.js:1395-1540 | the state becomes `QuoteSpec` of the old one |
| Code.OutdentIndentedLines | src/js/Markdown.Editor.js:1572-1580 | outdenting undoes indenting by four spaces |
| Code.IndentedHasNoTextLine | src/js/Markdown.Editor.js:1572-1580 | an indented selection has no line with text in its first four columns, so `code` outdents it next time |
| Code.TrimKeeps | src/js/Markdown.Editor.js:1587 | a selection without edge white space is not changed by `trimWhitespace` |
| Code.BackticksAdded | src/js/Markdown.Editor.js:1584-1596 | inline code without backticks around it gets one backtick on each side |
| Code.NoBackticksFound | src/js/Markdown.Editor.js:1588 | without backticks around the selection, `findTags` finds nothing |
| Code.BackticksFound | src/js/Markdown.Editor.js:1588 | a backtick on each side becomes the start and end tag |
| Code.BackticksRemoved | src/js/Markdown.Editor.js:1584-1603 | a backtick on each side is removed |
| Code.BacktickRoundTrip | src/js/Markdown.Editor.js:1584-1603 | applying inline code twice gives back the regions |
| Code.BacktickEdges | src/js/Markdown.Editor.js:1588 | the backtick matchers take at most one backtick |
| Code.BacktickTagsShape | src/js/Markdown.Editor.js:1588 | the tags found are at most two backticks each |
| Code.ResolveBackticksText | src/js/Markdown.Editor.js:1590-1603 | a found start tag removes both tags; a lone end backtick is merged into `before`; with no tags, both become a backtick |
| Code.BacktickTagsResolved | src/js/Markdown.Editor.js:1584-1603 | the resolution in terms of the tags `findTags` found |
| Code.MoveToOwnLines | src/js/Markdown.Editor.js:1551-1556 | the regions become `IndentedLines` of the old ones |
| Code.JoinIndent | src/js/Markdown.Editor.js:1551-1556 | four spaces at the end of `before` move into the selection |
| Code.SkipToOwnLines | src/js/Markdown.Editor.js:1558-1569 | the selection is put on its own lines |
| Code.Indent | src/js/Markdown.Editor.js:1549-1582 | the regions become the indented-block branch of the old ones |
| Code.IndentLines | src/js/Markdown.Editor.js:1571-1581 | the regions become `IndentSelection` of the old ones |
| Code.Resolve | src/js/Markdown.Editor.js:1590-1603 | the regions become `ResolveBackticks` of the old ones |
| Code.Backticks | src/js/Markdown.Editor.js:1584-1603 | the regions become the backtick branch of the old ones |
| Code.CodeCommand | src/js/Markdown.Editor.js:1542-1606 | the state becomes `CodeSpec` of the old one |

## Left out

- The DOM: focus, the caret, `restore`, `setInputAreaSelection`, `fireInputEvent`, event handlers and visibility checks. `initiate` and `finish` are reduced to `getChunks` and `setChunks` on a `TextareaState` value.
- `PanelCollection`, `UIManager`, `doClick` and the Derby component in `index.js`. They are toolbar and event plumbing that only call the commands.
- `util.extendRegExp` and the browser sniffing, with its Chrome workaround in `skipLines`. Each pattern `findTags` is given is modelled as a concrete matcher instead.
- The `String.prototype.trim` polyfill: trimming is modelled directly.
- The `linkdialog` and `imagedialog` texts: they are HTML for the dialog, which is left out.
- `encodeURI` is a JavaScript builtin. It is a function parameter here.
- Links.EncodeLinkIdempotent: proved only for an `encodeURI` that returns a character unchanged, or as uppercase percent escapes. The builtin does so, but it is not modelled.
- Links.EncodeLinkUpperEscapes, Links.EncodeQueryNoPlus: proved under the same assumption about `encodeURI`.
- `encodeURI` throws on a lone UTF-16 surrogate. That is not modelled: characters here are Unicode scalar values.
- The link dialog is an input. The command takes the dialog's answer as an argument: none for cancel, `""` to remove the link, and any other string as a URL. The dialog's asynchronous callback is not modelled.
- The `postBlockquoteCreation` hook is a `string -> string` parameter of `quote`. The `insertImageDialog` hook is not used by the modelled code.
- Hooks.HookCollection.Chain: a chained hook passes only its first argument on. The extra arguments a JavaScript hook can receive are not modelled.
- Hooks.HookCollection.Chain: the source throws when `this[hookname]` is falsy. A name inherited by the object (`toString`, or the collection's own `chain`, `set`, `addNoop`, `addFalse`) therefore does not throw, and a hook previously set to a falsy value does. The model knows only names added with `addNoop` or `addFalse`, and a hook is always a function.
- Hooks.HookCollection.Set: the same test as `chain`, so the same two cases are not modelled: inherited names do not throw in the source, and falsy hook values do.
- `setTimeout`, `refreshState` and the pending `inputStateObj` capture. Each save takes the current capture as an explicit argument, so the `!currState` branch of `saveState` cannot be reached.
- The `undo`/`redo` callback, and the focus.
- UndoHistory.UndoManager.SetMode: the Internet Explorer branch that drops the capture in moving mode is not modelled.
- UndoHistory.UndoManager.HandlePaste: modelled after its checks have passed, namely a changed text (or Internet Explorer) and no pending timer.
- The keypress handler that suppresses the default action of Ctrl+Y/Z.
- Positions count Unicode characters, not UTF-16 code units.
- LinkDefs.GetLinkDefReadsBack: stated only when the label `[n]:` does not occur before the definition line. The search is unanchored, so an earlier occurrence, inside an earlier definition's URL or title say, is the one `getLinkDef` reads.
- Links.LinkEnteredReadsBack: under the same condition, and only for an encoded link that is one line and does not start with white space.
- UndoHistory.UndoRedoRoundTrip: stated for runs of commands, each saved by `setCommandMode`. Typing bursts and caret moves between them are not covered by this lemma.
- Chunks.FindTagsKeepsText: stated only when at most one end-side match is non-empty, and no start match is cut while `startTag` is non-empty. Otherwise the editor reorders the text, as Chunks.FindTagsSwapsEndMatches shows.

## Findings

| source | as written | input that shows it | evidently intended | confidence | as-written member | corrected member |
|---|---|---|---|---|---|---|
| src/js/Markdown.Editor.js:1088-1094 | the last alternative of `prefixes`, `\s*\[[^\n]]+\]:`, needs one character followed by two or more `]`, so `unwrap` joins a link definition line onto the line before it | `"a\n[1]:"` is unwrapped to `"a [1]:"` | `\s*\[[^\n]+\]:`, so that a definition line stays a line of its own | not executed | Wrapping.UnwrapAsWrittenJoinsDefinition | Wrapping.UnwrapKeepsDefinitionLines |
| src/js/Markdown.Editor.js:1182-1202 | `getLinkDef` looks the reference up with `\]\[([\d])\]`, one digit only; for references numbered 10 or more the fallback returns the number itself as the link | end tag `][12]` with `after` `"\n\n  [12]: u"` gives `"12"` | `\]\[(\d+)\]`, so that the dialog shows the URL `u` | not executed | LinkDefs.GetLinkDefAsWrittenMissesTwoDigits | LinkDefs.GetLinkDefReadsBack |
| src/js/Markdown.Editor.js:1298 | a `"` in a link title is replaced by `quot;`, without the `&` the other four replacements write | the title `"` becomes the text `quot;` | `&quot;`, which reads back as `"` | not executed | Links.TitleAsWrittenLosesQuote | Links.TitleEntitiesRoundTrip |

The commands follow the code as written: `quote` wraps and unwraps with
`prefixes` as written, `properlyEncoded` writes `quot;`, and `linkOrImage`
opens the dialog with the one-digit `getLinkDef`. Each corrected member
proves the intended property of the corrected definition, which stands
beside the as-written one.
