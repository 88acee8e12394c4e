# Patching `submitToSparxNowInternal`: a verified model of the two fix scripts

The repository has two Python scripts. Each patches the JavaScript bot
`discord-browser-bot-download.js`. Both use the same text-patching engine:

1. **Locator.** The region starts at the first
   `// Internal submission function (can retry if frame detaches)`. If that
   comment is missing, it starts at the first
   `async function submitToSparxNowInternal(`. The end is searched from the
   start onwards:
   - `fix-single-tab.py` uses the first `module.exports =`;
   - `fix-bot-tabs.py` uses the first `// API endpoints for Express server`, and falls back to `module.exports =` when that comment is missing.

   When a boundary is missing, the script exits before writing.
2. **Scoped rewriter.** An ordered table of literal rules is applied to the
   region text only. For each rule, the script counts the pattern and
   replaces every occurrence when the count is positive.
   - `fix-single-tab.py` turns `productPage.<m>` into `page.<m>`.
   - `fix-bot-tabs.py` turns `await page.<m>` into `await productPage.<m>`, then ` page.<m>` into ` productPage.<m>`.

   Here `<m>` ranges over nine Puppeteer method names.
3. **Excisions** (`fix-single-tab.py` only). The product-tab section is cut
   out of the region. The confirmation-wait section is replaced by a fixed
   comment line.
4. **Reassembly.** The file becomes `before_func + func_content + after_func`.

Modules:

- `Text`: Python's `str.find`, `str.count` and `str.replace` on `seq<char>`. Also a toolkit for proving that a marker cannot arise from splicing.
- `Rewriter`: the rule loop, as an imperative method proved against the fold `ApplyRules`.
- `PageMethods`: the method names and the table builder.
- `Markers`, `SingleTabMarkers`, `BotTabMarkers`: the literal markers, and facts about which openings cannot occur inside them.
- `Region`: the start locator and reassembly.
- `FixSingleTab` and `FixBotTabs`: the two scripts.
- `SingleTabRerun` and `BotTabRerun`: what happens when a script runs on its own output.
- `SingleTabRecut`: a file on which a second run of `fix-single-tab.py` changes the text again.

Each script appears twice:

- as a pure function `Patch(content): Option<string>`, where `None` is the `exit(1)` path;
- as a method `Run` that follows the script line by line. `Run`'s postcondition ties it to `Patch`, and the lemmas state what `Patch` guarantees.

Behaviour the model keeps as the code writes it:

- **The bot script rewrites calls inside comments.** The comment at
  `fix-bot-tabs.py:38` says comments are exempt, but nothing in the code
  enforces that. A ` page.<m>` inside a `//` comment is rewritten
  (`FixBotTabs.CommentedCallRewritten`).
- **The tab end marker is searched from the start of the region**, not from
  the tab start marker. When the navigation log comes before the tab
  comment, the cut keeps `region[e..s]` twice (`FixSingleTab.ExciseTabCuts`).
  This is kept as written.
- **A second run of `fix-single-tab.py` is not always a no-op.** That it
  writes back the same text is proved when, in the first run, no tab comment
  follows the first navigation log and no wait comment follows the first
  completion log (`SingleTabRerun.PatchIdempotent`). Without that condition
  the second run can cut again: on a region holding the tab comment, the
  navigation log and the tab comment once more, each run writes the
  navigation log once more (`SingleTabRecut.SecondRunCutsAgain`).

## Model

| member | source | states |
|---|---|---|
| Text.Find | fix-single-tab.py:13-18 | A found index is the first occurrence at or after the search start; `None` means no occurrence from there on |
| Text.FindIff | fix-bot-tabs.py:16-23 | `find` returns `i` exactly when `i` is the first occurrence from the start index, and fails exactly when nothing occurs from there |
| Text.CountBound | fix-single-tab.py:46 | The non-overlapping occurrences that `count` reports fit side by side in the text |
| Text.CountZeroIff | fix-single-tab.py:46-47 | `count` is zero exactly when the pattern occurs nowhere, in both directions |
| Text.ReplaceAllLength | fix-single-tab.py:48 | `replace` changes the length by `count * (len(new) - len(old))` |
| Text.ReplaceAllAbsent | fix-single-tab.py:47-48 | Replacing a pattern that does not occur leaves the text unchanged |
| Text.ReplaceAllAtFirst | fix-bot-tabs.py:63 | `replace` works left to right: text before the first occurrence is kept, that occurrence becomes the replacement, and the rest is rewritten on its own with the count one lower |
| Text.ReplaceAllKeepsAbsent | fix-bot-tabs.py:63 | Replacing never creates a marker that cannot overlap the replacement; the replaced pattern itself is gone afterwards |
| Text.ReplaceAllAround | fix-bot-tabs.py:63 | `replace` rewrites each side of a middle text on its own when no occurrence can start inside that text or run into it |
| Text.ReplaceAllKeepsHead | fix-bot-tabs.py:63 | Replacing never reaches into an opening inside which the pattern cannot start |
| Rewriter.Rewrite | fix-single-tab.py:45-49 | The loop leaves the region equal to the rule-by-rule fold of the table, and reports for each rule the count in the region as that rule sees it |
| Rewriter.ApplyRuleIsReplace | fix-single-tab.py:46-48 | The `count > 0` guard makes no difference: one pass is `replace`, the length moves by count times the length difference, and a zero count leaves the region unchanged |
| Rewriter.ApplyRulesAppend | fix-bot-tabs.py:60-64 | Running the loop over two tables back to back is running it over their concatenation |
| Rewriter.ApplyRulesAround | fix-bot-tabs.py:60-64 | The rule loop rewrites each side of a middle text on its own when no pattern can start inside that text or run into it |
| Rewriter.ApplyRulesNoop | fix-single-tab.py:45-49 | A table none of whose patterns occurs leaves the region unchanged, and every reported count is zero |
| Rewriter.ApplyRulesLength | fix-bot-tabs.py:60-64 | When each rule changes the length by the same `d`, the region grows by `d` times the sum of the reported counts |
| Rewriter.ApplyRulesRemoves | fix-single-tab.py:45-49 | After the loop, a rule's pattern is gone when neither its own replacement nor any later one can form it again |
| Rewriter.ApplyRulesKeepsAbsent | fix-bot-tabs.py:60-64 | A marker no replacement can form, absent before the loop, is absent after it |
| Rewriter.ApplyRulesKeepsHead | fix-bot-tabs.py:60-64 | The loop never reaches into an opening inside which no pattern can start |
| Rewriter.ShadowedCountsZero | fix-single-tab.py:33-49 | A rule whose pattern extends an earlier rule's pattern always counts zero, when nothing written in between recreates the earlier pattern |
| PageMethods.Retarget | fix-single-tab.py:33-43 | The table has one rule per method name, in order, each turning `<from><m>` into `<to><m>` |
| PageMethods.EvaluateShadowsHandle | fix-single-tab.py:34-42 | `evaluateHandle` is `evaluate` followed by `Handle` |
| PageMethods.CallsIsolated | fix-bot-tabs.py:39-57 | A rewritten call on one prefix cannot form or run into a call on the other prefix, given which openings each prefix excludes |
| Region.FunctionStartSpec | fix-single-tab.py:13-15 | The start is the first internal-submission comment, or the first signature when the comment is absent anywhere; there is none exactly when both are absent |
| Region.Reassemble | fix-single-tab.py:80 | The rebuilt file holds the text before the region, then the new region, then the text from the end marker on |
| Region.ReassembleSame | fix-bot-tabs.py:30-32 | Putting the region back where it was taken from gives back the original file |
| FixSingleTab.Locate | fix-single-tab.py:13-22 | Found bounds satisfy `0 <= start <= end <= len(content)` |
| FixSingleTab.LocateSpec | fix-single-tab.py:13-22 | The region runs from the chosen start to the first `module.exports =` at or after it; locating fails exactly when there is no start or no exports marker from it |
| FixSingleTab.FindBoundaries | fix-single-tab.py:13-22 | The script's boundary lines compute exactly `Locate` |
| FixSingleTab.Patch | fix-single-tab.py:20-27 | The script writes nothing exactly when locating fails; otherwise the output keeps `content[:start]` as its prefix and `content[end:]` as its suffix |
| FixSingleTab.PatchSettled | fix-single-tab.py:80 | A file whose located region the transform leaves unchanged is written back unchanged as text, character for character |
| FixSingleTab.Run | fix-single-tab.py:13-80 | The script's steps produce `Patch(content)`; the counts are empty on the exit path, and otherwise are the per-rule counts the loop sees |
| FixSingleTab.TableRule | fix-single-tab.py:33-43 | Rule `i` turns `productPage.<m_i>` into `page.<m_i>` and shortens the text by 7 per occurrence |
| FixSingleTab.PatternIsolated | fix-single-tab.py:33-49 | No `page.<m>` written by any rule can form or run into any table pattern `productPage.<m'>` |
| FixSingleTab.RewriteShrinks | fix-single-tab.py:45-49 | The rewritten region is exactly 7 times the total reported count shorter |
| FixSingleTab.RewriteRemovesAll | fix-single-tab.py:33-49 | After the loop no table pattern `productPage.<m>` remains in the region |
| FixSingleTab.EvaluateHandleNeverCounts | fix-single-tab.py:34-49 | The `productPage.evaluateHandle` rule always reports zero, because `productPage.evaluate` has already rewritten every such call |
| FixSingleTab.ExciseTab | fix-single-tab.py:52-63 | With either tab marker missing, the region is unchanged |
| FixSingleTab.RemoveTabSection | fix-single-tab.py:52-63 | The script's tab lines compute exactly `ExciseTab` |
| FixSingleTab.ExciseTabCuts | fix-single-tab.py:52-63 | With both tab markers found, the region becomes `region[:s] + region[e:]`. The navigation log now sits at `s`, and the length drops by `e - s` when `s <= e`. When `e < s`, `region[e:s]` appears twice |
| FixSingleTab.SliceFrom | fix-single-tab.py:76 | Python's `s[i:]`: the tail from `i`, or empty past the end |
| FixSingleTab.CompletionEndAfterCall | fix-single-tab.py:76 | In a tail that opens with the completion log call, the cut point is the end of that call's text |
| FixSingleTab.ExciseWait | fix-single-tab.py:66-77 | With either wait marker missing, the region is unchanged |
| FixSingleTab.RemoveWaitSection | fix-single-tab.py:66-77 | The script's wait lines compute exactly `ExciseWait` |
| FixSingleTab.ExciseWaitSplices | fix-single-tab.py:66-77 | With both wait markers found, the result is `region[:ws]` + the no-wait comment line + `region[we:]`, so the completion log and everything after it are kept exactly |
| SingleTabRerun.TransformRemovesAll | fix-single-tab.py:33-77 | After the rules and both excisions, no table pattern remains |
| SingleTabRerun.TransformKeepsAbsent | fix-single-tab.py:45-77 | The transform creates no boundary marker that was absent from the region |
| SingleTabRerun.TransformKeepsHead | fix-single-tab.py:45-77 | The transform keeps the opening marker of the region in place |
| SingleTabRerun.ExciseTabSettles | fix-single-tab.py:52-63 | When no tab comment follows the first navigation log, one of the two tab markers is gone after the cut |
| SingleTabRerun.ExciseWaitSettles | fix-single-tab.py:66-77 | When no wait comment follows the first completion log, one of the two wait markers is gone after the splice |
| SingleTabRerun.TabStartStaysGone | fix-single-tab.py:66-77 | The wait splice does not bring back a missing tab comment |
| SingleTabRerun.TabEndStaysGone | fix-single-tab.py:66-77 | The wait splice does not bring back a missing navigation log |
| SingleTabRerun.TransformSettles | fix-single-tab.py:45-77 | On such regions, transforming a transformed region changes nothing |
| SingleTabRerun.TransformKeepsMarkers | fix-single-tab.py:13-18 | The rewritten region opens with the same start marker, keeps a missing comment marker missing, and holds no `module.exports =` |
| SingleTabRerun.LocateAgain | fix-single-tab.py:13-22 | Run on its own output, the script finds the rewritten region at the same start |
| SingleTabRerun.PatchAgain | fix-single-tab.py:13-80 | A reassembled file whose region keeps the markers and is settled is written back unchanged |
| SingleTabRerun.PatchIdempotent | fix-single-tab.py:13-80 | When, in the first run, no tab comment follows the first navigation log once the rules have run, and no wait comment follows the first completion log once the tab cut has run (each holds trivially when the end marker is missing), running the script on its own output writes back the same text |
| SingleTabRecut.FirstCut | fix-single-tab.py:52-63 | On a region holding the tab comment, the navigation log and the tab comment again, the cut leaves the navigation log followed by the second tab comment |
| SingleTabRecut.SecondCut | fix-single-tab.py:52-63 | On a region where the navigation log comes before the tab comment, the cut writes the navigation log twice |
| SingleTabRecut.SecondRunCutsAgain | fix-single-tab.py:13-80 | Such a file does not meet the condition of `PatchIdempotent`; the first run and the run on its output are computed exactly, and the two outputs differ |
| SingleTabRecut.CommentCutsAgain | fix-single-tab.py:13-80 | The same for the region opened by the internal-submission comment alone: two runs give different files |
| FixBotTabs.RegionEndSpec | fix-bot-tabs.py:20-23 | The end is the first API comment from the start, or the first exports marker from there when there is no API comment; there is none exactly when both are absent from the start on |
| FixBotTabs.Locate | fix-bot-tabs.py:16-27 | Found bounds satisfy `0 <= start <= end <= len(content)` |
| FixBotTabs.LocateSpec | fix-bot-tabs.py:16-27 | The region runs from the chosen start to the end marker chosen by the fallback; locating fails exactly when there is no start, or neither end marker occurs from it |
| FixBotTabs.FindBoundaries | fix-bot-tabs.py:16-27 | The script's boundary lines compute exactly `Locate` |
| FixBotTabs.Patch | fix-bot-tabs.py:25-32 | The script writes nothing exactly when locating fails; otherwise the output keeps `content[:start]` as its prefix and `content[end:]` as its suffix |
| FixBotTabs.PatchSettled | fix-bot-tabs.py:67 | A file whose located region the rules leave unchanged is written back unchanged as text, character for character |
| FixBotTabs.Run | fix-bot-tabs.py:16-67 | The script's steps produce `Patch(content)`; the counts are empty on the exit path, and otherwise are the per-rule counts the loop sees |
| FixBotTabs.AwaitRule | fix-bot-tabs.py:40-48 | Rules 0 to 8 turn `await page.<m_i>` into `await productPage.<m_i>` |
| FixBotTabs.SpaceRule | fix-bot-tabs.py:49-57 | Rules 9 to 17 turn ` page.<m_i>` into ` productPage.<m_i>` |
| FixBotTabs.RuleGrows | fix-bot-tabs.py:39-58 | Every rule grows the text by 7 per occurrence |
| FixBotTabs.PatternIsolated | fix-bot-tabs.py:39-64 | No replacement of any rule can form or run into the pattern of any rule. The `await` rules' output holds no ` page.<m>` for the later rules, so no occurrence is rewritten twice |
| FixBotTabs.RewriteGrows | fix-bot-tabs.py:60-64 | The rewritten region is exactly 7 times the total reported count longer |
| FixBotTabs.RewriteRemovesAll | fix-bot-tabs.py:39-64 | After the loop, no pattern of the table remains in the region |
| FixBotTabs.RewriteSettles | fix-bot-tabs.py:49-64 | Applying the table to its own output changes nothing, and every rule then reports zero |
| FixBotTabs.RewriteUnchangedIff | fix-bot-tabs.py:60-64 | The region is left unchanged exactly when it holds no pattern of the table |
| FixBotTabs.NoSpacePageUntouched | fix-bot-tabs.py:39-64 | A region without ` page.` is left unchanged, and every rule reports zero |
| FixBotTabs.CommentedCallRewritten | fix-bot-tabs.py:38-58 | A ` page.<m>` call inside a `//` comment is rewritten, despite the comment at line 38 |
| FixBotTabs.OccurrenceRewritten | fix-bot-tabs.py:60-64 | A region holding any table pattern is changed |
| FixBotTabs.EvaluateHandleNeverCounts | fix-bot-tabs.py:39-64 | The `evaluateHandle` rule of each half always reports zero, because that half's `evaluate` rule has already rewritten every such call |
| BotTabRerun.RulesKeepHead | fix-bot-tabs.py:60-64 | The rules never reach into an opening where no `aw` or ` p` can start |
| BotTabRerun.RulesKeepAbsent | fix-bot-tabs.py:60-64 | The rules create no boundary marker that was absent from the region |
| BotTabRerun.TransformKeepsHead | fix-bot-tabs.py:60-64 | The rewrite keeps the opening marker of the region in place |
| BotTabRerun.TransformKeepsMarkers | fix-bot-tabs.py:16-23 | The rewritten region opens with the same start marker and holds no API comment. When the region ended at `module.exports =`, it holds no exports marker either |
| BotTabRerun.LocateAgain | fix-bot-tabs.py:16-27 | Run on its own output, the script finds the rewritten region at the same start |
| BotTabRerun.PatchAgain | fix-bot-tabs.py:16-67 | A reassembled file whose region keeps the markers and is settled is written back unchanged |
| BotTabRerun.ParenthesizedCallKept | fix-bot-tabs.py:38-64 | In any region, a `(page.<m>` call with no space before `page.` is kept as it is, and the text on either side is rewritten as if on its own |
| BotTabRerun.PatchIdempotent | fix-bot-tabs.py:16-67 | Running the script on its own output writes back the same text, with no precondition |

## Left out

- Reading and writing `discord-browser-bot-download.js` (`fix-single-tab.py:9-10, 83-84`, `fix-bot-tabs.py:9-10, 70-71`) is I/O. The model is a function from the file's text to the text that would be written.
- The `print` progress lines are diagnostics only and are not modelled. The per-rule counts come back from `Run` as data.
- `exit(1)` is not a process action here. It is the `None` result of `Patch` and `Run`.
- The unused `import re` is not modelled.
- UTF-8 decoding and encoding are not modelled. The text is a sequence of characters, the emoji included.
- Newline translation is part of the I/O left out. Both scripts open the file in text mode, so reading turns `\r\n` and `\r` into `\n` and writing turns `\n` into the platform's line separator. A file with `\r\n` line endings can therefore come back with different bytes even where the model says the text is unchanged. Every "unchanged" here means equal as text.
- Text.Find takes a non-negative start only. The scripts call `find(marker, -1)` when no start marker was found, and the following `== -1` check rejects the run anyway, so `Locate` returns `None` without that search.
- SingleTabRerun.PatchIdempotent is proved under `ExcisesOnce` only: each excision's start marker must not follow its end marker. `SingleTabRecut` shows one family of files outside that condition on which the second run changes the text; other files outside it are not classified.
