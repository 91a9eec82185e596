# Verified models of the IGRIS core

This project models nine modules of IGRIS in Dafny 4.11 and proves what they guarantee. `dafny verify dfyconfig.toml`
checks everything.

| files | module of the repository |
|---|---|
| `Text.dfy` | the Python string operations the others rely on (`in`, `strip`, `splitlines`, `readlines`, `join`) |
| `Insertion.dfy`, `Indentation.dfy`, `IndentRoutes.dfy`, `Editor.dfy`, `EditProofs.dfy`, `EditRepeat.dfy`, `RepeatExact.dfy`, `EditRuns.dfy`, `RouteLaws.dfy`, `WriteRuns.dfy`, `WriteLaws.dfy` | the line-edit engine and its guards |
| `JsonExtract.dfy`, `JsonPrint.dfy` | the extractor of the first JSON object, against a printer for RFC 8259 |
| `Quality.dfy`, `Fallback.dfy`, `QualityLaws.dfy` | scoring, normalising and refining advisory payloads, and the fallback to a sectional plan |
| `AntiLoop.dfy` | the sliding-window repetition counter |
| `AutonomousLoop.dfy`, `LoopProofs.dfy`, `LoopCommands.dfy` | the bounded autonomous loop and its task engine |
| `Backup.dfy`, `BackupProofs.dfy`, `BackupPaths.dfy` | backup, restore and retention of `.igris/` |
| `Embedding.dfy`, `EmbeddingProofs.dfy`, `EmbeddingLaws.dfy` | the embedding store with cosine search |
| `Router.dfy`, `RouterProofs.dfy`, `RouterLaws.dfy` | the assignment router |
| `TaskStore.dfy`, `TaskLaws.dfy` | the A2A task store |

Objects whose methods change their fields are classes, and their methods are specified by functions of the old state;
the lemmas are about those functions, over single calls and over whole runs. The files named Laws, Commands and Paths say
what the functions mean in the words, numbers and texts of the source, without using the functions' own helpers.

## How the models read the code

- A text has no carriage return. A file is read as the lines that end in `\n`, the last one possibly without it;
  `splitlines` keeps its larger set of boundaries. Insertions are put in as text and read back as lines, so every claim
  about lines crosses that boundary.
- The Python parser, the secret detector and the `server.py` symbol check are arbitrary functions (`Editor.Checks`). Equal
  hashes are equal texts, and file operations succeed.
- A route is a match of the decorator pattern within one line.
- Model replies, selector and memory answers, command results, embeddings, norms and clock values are arbitrary inputs.
  Run theorems quantify over all of them.
- Scores, costs and rates are exact reals. The norm is any function whose value is non-negative and squares to
  the sum of squares.

## What the proofs found

- `insert_after` on an anchor line that the file does not terminate continues that line instead of adding one.
  `EditProofs.InsertAfterFrame` says the frame holds exactly for terminated anchor lines. The route guards then miss what
  happens on that line: a route inserted behind an open `app = FastAPI()` stands on that very line
  (`EditRuns.GluedRouteEscapesGuard`), and a text without a route can complete a second declaration of one
  (`EditRuns.GluedRouteRepeats`). `EditRuns.RoutesStayBelowInit` and `EditRuns.RoutesStayDistinct` give the exact
  conditions over runs.
- `insert_before` repeats its insertion when an inserted line holds the anchor and the text declares no route, and both
  inserts repeat blank texts (`RepeatExact.RepeatInsertBeforeLine`, `EditRepeat.RepeatInsertAfterExactly`).
- `append_file` passes neither route guard; `EditRuns.StepKeepsRoutes` and `EditRuns.AppendedKeepsInit` say what its
  caller has to check.
- Metadata that is JSON but no object makes the listing of the backups fail, and with it every later backup
  (`Backup.BackupManager.MakeBackup`).
- The indentation normaliser is idempotent exactly for anchors indented with blanks only
  (`Indentation.NormaliserIdempotent`).
- The destructive-write guard holds per write: two accepted writes empty a source file of up to 663 characters, three one
  of up to 2210, and so on (`WriteRuns.EmptiedInWrites`).
- `_execute_write_file` documents that content already on disk adds no entry to the modified files; the code adds one, and
  the model follows the code (`Editor.FileEditor.WriteFile`).
- The extractor looks at stretches from the first opening brace only, so a stray brace hides a complete object behind it
  (`JsonPrint.StrayBraceHidesObject`, `JsonPrint.ExtractPrintedExactly`).
- A payload whose tests are all the same fails the quality gate even after normalisation; every other payload
  passes (`Quality.NormalizedMeetsGate`). The plain score leaves its documented range for negative confidences
  (`Quality.ScoreRange`), and the structural fallback compares plain scores, so it lowers the phase score when the plan's
  tests do not mention pytest and the payload it replaces was better than that (`Fallback.FallbackHarmless`).
- Asking the loop for the last 0 steps returns the whole log (`AutonomousLoop.RecentStepsLimit`).
- A restore loses what backups leave out, such as logs and locks, below the directories it brings back
  (`BackupPaths.PathsAreBack`).
- A retention of 0 removes a backup as soon as it is made (`BackupProofs.NewBackupSurvives`).
- A longer vector of the query's direction scores higher than the query itself (`Embedding.StretchedMatch`).
- The router's `decompose_first` strategy is never chosen before rates are learned
  (`RouterProofs.DecomposeFirstNeverChosen`), nor is the advised one for endpoints (`RouterLaws.FreshDecision`), and a larger budget can make a decision dearer exactly
  for requests to which strong execution is not available (`RouterProofs.NeverDearerExactly`).

## Model

| member | source | states |
|---|---|---|
| Insertion.RoutesNeedMark | igris/core/agent_loop_insertion_helpers.py:140-146 | a text that never mentions `@app.` declares no route, so the duplicate-route guard cannot fire on it |
| RouteLaws.TextDeclares | igris/core/agent_loop_insertion_helpers.py:140-146 | a text whose first `@app.` starts a decorator with a word, an opening parenthesis, optional spaces and a quoted path declares that word and path first, and then what the rest declares |
| RouteLaws.LineDeclares | igris/core/agent_loop_insertion_helpers.py:140-146 | the same for the routes from the start of one line |
| RouteLaws.RouteIsWritten | igris/core/agent_loop_insertion_helpers.py:140-146 | every route found stands in the text in that form, with its verb and its path |
| Insertion.NormalizeIndent | igris/core/agent_loop_insertion_helpers.py:106-133 | the list-building loop of the normaliser computes the function its laws are about |
| Insertion.IndentContent | igris/core/agent_loop_insertion_helpers.py:121-130 | the inner loop, line by line |
| Indentation.NormaliserShape | igris/core/agent_loop_insertion_helpers.py:112-133 | number of lines kept; blank lines kept, a blank first line emptied; every other line is the anchor indentation followed by the line without some of its blanks |
| Indentation.NormaliserKeepsRelativeIndent | igris/core/agent_loop_insertion_helpers.py:119-130 | below a blank indentation any two non-blank lines after the first one keep their relative indentation |
| Indentation.NormalizedLines | igris/core/agent_loop_insertion_helpers.py:112-133 | splitting the normalised text gives back the normalised lines |
| Indentation.StillNormalizes | igris/core/agent_loop_insertion_helpers.py:107-117 | the normalised text meets the normaliser's conditions again |
| Indentation.BrokenIndentGrows | igris/core/agent_loop_insertion_helpers.py:106-133 | a line boundary within the indentation, such as a form feed, adds lines at every turn |
| Indentation.NormaliserIdempotent | igris/core/agent_loop_insertion_helpers.py:106-133 | normalising twice equals normalising once if and only if the anchor indentation is all blanks or nothing is rewritten |
| Editor.FileEditor.CommitSafeEdit | igris/core/agent_loop_edit_mixin.py:52-79 | writes exactly the one file unless the new part looks like a secret |
| Editor.FileEditor.ValidateAndCommit | igris/core/agent_loop_edit_mixin.py:134-150 | the common end of the safe edits; a refused or no-change edit leaves files and the modified list alone |
| Editor.FileEditor.InsertAfter | igris/core/agent_loop_edit_mixin.py:81-150 | all refusals and successes in order, for missing parameters and files too; only a committed edit changes one file and records it |
| Editor.FileEditor.InsertBefore | igris/core/agent_loop_edit_mixin.py:152-199 | the same for insertion before the anchor |
| Editor.FileEditor.ReplaceRange | igris/core/agent_loop_edit_mixin.py:201-256 | the same for a range of lines, with the range checks ahead of the file check |
| Editor.FileEditor.AppendFile | igris/core/agent_loop_edit_mixin.py:258-304 | the same for appending, a missing file counting as empty |
| Editor.FileEditor.WriteFile | igris/core/agent_loop_edit_mixin.py:306-445 | guarded whole-file write; every success, even without a change, is recorded |
| RouteLaws.NewRoutesNotRefused | igris/core/agent_loop_insertion_helpers.py:149-164 | an edit whose decorators all differ from the file's in verb or path is never refused or kept out as a duplicate |
| RouteLaws.KnownRouteRefused | igris/core/agent_loop_insertion_helpers.py:149-164 | an insert whose first decorator stands in the file as the first of some line is refused as one, however its spaces and quotes are written |
| RouteLaws.AfterRefusals | igris/core/agent_loop_insertion_helpers.py:99-137 | `insert_after` refuses a text with `@app.` behind a line exactly when that line, stripped, starts with `@` or ends with `:`, each for its own reason |
| RouteLaws.NoRouteBehindHeader | igris/core/agent_loop_edit_mixin.py:104-122 | no committed `insert_after` of a text with `@app.` stands behind such a line |
| RouteLaws.InitRefusals | igris/core/agent_loop_insertion_helpers.py:85-96 | an insert without known routes is refused for the initialisation if and only if it mentions `@app.` and no line ahead of it holds `app = FastAPI` |
| RouteLaws.AnchorLine | igris/core/agent_loop_edit_mixin.py:96-100 | the anchor line is the first one with the anchor, or for the unfound anchor `app = FastAPI()` the first one with `app = FastAPI(` |
| RouteLaws.NormalizesMeans | igris/core/agent_loop_insertion_helpers.py:106-117 | the normaliser rewrites exactly the texts with `@app.` behind an indented line with `app = FastAPI(` |
| RouteLaws.NearMeans | igris/core/agent_loop_insertion_helpers.py:65-82 | a text counts as present if and only if it is not blank and stands, stripped, in the joined lines beside the anchor, as many as its own and four more |
| RouteLaws.FiveLines | igris/core/agent_loop_insertion_helpers.py:65-82 | a text of one line does if and only if one of the five lines beside the anchor holds it |
| RouteLaws.InsertedBefore | igris/core/agent_loop_edit_mixin.py:167-199 | a committed `insert_before` puts just the content, completed by a newline if it lacks one, ahead of the first line with the anchor |
| RouteLaws.InsertedAfter | igris/core/agent_loop_edit_mixin.py:96-143 | a committed `insert_after` puts just that behind its anchor line, unless the normaliser rewrites it |
| RouteLaws.Replaced | igris/core/agent_loop_edit_mixin.py:201-256 | a committed `replace_range` puts just that in place of the lines from start to end |
| EditProofs.InsertAfterFrame | igris/core/agent_loop_edit_mixin.py:132-150 | after re-reading, the lines are prefix, inserted lines, suffix if and only if the anchor line is terminated; otherwise the anchor line is continued by the first inserted line |
| EditProofs.InsertBeforeFrame | igris/core/agent_loop_edit_mixin.py:181-199 | after re-reading, the lines are always prefix, inserted lines, suffix |
| EditProofs.ReplaceRangeFrame | igris/core/agent_loop_edit_mixin.py:238-256 | after re-reading, exactly the lines of the range are replaced by the lines of the content |
| EditProofs.AppendFrame | igris/core/agent_loop_edit_mixin.py:285-304 | the old text stays a prefix, its open last line is terminated, and the new lines follow |
| EditRepeat.NearAfterInsert | igris/core/agent_loop_insertion_helpers.py:72-82 | the window below the anchor always covers an insertion made there |
| EditRepeat.NearBeforeInsert | igris/core/agent_loop_insertion_helpers.py:72-82 | the window above the anchor always covers an insertion made there |
| EditRepeat.RepeatInsertAfter | igris/core/agent_loop_edit_mixin.py:96-131 | repeating a committed insert leaves the file as it is, for a non-blank insertion, a terminated anchor line, and an anchor matched as given or absent from the insertion |
| EditRepeat.RepeatInsertAfterExactly | igris/core/agent_loop_edit_mixin.py:96-150 | behind a terminated anchor line, in any file and for any content: repeating is safe if and only if the content is not blank or the repetition is no valid Python |
| EditRepeat.RepeatContinuedExactly | igris/core/agent_loop_edit_mixin.py:96-150 | behind an open anchor line: repeating is safe if and only if the continued line stops routes, or a route of the content is complete on it or below it, or the content starts with a blank line and is not blank, or the repetition is no valid Python |
| EditRepeat.RepeatInsertBefore | igris/core/agent_loop_edit_mixin.py:167-180 | repeating a committed insert leaves the file as it is, for non-blank content none of whose lines holds the anchor |
| EditRepeat.RepeatInsertBeforeRoutes | igris/core/agent_loop_edit_mixin.py:172-175 | the same for any content that declares a route, wherever the anchor is, because the route is found in the first insertion |
| RepeatExact.RepeatInsertAfterAlways | igris/core/agent_loop_edit_mixin.py:96-150 | for every committed `insert_after`, whatever the file, the anchor and the content: repeating is safe if and only if, in the lines after the first call, the second call's anchor line, routes, window, secret test or parser stops it |
| RepeatExact.RepeatInsertBeforeExactly | igris/core/agent_loop_edit_mixin.py:167-199 | for every committed `insert_before`, whatever the file, the anchor and the content: repeating is safe if and only if the content declares a route, or is found above the anchor line of the second call, or the repetition is no valid Python |
| RepeatExact.MovedNotNear | igris/core/agent_loop_insertion_helpers.py:65-82 | above an inserted line that holds an anchor (within one line, possibly indented) the insertion is never found |
| RepeatExact.RepeatInsertBeforeLine | igris/core/agent_loop_edit_mixin.py:167-199 | so for such anchors the middle condition is that the content is not blank and none of its lines holds the anchor |
| EditRuns.StepShape | igris/core/agent_loop_edit_mixin.py:132-304 | what any committed insert, replacement or append does to the lines, behind an open line too, and which guards it has passed |
| EditRuns.TerminatedRun | igris/core/agent_loop_edit_mixin.py:101-304 | in a file that ends with a newline no run of edits that appends whole lines ever continues a line, and the file keeps ending with one |
| EditRuns.GluesOnce | igris/core/agent_loop_edit_mixin.py:101-304 | in any other file such a run continues a line at most once |
| EditRuns.StepKeepsRoutes | igris/core/agent_loop_insertion_helpers.py:149-164 | one edit keeps the routes of the file pairwise distinct if and only if what it puts in has distinct routes, where behind an open line the continued line counts and must not repeat a route from further up, and an append must not repeat any route of the file |
| IndentRoutes.NormaliserRoutes | igris/core/agent_loop_insertion_helpers.py:106-146 | a rewritten insertion declares, in order and number, the routes it declares with every line boundary read as a newline |
| IndentRoutes.NormaliserKeepsRoutes | igris/core/agent_loop_insertion_helpers.py:106-146 | so normalising keeps the routes if and only if nothing is rewritten or that reading changes none of them |
| EditRuns.RoutesStayDistinct | igris/core/agent_loop_edit_mixin.py:123-304 | a run of inserts, replacements and appends keeps the routes pairwise distinct all the way if and only if every committed step meets that condition |
| EditRuns.TerminatedRunDistinct | igris/core/agent_loop_edit_mixin.py:123-237 | so does every run of inserts and replacements, with contents of distinct routes, on a file that ends with a newline |
| EditRuns.GluedRouteRepeats | igris/core/agent_loop_edit_mixin.py:123-142 | a text without any route that, inserted behind an open line, declares a route a second time |
| EditRuns.InsertKeepsInit | igris/core/agent_loop_insertion_helpers.py:85-96 | one insert at a line boundary keeps every `@app.` line below a line with `app = FastAPI` |
| EditRuns.ContinuedKeepsInit | igris/core/agent_loop_insertion_helpers.py:85-96 | one insert behind an open line does so if and only if an earlier line holds `app = FastAPI` or the continued line does not mention `@app.` |
| EditRuns.AppendedKeepsInit | igris/core/agent_loop_edit_mixin.py:258-304 | one append does so if and only if the file holds `app = FastAPI` or the text has it ahead of its own `@app.` lines |
| EditRuns.RoutesStayBelowInit | igris/core/agent_loop_edit_mixin.py:125-304 | a run of the two inserts and appends keeps every `@app.` line below a line with `app = FastAPI` all the way if and only if every step meets its condition |
| EditRuns.TerminatedRunBelowInit | igris/core/agent_loop_edit_mixin.py:125-178 | so every run of inserts on a file that ends with a newline does |
| EditRuns.GluedRouteEscapesGuard | igris/core/agent_loop_edit_mixin.py:125-142 | a route inserted behind the open line `app = FastAPI()` passes the guard and stands on that line, with no initialisation above it; in Python files too, whose parser reads a matrix product |
| WriteRuns.WriteKeepsThird | igris/core/agent_loop_insertion_helpers.py:40-52 | a write accepted on a large source file keeps at least three tenths of its size |
| WriteRuns.ShrinksOnlyThroughSmall | igris/core/agent_loop_edit_mixin.py:357-365 | over every run of writes a large source file only becomes tiny by way of a content of 60 to 199 characters; outside Python files the last write makes it tiny if and only if it is tiny and finds less than 200 characters |
| WriteRuns.GuardHoldsOnlyPerWrite | igris/core/agent_loop_insertion_helpers.py:47-54 | emptying a large source file is refused at once, and accepted by way of a text if and only if that text is below 200 characters, at least three tenths of the file, and the other guards permit both writes |
| WriteRuns.EmptiedInWrites | igris/core/agent_loop_insertion_helpers.py:40-54 | where the other guards permit texts of every length, n writes can empty a source file if and only if it has at most 199 characters for one write, 663 for two, and ten thirds as many for each further one |
| WriteRuns.WritesNeeded | igris/core/agent_loop_insertion_helpers.py:40-54 | no run of n writes empties a larger one, whatever the other guards say |
| WriteLaws.ExtensionMeans | igris/core/agent_loop_insertion_helpers.py:39-41 | the suffix of a file is what follows its last period, in lower case, when something other than periods stands ahead |
| WriteLaws.NoExtension | igris/core/agent_loop_insertion_helpers.py:39-41 | a file name without a period behind its leading ones has none |
| WriteLaws.DestructiveExactly | igris/core/agent_loop_insertion_helpers.py:13-60 | a write over a file is refused as destructive if and only if its suffix, in any case, is one of the 27 listed, the file has at least 200 characters and the content less than three tenths of them |
| WriteLaws.PlainNameUnguarded | igris/core/agent_loop_insertion_helpers.py:39-42 | a file without suffix is never guarded |
| WriteLaws.ServerMeans | igris/core/agent_loop_edit_mixin.py:369-371 | the guarded server files are exactly those named `server.py` in any directory; the second test of the source adds none |
| WriteLaws.SymbolsExactly | igris/core/agent_loop_edit_mixin.py:367-399 | any other write is refused for its symbols if and only if it drops critical ones of such a file |
| WriteLaws.ModuleRefusedExactly | igris/core/agent_loop_insertion_helpers.py:175-190 | an append is refused as a complete module if and only if it goes to a Python file that is not blank, its text starts with an import, and one of its lines starts a function, class, fixture, app or client |
| JsonExtract.ExtractFirstJsonObject | scripts/igris_api_helper.py:520-551 | the one-pass scan returns exactly the shortest stretch from the first brace whose braces balance outside string literals, and nothing exactly when there is none |
| JsonExtract.ReadBalance | scripts/igris_api_helper.py:533-550 | depth, in-string and escape flags count the same braces as the recursive definition that skips string literals |
| JsonExtract.FirstObjectUnique | scripts/igris_api_helper.py:520-551 | the definition leaves one result |
| JsonExtract.FirstObjectInContext | scripts/igris_api_helper.py:527-550 | text without a brace in front and any text behind do not change a result |
| JsonExtract.FirstObjectIdempotent | scripts/igris_api_helper.py:520-551 | extracting from an extracted object returns it |
| JsonPrint.ScanValue | scripts/igris_api_helper.py:533-550 | any printed JSON value leaves the scanner's state as it was, at every depth |
| JsonPrint.PrintedObject | scripts/igris_api_helper.py:520-551 | a printed object is balanced and no proper prefix of it is |
| JsonPrint.ExtractPrinted | scripts/igris_api_helper.py:520-551 | from any printed object, after any text without an opening brace and before any text, the extractor returns exactly the print |
| JsonPrint.ExtractPrintedExactly | scripts/igris_api_helper.py:520-551 | a printed object is returned from where it stands if and only if no opening brace is in front of it |
| JsonPrint.StrayBraceHidesObject | scripts/igris_api_helper.py:527-551 | behind braces left open in front, a printed object is never returned: the result is nothing if and only if what follows does not close them, and reaches beyond the object otherwise |
| Quality.Deduplicate | scripts/igris_api_helper.py:674-680 | the loop over `seen` keeps exactly the first occurrences, in order |
| Quality.DedupKeeps | scripts/igris_api_helper.py:674-680 | the result has the same members, each once |
| Quality.Normalize | scripts/igris_api_helper.py:666-696 | the normaliser computes the function its laws are about |
| Quality.DefaultsAreTests | scripts/igris_api_helper.py:643-663 | for every failure class the defaults are two different non-blank tests |
| Quality.NormalTestsCount | scripts/igris_api_helper.py:669-681 | at least two tests remain if and only if there were fewer than two or two different ones |
| QualityLaws.OwnTestsFirst | scripts/igris_api_helper.py:669-681 | the first four of the payload's own different tests come first, in their order |
| QualityLaws.OwnTestsStay | scripts/igris_api_helper.py:669-681 | two to four different tests are left exactly as they are |
| QualityLaws.NormalizedRunnable | scripts/igris_api_helper.py:643-681 | with fewer than two tests, the normalised payload has two and one mentions pytest, for every failure class |
| QualityLaws.OwnTextsFirst | scripts/igris_api_helper.py:682-695 | long texts stay as they are, short ones stay in front of what is added, and a confidence of 0.9 or more stays |
| Quality.NormalizedMeetsGate | scripts/igris_api_helper.py:627-696 | after normalisation the gate is passed at every floor up to 0.99 if and only if the tests were fewer than two or not all the same |
| Quality.FinishedMeetsGate | scripts/igris_api_helper.py:1270-1279 | the same for the final payload, whatever the passes brought |
| Quality.ScoreRange | scripts/igris_api_helper.py:576-624 | phase scores lie in [0, 1]; the plain score is at most 1, and non-negative exactly for confidences above a stated bound |
| QualityLaws.ScoreMeans | scripts/igris_api_helper.py:576-590 | 0.35, as much for two texts of 80 characters, 0.20 for two tests that are not blank, and a tenth of the confidence up to 0.10; the cap at 1 never applies |
| QualityLaws.GateMeans | scripts/igris_api_helper.py:627-632 | the gate is passed if and only if both texts and two tests are there, the floor is at most 1 and the confidence at least ten times the floor less nine |
| QualityLaws.PhaseScoreMeans | scripts/igris_api_helper.py:602-624 | the phase score is the plain one less 0.06 unless two tests are there and one mentions pytest, less 0.06 more exactly when the texts, stripped and in lower case, name none of the phase's words, and never below 0 |
| QualityLaws.TwoPartsBesideBlank | scripts/igris_api_helper.py:611 | `root cause` is found in the joined texts if and only if one of them holds it or it is divided over the two |
| QualityLaws.JoinSpacedHolds | scripts/igris_api_helper.py:608-609 | a word without blanks is found in the joined tests if and only if one of them holds it |
| QualityLaws.CoerceWords | scripts/igris_api_helper.py:554-573 | each word of the confidence scale, in any case and between any spaces, stands for its number, and other words for what `float` makes of them |
| Quality.Best | scripts/igris_api_helper.py:1245 | the earliest candidate of highest phase score |
| Quality.Refine | scripts/igris_api_helper.py:1184-1250 | the loop never lowers the phase score, ends with the best of the start and all candidates offered, and ends early only at the gate or at an exception |
| QualityLaws.BestIsFirst | scripts/igris_api_helper.py:1245 | the best candidate is the first of the highest phase score |
| QualityLaws.OnePass | scripts/igris_api_helper.py:1244-1248 | in one pass it replaces a payload that fails the gate if and only if it scores no less in the phase |
| QualityLaws.NamedPreferred | scripts/igris_api_helper.py:1184-1250 | whatever the payload and the later passes, the refinement never ends with a candidate that names none of the phase's words when the same pass offers one that does, mentions pytest as well and scores less than 0.06 below it |
| QualityLaws.FinishedMeans | scripts/igris_api_helper.py:1270-1275 | the end of the boost changes the confidence alone, up to the model's minimum |
| Fallback.AdvisoryGaps | scripts/igris_api_helper.py:602-617 | an advisory built from a plan has no gap but that none of its tests mentions pytest, in every phase |
| Fallback.AdvisoryMeetsGate | scripts/igris_api_helper.py:859-902 | it passes the gate if and only if two of its tests are not blank and the floor is at most 0.996 |
| QualityLaws.AdvisoryRunnable | scripts/igris_api_helper.py:859-902 | an advisory mentions pytest in its tests if and only if the plan has fewer than two tests or one of its first six does |
| QualityLaws.FallbackUsed | scripts/igris_api_helper.py:1252-1267 | it replaces a payload if and only if that fails the gate and scores at most 0.996, or 0.796 without two tests |
| Fallback.FallbackLoss | scripts/igris_api_helper.py:1252-1267 | the fallback never lowers the plain score and lowers the phase score by at most 0.06 |
| Fallback.FallbackHarmless | scripts/igris_api_helper.py:1252-1267 | the phase score does not fall if and only if the fallback is not used, or the plan's tests mention pytest, or the payload replaced was 0.06 below the advisory's plain score |
| Fallback.FallbackMayLowerPhaseScore | scripts/igris_api_helper.py:1265-1267 | a plan with two tests that do not mention pytest takes a payload from 0.95 to 0.936 in every phase |
| AntiLoop.CountsAreExact | igris/core/anti_loop.py:34-43 | the counter holds exactly the number of tasks of each family, each family once |
| AntiLoop.WindowTotal | igris/core/anti_loop.py:34-43 | the counts add up to min(n, 20) |
| AntiLoop.ShiftMeans | igris/core/anti_loop.py:46-57 | a shift is forced if and only if some family occurs in the window and fills the threshold, for every integer threshold |
| AntiLoop.PigeonholeForcesShift | igris/core/anti_loop.py:15-57 | whenever min(n, 20) exceeds 5 × (threshold − 1), a shift is forced if and only if the threshold is at least 1 or there are tasks |
| AntiLoop.CanSelectMeans | igris/core/anti_loop.py:89-108 | without a differentiator a family may be selected if and only if it does not occur in the window or stays below the threshold |
| AntiLoop.ReplacementIsLeast | igris/core/anti_loop.py:111-131 | a replacement comes if and only if the current family is saturated and another one occurs; it is the least frequent of the others, the first seen on a tie, and saturated only when all of them are |
| AntiLoop.OnlyLastTwenty | igris/core/anti_loop.py:34-131 | whatever came before the last twenty tasks changes neither the counts nor any decision |
| AntiLoop.UpToTwentyCount | igris/core/anti_loop.py:34-43 | up to twenty tasks each count once |
| AntiLoop.DecisionsOfWindow | igris/core/anti_loop.py:46-131 | so selection, shift and replacement after any history rest on what occurs in its last twenty tasks |
| AntiLoop.ClassifyMeans | igris/core/anti_loop.py:15-31 | the family of a text by the words it holds; `pytest` and `unittest` add nothing to `test` |
| AutonomousLoop.TaskEngine.UpdateStatus | igris/core/task_engine.py:120-150 | the first task with the id changes its status and nothing else does |
| AutonomousLoop.TaskEngine.CreateTask | igris/core/task_engine.py:64-100 | a pending task is added under the next id |
| AutonomousLoop.Loop.RecordStep | igris/core/autonomous_loop.py:334-339 | the log is the last 50 of all results |
| AutonomousLoop.Loop.ExecuteStep | igris/core/autonomous_loop.py:88-240 | one step: result, task changes and log, in every branch |
| AutonomousLoop.Loop.RunLoop | igris/core/autonomous_loop.py:247-304 | the loop computes the run its laws are about, and the log afterwards is the last 50 of the old log and the run |
| AutonomousLoop.Loop.GetRecentSteps | igris/core/autonomous_loop.py:80-81 | the slice with a negated limit, for every limit |
| AutonomousLoop.RecentStepsLimit | igris/core/autonomous_loop.py:80-81 | more than the limit is returned exactly for limit 0 on a non-empty log |
| LoopProofs.OngoingBounds | igris/core/autonomous_loop.py:272-292 | while no stop rule has applied: no stopped step, at most two idle steps, at most two failures at the end, and every three steps paid for |
| LoopProofs.RunBounds | igris/core/autonomous_loop.py:247-304 | every run has at least one and at most clamp(max_steps, 1, 100) steps, at most 3s + 9 for s successes, at most three blocked or skipped ones, a stopped one only last, and a reason when it is shorter than its limit |
| LoopProofs.RunFailures | igris/core/autonomous_loop.py:276-285 | three consecutive failures are the last three steps |
| LoopProofs.BoundIsReached | igris/core/autonomous_loop.py:247-304 | for every s with 3s + 9 ≤ 100 some run has exactly 3s + 9 steps with s successes |
| LoopProofs.StepMoves | igris/core/autonomous_loop.py:129-240 | one step moves at most one pending task, as its outcome says, and never a high-risk one |
| LoopProofs.RunConserves | igris/core/autonomous_loop.py:106-304 | over a run completed tasks grow by the successes, blocked ones by the blocked steps, remediations are at most the failures, pending tasks account for the rest, and settled or high-risk tasks do not change |
| LoopCommands.RunCommands | igris/core/autonomous_loop.py:88-331 | over every run, against the tasks at its end: a success or a failure, and nothing else, ran the command that fits the task it names (`run_tests` if and only if its family is `test` or its lower-case description holds "test"), as the result of the command said; the outcome is the fate of the task, and a high-risk task is only skipped |
| LoopCommands.RunCompletes | igris/core/autonomous_loop.py:165-175 | over every run a task is completed only by a success that names it and ran the command that fits it, a test task only by `run_tests` |
| LoopCommands.ManualUntouched | igris/core/autonomous_loop.py:311-331 | over every run a code, fix, refactor or docs task without "test" in its description is neither executed nor completed |
| LoopCommands.RunEnds | igris/core/autonomous_loop.py:247-304 | a run ends at its limit of 1 to 100 steps or, with its reason, exactly at a stopped step, a third failure in a row, or a third blocked or skipped step |
| LoopCommands.StopsExactly | igris/core/autonomous_loop.py:105-126 | a step stops if and only if no task is pending or the selector picks none, with the reason for which |
| LoopCommands.AnyPendingPicked | igris/core/autonomous_loop.py:106-122 | each pending task is one that the selector can pick |
| LoopCommands.RemediationRuns | igris/core/autonomous_loop.py:188-205 | a remediation stands behind the other tasks under the next id, at low risk, with its own or its classified family, and when it is a test task the next step can run the tests for it |
| Backup.CopyTree | igris/core/backup_manager.py:87-122 | the copy has, at exactly the paths without an excluded name, the same files and directories, and so is the recursively filtered tree; count and size are its totals, in any directory order |
| Backup.ShouldExclude | igris/core/backup_manager.py:32-85 | the loop over the seven patterns, in any order, leaves out exactly the four names and the three endings |
| Backup.TotalsPick | igris/core/backup_manager.py:92-122 | the totals do not depend on the order of the entries |
| Backup.FilteredTwice | igris/core/backup_manager.py:76-122 | filtering a filtered tree changes nothing |
| BackupPaths.CopiesUnique | igris/core/backup_manager.py:87-122 | what stands at its paths leaves one copy |
| BackupPaths.SnapshotFiles | igris/core/backup_manager.py:76-122 | a file is in the snapshot, with its content, if and only if it is in the directory and no name on its path is one of the four or has one of the three endings |
| BackupPaths.BackupMetadata | igris/core/backup_manager.py:152-170 | a backup holds the snapshot and, beside it, its id and the numbers and sizes of its files |
| Backup.BackupManager.ListBackups | igris/core/backup_manager.py:199-239 | the directories with readable or absent metadata, by descending name; it fails if and only if some metadata is JSON but no object, or no UTF-8 |
| BackupPaths.ListedMeans | igris/core/backup_manager.py:204-239 | listed are exactly the directories whose `_backup_meta.json`, if present, can be read |
| BackupPaths.LessMeans | igris/core/backup_manager.py:205 | the order of the names is the lexicographic one |
| Backup.BackupManager.Cleanup | igris/core/backup_manager.py:278-297 | removes exactly the listed backups beyond the retention, for every integer retention; nothing when the listing fails |
| Backup.BackupManager.MakeBackup | igris/core/backup_manager.py:124-197 | adds the filtered directory with its metadata to the store, reports its totals, then cleans up; fails without a directory, when the metadata cannot be written and when the cleanup fails, leaving the store as it was |
| Backup.BackupManager.Restore | igris/core/backup_manager.py:241-276 | entry by entry in any order: what is restored, what is untouched, and what makes it fail |
| BackupProofs.BackupRestoreRoundTrip | igris/core/backup_manager.py:152-164 | restoring brings back exactly the snapshot if and only if every entry kept its kind; entries outside the snapshot and the store are untouched |
| BackupProofs.BackupAgain | igris/core/backup_manager.py:241-276 | backing up after a restore gives the same tree if and only if every entry kept its kind and no new entry came up |
| BackupProofs.ListedNewestFirst | igris/core/backup_manager.py:199-239 | increasing ids are listed newest first |
| BackupProofs.CleanupKeepsNewest | igris/core/backup_manager.py:278-297 | the newest backups stay, as many as the retention says |
| BackupProofs.StoreOfRun | igris/core/backup_manager.py:124-297 | over every run of the manager's operations the store is what the backups and cleanups alone make of it: restores never touch it, because no backup holds the store |
| BackupProofs.RunKeepsNewest | igris/core/backup_manager.py:124-297 | after every run of backups with increasing ids, restores, cleanups and other changes the store holds exactly the last min(n, retention) backups |
| BackupProofs.RetentionQueue | igris/core/backup_manager.py:173-297 | the same for the store on its own, whatever the backups hold |
| BackupProofs.RetainedUnchanged | igris/core/backup_manager.py:152-174 | what the store holds under an id is what a backup put there |
| BackupProofs.RestoreAfterRun | igris/core/backup_manager.py:124-297 | after every run of the manager any of the last retention backups is still stored, and restoring it brings back exactly the snapshot of the directory as it was then, if and only if every entry kept its kind |
| BackupPaths.PathsAreBack | igris/core/backup_manager.py:241-276 | with the snapshot back, every file at a path without an excluded name has its content back, and below the directories brought back nothing else is left |
| BackupPaths.FilesAfterRun | igris/core/backup_manager.py:124-276 | so after every run of the manager restoring one of the last retention backups, over entries that kept their kinds, succeeds and does exactly that |
| BackupProofs.NewBackupSurvives | igris/core/backup_manager.py:173-287 | a new backup survives its own cleanup if and only if the retention is positive, or negative with more backups than its amount |
| Embedding.EmbeddingStore.Upsert | igris/core/embedding_store.py:48-65 | replaces the row of the id in place or adds one; an unusable embedding changes nothing |
| EmbeddingProofs.DeleteEffect | igris/core/embedding_store.py:100-102 | removes exactly the rows of the id |
| EmbeddingProofs.DeleteKeepsOrder | igris/core/embedding_store.py:100-102 | any two other rows stay in their order |
| Embedding.EmbeddingStore.Search | igris/core/embedding_store.py:67-98 | the loop and sort compute the ranking its laws are about |
| Embedding.CauchySchwarz | igris/core/embedding_store.py:82-87 | the square of the inner product is at most the product of the squared norms, for vectors of any length |
| Embedding.ScoreRange | igris/core/embedding_store.py:87 | every score lies strictly between -1 and 1 |
| Embedding.ExactMatchWins | igris/core/embedding_store.py:87 | a vector equal to the query is not beaten by any vector whose norm is no larger |
| Embedding.StretchedMatch | igris/core/embedding_store.py:87 | a multiple of the query beats the query if and only if its factor is above 1 |
| Embedding.UnbeatenExactly | igris/core/embedding_store.py:87 | for a query that is not zero and a positive norm: no vector of that norm beats an exact match if and only if the norm is at most the query's |
| EmbeddingLaws.DotUnit | igris/core/embedding_store.py:87 | the inner product with a unit vector is the coordinate |
| EmbeddingLaws.DotSum | igris/core/embedding_store.py:87 | it is additive |
| EmbeddingLaws.DotScaled | igris/core/embedding_store.py:87 | it is homogeneous |
| EmbeddingLaws.DotSymmetric | igris/core/embedding_store.py:87 | it is symmetric, and with the three before that says what it is |
| EmbeddingLaws.ScoreNearCosine | igris/core/embedding_store.py:87 | a score misses the true cosine by less than a billionth over the product of the norms |
| EmbeddingProofs.SortedHits | igris/core/embedding_store.py:97 | the sort is a descending permutation that keeps the order of equal scores |
| EmbeddingProofs.TopKIsBest | igris/core/embedding_store.py:97-98 | min(max(0, k), n) hits in descending order, and no hit left out scores higher |
| EmbeddingProofs.TableHoldsLatest | igris/core/embedding_store.py:48-65 | after every run the table holds, once each, exactly the latest rows not deleted since |
| EmbeddingProofs.SearchRanksLatest | igris/core/embedding_store.py:67-102 | after every run the hits ranked are those of exactly the latest rows of the kind asked for |
| EmbeddingProofs.SearchAfterRun | igris/core/embedding_store.py:48-102 | after every run of upserts and deletes a search returns the descending top k of exactly the latest rows, one hit for an id, with scores strictly between -1 and 1, and no latest row left out scores higher |
| EmbeddingLaws.HitsAfterRun | igris/core/embedding_store.py:48-98 | after every run each hit shows id, kind and text of the latest row of its id, and a score that times the product of the norms and a billionth is the inner product; a latest row is left out for the limit alone |
| Router.Decide | igris/core/assignment_router.py:638-733 | the earliest admitted candidate of least expected cost, or strong execution when none is admitted, with its budget limit and confidence |
| RouterProofs.DecisionUnique | igris/core/assignment_router.py:652-706 | that leaves one decision |
| RouterProofs.WiderNeverCostsMore | igris/core/assignment_router.py:678-706 | more budget or a re-enabled provider never raises the expected cost when the narrower request admitted a candidate |
| RouterProofs.StrongAdmitted | igris/core/assignment_router.py:678-690 | a budget of 2.5 with the strong provider not disabled always admits the strong candidate |
| RouterProofs.NeverDearerExactly | igris/core/assignment_router.py:649-706 | for every request: no wider request ever gets a dearer decision, whatever the history, if and only if the budget is at least 2.5 and the strong provider is not disabled |
| RouterProofs.UnlearnedWiderNeverCostsMore | igris/core/assignment_router.py:649-706 | without learned rates the cost never rises, forced decisions included |
| RouterProofs.TotalPermuted | igris/core/assignment_router.py:410-414 | sums over records do not depend on their order |
| RouterProofs.DecisionIgnoresOrder | igris/core/assignment_router.py:395-436 | the decision depends only on the multiset of records of the same role and task type |
| RouterProofs.DecisionIgnoresOthers | igris/core/assignment_router.py:402-407 | records of other roles or task types change nothing |
| RouterProofs.SuccessNeverHurts | igris/core/assignment_router.py:410-414 | one more success never lowers a profile's success rate |
| RouterProofs.DecomposeFirstNeverChosen | igris/core/assignment_router.py:569-706 | the decomposing strategy is chosen only when five records of its profile reach the threshold, for any request |
| RouterProofs.DecomposeOffered | igris/core/assignment_router.py:244-580 | classification and candidates together never offer it at a threshold it could meet |
| RouterProofs.GpuFirst | igris/core/assignment_router.py:467-567 | an escalated or heavy task tried less than twice goes to GPU reasoning, given a dollar, the provider and no learned rates for the two profiles offered |
| RouterLaws.FailureRoutes | igris/core/assignment_router.py:243-279 | which failed runs go to whom: escalation before stubs before a failed test run (and only that to the test debugger) before a missing change before the step limit |
| RouterLaws.GoalRoutes | igris/core/assignment_router.py:281-358 | which new goals go to whom, in both directions: security before operations before memory before planning, and the others only without all of these |
| RouterLaws.OffersExactly | igris/core/assignment_router.py:456-610 | classification and candidates together: for which task types and flags each strategy is offered, and which ones ask the helper or break the task up first |
| RouterLaws.DecisionNeeds | igris/core/assignment_router.py:678-708 | unless nothing is admitted the chosen provider is enabled, the budget covers 0.25, 1.00 or 2.50 by strategy, and the success rate reaches the task type's threshold but for strong execution |
| RouterLaws.FreshDecision | igris/core/assignment_router.py:235-706 | the whole decision table, with costs, while nothing is learned, providers are enabled and 2.50 is left; the advised strategy for endpoints is not in it |
| RouterLaws.ConfidenceMeans | igris/core/assignment_router.py:709 | the confidence starts at the success rate, doubles over ten records, and stays at most 0.95 |
| RouterLaws.FirstRecord | igris/core/assignment_router.py:402-453 | no record of a profile means no statistics; the first one is all that is known |
| RouterLaws.StatsAfter | igris/core/assignment_router.py:410-453 | one more record moves total, rate and averages by its own success, cost and attempts |
| RouterLaws.LearnedCost | igris/core/assignment_router.py:652-693 | the expected cost times the rate, at least 0.05, is average cost times average attempts |
| RouterLaws.FewerAttempts | igris/core/assignment_router.py:652-697 | of two learned candidates the one with no lower rate, no higher cost and no more attempts is never the dearer, and with only fewer attempts is cheaper |
| TaskStore.A2AStore.Create | igris/a2a/task_store.py:74-93 | stores a submitted task with one logged change, redacted |
| TaskStore.A2AStore.UpdateStatus | igris/a2a/task_store.py:115-138 | changes and logs the status exactly when task and status are valid and the task has not ended |
| TaskStore.A2AStore.Cancel | igris/a2a/task_store.py:141-146 | cancels exactly the tasks that have not ended |
| TaskStore.A2AStore.AddArtifact | igris/a2a/task_store.py:160-195 | adds and logs a redacted artifact within the size limit, for ended tasks too |
| TaskStore.EventLogAgrees | igris/a2a/task_store.py:74-195 | after every run a task's status is that of its last logged change, no change follows a terminal one, and the logged artifacts are its artifacts in order |
| TaskStore.EndedTasksStay | igris/a2a/task_store.py:115-195 | over every run logs and artifacts only grow at the end, an ended task keeps its status for good, and operations on other ids leave a task alone |
| TaskLaws.StoredIsRedacted | igris/a2a/task_store.py:74-195 | over every run from an empty store, each title, description, artifact name and content, and event detail is redacted from what an operation on that task said; artifacts are within 100 000 characters and logged statuses valid |
| TaskLaws.HandedOut | igris/a2a/task_store.py:50-112 | what a getter hands out is redacted once more, with ids, statuses and order kept; with a redaction that settles it is what is stored but for event details |

## Left out

- EditRepeat.RepeatInsertAfterExactly: a simpler condition for anchors matched as given, or absent from the inserted lines; RepeatExact.RepeatInsertAfterAlways covers every anchor.
- EditRepeat.RepeatContinuedExactly: a simpler condition where the normaliser treats the anchor line and the continued line alike (EditRepeat.NormalizesAlike); RepeatExact.RepeatInsertAfterAlways covers the others.
- Indentation.NormaliserIdempotent: the insertion ends with a newline, as its only caller ensures.
- EditRuns.RoutesStayDistinct: routes whose decorator spans several lines are not seen; the conditions are on the text after the indentation normaliser (IndentRoutes.NormaliserRoutes).
- JsonPrint.StrayBraceHidesObject: text in front that ends inside a string literal or closes its own first brace; in the second case the result lies within that text (JsonExtract.FirstObjectInContext).
- Text.IsSpace: carriage returns are not in any text; word characters of the route pattern and lower-casing are ASCII only.
- Quality.Refine: the model calls, the JSON parsing of their replies and the redaction are arbitrary candidate payloads.
- Fallback.FallbackLoss: secrets in a plan that the redaction would replace.
- Backup.BackupManager.MakeBackup: two backups with the same clock id, a store outside `.igris/backups`, symbolic links and disk errors other than a directory in place of the metadata.
- Backup.BackupManager.Restore: ids that are not plain names.
- Embedding.EmbeddingStore.Search: 32-bit floats, SQLite, and the order in which the database returns rows, taken as insertion order.
- Router.Decide: the keyword lists, the quality tracker, the model names and the reason texts of the decision.
- AutonomousLoop.Loop.RunLoop: decision memory, timeline events, reports, time stamps and the wording of step reasons.
- TaskStore.A2AStore.Create: time stamps, the JSON files and listing; ids are inputs, so a repeated id replaces the task as it would on disk.
- Rollback backups of the edit engine, `propose_patch` and `apply_patch`.
- Provider calls, configuration, report scripts, API and CLI packages: input and output only.
