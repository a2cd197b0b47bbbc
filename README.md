# claude-code-manager core, modelled in Dafny

claude-code-manager is a command-line tool that walks a Markdown checklist
(`TODO.md`) and runs the Claude Code agent once per open item. For each
item it works in a git worktree and opens a pull request. Then it ticks
the item in the checklist and adds a link to the pull request. This
project models the pure and imperative core of
`claude_code_manager/cli.py` and proves properties of it:

- **Todo**: `parse_todo_markdown`, the checklist parser. A one-pass loop
  with a mutable current item, proved equal to a reference reading that
  has one item per block of lines.
- **Hooks**: the Stop-hook part of `ensure_hooks_config`, which cleans and
  rewrites the settings document. The inner and outer loops are proved
  against reference functions, and normalising twice is proved to change
  nothing.
- **StopGate**: the `main` of the gate script that `ensure_hooks_config`
  installs. It is a class over the state file, with one method per
  invocation, proved against a function `Gate`. The bounded-retry
  behaviour is proved over repeated calls.
- **AgentCommand**: `_args_list`, `_args_has_flag`, `_get_flag_value`, and
  how `run_claude_code` builds the agent's command line.
- **EventTally**: the quiet-mode loop that counts stream records, turns the
  spinner and picks the final marker.
- **Backlink**: `pr_number_from_url` and `update_todo_with_pr`. The rewrite
  is modelled twice: once as written, through Python's `re` semantics for
  `^`, `$`, greedy `\s*` and the template language of `re.subn`, and once
  as evidently intended. See "## Findings".
- **I18n**: the `tr` lookup chain: selected language, then English, then
  the key itself.
- **Text**, **Json**, **Wrappers**: Python string behaviour, decoded JSON
  values and `Option`/`Result`. Text covers `isspace`, `strip`,
  `splitlines`, `split()`, `in` and `str(int)`.

Two behaviours of `parse_todo_markdown` are easy to miss, and the model
keeps both:

- A checked line is recognised only at column 0. An indented
  `- [x]` line matches none of the three patterns and is ignored that way.
- A checked line does not close the open item before it. An indented open
  line after a checked top-level line becomes a child of the last open
  item (`Todo.ChildAfterCheckedJoinsPreviousItem`).

The gate script can crash. A state file holding JSON that is not an
object makes `state.get` raise. A stored count that `int()` rejects makes
`int` raise. The model returns `Crash` for both.

## Model

| member | source | states |
|---|---|---|
| I18n.Template | claude_code_manager/cli.py:50-53 | the selected language's entry wins, then the English entry, then the key itself; a non-empty key never gives an empty result |
| I18n.Tr | claude_code_manager/cli.py:50-56 | the definition of `tr`: `Template`'s text passed through `format`, or that text unformatted when `format` raises; its properties are the two lemmas below |
| I18n.TrNeverBlank | claude_code_manager/cli.py:50-56 | for a non-empty key, whenever `format` never turns a non-empty text into an empty one, `tr` shows a non-empty text, whether formatting succeeds or raises |
| I18n.TrWithoutFields | claude_code_manager/cli.py:50-56 | for a message with no fields to fill, `tr` shows the selected language's text, else the English text, else the key, and nothing else |
| I18n.EnglishSelected | claude_code_manager/cli.py:52-53 | with English selected, the English entry or else the key is used |
| I18n.UnknownLanguageFallsBack | claude_code_manager/cli.py:52-53 | a language missing from the catalogue reads exactly as English |
| I18n.OtherLanguageIgnored | claude_code_manager/cli.py:52-53 | changing a third language's table never changes a lookup |
| Text.LeadingSpaces | claude_code_manager/cli.py:243 | the count of leading whitespace characters, and the character after them is not whitespace |
| Text.TrailingSpaces | claude_code_manager/cli.py:243 | the count of trailing whitespace characters, and the character before them is not whitespace |
| Text.Strip | claude_code_manager/cli.py:243 | `strip()` returns the inner stretch of the input: only whitespace is removed on either side, and the result neither starts nor ends with whitespace |
| Text.SplitLines | claude_code_manager/cli.py:236 | `splitlines()` yields lines with no line-break character |
| Text.SplitLinesOfTerminated | claude_code_manager/cli.py:236 | `splitlines` of break-free lines, each ended by "\n", gives those lines back |
| Text.SplitLinesCons | claude_code_manager/cli.py:236 | a break-free line followed by "\n" is the first line of the text, and the remaining lines are those of the rest |
| Text.SplitLinesSingle | claude_code_manager/cli.py:236 | a non-empty text without line breaks is a single line |
| Text.JoinLines | claude_code_manager/cli.py:236 | `"\n".join(lines)`, the text a checklist's lines come from (a definition; `SplitLinesOfJoined` states its property) |
| Text.SplitLinesOfJoined | claude_code_manager/cli.py:236 | `splitlines` undoes `"\n".join` on break-free lines whose last line is not empty |
| Text.SplitWhitespace | claude_code_manager/cli.py:418 | `split()` yields only non-empty, whitespace-free words |
| Text.SplitJoinSpaced | claude_code_manager/cli.py:418 | `split()` recovers the words that a single-space join put together |
| Text.NatToString | claude_code_manager/cli.py:638 | `str(n)` is a non-empty digit string without a leading zero |
| Text.NatToStringValue | claude_code_manager/cli.py:627 | reading back the digits of `str(n)` gives `n` |
| Text.DigitsValueToString | claude_code_manager/cli.py:627 | `str(int(s)) == s` for a digit string without a leading zero |
| Text.Contains | claude_code_manager/cli.py:297 | `token in line` holds exactly when the token occurs at some index |
| AgentCommand.ArgsList | claude_code_manager/cli.py:417-418 | `_args_list` is `split()`: every element is a non-empty word |
| AgentCommand.NonEmptyWordsKeepsWords | claude_code_manager/cli.py:418 | the `if x` filter keeps every word of `split()` |
| AgentCommand.ArgsListOfJoined | claude_code_manager/cli.py:417-418 | `_args_list` of words joined by single spaces gives those words back |
| AgentCommand.HasFlag | claude_code_manager/cli.py:421-424 | true exactly when some argument is the flag or starts with `flag=`; the second `any` adds nothing |
| AgentCommand.FlagValueFrom | claude_code_manager/cli.py:427-433 | the scan of `_get_flag_value` resumed at an index (a definition; `FlagValueFromNone` and `FlagValueFromFirst` state its properties) |
| AgentCommand.GetFlagValue | claude_code_manager/cli.py:427-433 | `None` exactly when no argument is the flag followed by another argument or `flag=...`; otherwise the value at the first such argument |
| AgentCommand.FlagValueFromNone | claude_code_manager/cli.py:427-433 | the scan from an index finds nothing exactly when no later index holds a value |
| AgentCommand.FlagValueFromFirst | claude_code_manager/cli.py:427-433 | a value found by the scan is the value at the first index that holds one |
| AgentCommand.FlagValueMeansFlag | claude_code_manager/cli.py:421-433 | a flag with a value is a flag that `_args_has_flag` reports |
| AgentCommand.EqualsFormValue | claude_code_manager/cli.py:431-432 | `split("=", 1)[1]` of `flag=v` is `v` when the flag has no `=` |
| AgentCommand.FlagValueSkipsFirst | claude_code_manager/cli.py:428-432 | an argument that holds no value does not change the result |
| AgentCommand.FlagValueOfPair | claude_code_manager/cli.py:429-430 | the flag followed by `v` at the front gives `v` |
| AgentCommand.FormatProvided | claude_code_manager/cli.py:451-454 | `provided_fmt` is truthy: `_get_flag_value` found a value for `--output-format` and it is not empty (a definition) |
| AgentCommand.EffectiveFormat | claude_code_manager/cli.py:451-452 | `provided_fmt or output_format` (a definition; `CommandFormat` states that it is the format the agent reads) |
| AgentCommand.AddedOptions | claude_code_manager/cli.py:451-459 | the options added between the prompt and the user's words (a definition; `FormatAddedOnlyWhenMissing` and `AddedVerbose` state which ones) |
| AgentCommand.FormatAddedOnlyWhenMissing | claude_code_manager/cli.py:454-455 | the added options hold `--output-format` exactly when the user chose no format, so a format the user gave is never repeated |
| AgentCommand.Command | claude_code_manager/cli.py:448-461 | the command starts with `claude -p <prompt>` and ends with the user's extra arguments, unchanged |
| AgentCommand.ProvidedFormatFound | claude_code_manager/cli.py:451-455 | when the user gave `--output-format`, the options added in front do not hide it |
| AgentCommand.AddedFormatFound | claude_code_manager/cli.py:451-455 | when the user gave none, the added `--output-format` carries the default |
| AgentCommand.CommandFormat | claude_code_manager/cli.py:448-461 | the output format the agent sees in the command is the effective format |
| AgentCommand.AddedVerbose | claude_code_manager/cli.py:457-459 | `--verbose` is added exactly when the effective format is `stream-json` and the user did not pass it |
| AgentCommand.VerboseFound | claude_code_manager/cli.py:457-461 | the options after the prompt carry `--verbose` exactly when the format is `stream-json` or the user passed it |
| AgentCommand.CommandVerbose | claude_code_manager/cli.py:448-461 | the command carries `--verbose` exactly when the effective format is `stream-json` or the user passed it |
| AgentCommand.HasFlagAppend | claude_code_manager/cli.py:421-424 | a flag is in a concatenation exactly when it is in one of the parts |
| AgentCommand.DefaultCommand | claude_code_manager/cli.py:448-461 | with no extra arguments and the default format the command is `claude -p <prompt> --output-format stream-json --verbose` |
| EventTally.Allowed | claude_code_manager/cli.py:493-494 | `typ in allowed`: the type is `system`, `assistant` or `user` (a definition) |
| EventTally.Kind | claude_code_manager/cli.py:581-584 | a line is counted only as one of the three allowed types |
| EventTally.Count | claude_code_manager/cli.py:584-585 | the number of lines of one type, the reference for `counts[typ]` (a definition; `CountStep`, `CountAppend` and `OtherTypesUncounted` state its properties) |
| EventTally.Recognised | claude_code_manager/cli.py:584-588 | the number of counted lines, the reference for the spinner's steps (a definition; `RecognisedStep` and `RecognisedIsSum` state its properties) |
| EventTally.ExitCode | claude_code_manager/cli.py:575-595 | `rc`: the exit status once the process ends, and the initial 1 when reading is cut short (a definition; `Tally` states its use) |
| EventTally.Counts | claude_code_manager/cli.py:493-494 | the counters are keyed by exactly the three allowed types, `system`, `assistant` and `user`, each holding the number of lines of that type |
| EventTally.CountEvents | claude_code_manager/cli.py:577-593 | after the loop, each counter is the number of lines of its type, and the spinner index is the number of counted lines mod 4 |
| EventTally.CountEventsStep | claude_code_manager/cli.py:579-589 | one turn of the loop keeps the counters and the spinner in step with the lines read |
| EventTally.Tally | claude_code_manager/cli.py:575-615 | the counters and spinner as above; the return code is the exit status, or 1 when reading was cut short; the marker is the check mark exactly after a clean zero exit |
| EventTally.CountStep | claude_code_manager/cli.py:584-585 | one more line raises only the counter of its own type |
| EventTally.CountsStep | claude_code_manager/cli.py:584-586 | the counters after one more line are the old ones with the line's type bumped, or unchanged |
| EventTally.RecognisedStep | claude_code_manager/cli.py:586-588 | the spinner advances exactly on counted lines |
| EventTally.SpinnerStep | claude_code_manager/cli.py:588 | advancing the index mod 4 step by step is the count mod 4 |
| EventTally.CountAppend | claude_code_manager/cli.py:577-586 | counts over concatenated output add up |
| EventTally.NotJsonIgnored | claude_code_manager/cli.py:590-593 | a line that is not JSON changes no counter |
| EventTally.RecognisedIsSum | claude_code_manager/cli.py:584-588 | the spinner's step count is the sum of the three counters |
| EventTally.OtherTypesUncounted | claude_code_manager/cli.py:493-494 | a type outside the three is never counted |
| Hooks.KeyOf | claude_code_manager/cli.py:390 | `(h.get("type"), h.get("command"))` of a dict hook, or `None` when a part is a list or dict and so cannot be hashed (a definition) |
| Hooks.IsOurs | claude_code_manager/cli.py:387 | the hook is `{type: "command", command: STOP_HOOK_COMMAND}` (a definition; `CleanEntryNotOurs` and `CleanStopList` state its use) |
| Hooks.IsCandidate | claude_code_manager/cli.py:385-389 | a hook that passes the `isinstance(h, dict)` and gate-command tests (a definition) |
| Hooks.FilterHooks | claude_code_manager/cli.py:382-394 | the inner loop keeps the first non-gate dict hook of each `(type, command)` key, in order, or raises when a kept candidate's key is unhashable |
| Hooks.KeptHooks | claude_code_manager/cli.py:382-394 | the hooks an entry keeps are never more than it had; which ones is stated by `KeptHooksFrom`, `KeptHooksClean` and `KeptHooksComplete` |
| Hooks.HashableStep | claude_code_manager/cli.py:385-391 | the prefix stays hashable exactly when the next candidate has a hashable key |
| Hooks.KeptStep | claude_code_manager/cli.py:391-394 | one more hook is kept exactly when it is the first of its key |
| Hooks.SeenStep | claude_code_manager/cli.py:393 | the `seen` set gains exactly the key of each candidate |
| Hooks.FirstOfKeyBySeen | claude_code_manager/cli.py:391-392 | the `key in seen` test decides "first of its key" |
| Hooks.HooksListOf | claude_code_manager/cli.py:379-381 | `entry.get("hooks") or []`, replaced by `[]` when it is not a list (a definition) |
| Hooks.CleanedEntries | claude_code_manager/cli.py:377-397 | the reference cleaning of the Stop entries: each entry cleaned in order, the first exception aborting the pass (a definition; `CleanStopEntries`, `CleanedEntriesClean` and `CleanedEntriesAppend` state its properties) |
| Hooks.StopEntries | claude_code_manager/cli.py:366-378 | `hooks.get("Stop") or []`, a single dict counting as a one-element list and any other non-list as no entries (a definition) |
| Hooks.CleanStopEntries | claude_code_manager/cli.py:377-397 | the outer loop yields the cleaned Stop list, or the first exception an entry raises |
| Hooks.CleanEntry | claude_code_manager/cli.py:378-396 | one Stop entry after cleaning: a non-dict entry raises, an unhashable key raises, an entry left with no hooks is dropped, otherwise only its `hooks` is replaced (a definition; `CleanEntryIsClean` and `CleanEntryOfClean` state its properties) |
| Hooks.PrefixErrSticks | claude_code_manager/cli.py:378-396 | once an entry raises, the whole cleaning raises the same way |
| Hooks.EnsureHooksConfig | claude_code_manager/cli.py:356-413 | the written settings document is the normalised one, or the exception raised |
| Hooks.NormalizedSettings | claude_code_manager/cli.py:356-413 | a written document is an object whose `hooks` is an object; the rest is stated by `NormalizedStopList`, `NormalizeIdempotent` and `RenormalizeWritten` |
| Hooks.KeptHooksFrom | claude_code_manager/cli.py:382-394 | every kept hook is a first-of-key candidate of the input |
| Hooks.KeptHooksClean | claude_code_manager/cli.py:382-394 | kept hooks are dicts, none is the gate's own, and no two share a key |
| Hooks.KeptHooksComplete | claude_code_manager/cli.py:382-394 | every first-of-key candidate is kept |
| Hooks.KeptHooksOfClean | claude_code_manager/cli.py:382-394 | a clean hooks list is kept as it is |
| Hooks.KeptHooksIdempotent | claude_code_manager/cli.py:382-394 | filtering twice equals filtering once |
| Hooks.CleanEntryIsClean | claude_code_manager/cli.py:379-396 | a surviving entry is clean, and only its `hooks` field changed |
| Hooks.CleanEntryOfClean | claude_code_manager/cli.py:379-396 | a clean entry survives unchanged |
| Hooks.CanonicalEntryDropped | claude_code_manager/cli.py:387-407 | the canonical entry holds only the gate's own hook, so re-cleaning drops it |
| Hooks.CollectAppend | claude_code_manager/cli.py:378-396 | the cleaning of two lists is the concatenation of their cleanings |
| Hooks.CleanedEntriesAppend | claude_code_manager/cli.py:378-396 | the same for Stop entries |
| Hooks.CleanedEntriesClean | claude_code_manager/cli.py:378-396 | every entry of the cleaned Stop list is clean |
| Hooks.CollectIdentity | claude_code_manager/cli.py:378-396 | a pass that keeps every element unchanged returns the list |
| Hooks.CleanedEntriesOfClean | claude_code_manager/cli.py:378-396 | a list of clean entries is its own cleaning |
| Hooks.InputHooks | claude_code_manager/cli.py:366 | the `hooks` object read from the settings: `data.get("hooks") or {}`, when it is an object (a definition) |
| Hooks.NormalizedIsWritten | claude_code_manager/cli.py:366-413 | a successful run writes the input's own `hooks` object with only its Stop list replaced, by the cleaned entries followed by the canonical one |
| Hooks.Written | claude_code_manager/cli.py:410-412 | the document with `hooks["Stop"]` and then `data["hooks"]` assigned (a definition; `WrittenStopList` states its properties) |
| Hooks.NormalizedStopList | claude_code_manager/cli.py:366-413 | the written Stop list ends with the canonical entry; the entries before it are exactly the cleaning of the input's Stop entries, are clean and hold no gate command; every other event under `hooks` and every other top-level key is left as it was |
| Hooks.WrittenStopList | claude_code_manager/cli.py:410-413 | the written document's Stop list is the list assigned, and only `hooks` is replaced |
| Hooks.CleanStopList | claude_code_manager/cli.py:377-410 | clean entries followed by the canonical one hold the gate's command only in the last entry |
| Hooks.CleanEntryNotOurs | claude_code_manager/cli.py:387-389 | a clean entry holds no hook running the gate's command |
| Hooks.NormalizeIdempotent | claude_code_manager/cli.py:348-414 | running `ensure_hooks_config` on its own output writes the same document, so the gate's entry appears exactly once however often it runs |
| Hooks.RecleanStop | claude_code_manager/cli.py:377-410 | re-cleaning a written Stop list gives back the entries before the canonical one |
| Hooks.RenormalizeWritten | claude_code_manager/cli.py:366-413 | normalising a written document whose Stop list re-cleans to itself reproduces the document |
| Todo.IsDone | claude_code_manager/cli.py:220 | `TODO_DONE_PATTERN.match`: `- [x] ` at column 0 followed by at least one character (a definition; `DoneIsNeitherTopNorChild` states its property) |
| Todo.IsTop | claude_code_manager/cli.py:219 | `TODO_TOP_PATTERN.match`: `- [ ] ` at column 0 followed by at least one character, the rest being the title group (a definition; `TopLine` and `ItemTitles` state its properties) |
| Todo.IsChild | claude_code_manager/cli.py:221 | `TODO_CHILD_PATTERN.match`: a leading whitespace run of two or more characters, then `- [ ] ` and at least one character (a definition; `ChildLine` states its property) |
| Todo.DoneIsNeitherTopNorChild | claude_code_manager/cli.py:219-238 | a checked line matches neither open pattern, so its `continue` changes nothing |
| Todo.NextTop | claude_code_manager/cli.py:239-244 | the index of the next top-level line, with none in between |
| Todo.Items | claude_code_manager/cli.py:232-250 | the reference reading of a checklist: every top-level line opens an item holding the stripped titles of the child lines up to the next top-level line, and lines before the first top-level line are dropped (a definition; `ParseTodoMarkdown`, `ItemTitles` and `ItemsOfTop` state its properties) |
| Todo.AddLine | claude_code_manager/cli.py:236-248 | one turn of the loop: the number of items grows by one exactly on a top-level line; a child line extends the last item and any other line changes nothing (`AddLineCons`, `TitlesAddLine`) |
| Todo.ParseTodoMarkdown | claude_code_manager/cli.py:230-250 | the parser's loop returns exactly the reference items of the lines of `md` |
| Todo.ItemsSnoc | claude_code_manager/cli.py:236-247 | one more line changes the reference items as one step of the loop does |
| Todo.TopTitle | claude_code_manager/cli.py:243 | `m.group("title").strip()` of a top-level line (a definition; `TopLine` and `ItemTitles` state its properties) |
| Todo.ChildTitle | claude_code_manager/cli.py:247 | `m2.group("title").strip()` of a child line (a definition; `ChildLine` states its property) |
| Todo.ChildTitles | claude_code_manager/cli.py:245-247 | the titles of the child lines of a block, in order (a definition; `ChildTitlesSnoc` states its property) |
| Todo.ChildTitlesSnoc | claude_code_manager/cli.py:245-247 | one more line adds its title to the block's children exactly when it is a child line |
| Todo.AddLineCons | claude_code_manager/cli.py:239-247 | a loop step touches only the last item |
| Todo.ItemsOfTop | claude_code_manager/cli.py:239-247 | a top-level line opens an item holding the children up to the next top-level line |
| Todo.ItemsSnocInnerBlock | claude_code_manager/cli.py:236-247 | a line added after a later block leaves earlier items alone |
| Todo.ItemsSnocKeepsFirstBlock | claude_code_manager/cli.py:236-247 | the first block's item is fixed once another block follows |
| Todo.ItemsSnocLastBlock | claude_code_manager/cli.py:236-247 | a line added to the last block acts as the loop step |
| Todo.NewBlockAfterLast | claude_code_manager/cli.py:239-244 | a top-level line after the last block opens a new item with no children |
| Todo.SingleBlock | claude_code_manager/cli.py:239-247 | one block gives one item |
| Todo.SameBlockAsLast | claude_code_manager/cli.py:245-247 | a non-top line after the last block acts as the loop step on that item |
| Todo.NextTopSnoc | claude_code_manager/cli.py:239-244 | appending a line moves the next top-level index only when none was found before |
| Todo.TitlesAddLine | claude_code_manager/cli.py:239-244 | a loop step adds a title exactly for a top-level line |
| Todo.ItemTitles | claude_code_manager/cli.py:230-250 | the items' titles are the stripped titles of the top-level lines, in order |
| Todo.LeadingLinesDropped | claude_code_manager/cli.py:245-247 | lines before the first top-level line contribute nothing |
| Todo.InertLineIgnored | claude_code_manager/cli.py:236-247 | a line matching no open pattern changes nothing |
| Todo.DoneLineIgnored | claude_code_manager/cli.py:237-238 | a checked line changes nothing |
| Todo.TopLine | claude_code_manager/cli.py:219-243 | `- [ ] <title>` is a top-level line whose title is `<title>` |
| Todo.ChildLine | claude_code_manager/cli.py:221-247 | `  - [ ] <title>` is a child line whose title is `<title>`, and not a top-level line |
| Todo.AddChildToSingle | claude_code_manager/cli.py:245-247 | a child line extends the current item's children |
| Todo.SampleFirstItem | tests/test_todo_and_hooks.py:10-12 | a checked line then a top-level line give one item with no children |
| Todo.SampleFirstChild | tests/test_todo_and_hooks.py:10-13 | the first child joins that item |
| Todo.SampleChildren | tests/test_todo_and_hooks.py:10-14 | both children join that item in order |
| Todo.SampleShape | tests/test_todo_and_hooks.py:10-19 | the test's five lines give two items, the first with both children |
| Todo.SampleLineKinds | tests/test_todo_and_hooks.py:11-15 | each line of the test is read as the kind of line it looks like |
| Todo.SampleLines | tests/test_todo_and_hooks.py:10-16 | `splitlines` of the test's checklist text gives its five lines |
| Todo.SampleChecklist | tests/test_todo_and_hooks.py:9-19 | the reference reading of `splitlines` of the test's checklist text gives `top 1` with `child a` and `child b`, then `top 2` with no children |
| Todo.ParseSample | tests/test_todo_and_hooks.py:9-19 | `parse_todo_markdown` of the test's checklist text gives the titles `top 1`, `top 2` and the first item's children `child a`, `child b`, as the test asserts |
| Todo.ChildAfterCheckedJoinsPreviousItem | claude_code_manager/cli.py:237-247 | a child line after a checked line joins the last open item |
| StopGate.FirstLineEnd | claude_code_manager/cli.py:296 | a file line runs up to and including its first "\n" |
| StopGate.LinesOf | claude_code_manager/cli.py:296 | iterating the file yields non-empty lines |
| StopGate.LinesOfConcat | claude_code_manager/cli.py:296 | the lines put together are the file |
| StopGate.TranscriptDone | claude_code_manager/cli.py:290-301 | `transcript_has_done(path, token)` decided by the file's lines (a definition; `TranscriptHasDone` and `LineSearchIsTextSearch` state its properties) |
| StopGate.TranscriptHasDone | claude_code_manager/cli.py:290-301 | the early-return loop finds the token exactly when the path is a non-empty string, the file opens and some line contains the token |
| StopGate.SomeLineHasCons | claude_code_manager/cli.py:296-298 | some line of a list has the token exactly when the first one or a later one has it |
| StopGate.LineSearchIsTextSearch | claude_code_manager/cli.py:296-298 | for a token without "\n", searching line by line equals searching the whole file |
| StopGate.ContainsSplit | claude_code_manager/cli.py:296-298 | a token without "\n" never straddles a line end |
| StopGate.WithoutUnderscores | claude_code_manager/cli.py:322 | removing the underscores of a numeral leaves only digits |
| StopGate.IntText | claude_code_manager/cli.py:322 | `int()` of a string succeeds only on text that is not blank after stripping |
| StopGate.IntOf | claude_code_manager/cli.py:322 | `int()` of a stored value: a number as it is, a boolean as 1 or 0, a string through `IntText`, and a raise for anything else (a definition; `IntTextOfNat` states the round trip the gate relies on) |
| StopGate.WithoutUnderscoresOfDigits | claude_code_manager/cli.py:322 | a numeral without underscores is its own digit string |
| StopGate.IntTextOfNat | claude_code_manager/cli.py:322-324 | a count stored as decimal text reads back as that count |
| StopGate.IntTextOfDigits | claude_code_manager/cli.py:322 | a run of ASCII digits reads as its value |
| StopGate.IntTextOfClean | claude_code_manager/cli.py:322 | an unsigned numeral with no surrounding whitespace reads as the value of its digits |
| StopGate.SessionText | claude_code_manager/cli.py:311 | `data.get("session_id") or ""` as the f-string renders it (a definition) |
| StopGate.TranscriptPath | claude_code_manager/cli.py:312 | `data.get("transcript_path") or ""` (a definition) |
| StopGate.CountKey | claude_code_manager/cli.py:321 | `f"{sid}:asks"` (a definition; `OtherSessionsUntouched` states its use) |
| StopGate.CountIn | claude_code_manager/cli.py:322 | `int(state.get(key, 0))`: a missing key reads as 0 (a definition) |
| StopGate.BlockReason | claude_code_manager/cli.py:328 | the reason shown when the stop is blocked, naming the done token (a definition) |
| StopGate.LoadedState | claude_code_manager/cli.py:273-278 | `load_state()`: a missing or unreadable file reads as `{}`, and JSON that is not an object makes the later `state.get` raise (a definition; `Gate` reads the state through it) |
| StopGate.Asks | claude_code_manager/cli.py:320-322 | a missing or unreadable state file reads as zero asks |
| StopGate.Gate | claude_code_manager/cli.py:304-334 | the gate is silent exactly when its input is not valid JSON, and it changes the state file only when it blocks the stop and the write succeeds |
| StopGate.StateFile.Run | claude_code_manager/cli.py:304-334 | one invocation returns the outcome and leaves the state file exactly as `Gate` says |
| StopGate.DoneAllowsStop | claude_code_manager/cli.py:314-317 | once the transcript holds the token the stop is allowed, and the state is left alone |
| StopGate.BelowLimitBlocks | claude_code_manager/cli.py:319-331 | below the limit the stop is blocked with the reason naming the token; a save raises this session's count by one and keeps every other key and value |
| StopGate.AtLimitAllows | claude_code_manager/cli.py:323-334 | at or above the limit the stop is allowed and the state is left alone |
| StopGate.CountStaysWithinLimit | claude_code_manager/cli.py:319-334 | a count within the limit stays within it, for every session |
| StopGate.OtherSessionsUntouched | claude_code_manager/cli.py:319-325 | another session's count never changes |
| StopGate.FreshSession | claude_code_manager/cli.py:304-334 | a fresh session whose transcript never shows the token is blocked exactly `MAX_ASK` times, then allowed |
| Backlink.PullAt | claude_code_manager/cli.py:626 | `/pull/(\d+)` matches at a position: the segment and at least one digit (a definition) |
| Backlink.DigitRun | claude_code_manager/cli.py:626 | `\d+` takes the longest run of digits |
| Backlink.NumberAt | claude_code_manager/cli.py:627 | `int(m.group(1))`: the value of the whole digit run after the segment (a definition; `PrNumberOfUrl` states its use) |
| Backlink.PrNumberFrom | claude_code_manager/cli.py:626-627 | the leftmost-first scan of `re.search`, resumed at an index (a definition; `PrNumberFromNone`, `PrNumberFromSome` and `PrNumberFromSkips` state its properties) |
| Backlink.PrNumberFromNone | claude_code_manager/cli.py:626-627 | the search from an index fails exactly when no `/pull/<digits>` starts later |
| Backlink.PrNumberFromSome | claude_code_manager/cli.py:626-627 | a found number is the digits after the first `/pull/` that has some |
| Backlink.PrNumber | claude_code_manager/cli.py:625-627 | `None` exactly when the URL has no `/pull/<digits>`; otherwise the number at the leftmost one |
| Backlink.PrNumberFromSkips | claude_code_manager/cli.py:626 | the search passes over positions without a match |
| Backlink.PrNumberOfUrl | claude_code_manager/cli.py:625-627 | a URL holding `/pull/<n>` once, not followed by a digit, gives `n` |
| Backlink.DigitRunOf | claude_code_manager/cli.py:626 | a maximal run of `n` digits has length `n` |
| Backlink.Suffix | claude_code_manager/cli.py:634-640 | the link is empty exactly when there is no URL (`None` or empty), and otherwise starts with a space and ends with `)` |
| Backlink.SuffixOfPullRequest | claude_code_manager/cli.py:635-638 | a pull-request URL gives the suffix ` [#<n>](<url>)` |
| Backlink.SuffixOfOtherUrl | claude_code_manager/cli.py:634-640 | another non-empty URL gives ` (<url>)`; no URL or an empty one gives no suffix |
| Backlink.LineStartAt | claude_code_manager/cli.py:642 | MULTILINE `^`: the start of the text or just after a "\n" (a definition) |
| Backlink.LineEndAt | claude_code_manager/cli.py:642 | MULTILINE `$`: the end of the text or just before a "\n" (a definition) |
| Backlink.BackOff | claude_code_manager/cli.py:642 | greedy `\s*` gives back whitespace until `$` holds: the last line end within reach |
| Backlink.MatchEnd | claude_code_manager/cli.py:642 | where `^- \[ \] <title>\s*$` ends when it matches at a position: greedy `\s*` takes the whole whitespace run and gives back to the last `$` (a definition; `MatchShape` and `BackOff` state its properties) |
| Backlink.FirstMatchFrom | claude_code_manager/cli.py:643 | the search `subn` makes for its one replacement, resumed at a position (a definition; `FirstMatchFromNone` and `FirstMatchFromSome` state its properties) |
| Backlink.FirstMatchFromNone | claude_code_manager/cli.py:642-643 | the scan from an index fails exactly when no later position matches |
| Backlink.FirstMatchFromSome | claude_code_manager/cli.py:642-643 | the scan stops at the first matching position |
| Backlink.FirstMatch | claude_code_manager/cli.py:642-643 | `None` exactly when nothing matches; otherwise the leftmost match and its greedy end |
| Backlink.MatchShape | claude_code_manager/cli.py:642 | a match starts at a line start with `- [ ] <title>`, ends at a line end, and only whitespace lies between |
| Backlink.CloseAngle | claude_code_manager/cli.py:643 | the position of the `>` that closes a `\g<...>` group reference, if any |
| Backlink.OctalRun | claude_code_manager/cli.py:643 | the octal digits of an escape in the replacement template |
| Backlink.LetterEscape | claude_code_manager/cli.py:643 | the one-letter escapes the template compiler accepts (`\a \b \f \n \r \t \v \\`) and the characters they stand for (a definition; `LineBreakEscape` and `BadLetterEscape` state its use) |
| Backlink.EscapeAt | claude_code_manager/cli.py:643 | a parsed escape moves past the backslash |
| Backlink.ParseTemplateFrom | claude_code_manager/cli.py:643 | the replacement string compiled as `re`'s template parser does it: escapes as `EscapeAt` reads them, any rejected escape making the whole template invalid (a definition; `PlainTemplate` and `BadLetterEscape` state its properties) |
| Backlink.Expand | claude_code_manager/cli.py:643 | the text a compiled template writes for a match (a definition; `PlainTemplate` and `LineBreakTemplate` state its properties) |
| Backlink.PlainTemplate | claude_code_manager/cli.py:643 | a replacement without backslashes compiles and inserts itself unchanged |
| Backlink.BadLetterEscape | claude_code_manager/cli.py:643 | a backslash before an unknown ASCII letter makes the template compiler raise |
| Backlink.DoneLine | claude_code_manager/cli.py:643 | the written line starts with `- [x] ` followed by the title |
| Backlink.UpdateTodoAsWritten | claude_code_manager/cli.py:630-647 | a missing file is left alone; a replacement without backslashes never raises; a rewrite needs a match |
| Backlink.PlainRewrite | claude_code_manager/cli.py:642-646 | with no backslash in the replacement, the first match is replaced by the done line and the rest is kept |
| Backlink.AsWrittenRewritesFirstMatch | claude_code_manager/cli.py:642-646 | the text is left alone exactly when nothing matches; otherwise the leftmost match, which starts with the title's open line, is replaced |
| Backlink.AsWrittenDropsFinalNewline | claude_code_manager/cli.py:642-644 | as written, `- [ ] t\n` becomes `- [x] t` with its final newline lost |
| Backlink.AsWrittenSwallowsBlankLine | claude_code_manager/cli.py:642-644 | as written, a blank line after the title's line is removed |
| Backlink.AsWrittenAtStart | claude_code_manager/cli.py:642-644 | a match at the start of the text is replaced by the done line |
| Backlink.BlankLineMatchEnd | claude_code_manager/cli.py:642 | with a blank line after the title, `\s*$` takes both line breaks and gives back one |
| Backlink.FirstMatchAtStart | claude_code_manager/cli.py:642-643 | a match at position 0 is the first match |
| Backlink.AsWrittenRejectsBackslashLetter | claude_code_manager/cli.py:643 | as written, a title containing `\d` makes `subn` raise |
| Backlink.PlainStretch | claude_code_manager/cli.py:643 | a stretch of the template without backslashes is copied as it is |
| Backlink.LineBreakEscape | claude_code_manager/cli.py:643 | `\n` in the template inserts a line break |
| Backlink.LineBreakTemplate | claude_code_manager/cli.py:643 | a done line whose title holds `\n` expands to a line break |
| Backlink.WholeLineMatch | claude_code_manager/cli.py:642-643 | the open line alone is matched whole |
| Backlink.AsWrittenTurnsEscapeIntoLineBreak | claude_code_manager/cli.py:642-644 | as written, a title containing the two characters `\n` is ticked as two lines |
| Backlink.BlankRun | claude_code_manager/cli.py:641-642 | the spaces after the title up to the end of its line |
| Backlink.FirstLineMatchFromNone | claude_code_manager/cli.py:641-643 | the intended scan fails exactly when no later line matches |
| Backlink.FirstLineMatchFromSome | claude_code_manager/cli.py:641-643 | the intended scan stops at the first matching line |
| Backlink.FirstLineMatch | claude_code_manager/cli.py:641-643 | the intended match: the first line that is the title's open line with trailing spaces |
| Backlink.UpdateTodo | claude_code_manager/cli.py:630-647 | the intended rewrite happens exactly when the file exists and some line matches |
| Backlink.UpdateTodoRewritesFirstLine | claude_code_manager/cli.py:641-646 | the intended rewrite replaces that first line's text and nothing after its end |
| Backlink.IntendedKeepsFinalNewline | claude_code_manager/cli.py:642-644 | the intended rewrite of `- [ ] t\n` is `- [x] t\n` |
| Backlink.IntendedKeepsBackslashes | claude_code_manager/cli.py:643-644 | the intended rewrite keeps a backslash in the title as it is |
| Backlink.IntendedKeepsLineCount | claude_code_manager/cli.py:641-646 | the intended rewrite keeps the number of line breaks |
| Backlink.LineSpliceKeepsBreaks | claude_code_manager/cli.py:641-646 | replacing a matched line by the done line keeps the line breaks |
| Backlink.NoBreakInLine | claude_code_manager/cli.py:641-642 | the intended match holds no line break |
| Backlink.SpliceKeepsBreaks | claude_code_manager/cli.py:643 | splicing break-free text over a break-free stretch keeps the line breaks |

## Left out

- Subprocess calls, the file system, the terminal, colours, `debug_log`, threads and the git and `gh` steps of `cli.py` are left out. Only the computations above are modelled.
- JSON decoding and encoding are left out. Documents are modelled as decoded values (`Json.Json`), and "not valid JSON" is an input case. Floating-point numbers are not modelled.
- The TOML loading of `load_i18n_toml` is left out. The catalogue is a parameter of `I18n.Template`.
- I18n.Tr: `str.format` is a parameter that returns `None` where it raises. The model does not capture format strings themselves.
- StopGate.StateFile.Run: a non-string session id is rendered through a `str()` parameter, and `save_state` either writes fully or not at all. Partial writes and concurrent gate runs are not modelled.
- Backlink.DigitRun: only ASCII digits `0`-`9` are read as `\d`. On a str pattern Python's `\d` matches every Unicode decimal digit, and `int()` reads them too, so `/pull/١٢` is 12 to the program and no number to the model.
- Backlink.PrNumber: `\d+` and `int()` are modelled for ASCII digits only, as in Backlink.DigitRun. A URL whose number uses other decimal digits gives `None`, or a shorter number, where the program gives the number.
- Backlink.PrNumberFromNone: "no `/pull/` followed by a digit" means an ASCII digit, as in Backlink.DigitRun.
- Backlink.PrNumberFromSome: the number found is the ASCII digit run, as in Backlink.DigitRun. `/pull/7٣` gives 7 where the program gives 73.
- Backlink.PrNumberOfUrl: "`post` does not start with a digit" means an ASCII digit, as in Backlink.DigitRun.
- Backlink.SuffixOfPullRequest: the number in the link is read with ASCII digits only, as in Backlink.DigitRun.
- Backlink.SuffixOfOtherUrl: a URL whose `/pull/` is followed by a non-ASCII decimal digit gets ` (url)` in the model and ` [#n](url)` from the program, as in Backlink.DigitRun.
- StopGate.IntText: only ASCII digits are modelled. `int()` also accepts other Unicode decimal digits. Floats and other numeric types in the state file are not modelled.
- Text.IsSpace and Text.IsLineBreak follow Python's character tables for whitespace and line breaks. Case folding and normalisation are not involved.
- Text.SplitLines returns an empty list for empty text, as `splitlines` does. Trailing text with no break is its own line.
- Hooks.EnsureHooksConfig: writing the gate script (`_write_stop_hook_script`) and the file I/O are left out. Key order in the written JSON is not modelled, because maps are unordered.
- EventTally.Kind: a `type` that is not a string is read as no type. `str()` of a number, `null`, a list or an object never strips to one of the three names, so the count is the same.
- EventTally.Tally: the status line text, its width and row updates are left out. Only the counters, the spinner index, the return code and the marker are modelled.
- Backlink.UpdateTodoAsWritten: the written file and the boolean result are modelled as `Update` values (`Unchanged` or `Rewritten(text)`). Reading the file goes through `Option<string>`.

## Findings

| source | as written | input that shows it | evidently intended | confidence | as-written member | corrected member |
|---|---|---|---|---|---|---|
| claude_code_manager/cli.py:642-644 | `\s*$` under `re.MULTILINE` is greedy and matches line breaks, so it also eats the line break after the title and any blank lines that follow | the file `- [ ] t\n` becomes `- [x] t` without its final newline; `- [ ] t\n\nnext` loses its blank line | only trailing spaces on the title's own line are absorbed; the line count is kept | not executed | Backlink.AsWrittenDropsFinalNewline, Backlink.AsWrittenSwallowsBlankLine | Backlink.UpdateTodo, Backlink.IntendedKeepsFinalNewline, Backlink.IntendedKeepsLineCount |
| claude_code_manager/cli.py:643-644 | the replacement string is a `re` template, so backslashes in the title or URL are escapes | a title containing `\d` makes `subn` raise; a title containing the characters `\n` is written as two lines | the title and URL are inserted literally | not executed | Backlink.AsWrittenRejectsBackslashLetter, Backlink.AsWrittenTurnsEscapeIntoLineBreak | Backlink.UpdateTodo, Backlink.IntendedKeepsBackslashes |
