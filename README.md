# git-storyid in Dafny

`git-storyid` commits the staged changes of a git repository with a message
that names Pivotal Tracker stories. Stories can be named on the command line.
If none are named, the command lists the user's stories in the started,
finished or delivered state (at most 30, as the tracker returns them), numbered
from 1. It then reads a comma-separated choice of numbers at the prompt
`Indexes(csv): `. The message has three parts:

- a header: the `#id` references in brackets, left-padded with spaces to 12
  characters, then one space;
- the `-m` note and a blank line, when a non-empty note is given;
- one `Feature: <stripped name>` line per story, separated by blank lines.

The settings come from two `.pivotalrc` files, a global one and a project
one, merged with the project winning. Any of the four required keys that is
still nil is asked for on the terminal, and the answers are written back to the
project file once.

The model is organised in these modules:

- `Wrappers`: `Option` (Ruby's nil or a value) and `Result`.
- `Text`: the Ruby string operations the program relies on:
  - `String#strip` and `String#rjust`;
  - `Array#join`;
  - splitting on a separator;
  - `Integer#to_s` and `String#to_i`.
- `Message`: the commit message (`Compose`) and a reader for its header
  (`ParseHeader`), used to state that the header names exactly the chosen
  stories.
- `Selection`: how the typed line becomes stories:
  - split at commas, with the white space around each comma removed (the
    white space at the two ends of the line is not next to a comma and stays);
  - empty pieces dropped;
  - each piece read with `to_i` and looked up as `all_stories[index - 1]`.
    Ruby counts negative positions from the end, so the lookup does too.
- `Configuration`: the `GitStoryid::Configuration` singleton as a class
  `Store`, with these fields:
  - `loaded`, `config`, `projectConfig`, the memoised `me`;
  - the API client settings;
  - the terminal lines still to be read, and the prompts, printed lines and
    file writes made so far.

  It also defines the functions that say what `ensure_full_config` produces
  from the state it starts in.
- `Storyid`: the `GitStoryid` object as a class, with:
  - the note;
  - `@stories`;
  - the memoised `@all_stories`;
  - what it printed, prompted and committed.

  `RunOutcome` and `Transcript` say how a run ends and what it prints.

The outside world is passed in as parameters:

- the output of `git diff --staged`;
- the stories the tracker returns;
- the line typed at the prompt;
- the output of `git commit`;
- the parsed `.pivotalrc` maps;
- the lines typed at the configuration prompts.

`quit` (print, then `exit 1`) becomes a `Quit` outcome that carries the
printed message.

Some consequences of lib/git_storyid.rb that are easy to miss:

- Typing `0` selects the last listed story. `to_i` reads 0, and
  `all_stories[0 - 1]` is the last element of the list; that story is then
  committed (`Selection.ZeroIndexSelectsLast`, `Storyid.ZeroCommitsLastStory`).
  A piece with no digits also reads as 0. A negative index `-j` with `j < n`
  selects counting from the end.
- An empty line at the prompt selects no story, and the run commits with
  the header `[]` and no feature lines (`Storyid.EmptyLineCommitsNoStories`).
- The header for ids 42 and 7 is `   [#42, #7]`: `[#42, #7]` has nine
  characters, and `rjust(12)` puts three spaces in front of it
  (`Message.TwoStoriesHeader`).

## Model

| member | source | states |
|---|---|---|
| Text.Strip | lib/git_storyid.rb:71 | `String#strip`: the result is a slice of the name that starts after a run of white space or NUL, is followed only by such characters, and neither starts nor ends with one |
| Text.StripIdempotent | lib/git_storyid.rb:71 | stripping a stripped name changes nothing |
| Text.StripWithin | lib/git_storyid.rb:71 | every character of a stripped name occurs in the name |
| Text.RJust | lib/git_storyid.rb:66 | `rjust(width)`: the string ends the result, every character before it is a space, and the length is the larger of the width and the string's length |
| Text.JoinSplitOn | lib/git_storyid.rb:46 | joining the pieces of a split with the separator gives back the string |
| Text.SplitOnJoin | lib/git_storyid.rb:46 | splitting a join of separator-free pieces gives back the pieces |
| Text.ShowNat | lib/git_storyid.rb:43 | `Integer#to_s` of a natural number is a non-empty run of digits with no leading zero: a numeral starting with `0` is `"0"` itself, for 0 |
| Text.ShowNatValue | lib/git_storyid.rb:43 | the digits `to_s` writes denote the number |
| Text.ShowInt | lib/git_storyid.rb:50 | `Integer#to_s` starts with `-` exactly for negative numbers, and a negative number is `-` followed by the numeral of its magnitude; `Text.ShowIntNonNegative` states that any other number is its numeral alone |
| Text.ShowIntNonNegative | lib/git_storyid.rb:50 | a non-negative number is written as its decimal numeral with no sign, so "Story index 9 not found." names 9 as `9` |
| Text.ToIShowNat | lib/git_storyid.rb:49 | `to_i` reads a listed number back as that number |
| Text.ToIShowInt | lib/git_storyid.rb:49-50 | `to_i` reads back what `to_s` writes, for every integer |
| Text.ToIWithoutDigits | lib/git_storyid.rb:49 | a piece without digits, white space alone included, reads as 0 |
| Text.RejectEmpty | lib/git_storyid.rb:46-48 | `reject { string == "" }` keeps exactly the non-empty pieces; their order is stated by `Text.RejectEmptyConcat` |
| Text.RejectEmptyConcat | lib/git_storyid.rb:46-48 | `reject` keeps order and repetitions: rejecting from a concatenation is rejecting from each part, one after the other |
| Text.Join | lib/git_storyid.rb:66 | `Array#join(sep)`; `Text.SplitOnJoin` and `Text.JoinSplitOn` state that it is the inverse of the split |
| Text.SplitOn | lib/git_storyid.rb:46 | splitting at a character gives at least one piece, and no piece holds that character |
| Text.ToI | lib/git_storyid.rb:49 | `String#to_i`; what it reads is stated by `Text.ToIShowNat`, `Text.ToIShowInt`, `Text.ToIWithoutDigits` and `Text.ToILeadingSpace` |
| Text.ToILeadingSpace | lib/git_storyid.rb:46-49 | white space in front of a token does not change the index `to_i` reads from it |
| Message.Compose | lib/git_storyid.rb:66-71 | the commit message; `Message.ComposeParsesBack` states its parts and `Message.TwoStoriesMessage` gives an instance |
| Message.ComposeParsesBack | lib/git_storyid.rb:66-71 | the header of a composed message reads back as exactly the ids of the stories, in order; after it come the note and a blank line (only for a non-empty note), then the body |
| Message.BodySnoc | lib/git_storyid.rb:71 | one more story adds a blank line and its `Feature:` line at the end of the body |
| Message.BodyLines | lib/git_storyid.rb:71 | when no name holds a line break, the non-empty lines of the body are one `Feature: <stripped name>` per story, in order |
| Message.FeatureLineWithout | lib/git_storyid.rb:71 | a feature line holds a line break only if the story name does |
| Message.TwoStoriesReferences | lib/git_storyid.rb:66 | ids 42 and 7 give the references `#42` and `#7` |
| Message.TwoStoriesHeader | lib/git_storyid.rb:66 | the header for ids 42 and 7 is `   [#42, #7]`, padded to 12 characters |
| Message.TwoStoriesBody | lib/git_storyid.rb:71 | the body for "Fix login" and "Add logout" is their two feature lines with a blank line between them |
| Message.TwoStoriesMessage | lib/git_storyid.rb:66-71 | the whole message for those two stories without a note |
| Selection.TrimFront | lib/git_storyid.rb:46 | after a comma, the piece loses exactly its leading run of white space: the result is a suffix of the piece, everything dropped is white space, and the result does not start with white space; with no comma before it, nothing is dropped |
| Selection.TrimBack | lib/git_storyid.rb:46 | before a comma, the piece loses exactly its trailing run of white space: the result is a prefix, everything dropped is white space, and the result does not end with white space; with no comma after it, nothing is dropped |
| Selection.TrimSpaced | lib/git_storyid.rb:46 | a trimmed core with white space only on sides next to a comma is trimmed back to the core; a white-space-only piece between two commas disappears |
| Selection.Pieces | lib/git_storyid.rb:46 | the split gives at least one piece and no piece holds a comma |
| Selection.Tokens | lib/git_storyid.rb:46-48 | the tokens are non-empty and comma-free; `Selection.TokensOfSpacedJoin` states which they are |
| Selection.TokensOfSpacedJoin | lib/git_storyid.rb:46-48 | typing comma-free trimmed cores separated by commas, with any white space around each comma (white-space-only pieces between commas included), gives back the non-empty cores, in order and with repetitions |
| Selection.TokensOfJoin | lib/git_storyid.rb:46-48 | typing non-empty, trimmed, comma-free tokens joined by commas gives back those tokens, in order and with repetitions |
| Selection.TokensWithoutComma | lib/git_storyid.rb:46-48 | a line without a comma is one token, or none when it is empty |
| Selection.RubyIndex | lib/git_storyid.rb:50 | Ruby's `array[i]` finds an element exactly when `-n <= i < n`, at `i` or `n + i` |
| Selection.Resolve | lib/git_storyid.rb:50 | `all_stories[k - 1]` finds a story exactly when `-n < k <= n`: story `k` for `1 <= k <= n`, and counted from the end for `k <= 0`, so 0 is the last story |
| Selection.Indices | lib/git_storyid.rb:49 | one `to_i` index per token |
| Selection.IndicesAt | lib/git_storyid.rb:48-49 | the `i`-th index is what `to_i` reads from the `i`-th token |
| Selection.NotFound | lib/git_storyid.rb:50 | the message `Story index <k> not found.`; `Selection.SelectFailsAtFirstMiss` and `Selection.OutOfRangeQuits` state when it is the result |
| Selection.NotFoundNine | lib/git_storyid.rb:50 | the message for index 9 is exactly `Story index 9 not found.`, with no sign before the 9 |
| Selection.SelectIndices | lib/git_storyid.rb:48-51 | the selection succeeds exactly when every index finds a story; it then holds one story per index, each the story its index finds |
| Selection.SelectFailsAtFirstMiss | lib/git_storyid.rb:48-51 | a failed selection reports `Story index <k> not found.` for the first index that finds no story, and every index before it finds one |
| Selection.Select | lib/git_storyid.rb:46-51 | the selection from the typed line; its properties are stated by `Selection.SelectIndices`, `Selection.SelectShownNumbers` and the lemmas below |
| Selection.EmptyLineSelectsNothing | lib/git_storyid.rb:46-51 | an empty line selects no story and does not fail |
| Selection.SelectOne | lib/git_storyid.rb:46-51 | one token selects the story its index finds, or fails naming that index |
| Selection.ZeroIndexSelectsLast | lib/git_storyid.rb:49-50 | a token that reads as 0 (`0` itself, or one without digits) selects the last listed story |
| Selection.OutOfRangeQuits | lib/git_storyid.rb:50 | an index outside `-n < k <= n` fails with the message naming it |
| Selection.SelectShownNumbers | lib/git_storyid.rb:42-51 | typing the shown numbers of some stories, comma-separated, selects exactly those stories in the order typed, with repetitions kept |
| Configuration.Merge | lib/git_storyid.rb:94 | `merge!`: every key of both maps, with the second map's value on shared keys |
| Configuration.FormatConfigValue | lib/git_storyid.rb:125-134 | "y" becomes true and "n" becomes false; any other answer stays a string; nil (end of input) stays nil |
| Configuration.UseSsl | lib/git_storyid.rb:99 | the client's SSL flag is the configured value when that is truthy, and `false` when it is nil or false |
| Configuration.Prompts | lib/git_storyid.rb:112 | one `<label>: ` prompt per asked key, in order |
| Configuration.MissingKeys | lib/git_storyid.rb:109-110 | the keys asked for, in order, no more of them than there are required keys; `Configuration.MissingKeysMembers` and `Configuration.MissingKeysOnce` state which ones |
| Configuration.Fill | lib/git_storyid.rb:112-113 | the project map with the formatted answers stored; `Configuration.FillKeys` states its keys, and `Configuration.FillValue` the value under each asked key |
| Configuration.FillValue | lib/git_storyid.rb:109-115 | when no key is asked twice, the `j`-th asked key holds the `j`-th answer after `format_config_value` (nil once the input is used up) |
| Configuration.EnsuredProject | lib/git_storyid.rb:102-115 | the project map `ensure_full_config` leaves; `Configuration.EnsureKeepsProjectKeys` states its keys and untouched values, and `Configuration.EnsuredValue` the answers stored |
| Configuration.EnsuredValue | lib/git_storyid.rb:109-120 | the `j`-th missing required key holds the `j`-th answer after `format_config_value`, in the project map written and in the merged map |
| Configuration.UseSslAnsweredYes | lib/git_storyid.rb:106-128 | when only `use_ssl` is missing, answering "y" stores true under `use_ssl` in the merged map |
| Configuration.EnsuredConfig | lib/git_storyid.rb:116-123 | the merged map `ensure_full_config` leaves; `Configuration.EnsureCompletes` and `Configuration.EnsureWithin` state it |
| Configuration.MissingKeysMembers | lib/git_storyid.rb:109-110 | the keys asked for are exactly the required keys whose merged value is nil |
| Configuration.MissingKeysOnce | lib/git_storyid.rb:104-115 | no key is asked for twice |
| Configuration.FillKeys | lib/git_storyid.rb:113 | the answers set exactly the asked keys of the project map and leave every other key alone |
| Configuration.FillAnswered | lib/git_storyid.rb:112-113 | when an answer is given for every question, no asked key is nil |
| Configuration.LoadedProjectWithin | lib/git_storyid.rb:91-95 | after loading, the merged map holds every project value |
| Configuration.EnsureCompletes | lib/git_storyid.rb:102-123 | given an answer for every question, no required key is nil afterwards, the merged map holds the project map, and a second run would ask nothing and change nothing |
| Configuration.EnsureKeepsProjectKeys | lib/git_storyid.rb:102-123 | the project map written holds its old keys plus the missing keys, and keeps its values for keys that were not missing |
| Configuration.EnsureWithin | lib/git_storyid.rb:91-123 | whatever the answers, the merged map holds the project map after `ensure_full_config` |
| Configuration.Store.constructor | lib/git_storyid.rb:81-82 | starts not loaded, with `me` nil and nothing prompted, printed or written |
| Configuration.Store.LoadConfig | lib/git_storyid.rb:91-95 | `load_config`: the project map is the project file, and the merged map is the global file merged with it |
| Configuration.Store.ReadLine | lib/git_storyid.rb:112 | shows the prompt and consumes the next line, or gives nil at the end of input |
| Configuration.Store.Ask | lib/git_storyid.rb:110-114 | asking for one more key extends the project map, the consumed input and the prompts by that key |
| Configuration.Store.AskMissing | lib/git_storyid.rb:103-115 | the loop asks, in order, for exactly the keys whose merged value is nil and stores the formatted answers; `changed` says whether it asked anything |
| Configuration.Store.EnsureFullConfig | lib/git_storyid.rb:102-123 | `ensure_full_config`: the new project and merged maps; one write of the project map and one notice, only when something was asked |
| Configuration.Store.SetupApiClient | lib/git_storyid.rb:97-100 | sets the client token to `api_token` and the SSL flag to the truthy `use_ssl` or false |
| Configuration.Store.Load | lib/git_storyid.rb:85-87 | loading, completing and configuring the client, in that order: the new state is `LoadedFrom` the state before |
| Configuration.Store.Read | lib/git_storyid.rb:83-89 | `read` does all of that the first time and changes nothing afterwards |
| Configuration.Store.Me | lib/git_storyid.rb:151-154 | `me` runs `read` and then keeps a truthy memoised value, otherwise takes the configured `me`. The first call leaves the rest of the state as the first `read` does (`LoadedFrom`); later calls change no other field |
| Storyid.Chosen | lib/git_storyid.rb:37-51 | the stories a run commits for; `Storyid.QuitReasons` and `Storyid.CommitNamesChosenStories` state its cases |
| Storyid.SelectionOutput | lib/git_storyid.rb:37-51 | what the selection step prints: nothing when stories were named, the no-stories message, or the listing and a failure message |
| Storyid.Transcript | lib/git_storyid.rb:59-73 | the lines a run prints; `Storyid.GitStoryid.Run` states that it prints them |
| Storyid.SelectionPrompts | lib/git_storyid.rb:38-46 | the index prompt is shown once, unless stories were named or none are listed |
| Storyid.ExitStatus | lib/git_storyid.rb:54-57 | the process status: 1 after `quit`, 0 after a commit; `Storyid.RunOutcome` states which a run gets |
| Storyid.GitStoryid.Record | lib/git_storyid.rb:72 | one `git commit` with the message is recorded, and its output is printed |
| Storyid.Listing | lib/git_storyid.rb:42-45 | one line per story, then an empty line |
| Storyid.ListedNumberSelects | lib/git_storyid.rb:42-50 | the number printed in front of a story, typed alone, selects that story |
| Storyid.RunOutcome | lib/git_storyid.rb:54-73 | with nothing staged the run quits with "No changes staged to commit."; otherwise it commits exactly when stories were named or the selection succeeds; the exit status is 0 exactly then and 1 otherwise |
| Storyid.CommitNamesChosenStories | lib/git_storyid.rb:64-72 | a commit's message header reads back as exactly the ids of the chosen stories |
| Storyid.QuitReasons | lib/git_storyid.rb:37-61 | a run quits only for nothing staged, no stories to list, or an index that finds no story |
| Storyid.ShownNumbersCommit | lib/git_storyid.rb:42-72 | typing shown numbers commits a message for exactly those stories, in the order typed |
| Storyid.EmptyLineCommitsNoStories | lib/git_storyid.rb:46-71 | an empty line commits a message whose header is `[]` and that has no feature lines |
| Storyid.ZeroCommitsLastStory | lib/git_storyid.rb:49-72 | typing `0` commits for the last listed story |
| Storyid.OutOfRangeIndexQuits | lib/git_storyid.rb:50-57 | an index outside `-n < k <= n` quits naming the index, and nothing is committed |
| Storyid.GitStoryid.constructor | lib/git_storyid.rb:13-27 | `@stories` is nil without arguments, otherwise the stories found for them; nothing is memoised yet |
| Storyid.GitStoryid.AllStories | lib/git_storyid.rb:29-35 | `all_stories` fetches once and keeps that list, even an empty one |
| Storyid.GitStoryid.PrintListing | lib/git_storyid.rb:42-45 | prints exactly the listing, line by line |
| Storyid.GitStoryid.ReadlineStoriesIfNotPresent | lib/git_storyid.rb:37-52 | does nothing when stories were named. Otherwise it prints the listing and prompts once, then either sets `@stories` to the selection or fails with the message `quit` prints; with nothing to list it fails without prompting |
| Storyid.GitStoryid.ReadSelection | lib/git_storyid.rb:42-51 | lists, prompts, and stores the selection or fails with its message |
| Storyid.GitStoryid.CommitStories | lib/git_storyid.rb:64-72 | commits the composed message once and prints git's output when stories were chosen, otherwise quits without committing; `@stories`, the `@all_stories` memo and the prompts end as `readline_stories_if_not_present` leaves them |
| Storyid.GitStoryid.Run | lib/git_storyid.rb:59-73 | `run` ends as `RunOutcome` says and commits exactly the committed message. Its own output is the `Transcript`. With nothing staged, `@stories`, the memo and the prompts are unchanged; otherwise they end as the selection step leaves them |

## Left out

- Running git (`execute` via Open3): its output is a parameter of `Run`.
- The Pivotal Tracker client:
  - `stories.find` for command-line arguments;
  - `stories.all` with its owner, state and limit filter;
  - `Project.find`.
  The stories found are parameters, and the `project` memo
  (lib/git_storyid.rb:146-149) is not part of this model.
- Selection.OutOfRangeQuits, Selection.SelectFailsAtFirstMiss,
  Storyid.OutOfRangeIndexQuits and Selection.Select: typed indices are
  unbounded integers. Ruby converts the argument of `all_stories[index - 1]`
  (lib/git_storyid.rb:50) to a 64-bit C `long`. When `index - 1` lies outside
  -2^63 .. 2^63-1, for example for the typed line `9223372036854775809`,
  `Array#[]` raises RangeError before `|| quit(...)` runs. Ruby then prints
  the error on stderr instead of "Story index … not found.". The run still
  ends with status 1 and no commit, as `RunOutcome` and `ExitStatus` state;
  the message these members give for such an index is not what Ruby prints.
- Storyid.GitStoryid.Run: the `read` that `Configuration.project` and
  `Configuration.me` trigger (lib/git_storyid.rb:24, 30-31, 147, 152) is not
  part of the run's transcript. On its first call, `read` can prompt for
  missing settings and print "Writing config to .pivotalrc" in the middle of a
  run, or before the staged check when stories are named on the command
  line. `Configuration.Store.Read` models that step on its own.
- The `-m` option parsing by OptionParser: the note is a constructor argument.
- File I/O and YAML:
  - `load_config_from`, `global_config_path`, `project_config_path` and
    `find_project_config`, the upward search for `.pivotalrc`;
  - the YAML encoding of the written map.
  The files are the maps they parse to, and each write is recorded as the
  map written.
- `exit 1` and the end of the process: a `Quit` outcome ends the modelled run.
- Readline at the index prompt: the typed line is a parameter. An end of
  input there makes Ruby call `split` on nil and crash, which is not modelled.
- Story ids are natural numbers, and a story is only its id and name.
- Text.ToI: models `String#to_i` only for white space, a sign and decimal
  digits. Underscores between digits (`"1_0"` reads as 10 in Ruby) and a
  `0d`/`0D` prefix (`"0d3"` reads as 3 in Ruby, so story 3 is committed,
  while the model reads 0 and selects the last story) are not modelled.
- Selection.Pieces: models `split(/\s*,\s*/)` with `\s` as space, tab, line
  feed, vertical tab, form feed and carriage return. Ruby's removal of trailing empty fields is not
  modelled, because the empty pieces are rejected right after.
