/**
  The `git-storyid` command (`GitStoryid`, lib/git_storyid.rb:7-73): with
  something staged, it takes the stories named on the command line, or lists
  the user's started, finished or delivered stories (at most 30) and reads a
  comma-separated choice of them, and commits with a message naming the
  chosen stories.

  Git and the tracker are outside the model: what `git diff --staged`
  prints, the stories the tracker returns, the line typed at the index
  prompt and what `git commit` prints are parameters.  `quit` prints its
  message and ends the run with status 1; here it ends the run with a
  `Quit` outcome.
 */
module Storyid {
  import opened Wrappers
  import opened Text
  import opened Message
  import opened Selection

  /** How a run ends: a commit with the given message, or `quit`. */
  datatype Outcome = Committed(message: string) | Quit(reason: string)

  /** The process's exit status. */
  function ExitStatus(o: Outcome): nat
  {
    if o.Committed? then 0 else 1
  }

  const NoChanges: string := "No changes staged to commit."
  const NoStories: string := "No stories started and owned by you."
  const IndexPrompt: string := "Indexes(csv): "

  /** The line printed for the `i`-th listed story: its number, counted
      from 1, in brackets, then its name. */
  function ListingLine(i: nat, s: Story): string
  {
    "[" + ShowNat(i + 1) + "] " + s.name
  }

  /** What the listing prints: one line per story, then an empty line. */
  function Listing(stories: seq<Story>): (r: seq<string>)
    ensures |r| == |stories| + 1 && r[|stories|] == ""
  {
    seq(|stories|, i requires 0 <= i < |stories| => ListingLine(i, stories[i])) + [""]
  }

  /** `@all_stories ||= ...`: the memoised list if there is one (an empty
      list counts, since an empty Ruby array is true), else the fetched one. */
  function Memo(memo: Option<seq<Story>>, fetched: seq<Story>): seq<Story>
  {
    if memo.Some? then memo.value else fetched
  }

  /** The stories a run commits for: those named on the command line, or
      the selection read from `line` among the listed ones. */
  function Chosen(given: Option<seq<Story>>, listed: seq<Story>, line: string): Result<seq<Story>, string>
  {
    if given.Some? then Ok(given.value)
    else if listed == [] then Err(NoStories)
    else Select(listed, line)
  }

  /** How `run` ends, given the staged diff, the stories named on the
      command line, the listed stories and the typed line. */
  function RunOutcome(note: Option<string>, staged: string, given: Option<seq<Story>>,
                      listed: seq<Story>, line: string): (r: Outcome)
    ensures staged == "" ==> r == Quit(NoChanges)
    ensures r.Committed? <==> staged != "" && Chosen(given, listed, line).Ok?
    ensures ExitStatus(r) == if staged != "" && Chosen(given, listed, line).Ok? then 0 else 1
  {
    if staged == "" then Quit(NoChanges)
    else
      match Chosen(given, listed, line)
      case Ok(stories) => Committed(Compose(stories, note))
      case Err(e) => Quit(e)
  }

  /** A commit's message starts with a header that reads back as exactly the
      ids of the chosen stories, in order. */
  lemma CommitNamesChosenStories(note: Option<string>, staged: string, given: Option<seq<Story>>,
                                 listed: seq<Story>, line: string)
    requires RunOutcome(note, staged, given, listed, line).Committed?
    ensures var header := ParseHeader(RunOutcome(note, staged, given, listed, line).message);
            header.Some? && header.value.0 == Ids(Chosen(given, listed, line).value)
  {
    ComposeParsesBack(Chosen(given, listed, line).value, note);
  }

  /** A run stops for exactly three reasons: nothing staged, no stories to
      list, or an index that finds no story. */
  lemma QuitReasons(note: Option<string>, staged: string, given: Option<seq<Story>>,
                    listed: seq<Story>, line: string)
    requires RunOutcome(note, staged, given, listed, line).Quit?
    ensures var reason := RunOutcome(note, staged, given, listed, line).reason;
            reason == NoChanges || reason == NoStories || exists k :: reason == NotFound(k)
  {
    if staged != "" && given.None? && listed != [] {
      var ks := Indices(Tokens(line));
      SelectFailsAtFirstMiss(listed, ks);
      var j :| 0 <= j < |ks| && Select(listed, line).error == NotFound(ks[j]);
    }
  }

  /** The lines `readline_stories_if_not_present` prints: nothing when
      stories were named, the `quit` message when there is nothing to list,
      else the listing and, when the selection fails, its message. */
  function SelectionOutput(given: Option<seq<Story>>, listed: seq<Story>, line: string): seq<string>
  {
    if given.Some? then []
    else if listed == [] then [NoStories]
    else Listing(listed) + (if Select(listed, line).Err? then [Select(listed, line).error] else [])
  }

  /** The prompts the selection step shows: the index prompt, unless stories
      were named on the command line or none are listed. */
  function SelectionPrompts(given: Option<seq<Story>>, listed: seq<Story>): seq<string>
  {
    if given.None? && listed != [] then [IndexPrompt] else []
  }

  /** The lines `run` prints, in order, given what the selection step
      printed and whether the run commits. */
  function Transcript(staged: string, selectionOutput: seq<string>, committed: bool, commitOutput: string): seq<string>
  {
    if staged == "" then [NoChanges]
    else selectionOutput + (if committed then [commitOutput] else [])
  }

  // ---------------------------------------------------------------------------
  // Properties of a run

  /** The number printed in front of a listed story, typed alone at the
      prompt, selects that story. */
  lemma ListedNumberSelects(listed: seq<Story>, i: nat)
    requires i < |listed|
    ensures Listing(listed)[i] == "[" + ShowNat(i + 1) + "] " + listed[i].name
    ensures Select(listed, ShowNat(i + 1)) == Ok([listed[i]])
  {
    var token := ShowNat(i + 1);
    NumeralToken(i + 1);
    ToIShowNat(i + 1);
    SelectOne(listed, token);
  }

  /** Typing the listed numbers of some stories commits a message whose
      header names exactly those stories, in the order typed. */
  lemma ShownNumbersCommit(note: Option<string>, staged: string, listed: seq<Story>, positions: seq<nat>)
    requires staged != ""
    requires positions != []
    requires forall i :: 0 <= i < |positions| ==> positions[i] < |listed|
    ensures RunOutcome(note, staged, None, listed, Join(Numerals(positions), ","))
            == Committed(Compose(Pick(listed, positions), note))
  {
    SelectShownNumbers(listed, positions);
  }

  /** An empty line at the prompt selects nothing, and the run still
      commits, with an empty id list in the header and no feature lines. */
  lemma EmptyLineCommitsNoStories(note: Option<string>, staged: string, listed: seq<Story>)
    requires staged != "" && listed != []
    ensures var r := RunOutcome(note, staged, None, listed, "");
            && r == Committed(Compose([], note))
            && ParseHeader(r.message) == Some(([], if note.Some? && note.value != "" then note.value + "\n\n" else ""))
  {
    EmptyLineSelectsNothing(listed);
    ComposeParsesBack([], note);
    assert FeatureLines([]) == [];
    assert Body([]) == "";
    if note.Some? && note.value != "" {
      assert note.value + "\n\n" + "" == note.value + "\n\n";
    }
  }

  /** Typing `0` commits for the last listed story rather than stopping:
      `all_stories[0 - 1]` is the last element. */
  lemma ZeroCommitsLastStory(note: Option<string>, staged: string, listed: seq<Story>)
    requires staged != "" && listed != []
    ensures RunOutcome(note, staged, None, listed, "0") == Committed(Compose([listed[|listed| - 1]], note))
  {
    assert ShowNat(0) == "0";
    ToIShowNat(0);
    ZeroIndexSelectsLast(listed, "0");
  }

  /** Typing an index outside `-n < k <= n` stops the run with the message
      naming that index, and nothing is committed. Ruby raises RangeError
      instead once `k - 1` no longer fits a 64-bit `long`; the model has no
      such bound. */
  lemma OutOfRangeIndexQuits(note: Option<string>, staged: string, listed: seq<Story>, k: int)
    requires staged != "" && listed != []
    requires k > |listed| || k <= -|listed|
    ensures RunOutcome(note, staged, None, listed, ShowInt(k)) == Quit(NotFound(k))
  {
    OutOfRangeQuits(listed, k);
  }

  // ---------------------------------------------------------------------------
  // The command's state

  /** A `GitStoryid` instance: the `-m` note, the stories named on the
      command line (`@stories`), the memoised tracker list
      (`@all_stories`), and what it printed, prompted and committed. */
  class GitStoryid {
    const note: Option<string>
    var stories: Option<seq<Story>>
    var allStories: Option<seq<Story>>
    var printed: seq<string>
    var prompts: seq<string>
    var commits: seq<string>

    /** `initialize`: `found` are the stories the tracker found for the
        command-line arguments left once `-m` is parsed; with no argument,
        `@stories` stays nil. */
    constructor (note: Option<string>, found: seq<Story>)
      ensures this.note == note
      ensures stories == (if found == [] then None else Some(found))
      ensures allStories == None
      ensures printed == [] && prompts == [] && commits == []
    {
      this.note := note;
      stories := if found == [] then None else Some(found);
      allStories := None;
      printed, prompts, commits := [], [], [];
    }

    /** `@stories`, the `@all_stories` memo and the prompts as the selection
        step leaves them when they were `stories0`, `allStories0` and
        `prompts0` before it. */
    predicate SelectionDone(stories0: Option<seq<Story>>, allStories0: Option<seq<Story>>, prompts0: seq<string>,
                            fetched: seq<Story>, line: string)
      reads this`stories, this`allStories, this`prompts
    {
      var listed := Memo(allStories0, fetched);
      var chosen := Chosen(stories0, listed, line);
      && stories == (if chosen.Ok? then Some(chosen.value) else stories0)
      && allStories == (if stories0.Some? then allStories0 else Some(listed))
      && prompts == prompts0 + SelectionPrompts(stories0, listed)
    }

    /** `all_stories`: the tracker's list, fetched once. */
    method AllStories(fetched: seq<Story>) returns (listed: seq<Story>)
      modifies this`allStories
      ensures listed == Memo(old(allStories), fetched)
      ensures allStories == Some(listed)
    {
      if allStories.None? {
        allStories := Some(fetched);
      }
      listed := allStories.value;
    }

    /** Prints each listed story with its number, then an empty line. */
    method PrintListing(listed: seq<Story>)
      modifies this`printed
      ensures printed == old(printed) + Listing(listed)
    {
      var i := 0;
      while i < |listed|
        invariant 0 <= i <= |listed|
        invariant printed == old(printed) + Listing(listed)[..i]
      {
        assert Listing(listed)[..i + 1] == Listing(listed)[..i] + [ListingLine(i, listed[i])];
        printed := printed + [ListingLine(i, listed[i])];
        i := i + 1;
      }
      assert Listing(listed) == Listing(listed)[..|listed|] + [""];
      printed := printed + [""];
    }

    /** `readline_stories_if_not_present`: nothing when stories were named
        on the command line; otherwise lists the user's stories and reads
        the selection, or fails with the message `quit` prints. */
    method ReadlineStoriesIfNotPresent(fetched: seq<Story>, line: string) returns (failure: Option<string>)
      modifies this`stories, this`allStories, this`printed, this`prompts
      ensures var chosen := Chosen(old(stories), Memo(old(allStories), fetched), line);
              failure == (if chosen.Err? then Some(chosen.error) else None)
      ensures SelectionDone(old(stories), old(allStories), old(prompts), fetched, line)
      ensures printed == old(printed) + SelectionOutput(old(stories), Memo(old(allStories), fetched), line)
    {
      if stories.Some? {
        return None;
      }
      var listed := AllStories(fetched);
      if listed == [] {
        printed := printed + [NoStories];
        return Some(NoStories);
      }
      failure := ReadSelection(listed, line);
    }

    /** Lists the stories and reads the selection from the typed line. */
    method ReadSelection(listed: seq<Story>, line: string) returns (failure: Option<string>)
      requires listed != []
      modifies this`stories, this`printed, this`prompts
      ensures var chosen := Chosen(None, listed, line);
              && failure == (if chosen.Err? then Some(chosen.error) else None)
              && stories == (if chosen.Ok? then Some(chosen.value) else old(stories))
      ensures printed == old(printed) + SelectionOutput(None, listed, line)
      ensures prompts == old(prompts) + [IndexPrompt]
    {
      PrintListing(listed);
      prompts := prompts + [IndexPrompt];
      var selection := Select(listed, line);
      if selection.Ok? {
        stories := Some(selection.value);
        failure := None;
        assert Listing(listed) + [] == Listing(listed);
      } else {
        printed := printed + [selection.error];
        failure := Some(selection.error);
      }
    }

    /** The part of `run` after the staged check: makes sure there are
        stories, then commits with the composed message and prints what git
        says. */
    method CommitStories(fetched: seq<Story>, line: string, commitOutput: string) returns (outcome: Outcome)
      modifies this`stories, this`allStories, this`printed, this`prompts, this`commits
      ensures var chosen := Chosen(old(stories), Memo(old(allStories), fetched), line);
              outcome == if chosen.Ok? then Committed(Compose(chosen.value, note)) else Quit(chosen.error)
      ensures SelectionDone(old(stories), old(allStories), old(prompts), fetched, line)
      ensures commits == old(commits) + (if outcome.Committed? then [outcome.message] else [])
      ensures printed == old(printed) + SelectionOutput(old(stories), Memo(old(allStories), fetched), line)
                                      + (if outcome.Committed? then [commitOutput] else [])
    {
      ghost var chosen := Chosen(stories, Memo(allStories, fetched), line);
      var failure := ReadlineStoriesIfNotPresent(fetched, line);
      if failure.Some? {
        assert chosen.Err? && failure.value == chosen.error;
        return Quit(failure.value);
      }
      assert chosen.Ok? && stories == Some(chosen.value);
      outcome := Committed(Compose(stories.value, note));
      Record(outcome.message, commitOutput);
    }

    /** Records a `git commit` with `message` and prints what it says. */
    method Record(message: string, commitOutput: string)
      modifies this`commits, this`printed
      ensures commits == old(commits) + [message]
      ensures printed == old(printed) + [commitOutput]
    {
      commits := commits + [message];
      printed := printed + [commitOutput];
    }

    /** `run`: quits when nothing is staged, otherwise goes on to commit. */
    method Run(staged: string, fetched: seq<Story>, line: string, commitOutput: string) returns (outcome: Outcome)
      modifies this`stories, this`allStories, this`printed, this`prompts, this`commits
      ensures outcome == RunOutcome(note, staged, old(stories), Memo(old(allStories), fetched), line)
      ensures staged == "" ==> stories == old(stories) && allStories == old(allStories) && prompts == old(prompts)
      ensures staged != "" ==> SelectionDone(old(stories), old(allStories), old(prompts), fetched, line)
      ensures commits == old(commits) + (if outcome.Committed? then [outcome.message] else [])
      ensures printed == old(printed) + Transcript(staged, SelectionOutput(old(stories), Memo(old(allStories), fetched), line),
                                                   outcome.Committed?, commitOutput)
    {
      if staged == "" {
        printed := printed + [NoChanges];
        return Quit(NoChanges);
      }
      outcome := CommitStories(fetched, line, commitOutput);
    }
  }
}
