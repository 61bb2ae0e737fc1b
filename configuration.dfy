/**
  The two-tier settings of `GitStoryid::Configuration`
  (lib/git_storyid.rb:81-154): the global `.pivotalrc` in the home directory
  and the project's `.pivotalrc` are merged, the project winning; each of the
  four required keys still nil is asked for on the terminal, and if any was
  asked for, the project map is written back once.

  The files are given as the maps their YAML parses to (an absent or empty
  file gives the empty map); the terminal is the sequence of lines it will
  still give, and a line asked for when none is left reads as nil, as
  Readline's end of input does.
 */
module Configuration {
  import opened Wrappers

  /** A value of a parsed configuration file, or Ruby's nil. */
  datatype Value = Nil | Bool(b: bool) | Int(i: int) | Str(s: string)

  /** A parsed configuration file: string keys to values. */
  type Settings = map<string, Value>

  /** Ruby's `hash[key]`: nil for a key the map does not hold. */
  function Lookup(m: Settings, key: string): Value
  {
    if key in m then m[key] else Nil
  }

  /** Ruby's truth: everything but nil and false. */
  predicate Truthy(v: Value)
  {
    v != Nil && v != Bool(false)
  }

  /** `Hash#merge!`: every key of either map, the second map's value on the
      keys they share. */
  function Merge(base: Settings, over: Settings): (r: Settings)
    ensures r.Keys == base.Keys + over.Keys
    ensures forall k :: k in over ==> r[k] == over[k]
    ensures forall k :: k in base && k !in over ==> r[k] == base[k]
  {
    base + over
  }

  /** The keys `ensure_full_config` requires, in the order it asks for them. */
  const RequiredKeys: seq<string> := ["api_token", "use_ssl", "me", "project_id"]

  /** The label shown when asking for a required key. */
  function Label(key: string): string
  {
    if key == "api_token" then "Api token (https://www.pivotaltracker.com/profile)"
    else if key == "use_ssl" then "Use SSL (y/n)"
    else if key == "me" then "Your pivotal initials (e.g. BG)"
    else "Project ID"
  }

  function Prompt(key: string): string
  {
    Label(key) + ": "
  }

  const WriteNotice: string := "Writing config to .pivotalrc"

  /** `format_config_value`: "y" and "n" become true and false, any other
      answer stays the string it is, and nil (end of input) stays nil. */
  function FormatConfigValue(answer: Option<string>): (v: Value)
    ensures v == Bool(true) <==> answer == Some("y")
    ensures v == Bool(false) <==> answer == Some("n")
    ensures v == Nil <==> answer == None
    ensures v.Str? <==> answer.Some? && answer.value != "y" && answer.value != "n"
    ensures v.Str? ==> v.s == answer.value
    ensures !v.Int?
  {
    match answer
    case None => Nil
    case Some(a) => if a == "y" then Bool(true) else if a == "n" then Bool(false) else Str(a)
  }

  /** How `setup_api_client` sets the client's SSL flag: the configured value
      when it is truthy, false otherwise. */
  function UseSsl(v: Value): (r: Value)
    ensures Truthy(r) <==> Truthy(v)
    ensures Truthy(v) ==> r == v
    ensures !Truthy(v) ==> r == Bool(false)
  {
    if Truthy(v) then v else Bool(false)
  }

  // ---------------------------------------------------------------------------
  // What ensure_full_config does, as functions of the state it starts from

  /** The keys of `keys` whose value in `config` is nil, in order. */
  function MissingKeys(config: Settings, keys: seq<string>): (r: seq<string>)
    ensures |r| <= |keys|
  {
    if keys == [] then []
    else
      var last := keys[|keys| - 1];
      MissingKeys(config, keys[..|keys| - 1]) + (if Lookup(config, last) == Nil then [last] else [])
  }

  /** The `j`-th line read from `input`, or nil once it is exhausted. */
  function Answer(input: seq<string>, j: nat): Option<string>
  {
    if j < |input| then Some(input[j]) else None
  }

  /** `input` once `n` lines have been read from it. */
  function Consumed(input: seq<string>, n: nat): seq<string>
  {
    if n <= |input| then input[n..] else []
  }

  /** `project` with the `j`-th of `keys` set to the formatted `j`-th answer. */
  function Fill(project: Settings, keys: seq<string>, input: seq<string>): Settings
  {
    if keys == [] then project
    else
      var last := keys[|keys| - 1];
      Fill(project, keys[..|keys| - 1], input)[last := FormatConfigValue(Answer(input, |keys| - 1))]
  }

  /** The prompts shown when asking for `keys`, in order. */
  function Prompts(keys: seq<string>): (r: seq<string>)
    ensures |r| == |keys|
    ensures forall i :: 0 <= i < |keys| ==> r[i] == Prompt(keys[i])
  {
    if keys == [] then [] else Prompts(keys[..|keys| - 1]) + [Prompt(keys[|keys| - 1])]
  }

  /** The project map after `ensure_full_config`. */
  function EnsuredProject(config: Settings, project: Settings, input: seq<string>): Settings
  {
    Fill(project, MissingKeys(config, RequiredKeys), input)
  }

  /** The merged map after `ensure_full_config`. */
  function EnsuredConfig(config: Settings, project: Settings, input: seq<string>): Settings
  {
    if MissingKeys(config, RequiredKeys) == [] then config
    else Merge(config, EnsuredProject(config, project, input))
  }

  /** Every key of the project map has its value in the merged map, as
      merging the project map last makes it. */
  ghost predicate ProjectWithin(config: Settings, project: Settings)
  {
    forall k :: k in project ==> k in config && config[k] == project[k]
  }

  /** The missing keys are exactly the listed keys whose value is nil. */
  lemma {:induction false} MissingKeysMembers(config: Settings, keys: seq<string>)
    ensures forall k :: k in MissingKeys(config, keys) <==> k in keys && Lookup(config, k) == Nil
  {
    if keys != [] {
      var init := keys[..|keys| - 1];
      MissingKeysMembers(config, init);
      assert keys == init + [keys[|keys| - 1]];
    }
  }

  /** Filling sets exactly the asked keys and leaves every other key alone. */
  lemma {:induction false} FillKeys(project: Settings, keys: seq<string>, input: seq<string>)
    ensures Fill(project, keys, input).Keys == project.Keys + set k | k in keys
    ensures forall k :: k in project && k !in keys ==> Fill(project, keys, input)[k] == project[k]
  {
    if keys != [] {
      var init := keys[..|keys| - 1];
      FillKeys(project, init, input);
      assert keys == init + [keys[|keys| - 1]];
    }
  }

  lemma MissingSnoc(config: Settings, keys: seq<string>, i: nat)
    requires i < |keys|
    ensures MissingKeys(config, keys[..i + 1])
            == MissingKeys(config, keys[..i]) + (if Lookup(config, keys[i]) == Nil then [keys[i]] else [])
  {
    assert keys[..i + 1][..i] == keys[..i];
  }

  lemma FillSnoc(project: Settings, keys: seq<string>, key: string, input: seq<string>)
    ensures Fill(project, keys + [key], input)
            == Fill(project, keys, input)[key := FormatConfigValue(Answer(input, |keys|))]
  {
    assert (keys + [key])[..|keys|] == keys;
  }

  lemma PromptsSnoc(keys: seq<string>, key: string)
    ensures Prompts(keys + [key]) == Prompts(keys) + [Prompt(key)]
  {
    assert (keys + [key])[..|keys|] == keys;
  }

  lemma ConsumedNext(input: seq<string>, n: nat)
    ensures Answer(Consumed(input, n), 0) == Answer(input, n)
    ensures Consumed(Consumed(input, n), 1) == Consumed(input, n + 1)
  {
  }

  // ---------------------------------------------------------------------------
  // Properties of the configuration step

  /** After loading, the merged map holds the project map. */
  lemma LoadedProjectWithin(global: Settings, project: Settings)
    ensures ProjectWithin(Merge(global, project), project)
  {
  }

  predicate Distinct(s: seq<string>)
  {
    forall i, j :: 0 <= i < j < |s| ==> s[i] != s[j]
  }

  /** Each key is asked for at most once. */
  lemma {:induction false} MissingKeysOnce(config: Settings, keys: seq<string>)
    requires Distinct(keys)
    ensures Distinct(MissingKeys(config, keys))
  {
    if keys != [] {
      var init := keys[..|keys| - 1];
      var last := keys[|keys| - 1];
      MissingKeysOnce(config, init);
      MissingKeysMembers(config, init);
      var r0 := MissingKeys(config, init);
      var r := MissingKeys(config, keys);
      assert r == r0 + (if Lookup(config, last) == Nil then [last] else []);
      assert last !in init;
      assert last !in r0;
      forall i, j | 0 <= i < j < |r| ensures r[i] != r[j] {
        if j >= |r0| {
          assert r[i] == r0[i] && r[i] in r0 && r[j] == last;
        } else {
          assert r[i] == r0[i] && r[j] == r0[j];
          assert r0[i] != r0[j];
        }
      }
    }
  }

  /** Answers given for every asked key are never nil. */
  lemma {:induction false} FillAnswered(project: Settings, keys: seq<string>, input: seq<string>)
    requires |keys| <= |input|
    ensures forall k :: k in keys ==> k in Fill(project, keys, input) && Fill(project, keys, input)[k] != Nil
  {
    if keys != [] {
      var init := keys[..|keys| - 1];
      FillAnswered(project, init, input);
      forall k | k in keys ensures k in Fill(project, keys, input) && Fill(project, keys, input)[k] != Nil {
        if k != keys[|keys| - 1] {
          assert k in init;
        }
      }
    }
  }

  /** The `j`-th key asked for holds the `j`-th answer after
      `format_config_value`, when no key is asked for twice. */
  lemma {:induction false} FillValue(project: Settings, keys: seq<string>, input: seq<string>, j: nat)
    requires Distinct(keys) && j < |keys|
    ensures keys[j] in Fill(project, keys, input)
    ensures Fill(project, keys, input)[keys[j]] == FormatConfigValue(Answer(input, j))
  {
    var init := keys[..|keys| - 1];
    if j < |keys| - 1 {
      assert Distinct(init);
      assert init[j] == keys[j];
      FillValue(project, init, input, j);
    }
  }

  /** Nothing is missing when every key has a value. */
  lemma {:induction false} NoneMissing(config: Settings, keys: seq<string>)
    requires forall k :: k in keys ==> Lookup(config, k) != Nil
    ensures MissingKeys(config, keys) == []
  {
    if keys != [] {
      NoneMissing(config, keys[..|keys| - 1]);
    }
  }

  /** Lemma helper: `EnsureCompletes` over any list of keys. */
  lemma CompletesFor(config: Settings, project: Settings, input: seq<string>, keys: seq<string>)
    requires ProjectWithin(config, project)
    requires |MissingKeys(config, keys)| <= |input|
    ensures var missing := MissingKeys(config, keys);
            var p := Fill(project, missing, input);
            var c := if missing == [] then config else Merge(config, p);
            && (forall k :: k in keys ==> Lookup(c, k) != Nil)
            && ProjectWithin(c, p)
            && MissingKeys(c, keys) == []
  {
    var missing := MissingKeys(config, keys);
    var p := Fill(project, missing, input);
    var c := if missing == [] then config else Merge(config, p);
    MissingKeysMembers(config, keys);
    FillAnswered(project, missing, input);
    FillKeys(project, missing, input);
    forall k | k in keys ensures Lookup(c, k) != Nil {
      if k !in missing {
        assert Lookup(config, k) != Nil;
        if k in p && missing != [] {
          assert k in project && p[k] == project[k];
        }
      }
    }
    NoneMissing(c, keys);
  }

  /** Given an answer for every question, `ensure_full_config` leaves no
      required key nil, keeps the project map inside the merged one, and so
      a second run would ask nothing and write nothing. */
  lemma EnsureCompletes(config: Settings, project: Settings, input: seq<string>)
    requires ProjectWithin(config, project)
    requires |MissingKeys(config, RequiredKeys)| <= |input|
    ensures var c := EnsuredConfig(config, project, input);
            var p := EnsuredProject(config, project, input);
            && (forall k :: k in RequiredKeys ==> Lookup(c, k) != Nil)
            && ProjectWithin(c, p)
            && MissingKeys(c, RequiredKeys) == []
            && EnsuredProject(c, p, input) == p
            && EnsuredConfig(c, p, input) == c
  {
    CompletesFor(config, project, input, RequiredKeys);
    var p := EnsuredProject(config, project, input);
    var c := EnsuredConfig(config, project, input);
    assert EnsuredProject(c, p, input) == Fill(p, [], input) == p;
  }

  /** The project map written holds every key it held before, unchanged
      where the merged map had a value, and each missing key. */
  lemma EnsureKeepsProjectKeys(config: Settings, project: Settings, input: seq<string>)
    ensures var p := EnsuredProject(config, project, input);
            && p.Keys == project.Keys + set k | k in RequiredKeys && Lookup(config, k) == Nil
            && forall k :: k in project && Lookup(config, k) != Nil ==> k in p && p[k] == project[k]
  {
    var missing := MissingKeys(config, RequiredKeys);
    MissingKeysMembers(config, RequiredKeys);
    FillKeys(project, missing, input);
    assert (set k | k in missing) == (set k | k in RequiredKeys && Lookup(config, k) == Nil);
  }

  /** The four required keys are different. */
  lemma RequiredKeysDistinct()
    ensures Distinct(RequiredKeys)
  {
    assert forall i, j :: 0 <= i < j < |RequiredKeys| ==> |RequiredKeys[i]| != |RequiredKeys[j]|;
  }

  /** After `ensure_full_config`, the `j`-th key asked for holds the `j`-th
      answer after `format_config_value`, both in the project map written
      and in the merged map. */
  lemma EnsuredValue(config: Settings, project: Settings, input: seq<string>, j: nat)
    requires j < |MissingKeys(config, RequiredKeys)|
    ensures var key := MissingKeys(config, RequiredKeys)[j];
            var v := FormatConfigValue(Answer(input, j));
            && key in EnsuredProject(config, project, input) && EnsuredProject(config, project, input)[key] == v
            && key in EnsuredConfig(config, project, input) && EnsuredConfig(config, project, input)[key] == v
  {
    var missing := MissingKeys(config, RequiredKeys);
    RequiredKeysDistinct();
    MissingKeysOnce(config, RequiredKeys);
    FillValue(project, missing, input, j);
  }

  /** When only `use_ssl` is missing, answering "y" at the `Use SSL (y/n)`
      prompt stores true under `use_ssl`. */
  lemma UseSslAnsweredYes(config: Settings, project: Settings)
    requires Lookup(config, "api_token") != Nil && Lookup(config, "use_ssl") == Nil
    requires Lookup(config, "me") != Nil && Lookup(config, "project_id") != Nil
    ensures MissingKeys(config, RequiredKeys) == ["use_ssl"]
    ensures "use_ssl" in EnsuredConfig(config, project, ["y"])
    ensures EnsuredConfig(config, project, ["y"])["use_ssl"] == Bool(true)
  {
    var keys := RequiredKeys;
    assert keys[..1] == ["api_token"] && keys[..2] == ["api_token", "use_ssl"];
    assert keys[..3] == ["api_token", "use_ssl", "me"];
    assert MissingKeys(config, keys[..1]) == [] by {
      assert keys[..1][..0] == [];
    }
    assert MissingKeys(config, keys[..2]) == ["use_ssl"] by {
      assert keys[..2][..1] == keys[..1];
    }
    assert MissingKeys(config, keys[..3]) == ["use_ssl"] by {
      assert keys[..3][..2] == keys[..2];
    }
    assert keys[..4][..3] == keys[..3] && keys[..4] == keys;
    EnsuredValue(config, project, ["y"], 0);
  }

  // ---------------------------------------------------------------------------
  // The module's state

  /** The state `GitStoryid::Configuration` keeps in its instance variables,
      and the terminal and files it works with. */
  class Store {
    /** `@loaded`: whether `read` has run. */
    var loaded: bool
    /** `@config`: the merged settings. */
    var config: Settings
    /** `@project_config`: the project's settings. */
    var projectConfig: Settings
    /** `@me`, memoised. */
    var me: Value
    /** What `PivotalTracker::Client.token` and `.use_ssl` were set to. */
    var clientToken: Value
    var clientUseSsl: Value

    /** The parsed global and project `.pivotalrc` files. */
    const globalFile: Settings
    const projectFile: Settings
    /** Terminal lines not yet read. */
    var input: seq<string>
    /** The prompts shown and the lines printed, in order. */
    var prompts: seq<string>
    var printed: seq<string>
    /** The maps written to `./.pivotalrc`, in order. */
    var writes: seq<Settings>

    constructor (globalFile: Settings, projectFile: Settings, input: seq<string>)
      ensures !loaded && me == Nil
      ensures this.globalFile == globalFile && this.projectFile == projectFile
      ensures this.input == input && prompts == [] && printed == [] && writes == []
    {
      this.globalFile := globalFile;
      this.projectFile := projectFile;
      this.input := input;
      loaded := false;
      config, projectConfig := map[], map[];
      me, clientToken, clientUseSsl := Nil, Nil, Nil;
      prompts, printed, writes := [], [], [];
    }

    /** `load_config`: the merged map, the project's values winning. */
    method LoadConfig()
      modifies this`config, this`projectConfig
      ensures projectConfig == projectFile
      ensures config == Merge(globalFile, projectFile)
      ensures ProjectWithin(config, projectConfig)
    {
      config := globalFile;
      projectConfig := projectFile;
      config := Merge(config, projectConfig);
    }

    /** `Readline.readline(prompt)`: the next terminal line, or nil at the
        end of input. */
    method ReadLine(prompt: string) returns (line: Option<string>)
      modifies this`input, this`prompts
      ensures prompts == old(prompts) + [prompt]
      ensures line == Answer(old(input), 0)
      ensures input == Consumed(old(input), 1)
    {
      prompts := prompts + [prompt];
      if input == [] {
        line := None;
      } else {
        line := Some(input[0]);
        input := input[1..];
      }
    }

    /** Asks for `key` and stores the formatted answer in the project map. */
    method Ask(key: string, ghost project: Settings, ghost lines: seq<string>,
               ghost shown: seq<string>, ghost asked: seq<string>)
      requires projectConfig == Fill(project, asked, lines)
      requires input == Consumed(lines, |asked|)
      requires prompts == shown + Prompts(asked)
      modifies this`projectConfig, this`input, this`prompts
      ensures projectConfig == Fill(project, asked + [key], lines)
      ensures input == Consumed(lines, |asked| + 1)
      ensures prompts == shown + Prompts(asked + [key])
    {
      var value := ReadLine(Prompt(key));
      projectConfig := projectConfig[key := FormatConfigValue(value)];
      ConsumedNext(lines, |asked|);
      FillSnoc(project, asked, key, lines);
      PromptsSnoc(asked, key);
      assert prompts == shown + (Prompts(asked) + [Prompt(key)]);
    }

    /** The loop of `ensure_full_config`: asks, in order, for each of `keys`
        whose merged value is nil and stores the formatted answer in the
        project map; `changed` tells whether it asked anything. */
    method AskMissing(keys: seq<string>) returns (changed: bool)
      modifies this`projectConfig, this`input, this`prompts
      ensures var missing := MissingKeys(config, keys);
              && changed == (missing != [])
              && projectConfig == Fill(old(projectConfig), missing, old(input))
              && input == Consumed(old(input), |missing|)
              && prompts == old(prompts) + Prompts(missing)
    {
      changed := false;
      ghost var missing: seq<string> := [];
      for i := 0 to |keys|
        invariant missing == MissingKeys(config, keys[..i])
        invariant changed <==> missing != []
        invariant projectConfig == Fill(old(projectConfig), missing, old(input))
        invariant input == Consumed(old(input), |missing|)
        invariant prompts == old(prompts) + Prompts(missing)
      {
        var key := keys[i];
        ghost var asked := missing;
        if Lookup(config, key) == Nil {
          changed := true;
          Ask(key, old(projectConfig), old(input), old(prompts), asked);
          missing := asked + [key];
        }
        assert missing == MissingKeys(config, keys[..i + 1]) by {
          MissingSnoc(config, keys, i);
        }
      }
      assert keys[..|keys|] == keys;
    }

    /** `ensure_full_config`: asks for the missing required keys; if it asked
        anything, writes the project map once and merges it into the merged
        map. */
    method EnsureFullConfig()
      modifies this`config, this`projectConfig, this`input, this`prompts, this`printed, this`writes
      ensures var missing := MissingKeys(old(config), RequiredKeys);
              && projectConfig == EnsuredProject(old(config), old(projectConfig), old(input))
              && config == EnsuredConfig(old(config), old(projectConfig), old(input))
              && input == Consumed(old(input), |missing|)
              && prompts == old(prompts) + Prompts(missing)
              && writes == old(writes) + (if missing == [] then [] else [projectConfig])
              && printed == old(printed) + (if missing == [] then [] else [WriteNotice])
    {
      var changed := AskMissing(RequiredKeys);
      if changed {
        writes := writes + [projectConfig];
        config := Merge(config, projectConfig);
        printed := printed + [WriteNotice];
      }
    }

    /** `setup_api_client`. */
    method SetupApiClient()
      modifies this`clientToken, this`clientUseSsl
      ensures clientToken == Lookup(config, "api_token")
      ensures clientUseSsl == UseSsl(Lookup(config, "use_ssl"))
    {
      clientToken := Lookup(config, "api_token");
      clientUseSsl := UseSsl(Lookup(config, "use_ssl"));
    }

    /** The state the first `read` leaves when the terminal input, prompts,
        printed lines and writes were `input0`, `prompts0`, `printed0` and
        `writes0` before it: the files merged and completed with the answers
        to the missing keys, and the client configured from the result. */
    predicate LoadedFrom(input0: seq<string>, prompts0: seq<string>, printed0: seq<string>,
                         writes0: seq<Settings>)
      reads this
    {
      var loadedConfig := Merge(globalFile, projectFile);
      var missing := MissingKeys(loadedConfig, RequiredKeys);
      && projectConfig == EnsuredProject(loadedConfig, projectFile, input0)
      && config == EnsuredConfig(loadedConfig, projectFile, input0)
      && input == Consumed(input0, |missing|)
      && prompts == prompts0 + Prompts(missing)
      && writes == writes0 + (if missing == [] then [] else [projectConfig])
      && printed == printed0 + (if missing == [] then [] else [WriteNotice])
      && clientToken == Lookup(config, "api_token")
      && clientUseSsl == UseSsl(Lookup(config, "use_ssl"))
    }

    /** The first `read`: loads the files, completes the settings and
        configures the client. */
    method Load()
      modifies this`config, this`projectConfig, this`input, this`prompts, this`printed, this`writes,
               this`clientToken, this`clientUseSsl
      ensures LoadedFrom(old(input), old(prompts), old(printed), old(writes))
    {
      LoadConfig();
      EnsureFullConfig();
      SetupApiClient();
    }

    /** `read`: loads, completes and applies the settings the first time it
        is called, and does nothing afterwards. */
    method Read()
      modifies this
      ensures loaded
      ensures old(loaded) ==> unchanged(this)
      ensures !old(loaded) ==> LoadedFrom(old(input), old(prompts), old(printed), old(writes)) && me == old(me)
    {
      if !loaded {
        Load();
        loaded := true;
      }
    }

    /** `me`: reads the settings, then keeps the first truthy `me` value
        (Ruby's `||=`); apart from `me`, the state is the one `read`
        leaves. */
    method Me() returns (v: Value)
      modifies this
      ensures loaded
      ensures v == me
      ensures Truthy(old(me)) ==> v == old(me)
      ensures !Truthy(old(me)) ==> v == Lookup(config, "me")
      ensures old(loaded) ==>
                && config == old(config) && projectConfig == old(projectConfig)
                && input == old(input) && prompts == old(prompts)
                && printed == old(printed) && writes == old(writes)
                && clientToken == old(clientToken) && clientUseSsl == old(clientUseSsl)
      ensures !old(loaded) ==> LoadedFrom(old(input), old(prompts), old(printed), old(writes))
    {
      Read();
      if !Truthy(me) {
        me := Lookup(config, "me");
      }
      v := me;
    }
  }

  /** Lemma helper: the project map stays inside the merged map across
      `ensure_full_config`, whatever the answers. */
  lemma EnsureWithin(global: Settings, project: Settings, input: seq<string>)
    ensures var c := Merge(global, project);
            ProjectWithin(EnsuredConfig(c, project, input), EnsuredProject(c, project, input))
  {
    var c := Merge(global, project);
    var missing := MissingKeys(c, RequiredKeys);
    if missing == [] {
      assert EnsuredProject(c, project, input) == project;
    }
  }
}
