/**
  The commit message `GitStoryid#run` composes from the selected stories and
  the optional `-m` note (lib/git_storyid.rb:66-71):

    - a header: `[#id1, #id2, ...]`, left-padded with spaces to 12 characters;
    - one space;
    - the note followed by a blank line, when a non-empty note was given;
    - `Feature: <name>` per story, name stripped, separated by blank lines.
 */
module Message {
  import opened Wrappers
  import opened Text

  /** A tracker story as far as the message needs it. */
  datatype Story = Story(id: nat, name: string)

  /** The width `rjust` pads the header to. */
  const HeaderWidth: nat := 12

  function Ids(stories: seq<Story>): seq<nat>
  {
    if stories == [] then [] else [stories[0].id] + Ids(stories[1..])
  }

  /** `"#<id>"` for each story, in order. */
  function References(stories: seq<Story>): (r: seq<string>)
    ensures |r| == |stories|
  {
    if stories == [] then [] else ["#" + ShowNat(stories[0].id)] + References(stories[1..])
  }

  function IdList(stories: seq<Story>): string
  {
    "[" + Join(References(stories), ", ") + "]"
  }

  function Header(stories: seq<Story>): string
  {
    RJust(IdList(stories), HeaderWidth)
  }

  /** The note and a blank line, when the note is given and not empty. */
  function NotePart(note: Option<string>): string
  {
    if note.Some? && note.value != "" then note.value + "\n\n" else ""
  }

  function FeatureLine(s: Story): string
  {
    "Feature: " + Strip(s.name)
  }

  function FeatureLines(stories: seq<Story>): seq<string>
  {
    seq(|stories|, i requires 0 <= i < |stories| => FeatureLine(stories[i]))
  }

  function Body(stories: seq<Story>): string
  {
    Join(FeatureLines(stories), "\n\n")
  }

  /** The commit message for `stories` and the `-m` note: the header and a
      space, the note and a blank line only when the note is given and not
      empty, then the body. */
  function Compose(stories: seq<Story>, note: Option<string>): string
  {
    Header(stories) + " " + NotePart(note) + Body(stories)
  }

  // ---------------------------------------------------------------------------
  // Reading a header back

  /** Reads the header of a message: padding spaces, `[`, the `#<id>`
      references separated by `, `, `]` and one space.  Gives the ids and the
      text after the header. */
  function ParseHeader(m: string): Option<(seq<nat>, string)>
  {
    ParseBracketed(DropLeading(m, Pad))
  }

  /** `[`, the references, `]` and one space. */
  function ParseBracketed(t: string): Option<(seq<nat>, string)>
  {
    if t != [] && t[0] == '[' then
      match ParseReferences(t[1..])
      case None => None
      case Some((ids, rest)) =>
        if rest != [] && rest[0] == ' ' then Some((ids, rest[1..])) else None
    else
      None
  }

  /** What follows `[`: either `]` at once, or references closed by `]`. */
  function ParseReferences(t: string): Option<(seq<nat>, string)>
  {
    if t != [] && t[0] == ']' then Some(([], t[1..])) else ParseReferenceList(t)
  }

  /** One or more `#<digits>` separated by `, ` and closed by `]`. */
  function ParseReferenceList(t: string): Option<(seq<nat>, string)>
    decreases |t|
  {
    if t == [] || t[0] != '#' then None
    else
      var d := DigitPrefix(t[1..]);
      if d == [] then None
      else
        var after := t[1 + |d|..];
        if after != [] && after[0] == ']' then
          Some(([DigitsValue(d)], after[1..]))
        else if |after| >= 2 && after[..2] == ", " then
          match ParseReferenceList(after[2..])
          case None => None
          case Some((ids, rest)) => Some(([DigitsValue(d)] + ids, rest))
        else
          None
  }

  /** Lemma helper: the reference `#<id>` and the `]` that closes the list. */
  lemma ParseLastReference(id: nat, rest: string)
    ensures ParseReferenceList("#" + ShowNat(id) + "]" + rest) == Some(([id], rest))
  {
    var n := ShowNat(id);
    var t := "#" + n + "]" + rest;
    assert t[1..] == n + ("]" + rest);
    DigitPrefixOf(n, "]" + rest);
    assert t[1 + |n|..] == "]" + rest;
    ShowNatValue(id);
  }

  /** Lemma helper: the reference `#<id>` and the `, ` before the next one. */
  lemma ParseNextReference(id: nat, tail: string)
    ensures ParseReferenceList("#" + ShowNat(id) + ", " + tail)
            == match ParseReferenceList(tail)
               case None => None
               case Some((ids, rest)) => Some(([id] + ids, rest))
  {
    var n := ShowNat(id);
    var t := "#" + n + ", " + tail;
    assert t[1..] == n + (", " + tail);
    DigitPrefixOf(n, ", " + tail);
    var after := t[1 + |n|..];
    assert after == ", " + tail;
    assert after[..2] == ", " && after[2..] == tail;
    ShowNatValue(id);
  }

  lemma {:induction false} ParseReferenceListJoin(stories: seq<Story>, rest: string)
    requires stories != []
    ensures ParseReferenceList(Join(References(stories), ", ") + "]" + rest)
            == Some((Ids(stories), rest))
  {
    var n := ShowNat(stories[0].id);
    if |stories| == 1 {
      assert stories[1..] == [];
      assert References(stories) == ["#" + n];
      assert Ids(stories) == [stories[0].id];
      ParseLastReference(stories[0].id, rest);
    } else {
      var refs := References(stories);
      var joined := Join(References(stories[1..]), ", ");
      var tail := joined + "]" + rest;
      assert refs == ["#" + n] + References(stories[1..]);
      assert refs[1..] == References(stories[1..]);
      assert Join(refs, ", ") == "#" + n + ", " + joined;
      assert Join(refs, ", ") + "]" + rest == "#" + n + ", " + tail;
      ParseReferenceListJoin(stories[1..], rest);
      ParseNextReference(stories[0].id, tail);
    }
  }

  /** Lemma helper: what follows the `[` of a header. */
  lemma ParseReferencesJoin(stories: seq<Story>, rest: string)
    ensures ParseReferences(Join(References(stories), ", ") + "]" + rest) == Some((Ids(stories), rest))
  {
    if stories == [] {
      assert Join(References(stories), ", ") + "]" + rest == "]" + rest;
    } else {
      var refs := References(stories);
      var joined := Join(refs, ", ");
      assert joined[0] == '#' by {
        if |refs| == 1 {
          assert joined == refs[0];
        } else {
          assert joined == refs[0] + (", " + Join(refs[1..], ", "));
        }
      }
      ParseReferenceListJoin(stories, rest);
    }
  }

  /** Lemma helper: the bracketed list, one space and any text. */
  lemma ParseBracketedOf(stories: seq<Story>, x: string)
    ensures ParseBracketed(IdList(stories) + " " + x) == Some((Ids(stories), x))
  {
    var t := IdList(stories) + " " + x;
    var joined := Join(References(stories), ", ");
    assert t[0] == '[';
    assert t[1..] == joined + "]" + (" " + x);
    ParseReferencesJoin(stories, " " + x);
    var after := " " + x;
    assert after[0] == ' ' && after[1..] == x;
  }

  /** Lemma helper: a header followed by one space and any text. */
  lemma ParseHeaderOf(stories: seq<Story>, x: string)
    ensures ParseHeader(Header(stories) + " " + x) == Some((Ids(stories), x))
  {
    var list := IdList(stories);
    var h := Header(stories);
    var pad := h[..|h| - |list|];
    assert h == pad + list;
    var t := list + " " + x;
    assert h + " " + x == pad + t;
    DropLeadingPrefix(pad, t, Pad);
    ParseBracketedOf(stories, x);
  }

  /** The header of a composed message reads back as exactly the ids of the
      stories, in their order, and what follows it is the note with a blank
      line (only for a non-empty note) and then the body. */
  lemma ComposeParsesBack(stories: seq<Story>, note: Option<string>)
    ensures ParseHeader(Compose(stories, note))
            == Some((Ids(stories),
                     if note.Some? && note.value != "" then note.value + "\n\n" + Body(stories)
                     else Body(stories)))
  {
    var x := NotePart(note) + Body(stories);
    assert Compose(stories, note) == Header(stories) + " " + x;
    ParseHeaderOf(stories, x);
    if note.Some? && note.value != "" {
      assert x == note.value + "\n\n" + Body(stories);
    } else {
      assert x == Body(stories);
    }
  }

  // ---------------------------------------------------------------------------
  // The body

  /** A further story adds a blank line and its feature line at the end. */
  lemma BodySnoc(stories: seq<Story>, s: Story)
    requires stories != []
    ensures Body(stories + [s]) == Body(stories) + "\n\n" + FeatureLine(s)
  {
    var lines := FeatureLines(stories + [s]);
    var expected := FeatureLines(stories) + [FeatureLine(s)];
    assert |lines| == |expected|;
    forall i | 0 <= i < |lines| ensures lines[i] == expected[i] {
      if i < |stories| {
        assert (stories + [s])[i] == stories[i];
      }
    }
    assert lines == expected;
    JoinSnoc(FeatureLines(stories), FeatureLine(s), "\n\n");
  }

  /** `xs` with an empty string between neighbours. */
  function Interleave(xs: seq<string>): seq<string>
  {
    if |xs| <= 1 then xs else [xs[0], ""] + Interleave(xs[1..])
  }

  lemma {:induction false} JoinBlankLines(xs: seq<string>)
    ensures Join(xs, "\n\n") == Join(Interleave(xs), "\n")
  {
    if |xs| > 1 {
      JoinBlankLines(xs[1..]);
      var rest := Interleave(xs[1..]);
      assert ([xs[0], ""] + rest)[1..] == [""] + rest;
      assert ([""] + rest)[1..] == rest;
    }
  }

  lemma {:induction false} RejectEmptyInterleave(xs: seq<string>)
    requires forall i :: 0 <= i < |xs| ==> xs[i] != ""
    ensures RejectEmpty(Interleave(xs)) == xs
  {
    if |xs| > 1 {
      RejectEmptyInterleave(xs[1..]);
      var rest := Interleave(xs[1..]);
      assert ([xs[0], ""] + rest)[1..] == [""] + rest;
      assert ([""] + rest)[1..] == rest;
      assert [xs[0]] + xs[1..] == xs;
    }
  }

  /** When no story name holds a line break, the non-empty lines of the body
      are exactly one `Feature: <stripped name>` line per story, in order. */
  lemma BodyLines(stories: seq<Story>)
    requires forall i :: 0 <= i < |stories| ==> '\n' !in stories[i].name
    ensures RejectEmpty(SplitOn(Body(stories), '\n')) == FeatureLines(stories)
  {
    var lines := FeatureLines(stories);
    if stories == [] {
    } else {
      forall i | 0 <= i < |lines| ensures '\n' !in lines[i] {
        FeatureLineWithout(stories[i]);
      }
      JoinBlankLines(lines);
      InterleaveWithout(lines, '\n');
      SplitOnJoin(Interleave(lines), '\n');
      RejectEmptyInterleave(lines);
    }
  }

  lemma {:induction false} InterleaveWithout(xs: seq<string>, c: char)
    requires forall i :: 0 <= i < |xs| ==> c !in xs[i]
    ensures Interleave(xs) != [] <==> xs != []
    ensures forall i :: 0 <= i < |Interleave(xs)| ==> c !in Interleave(xs)[i]
  {
    if |xs| > 1 {
      InterleaveWithout(xs[1..], c);
    }
  }

  /** Lemma helper: a feature line has a line break only if the name has. */
  lemma FeatureLineWithout(story: Story)
    requires '\n' !in story.name
    ensures '\n' !in FeatureLine(story)
  {
    StripWithin(story.name);
    var r := Strip(story.name);
    var line := FeatureLine(story);
    forall k | 0 <= k < |line| ensures line[k] != '\n' {
      if k >= 9 {
        assert line[k] == r[k - 9] && r[k - 9] in r;
      }
    }
  }

  /** Two stories, as a tracker might list them. */
  const TwoStories: seq<Story> := [Story(42, "Fix login"), Story(7, "Add logout")]

  lemma TwoStoriesReferences()
    ensures References(TwoStories) == ["#42", "#7"]
  {
    var stories := TwoStories;
    assert ShowNat(42) == "42";
    assert ShowNat(7) == "7";
    assert stories[1..] == [Story(7, "Add logout")];
    assert stories[1..][1..] == [];
    assert References(stories[1..][1..]) == [];
    assert References(stories[1..]) == ["#" + ShowNat(7)] + [];
    assert References(stories) == ["#" + ShowNat(42)] + References(stories[1..]);
    assert "#" + ShowNat(42) == "#42";
    assert "#" + ShowNat(7) == "#7";
  }

  /** The header for ids 42 and 7: the nine-character list is padded with
      three spaces to the width of 12. */
  lemma TwoStoriesHeader()
    ensures Header(TwoStories) == "   [#42, #7]"
  {
    TwoStoriesReferences();
    var refs := ["#42", "#7"];
    assert refs[1..] == ["#7"];
    assert Join(refs, ", ") == "#42, #7";
    var list := IdList(TwoStories);
    assert list == "[#42, #7]";
    assert |list| == 9;
    assert RJust(list, HeaderWidth) == seq(3, _ => ' ') + list;
    assert seq(3, _ => ' ') == "   ";
  }

  /** Lemma helper: the feature line of a story whose name needs no strip. */
  lemma FeatureLineTrimmed(s: Story)
    requires s.name == [] || (!IsStripSpace(s.name[0]) && !IsStripSpace(s.name[|s.name| - 1]))
    ensures FeatureLine(s) == "Feature: " + s.name
  {
    StripTrimmed(s.name);
  }

  /** The body for the two stories: their feature lines, separated by a
      blank line. */
  lemma TwoStoriesBody()
    ensures Body(TwoStories) == "Feature: Fix login" + "\n\n" + "Feature: Add logout"
  {
    var stories := TwoStories;
    FeatureLineTrimmed(stories[0]);
    FeatureLineTrimmed(stories[1]);
    var lines := FeatureLines(stories);
    assert lines[0] == "Feature: Fix login";
    assert lines[1] == "Feature: Add logout";
    assert lines[1..] == ["Feature: Add logout"];
  }

  /** The whole message for ids 42 and 7 without a note: the padded header,
      one space, and the body. */
  lemma TwoStoriesMessage()
    ensures Compose(TwoStories, None)
            == "   [#42, #7]" + " " + ("Feature: Fix login" + "\n\n" + "Feature: Add logout")
  {
    TwoStoriesHeader();
    TwoStoriesBody();
    assert NotePart(None) == "";
  }
}
