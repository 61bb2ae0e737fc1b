/**
  Reading the interactive story selection of
  `GitStoryid#readline_stories_if_not_present` (lib/git_storyid.rb:46-51):
  the input line is split at commas, empty pieces are dropped, and each piece
  is read with `to_i` and looked up as `all_stories[index - 1]`, which in Ruby
  counts from the end for negative positions.  The first index that finds no
  story stops the program with "Story index <index> not found.".
 */
module Selection {
  import opened Wrappers
  import opened Text
  import opened Message

  // ---------------------------------------------------------------------------
  // Tokens

  /** The piece without the white space a preceding comma's pattern
      consumes. */
  function TrimFront(p: string, afterComma: bool): (q: string)
    ensures |q| <= |p|
    ensures forall k :: 0 <= k < |q| ==> q[k] == p[|p| - |q| + k]
    ensures forall j :: 0 <= j < |p| - |q| ==> IsSpace(p[j])
    ensures !afterComma ==> q == p
    ensures afterComma && q != [] ==> !IsSpace(q[0])
  {
    if afterComma then DropLeading(p, Space) else p
  }

  /** The piece without the white space a following comma's pattern
      consumes. */
  function TrimBack(q: string, beforeComma: bool): (r: string)
    ensures |r| <= |q|
    ensures forall k :: 0 <= k < |r| ==> r[k] == q[k]
    ensures forall j :: |r| <= j < |q| ==> IsSpace(q[j])
    ensures !beforeComma ==> r == q
    ensures beforeComma && r != [] ==> !IsSpace(r[|r| - 1])
  {
    if beforeComma then DropTrailing(q, Space) else q
  }

  /** A piece between commas with the white space next to a comma removed:
      the separator pattern consumes all white space around each comma. */
  function TrimAtCommas(p: string, afterComma: bool, beforeComma: bool): string
  {
    TrimBack(TrimFront(p, afterComma), beforeComma)
  }

  /** Lemma helper: a slice of a comma-free string is comma-free. */
  lemma SliceWithoutComma(p: string, q: string, start: nat)
    requires start + |q| <= |p|
    requires forall k :: 0 <= k < |q| ==> q[k] == p[start + k]
    requires ',' !in p
    ensures ',' !in q
  {
    forall k | 0 <= k < |q| ensures q[k] != ',' {
      assert p[start + k] in p;
    }
  }

  /** Lemma helper: trimming the front keeps a piece free of commas. */
  lemma TrimFrontWithoutComma(p: string, afterComma: bool)
    requires ',' !in p
    ensures ',' !in TrimFront(p, afterComma)
  {
    var q := TrimFront(p, afterComma);
    SliceWithoutComma(p, q, |p| - |q|);
  }

  /** Lemma helper: trimming the back keeps a piece free of commas. */
  lemma TrimBackWithoutComma(q: string, beforeComma: bool)
    requires ',' !in q
    ensures ',' !in TrimBack(q, beforeComma)
  {
    SliceWithoutComma(q, TrimBack(q, beforeComma), 0);
  }

  /** Lemma helper: trimming keeps a piece free of commas. */
  lemma TrimWithoutComma(p: string, afterComma: bool, beforeComma: bool)
    requires ',' !in p
    ensures ',' !in TrimAtCommas(p, afterComma, beforeComma)
  {
    TrimFrontWithoutComma(p, afterComma);
    TrimBackWithoutComma(TrimFront(p, afterComma), beforeComma);
  }

  /** What Ruby's `split` on a comma with any white space around it gives
      for `line`, before empty strings are dropped. */
  function Pieces(line: string): (ps: seq<string>)
    ensures |ps| >= 1
    ensures forall i :: 0 <= i < |ps| ==> ',' !in ps[i]
  {
    var raw := SplitOn(line, ',');
    var ps := seq(|raw|, i requires 0 <= i < |raw| => TrimAtCommas(raw[i], i > 0, i < |raw| - 1));
    assert forall i :: 0 <= i < |ps| ==> ',' !in ps[i] by {
      forall i | 0 <= i < |ps| ensures ',' !in ps[i] {
        TrimWithoutComma(raw[i], i > 0, i < |raw| - 1);
      }
    }
    ps
  }

  /** The index tokens of an input line, in the order typed: the pieces
      above with the empty ones rejected. */
  function Tokens(line: string): (tokens: seq<string>)
    ensures forall i :: 0 <= i < |tokens| ==> tokens[i] != "" && ',' !in tokens[i]
  {
    var ps := Pieces(line);
    var tokens := RejectEmpty(ps);
    assert forall i :: 0 <= i < |tokens| ==> tokens[i] in ps;
    tokens
  }

  /** A string with no white space at either end. */
  predicate Trimmed(t: string) {
    t == [] || (!IsSpace(t[0]) && !IsSpace(t[|t| - 1]))
  }

  /** Lemma helper: trimming a trimmed piece leaves it as it is. */
  lemma TrimTrimmed(t: string, afterComma: bool, beforeComma: bool)
    requires Trimmed(t)
    ensures TrimAtCommas(t, afterComma, beforeComma) == t
  {
    assert DropLeading(t, Space) == t;
    assert DropTrailing(t, Space) == t;
  }

  /** Lemma helper: the pieces of comma-joined trimmed strings. */
  lemma PiecesOfJoin(tokens: seq<string>)
    requires tokens != []
    requires forall i :: 0 <= i < |tokens| ==> ',' !in tokens[i] && Trimmed(tokens[i])
    ensures Pieces(Join(tokens, ",")) == tokens
  {
    SplitOnJoin(tokens, ',');
    var ps := Pieces(Join(tokens, ","));
    forall i | 0 <= i < |tokens| ensures ps[i] == tokens[i] {
      TrimTrimmed(tokens[i], i > 0, i < |tokens| - 1);
    }
  }

  /** Typing non-empty, comma-free, trimmed tokens separated by commas gives
      back those tokens, in order and with repetitions. */
  lemma TokensOfJoin(tokens: seq<string>)
    requires tokens != []
    requires forall i :: 0 <= i < |tokens| ==> tokens[i] != "" && ',' !in tokens[i] && Trimmed(tokens[i])
    ensures Tokens(Join(tokens, ",")) == tokens
  {
    PiecesOfJoin(tokens);
    RejectNonEmpty(tokens);
  }

  /** A run of white space, possibly empty. */
  predicate AllSpace(s: string) {
    forall i :: 0 <= i < |s| ==> IsSpace(s[i])
  }

  /** The separator pattern takes the white space `b` before and `a` after
      a trimmed piece `c` when a comma is on that side; a white-space-only
      piece between two commas (`c` empty) disappears completely. */
  lemma TrimSpaced(b: string, c: string, a: string, afterComma: bool, beforeComma: bool)
    requires AllSpace(b) && AllSpace(a) && Trimmed(c)
    requires b == [] || afterComma
    requires a == [] || beforeComma
    ensures TrimAtCommas(b + c + a, afterComma, beforeComma) == c
  {
    var q := TrimFront(b + c + a, afterComma);
    if c == [] {
      assert b + c + a == b + a;
      if afterComma {
        assert q == [] by {
          assert b + a == (b + a) + [];
          DropLeadingPrefix(b + a, [], Space);
        }
      } else {
        assert q == a;
        assert TrimBack(a, beforeComma) == [] by {
          if beforeComma {
            assert [] + a == a;
            DropTrailingSuffix([], a, Space);
          }
        }
      }
    } else {
      assert q == c + a by {
        assert b + c + a == b + (c + a);
        if afterComma {
          DropLeadingPrefix(b, c + a, Space);
        }
      }
      if beforeComma {
        DropTrailingSuffix(c, a, Space);
      } else {
        assert c + a == c;
      }
    }
  }

  /** Each trimmed core with its white space before and after it. */
  function Spaced(before: seq<string>, cores: seq<string>, after: seq<string>): (ps: seq<string>)
    requires |before| == |cores| == |after|
    ensures |ps| == |cores|
    ensures forall i :: 0 <= i < |ps| ==> ps[i] == before[i] + cores[i] + after[i]
  {
    seq(|cores|, i requires 0 <= i < |cores| => before[i] + cores[i] + after[i])
  }

  /** Typing comma-free trimmed cores separated by commas with any white
      space around each comma, including cores that are empty so that only
      white space stands between two commas, gives back the non-empty cores,
      in order and with repetitions; white space at the two ends of the line
      is not next to a comma and stays. */
  lemma TokensOfSpacedJoin(before: seq<string>, cores: seq<string>, after: seq<string>)
    requires cores != [] && |before| == |cores| == |after|
    requires before[0] == "" && after[|after| - 1] == ""
    requires forall i :: 0 <= i < |cores| ==> ',' !in cores[i] && Trimmed(cores[i])
    requires forall i :: 0 <= i < |cores| ==> AllSpace(before[i]) && AllSpace(after[i])
    ensures Tokens(Join(Spaced(before, cores, after), ",")) == RejectEmpty(cores)
  {
    PiecesOfSpacedJoin(before, cores, after);
  }

  /** Lemma helper: the pieces of such a line are the cores. */
  lemma PiecesOfSpacedJoin(before: seq<string>, cores: seq<string>, after: seq<string>)
    requires cores != [] && |before| == |cores| == |after|
    requires before[0] == "" && after[|after| - 1] == ""
    requires forall i :: 0 <= i < |cores| ==> ',' !in cores[i] && Trimmed(cores[i])
    requires forall i :: 0 <= i < |cores| ==> AllSpace(before[i]) && AllSpace(after[i])
    ensures Pieces(Join(Spaced(before, cores, after), ",")) == cores
  {
    var ps := Spaced(before, cores, after);
    assert SplitOn(Join(ps, ","), ',') == ps by {
      forall i | 0 <= i < |ps| ensures ',' !in ps[i] {
        SpacedWithoutComma(before[i], cores[i], after[i]);
      }
      SplitOnJoin(ps, ',');
    }
    var pieces := Pieces(Join(ps, ","));
    forall i | 0 <= i < |cores| ensures pieces[i] == cores[i] {
      TrimSpaced(before[i], cores[i], after[i], i > 0, i < |cores| - 1);
    }
  }

  /** Lemma helper: white space around a comma-free core adds no comma. */
  lemma SpacedWithoutComma(b: string, c: string, a: string)
    requires AllSpace(b) && AllSpace(a) && ',' !in c
    ensures ',' !in b + c + a
  {
    assert ',' !in b && ',' !in a;
  }

  lemma {:induction false} RejectNonEmpty(xs: seq<string>)
    requires forall i :: 0 <= i < |xs| ==> xs[i] != ""
    ensures RejectEmpty(xs) == xs
  {
    if xs != [] {
      RejectNonEmpty(xs[1..]);
      assert [xs[0]] + xs[1..] == xs;
    }
  }

  /** A line without a comma is one token, untrimmed, unless it is empty;
      in particular the empty line selects nothing. */
  lemma TokensWithoutComma(line: string)
    requires ',' !in line
    ensures Tokens(line) == if line == "" then [] else [line]
  {
    SplitOnWithout(line, ',');
    assert Pieces(line) == [line];
  }

  // ---------------------------------------------------------------------------
  // Resolving an index

  /** The position Ruby's `array[i]` reads in an array of length `n`: `i`
      itself, or `n + i` for a negative `i`; `nil` when that is outside. */
  function RubyIndex(n: nat, i: int): (r: Option<nat>)
    ensures r.Some? <==> -(n as int) <= i < n
    ensures r.Some? ==> r.value < n && (r.value == i || r.value == n + i)
  {
    if 0 <= i < n then Some(i)
    else if -(n as int) <= i < 0 then Some(n + i)
    else None
  }

  /** The position of the story the typed index `k` selects among `n`
      listed ones: `all_stories[k - 1]`. */
  function Resolve(n: nat, k: int): (r: Option<nat>)
    ensures r.Some? <==> -(n as int) < k <= n
    ensures 1 <= k <= n ==> r == Some(k - 1)
    ensures -(n as int) < k <= 0 ==> r == Some(n + k - 1)
    ensures k == 0 && n > 0 ==> r == Some(n - 1)
  {
    RubyIndex(n, k - 1)
  }

  /** The index `to_i` reads from each token, in order. */
  function Indices(tokens: seq<string>): (ks: seq<int>)
    ensures |ks| == |tokens|
  {
    seq(|tokens|, i requires 0 <= i < |tokens| => ToI(tokens[i]))
  }

  /** The `i`-th index is what `to_i` reads from the `i`-th token. */
  lemma IndicesAt(tokens: seq<string>, i: nat)
    requires i < |tokens|
    ensures Indices(tokens)[i] == ToI(tokens[i])
  {
  }

  /** The message `quit` prints for an index that selects no story. */
  function NotFound(k: int): string {
    "Story index " + ShowInt(k) + " not found."
  }

  /** Typing 9 in a shorter list names the index as Ruby writes it. */
  lemma NotFoundNine()
    ensures NotFound(9) == "Story index 9 not found."
  {
    ShowIntNonNegative(9);
  }

  /** The stories the indices select, in order; or the message for the first
      index that selects nothing. */
  function SelectIndices(listed: seq<Story>, ks: seq<int>): (r: Result<seq<Story>, string>)
    ensures r.Ok? <==> forall i :: 0 <= i < |ks| ==> Resolve(|listed|, ks[i]).Some?
    ensures r.Ok? ==> |r.value| == |ks|
    ensures r.Ok? ==> forall i :: 0 <= i < |ks| ==> r.value[i] == listed[Resolve(|listed|, ks[i]).value]
  {
    if ks == [] then Ok([])
    else
      match Resolve(|listed|, ks[0])
      case None => Err(NotFound(ks[0]))
      case Some(p) =>
        match SelectIndices(listed, ks[1..])
        case Err(e) => Err(e)
        case Ok(rest) => Ok([listed[p]] + rest)
  }

  /** A failed selection reports the first index that selects no story. */
  lemma {:induction false} SelectFailsAtFirstMiss(listed: seq<Story>, ks: seq<int>)
    requires SelectIndices(listed, ks).Err?
    ensures exists j ::
              && 0 <= j < |ks|
              && Resolve(|listed|, ks[j]).None?
              && (forall i :: 0 <= i < j ==> Resolve(|listed|, ks[i]).Some?)
              && SelectIndices(listed, ks).error == NotFound(ks[j])
  {
    if Resolve(|listed|, ks[0]).Some? {
      var tail := ks[1..];
      SelectFailsAtFirstMiss(listed, tail);
      var j :| && 0 <= j < |tail|
               && Resolve(|listed|, tail[j]).None?
               && (forall i :: 0 <= i < j ==> Resolve(|listed|, tail[i]).Some?)
               && SelectIndices(listed, tail).error == NotFound(tail[j]);
      assert ks[j + 1] == tail[j];
      forall i | 0 <= i < j + 1 ensures Resolve(|listed|, ks[i]).Some? {
        if i > 0 {
          assert ks[i] == tail[i - 1];
        }
      }
    }
  }

  /** The selection an input line makes from the listed stories: one story
      per token, the one its `to_i` index finds, or a failure when some
      token's index finds none. */
  function Select(listed: seq<Story>, line: string): Result<seq<Story>, string>
  {
    SelectIndices(listed, Indices(Tokens(line)))
  }

  // ---------------------------------------------------------------------------
  // Properties of the selection

  /** An empty line selects no story and does not stop the program. */
  lemma EmptyLineSelectsNothing(listed: seq<Story>)
    ensures Select(listed, "") == Ok([])
  {
    TokensWithoutComma("");
    assert Indices([]) == [];
  }

  /** Lemma helper: a line holding one token selects by its index alone. */
  lemma SelectOne(listed: seq<Story>, token: string)
    requires token != "" && ',' !in token
    ensures Resolve(|listed|, ToI(token)).None? ==> Select(listed, token) == Err(NotFound(ToI(token)))
    ensures Resolve(|listed|, ToI(token)).Some? ==>
              Select(listed, token) == Ok([listed[Resolve(|listed|, ToI(token)).value]])
  {
    TokensWithoutComma(token);
    var ks := Indices([token]);
    assert ks == [ToI(token)];
    assert ks[1..] == [];
    assert SelectIndices(listed, ks[1..]) == Ok([]);
    if Resolve(|listed|, ks[0]).Some? {
      var p := Resolve(|listed|, ks[0]).value;
      assert SelectIndices(listed, ks) == Ok([listed[p]] + []);
      assert [listed[p]] + [] == [listed[p]];
    }
  }

  /** A token that reads as index 0 selects the last listed story: "0"
      itself, and any token without digits, white space alone included. */
  lemma ZeroIndexSelectsLast(listed: seq<Story>, token: string)
    requires listed != [] && token != "" && ',' !in token
    requires ToI(token) == 0 || forall i :: 0 <= i < |token| ==> !IsDigit(token[i])
    ensures Select(listed, token) == Ok([listed[|listed| - 1]])
  {
    assert ToI(token) == 0 by {
      if ToI(token) != 0 {
        ToIWithoutDigits(token);
      }
    }
    ZeroSelectsLast(listed, token);
  }

  /** Lemma helper: a token read as 0 selects the last story. */
  lemma ZeroSelectsLast(listed: seq<Story>, token: string)
    requires listed != [] && token != "" && ',' !in token
    requires ToI(token) == 0
    ensures Select(listed, token) == Ok([listed[|listed| - 1]])
  {
    SelectOneAt(listed, token, |listed| - 1);
  }

  /** Lemma helper: a token whose index finds position `p` selects the
      story there. */
  lemma SelectOneAt(listed: seq<Story>, token: string, p: nat)
    requires token != "" && ',' !in token
    requires Resolve(|listed|, ToI(token)) == Some(p)
    ensures p < |listed| && Select(listed, token) == Ok([listed[p]])
  {
    SelectOne(listed, token);
  }

  /** An index outside `-n < k <= n`, typed alone, stops the program with a
      message that names it. Ruby raises RangeError instead once `k - 1` no
      longer fits a 64-bit `long`; the model has no such bound. */
  lemma OutOfRangeQuits(listed: seq<Story>, k: int)
    requires k > |listed| || k <= -|listed|
    ensures Select(listed, ShowInt(k)) == Err(NotFound(k))
  {
    var t := ShowInt(k);
    assert ',' !in t by {
      if k < 0 {
        assert t == "-" + ShowNat(-k);
        assert forall i :: 0 <= i < |t| ==> t[i] == '-' || IsDigit(t[i]);
      }
    }
    ToIShowInt(k);
    SelectOne(listed, t);
  }

  /** The numerals `1`..`n` the listing shows, one per chosen position. */
  function Numerals(positions: seq<nat>): seq<string>
  {
    seq(|positions|, i requires 0 <= i < |positions| => ShowNat(positions[i] + 1))
  }

  function Pick(listed: seq<Story>, positions: seq<nat>): seq<Story>
    requires forall i :: 0 <= i < |positions| ==> positions[i] < |listed|
  {
    seq(|positions|, i requires 0 <= i < |positions| => listed[positions[i]])
  }

  /** Lemma helper: a numeral is a trimmed, comma-free token. */
  lemma NumeralToken(n: nat)
    ensures ShowNat(n) != "" && ',' !in ShowNat(n) && Trimmed(ShowNat(n))
  {
    var t := ShowNat(n);
    assert IsDigit(t[0]) && IsDigit(t[|t| - 1]);
  }

  /** Lemma helper: indices that each resolve to a known position select
      the stories at those positions. */
  lemma SelectAtPositions(listed: seq<Story>, ks: seq<int>, positions: seq<nat>)
    requires |ks| == |positions|
    requires forall i :: 0 <= i < |positions| ==> positions[i] < |listed|
    requires forall i :: 0 <= i < |ks| ==> Resolve(|listed|, ks[i]) == Some(positions[i])
    ensures SelectIndices(listed, ks) == Ok(Pick(listed, positions))
  {
    var r := SelectIndices(listed, ks);
    assert r.Ok?;
    var picked := Pick(listed, positions);
    assert |r.value| == |picked|;
    forall i | 0 <= i < |picked| ensures r.value[i] == picked[i] {
      assert r.value[i] == listed[Resolve(|listed|, ks[i]).value];
    }
    assert r.value == picked;
  }

  /** Lemma helper: `to_i` reads each numeral back as its number. */
  lemma NumeralIndex(positions: seq<nat>, i: nat)
    requires i < |positions|
    ensures |Indices(Numerals(positions))| == |positions|
    ensures Indices(Numerals(positions))[i] == positions[i] + 1
  {
    var tokens := Numerals(positions);
    assert tokens[i] == ShowNat(positions[i] + 1);
    ToIShowNat(positions[i] + 1);
  }

  /** Lemma helper: the numerals select the stories at their positions. */
  lemma SelectNumerals(listed: seq<Story>, positions: seq<nat>)
    requires forall i :: 0 <= i < |positions| ==> positions[i] < |listed|
    ensures SelectIndices(listed, Indices(Numerals(positions))) == Ok(Pick(listed, positions))
  {
    var ks := Indices(Numerals(positions));
    forall i | 0 <= i < |ks| ensures Resolve(|listed|, ks[i]) == Some(positions[i]) {
      NumeralIndex(positions, i);
    }
    SelectAtPositions(listed, ks, positions);
  }

  /** Typing the numbers shown next to stories, separated by commas, selects
      exactly those stories in the order typed, repetitions kept. */
  lemma SelectShownNumbers(listed: seq<Story>, positions: seq<nat>)
    requires positions != []
    requires forall i :: 0 <= i < |positions| ==> positions[i] < |listed|
    ensures Select(listed, Join(Numerals(positions), ",")) == Ok(Pick(listed, positions))
  {
    var tokens := Numerals(positions);
    forall i | 0 <= i < |tokens|
      ensures tokens[i] != "" && ',' !in tokens[i] && Trimmed(tokens[i])
    {
      NumeralToken(positions[i] + 1);
    }
    TokensOfJoin(tokens);
    SelectNumerals(listed, positions);
  }
}
