/**
  String operations of Ruby's core library, with the meaning lib/git_storyid.rb
  relies on: `String#strip`, `String#rjust`, `Array#join`, splitting on a
  separator, `Integer#to_s` and `String#to_i`.  Strings are sequences of
  characters; no encoding is involved.
 */
module Text {

  /** The characters of Ruby's `\s` regular-expression class; `String#to_i`
      skips the same characters in front of a number. */
  predicate IsSpace(c: char) {
    c == ' ' || c == '\t' || c == '\n' || c == '\U{B}' || c == '\U{C}' || c == '\r'
  }

  /** The characters `String#strip` removes: the white space above and NUL. */
  predicate IsStripSpace(c: char) {
    IsSpace(c) || c == '\0'
  }

  predicate IsDigit(c: char) {
    '0' <= c <= '9'
  }

  /** The classes of characters that are trimmed off the ends of a string:
      Ruby's `\s`, what `String#strip` removes, and the pad `rjust` inserts. */
  datatype Blank = Space | StripSpace | Pad

  predicate IsBlank(c: char, b: Blank) {
    match b
    case Space => IsSpace(c)
    case StripSpace => IsStripSpace(c)
    case Pad => c == ' '
  }

  // ---------------------------------------------------------------------------
  // Trimming

  /** `s` without its run of leading blanks of class `b`. */
  function DropLeading(s: string, b: Blank): (r: string)
    ensures |r| <= |s| && r == s[|s| - |r|..]
    ensures forall i :: 0 <= i < |s| - |r| ==> IsBlank(s[i], b)
    ensures r == [] || !IsBlank(r[0], b)
  {
    if s != [] && IsBlank(s[0], b) then DropLeading(s[1..], b) else s
  }

  /** `s` without its run of trailing blanks of class `b`. */
  function DropTrailing(s: string, b: Blank): (r: string)
    ensures |r| <= |s| && r == s[..|r|]
    ensures forall i :: |r| <= i < |s| ==> IsBlank(s[i], b)
    ensures r == [] || !IsBlank(r[|r| - 1], b)
  {
    if s != [] && IsBlank(s[|s| - 1], b) then DropTrailing(s[..|s| - 1], b) else s
  }

  /** How many characters `String#strip` removes from the front of `s`. */
  function StripStart(s: string): (i: nat)
    ensures i <= |s|
    ensures forall j :: 0 <= j < i ==> IsStripSpace(s[j])
  {
    |s| - |DropLeading(s, StripSpace)|
  }

  /** Ruby's `String#strip`: the part of `s` from `StripStart(s)` on, less
      the white space at its end; it neither starts nor ends with white
      space. */
  function Strip(s: string): (r: string)
    ensures r == [] || (!IsStripSpace(r[0]) && !IsStripSpace(r[|r| - 1]))
    ensures StripStart(s) + |r| <= |s|
    ensures r == s[StripStart(s)..StripStart(s) + |r|]
    ensures forall j :: StripStart(s) + |r| <= j < |s| ==> IsStripSpace(s[j])
  {
    var t := DropLeading(s, StripSpace);
    assert StripStart(s) == |s| - |t|;
    var r := DropTrailing(t, StripSpace);
    StripTail(s, t, r);
    r
  }

  /** Lemma helper: where the stripped part of `s` ends. */
  lemma StripTail(s: string, t: string, r: string)
    requires |t| <= |s| && t == s[|s| - |t|..]
    requires |r| <= |t| && r == t[..|r|]
    requires forall j :: |r| <= j < |t| ==> IsBlank(t[j], StripSpace)
    ensures r == s[|s| - |t|..|s| - |t| + |r|]
    ensures forall j :: |s| - |t| + |r| <= j < |s| ==> IsStripSpace(s[j])
  {
    var i := |s| - |t|;
    forall k | 0 <= k < |r| ensures r[k] == s[i + k] {
      assert r[k] == t[k];
    }
    forall j | i + |r| <= j < |s| ensures IsStripSpace(s[j]) {
      assert s[j] == t[j - i];
      assert IsBlank(t[j - i], StripSpace);
    }
  }

  /** Every character of the strip of `s` comes from `s`. */
  lemma StripWithin(s: string)
    ensures forall c :: c in Strip(s) ==> c in s
  {
    var r := Strip(s);
    var i := StripStart(s);
    forall c | c in r ensures c in s {
      var k :| 0 <= k < |r| && r[k] == c;
      assert s[i + k] == c;
    }
  }

  /** A string without white space at either end is its own strip. */
  lemma StripTrimmed(s: string)
    requires s == [] || (!IsStripSpace(s[0]) && !IsStripSpace(s[|s| - 1]))
    ensures Strip(s) == s
  {
    assert DropLeading(s, StripSpace) == s;
    assert DropTrailing(s, StripSpace) == s;
  }

  /** Stripping a stripped string changes nothing. */
  lemma StripIdempotent(s: string)
    ensures Strip(Strip(s)) == Strip(s)
  {
    StripTrimmed(Strip(s));
  }

  // ---------------------------------------------------------------------------
  // Padding

  /** Ruby's `String#rjust(width)` with the default pad: `s` preceded by as
      many spaces as make it `width` long, or `s` itself when it is at least
      that long already. */
  function RJust(s: string, width: nat): (r: string)
    ensures |r| == if |s| < width then width else |s|
    ensures r[|r| - |s|..] == s
    ensures forall i :: 0 <= i < |r| - |s| ==> r[i] == ' '
  {
    if |s| < width then seq(width - |s|, _ => ' ') + s else s
  }

  // ---------------------------------------------------------------------------
  // Joining and splitting

  /** Ruby's `Array#join(sep)`. */
  function Join(parts: seq<string>, sep: string): string
  {
    if |parts| == 0 then ""
    else if |parts| == 1 then parts[0]
    else parts[0] + sep + Join(parts[1..], sep)
  }

  /** Lemma helper: dropping a leading run that ends where `s` starts. */
  lemma {:induction false} DropLeadingPrefix(pre: string, s: string, b: Blank)
    requires forall i :: 0 <= i < |pre| ==> IsBlank(pre[i], b)
    requires s == [] || !IsBlank(s[0], b)
    ensures DropLeading(pre + s, b) == s
  {
    if pre != [] {
      assert (pre + s)[1..] == pre[1..] + s;
      DropLeadingPrefix(pre[1..], s, b);
    }
  }

  /** Lemma helper: dropping a trailing run that starts where `s` ends. */
  lemma {:induction false} DropTrailingSuffix(s: string, suf: string, b: Blank)
    requires forall i :: 0 <= i < |suf| ==> IsBlank(suf[i], b)
    requires s == [] || !IsBlank(s[|s| - 1], b)
    ensures DropTrailing(s + suf, b) == s
  {
    if suf == [] {
      assert s + suf == s;
    } else {
      var init := suf[..|suf| - 1];
      assert (s + suf)[..|s + suf| - 1] == s + init;
      DropTrailingSuffix(s, init, b);
    }
  }

  /** Ruby's `reject { |string| string == "" }`: the non-empty strings, in order. */
  function RejectEmpty(xs: seq<string>): (r: seq<string>)
    ensures |r| <= |xs|
    ensures forall x :: x in r <==> x in xs && x != ""
  {
    if xs == [] then [] else (if xs[0] == "" then [] else [xs[0]]) + RejectEmpty(xs[1..])
  }

  /** `reject` keeps order and repetitions: rejecting from two parts one
      after the other is rejecting from their concatenation. */
  lemma {:induction false} RejectEmptyConcat(xs: seq<string>, ys: seq<string>)
    ensures RejectEmpty(xs + ys) == RejectEmpty(xs) + RejectEmpty(ys)
  {
    if xs != [] {
      assert (xs + ys)[0] == xs[0];
      assert (xs + ys)[1..] == xs[1..] + ys;
      RejectEmptyConcat(xs[1..], ys);
    } else {
      assert xs + ys == ys;
    }
  }

  /** Joining one more part adds the separator and that part at the end. */
  lemma {:induction false} JoinSnoc(parts: seq<string>, last: string, sep: string)
    requires parts != []
    ensures Join(parts + [last], sep) == Join(parts, sep) + sep + last
  {
    if |parts| == 1 {
      assert (parts + [last])[1..] == [last];
    } else {
      assert (parts + [last])[1..] == parts[1..] + [last];
      JoinSnoc(parts[1..], last, sep);
    }
  }

  /** The pieces of `s` between occurrences of `c`, empty pieces included:
      one more piece than `s` has occurrences of `c`. */
  function SplitOn(s: string, c: char): (r: seq<string>)
    ensures |r| >= 1
    ensures forall i :: 0 <= i < |r| ==> c !in r[i]
  {
    if s == [] then [""]
    else
      var rest := SplitOn(s[1..], c);
      if s[0] == c then [""] + rest else [[s[0]] + rest[0]] + rest[1..]
  }

  /** Joining the pieces with the separator gives back the string. */
  lemma {:induction false} JoinSplitOn(s: string, c: char)
    ensures Join(SplitOn(s, c), [c]) == s
  {
    if s != [] {
      var rest := SplitOn(s[1..], c);
      JoinSplitOn(s[1..], c);
      if s[0] == c {
        assert ([""] + rest)[1..] == rest;
      } else {
        var r := [[s[0]] + rest[0]] + rest[1..];
        if |rest| > 1 {
          assert r[1..] == rest[1..];
        }
      }
    }
  }

  lemma {:induction false} SplitOnWithout(p: string, c: char)
    requires c !in p
    ensures SplitOn(p, c) == [p]
  {
    if p != [] {
      SplitOnWithout(p[1..], c);
      assert [p[0]] + p[1..] == p;
    }
  }

  lemma {:induction false} SplitOnCons(p: string, t: string, c: char)
    requires c !in p
    ensures SplitOn(p + [c] + t, c) == [p] + SplitOn(t, c)
  {
    if p == [] {
      assert (p + [c] + t)[1..] == t;
    } else {
      assert (p + [c] + t)[1..] == p[1..] + [c] + t;
      SplitOnCons(p[1..], t, c);
      assert [p[0]] + p[1..] == p;
    }
  }

  /** Splitting a join of pieces that do not contain the separator gives back
      the pieces. */
  lemma {:induction false} SplitOnJoin(parts: seq<string>, c: char)
    requires parts != []
    requires forall i :: 0 <= i < |parts| ==> c !in parts[i]
    ensures SplitOn(Join(parts, [c]), c) == parts
  {
    if |parts| == 1 {
      SplitOnWithout(parts[0], c);
    } else {
      SplitOnJoin(parts[1..], c);
      SplitOnCons(parts[0], Join(parts[1..], [c]), c);
      assert [parts[0]] + parts[1..] == parts;
    }
  }

  // ---------------------------------------------------------------------------
  // Decimal numerals

  function DigitChar(d: nat): (c: char)
    requires d < 10
    ensures IsDigit(c) && c as int - '0' as int == d
  {
    (('0' as int) + d) as char
  }

  function DigitValue(c: char): (d: nat)
    requires IsDigit(c)
    ensures d < 10
  {
    c as int - '0' as int
  }

  /** Ruby's `Integer#to_s` on a non-negative number. */
  function ShowNat(n: nat): (r: string)
    ensures r != []
    ensures forall i :: 0 <= i < |r| ==> IsDigit(r[i])
    ensures r[0] == '0' ==> n == 0 && r == "0"
  {
    if n < 10 then [DigitChar(n)] else ShowNat(n / 10) + [DigitChar(n % 10)]
  }

  /** Ruby's `Integer#to_s`. */
  function ShowInt(k: int): (r: string)
    ensures r != []
    ensures k < 0 <==> r[0] == '-'
    ensures k < 0 ==> r[1..] == ShowNat(-k)
  {
    if k < 0 then "-" + ShowNat(-k) else ShowNat(k)
  }

  /** A non-negative number is written as its digits alone, with no sign. */
  lemma ShowIntNonNegative(k: int)
    requires k >= 0
    ensures ShowInt(k) == ShowNat(k)
  {
  }

  /** The number a string of decimal digits denotes. */
  function DigitsValue(d: string): nat
    requires forall i :: 0 <= i < |d| ==> IsDigit(d[i])
  {
    if d == [] then 0 else DigitsValue(d[..|d| - 1]) * 10 + DigitValue(d[|d| - 1])
  }

  /** The longest prefix of `s` made of decimal digits. */
  function DigitPrefix(s: string): (r: string)
    ensures |r| <= |s| && r == s[..|r|]
    ensures forall i :: 0 <= i < |r| ==> IsDigit(r[i])
    ensures |r| == |s| || !IsDigit(s[|r|])
  {
    if s != [] && IsDigit(s[0]) then [s[0]] + DigitPrefix(s[1..]) else []
  }

  /** Ruby's `String#to_i` on white space, a sign and decimal digits: white
      space is skipped, then an optional sign and the longest run of decimal
      digits give the number; no digits give 0. Underscores between digits
      and a `0d` prefix, which Ruby also accepts, are not read. */
  function ToI(s: string): int
  {
    var t := DropLeading(s, Space);
    if t != [] && (t[0] == '-' || t[0] == '+') then
      var v: int := DigitsValue(DigitPrefix(t[1..]));
      if t[0] == '-' then -v else v
    else
      DigitsValue(DigitPrefix(t))
  }

  /** The digits `Integer#to_s` writes denote the number. */
  lemma {:induction false} ShowNatValue(n: nat)
    ensures DigitsValue(ShowNat(n)) == n
  {
    if n >= 10 {
      var s := ShowNat(n);
      assert s[..|s| - 1] == ShowNat(n / 10);
      ShowNatValue(n / 10);
    }
  }

  /** A run of digits followed by a non-digit is exactly the digit prefix. */
  lemma {:induction false} DigitPrefixOf(d: string, t: string)
    requires forall i :: 0 <= i < |d| ==> IsDigit(d[i])
    requires t == [] || !IsDigit(t[0])
    ensures DigitPrefix(d + t) == d
  {
    if d != [] {
      assert (d + t)[1..] == d[1..] + t;
      DigitPrefixOf(d[1..], t);
    }
  }

  /** Lemma helper: `to_i` of a run of digits. */
  lemma ToIDigits(d: string)
    requires d != [] && forall i :: 0 <= i < |d| ==> IsDigit(d[i])
    ensures ToI(d) == DigitsValue(d)
  {
    assert IsDigit(d[0]);
    assert !IsSpace(d[0]) && d[0] != '-' && d[0] != '+';
    assert DropLeading(d, Space) == d;
    assert DigitPrefix(d) == d by {
      DigitPrefixOf(d, []);
      assert d + [] == d;
    }
  }

  /** Lemma helper: `to_i` of a minus sign and a run of digits. */
  lemma ToINegated(d: string)
    requires d != [] && forall i :: 0 <= i < |d| ==> IsDigit(d[i])
    ensures ToI("-" + d) == -(DigitsValue(d) as int)
  {
    var s := "-" + d;
    assert !IsSpace(s[0]);
    assert DropLeading(s, Space) == s;
    assert s[0] == '-' && s[1..] == d;
    assert DigitPrefix(d) == d by {
      DigitPrefixOf(d, []);
      assert d + [] == d;
    }
  }

  /** Lemma helper: `to_i` reads back a numeral. */
  lemma ToIShowNat(n: nat)
    ensures ToI(ShowNat(n)) == n
  {
    ToIDigits(ShowNat(n));
    ShowNatValue(n);
  }

  /** `to_i` reads back what `to_s` writes. */
  lemma ToIShowInt(k: int)
    ensures ToI(ShowInt(k)) == k
  {
    if k < 0 {
      assert ShowInt(k) == "-" + ShowNat(-k);
      ToINegated(ShowNat(-k));
      ShowNatValue(-k);
    } else {
      assert ShowInt(k) == ShowNat(k);
      ToIShowNat(k);
    }
  }

  /** A string with no digit in it, white space alone included, reads as 0. */
  lemma ToIWithoutDigits(s: string)
    requires forall i :: 0 <= i < |s| ==> !IsDigit(s[i])
    ensures ToI(s) == 0
  {
    var t := DropLeading(s, Space);
    assert t == s[|s| - |t|..];
    if t != [] {
      assert !IsDigit(t[0]);
      if |t| > 1 {
        assert !IsDigit(t[1..][0]);
      }
    }
  }

  /** White space in front of a string does not change what `to_i` reads:
      the first token of a line keeps the line's leading white space. */
  lemma ToILeadingSpace(w: string, s: string)
    requires forall i :: 0 <= i < |w| ==> IsSpace(w[i])
    requires s == [] || !IsSpace(s[0])
    ensures ToI(w + s) == ToI(s)
  {
    DropLeadingPrefix(w, s, Space);
    assert DropLeading(s, Space) == s;
  }
}
