/**
 * The handful of Python `str` operations the two components rely on, over
 * `string == seq<char>`: `split(sep)`, `sep.join`, `split()`, `strip()`,
 * `lstrip(chars)`, `lower()` and `str(n)` for a natural number.
 */
module Strings {

  /** True iff `p` is a prefix of `s` (Python's `s.startswith(p)`). */
  predicate StartsWith(s: string, p: string) {
    |p| <= |s| && s[..|p|] == p
  }

  /**
   * The characters Python's `str.isspace()` accepts, which are the separators
   * of `str.split()` and what `str.strip()` removes.
   */
  const Whitespace: set<char> := {
    ' ', '\t', '\n', '\r', '\U{000B}', '\U{000C}',
    '\U{001C}', '\U{001D}', '\U{001E}', '\U{001F}', '\U{0085}', '\U{00A0}',
    '\U{1680}', '\U{2000}', '\U{2001}', '\U{2002}', '\U{2003}', '\U{2004}',
    '\U{2005}', '\U{2006}', '\U{2007}', '\U{2008}', '\U{2009}', '\U{200A}',
    '\U{2028}', '\U{2029}', '\U{202F}', '\U{205F}', '\U{3000}'
  }

  /** The concatenation of a sequence of strings (Python's `"".join(xs)`). */
  function Concat(xs: seq<string>): string {
    if xs == [] then "" else xs[0] + Concat(xs[1..])
  }

  /** `s` with every character of `cs` taken out. */
  function Without(s: string, cs: set<char>): (r: string)
    ensures forall c :: c in r ==> c in s && c !in cs
  {
    if s == [] then "" else (if s[0] in cs then "" else [s[0]]) + Without(s[1..], cs)
  }

  /**
   * `s` cut at every character of `seps`. For `seps == {sep}` this is
   * Python's `s.split(sep)`: always at least one piece, empty pieces kept.
   */
  function SplitOn(s: string, seps: set<char>): (r: seq<string>)
    ensures |r| >= 1
    ensures forall i :: 0 <= i < |r| ==> forall c :: c in r[i] ==> c in s && c !in seps
  {
    if s == [] then [""]
    else
      var rest := SplitOn(s[1..], seps);
      if s[0] in seps then [""] + rest else [[s[0]] + rest[0]] + rest[1..]
  }

  /** Python's `sep.join(xs)` for a one-character separator. */
  function Join(xs: seq<string>, sep: char): string {
    if |xs| == 0 then "" else if |xs| == 1 then xs[0] else xs[0] + [sep] + Join(xs[1..], sep)
  }

  /** The pieces of `xs` that are not empty, in order. */
  function DropEmpty(xs: seq<string>): (r: seq<string>)
    ensures forall i :: 0 <= i < |r| ==> r[i] != "" && r[i] in xs
  {
    if xs == [] then [] else (if xs[0] == "" then [] else [xs[0]]) + DropEmpty(xs[1..])
  }

  /** Python's `s.split()`: the maximal runs of non-whitespace characters. */
  function Words(s: string): seq<string> {
    DropEmpty(SplitOn(s, Whitespace))
  }

  /** Python's `s.lstrip(chars)`: drops leading characters that belong to the SET `chars`. */
  function LStrip(s: string, chars: set<char>): (r: string)
    ensures |r| <= |s| && r == s[|s| - |r|..]
    ensures r != "" ==> r[0] !in chars
    ensures forall i :: 0 <= i < |s| - |r| ==> s[i] in chars
  {
    if s != [] && s[0] in chars then LStrip(s[1..], chars) else s
  }

  /** Python's `s.rstrip(chars)`. */
  function RStrip(s: string, chars: set<char>): (r: string)
    ensures |r| <= |s| && r == s[..|r|]
    ensures r != "" ==> r[|r| - 1] !in chars
    ensures forall i :: |r| <= i < |s| ==> s[i] in chars
  {
    if s != [] && s[|s| - 1] in chars then RStrip(s[..|s| - 1], chars) else s
  }

  /** Python's `s.strip()`: drops whitespace at both ends. */
  function Strip(s: string): (r: string)
    ensures r != "" ==> r[0] !in Whitespace && r[|r| - 1] !in Whitespace
    ensures r == "" <==> forall i :: 0 <= i < |s| ==> s[i] in Whitespace
  {
    StripEnds(s, Whitespace);
    LStrip(RStrip(s, Whitespace), Whitespace)
  }

  /** Stripping a character set from both ends leaves no such character at either end, and nothing exactly when all of `s` is in the set. */
  lemma StripEnds(s: string, cs: set<char>)
    ensures var r := LStrip(RStrip(s, cs), cs);
      (r != "" ==> r[0] !in cs && r[|r| - 1] !in cs) && (r == "" <==> forall i :: 0 <= i < |s| ==> s[i] in cs)
  {
    var t := RStrip(s, cs);
    var r := LStrip(t, cs);
    assert r != "" ==> r[|r| - 1] == t[|t| - 1];
    if r == "" {
      forall i | 0 <= i < |s|
        ensures s[i] in cs
      {
        if i < |t| {
          assert s[i] == t[i];
        }
      }
    } else {
      assert r[0] == t[|t| - |r|] == s[|t| - |r|];
    }
  }

  function LowerChar(c: char): char {
    if 'A' <= c <= 'Z' then (c as int + 32) as char else c
  }

  /**
   * Python's `s.lower()` on ASCII letters: no upper-case letter is left, each
   * becomes its lower-case partner, and every other character is kept.
   */
  function Lower(s: string): (r: string)
    ensures |r| == |s|
    ensures forall i :: 0 <= i < |r| ==> !('A' <= r[i] <= 'Z')
    ensures forall i :: 0 <= i < |s| && !('A' <= s[i] <= 'Z') ==> r[i] == s[i]
    ensures forall i :: 0 <= i < |s| && 'A' <= s[i] <= 'Z' ==> 'a' <= r[i] <= 'z' && r[i] as int - 'a' as int == s[i] as int - 'A' as int
  {
    seq(|s|, i requires 0 <= i < |s| => LowerChar(s[i]))
  }

  function DigitChar(d: nat): char
    requires d < 10
  {
    ('0' as int + d) as char
  }

  /** Python's `str(n)` (also `f"{n}"`) for a natural number: its decimal digits. */
  function NatToString(n: nat): (r: string)
    ensures |r| >= 1
    ensures n >= 10 ==> |r| >= 2
    ensures forall c :: c in r ==> '0' <= c <= '9'
  {
    if n < 10 then [DigitChar(n)] else NatToString(n / 10) + [DigitChar(n % 10)]
  }

  // ---------------------------------------------------------------------------
  // Lemmas

  lemma JoinCons(x: string, ys: seq<string>, sep: char)
    ensures Join([x] + ys, sep) == if ys == [] then x else x + [sep] + Join(ys, sep)
  {
    assert ([x] + ys)[1..] == ys;
  }

  /** Joining the pieces of a split gives back the string. */
  lemma {:induction false} JoinSplit(s: string, sep: char)
    ensures Join(SplitOn(s, {sep}), sep) == s
  {
    if s != [] {
      var rest := SplitOn(s[1..], {sep});
      JoinSplit(s[1..], sep);
      if s[0] == sep {
        JoinCons("", rest, sep);
      } else {
        JoinCons([s[0]] + rest[0], rest[1..], sep);
        JoinCons(rest[0], rest[1..], sep);
        assert [rest[0]] + rest[1..] == rest;
        assert s == [s[0]] + s[1..];
      }
    }
  }

  /** A piece without separators is glued to the first piece of what follows it. */
  lemma {:induction false} SplitOnSeparatorFree(a: string, t: string, seps: set<char>)
    requires forall c :: c in a ==> c !in seps
    ensures SplitOn(a + t, seps) == [a + SplitOn(t, seps)[0]] + SplitOn(t, seps)[1..]
  {
    if a != [] {
      assert (a + t)[1..] == a[1..] + t;
      assert (a + t)[0] == a[0];
      SplitOnSeparatorFree(a[1..], t, seps);
      assert [a[0]] + (a[1..] + SplitOn(t, seps)[0]) == a + SplitOn(t, seps)[0];
    } else {
      assert a + t == t;
      assert a + SplitOn(t, seps)[0] == SplitOn(t, seps)[0];
      assert [SplitOn(t, seps)[0]] + SplitOn(t, seps)[1..] == SplitOn(t, seps);
    }
  }

  /** Splitting a join of separator-free pieces gives back the pieces. */
  lemma {:induction false} SplitJoin(xs: seq<string>, sep: char)
    requires |xs| >= 1
    requires forall i :: 0 <= i < |xs| ==> sep !in xs[i]
    ensures SplitOn(Join(xs, sep), {sep}) == xs
  {
    assert forall c :: c in xs[0] ==> c !in {sep};
    if |xs| == 1 {
      SplitOnSeparatorFree(xs[0], "", {sep});
      assert xs[0] + "" == xs[0];
    } else {
      var t := Join(xs[1..], sep);
      assert SplitOn(t, {sep}) == xs[1..] by {
        assert forall i :: 0 <= i < |xs[1..]| ==> sep !in xs[1..][i] by {
          forall i | 0 <= i < |xs[1..]|
            ensures sep !in xs[1..][i]
          {
            assert xs[1..][i] == xs[i + 1];
          }
        }
        SplitJoin(xs[1..], sep);
      }
      assert SplitOn([sep] + t, {sep}) == [""] + xs[1..] by {
        assert ([sep] + t)[0] == sep && ([sep] + t)[1..] == t;
      }
      assert Join(xs, sep) == xs[0] + ([sep] + t);
      SplitOnSeparatorFree(xs[0], [sep] + t, {sep});
      assert xs[0] + "" == xs[0];
      assert [xs[0]] + xs[1..] == xs;
    }
  }

  /** Joining three pieces puts the separator between each two. */
  lemma JoinThree(a: string, b: string, c: string, sep: char)
    ensures Join([a, b, c], sep) == a + [sep] + b + [sep] + c
  {
    assert [a, b, c][1..] == [b, c] && [b, c][1..] == [c];
    assert Join([b, c], sep) == b + [sep] + c;
  }

  /** A join is empty exactly when it joins nothing or one empty piece. */
  lemma JoinEmpty(xs: seq<string>, sep: char)
    ensures Join(xs, sep) == "" <==> xs == [] || xs == [""]
  {
    if |xs| >= 2 {
      assert |Join(xs, sep)| >= 1;
    }
  }

  lemma ConcatAppend(xs: seq<string>, ys: seq<string>)
    ensures Concat(xs + ys) == Concat(xs) + Concat(ys)
  {
    if xs != [] {
      assert (xs + ys)[1..] == xs[1..] + ys;
      ConcatAppend(xs[1..], ys);
    } else {
      assert xs + ys == ys;
    }
  }

  /** Dropping empty pieces does not change what the pieces spell. */
  lemma {:induction false} ConcatDropEmpty(xs: seq<string>)
    ensures Concat(DropEmpty(xs)) == Concat(xs)
  {
    if xs != [] {
      ConcatDropEmpty(xs[1..]);
      ConcatAppend(if xs[0] == "" then [] else [xs[0]], DropEmpty(xs[1..]));
    }
  }

  /** Dropping empty pieces twice is dropping them once. */
  lemma {:induction false} DropEmptyIdempotent(xs: seq<string>)
    ensures DropEmpty(DropEmpty(xs)) == DropEmpty(xs)
  {
    if xs != [] {
      var head := if xs[0] == "" then [] else [xs[0]];
      DropEmptyIdempotent(xs[1..]);
      DropEmptyAppend(head, DropEmpty(xs[1..]));
    }
  }

  lemma DropEmptyAppend(xs: seq<string>, ys: seq<string>)
    ensures DropEmpty(xs + ys) == DropEmpty(xs) + DropEmpty(ys)
  {
    if xs != [] {
      assert (xs + ys)[1..] == xs[1..] + ys;
      DropEmptyAppend(xs[1..], ys);
    } else {
      assert xs + ys == ys;
    }
  }

  /** The pieces of a split spell the string without its separators. */
  lemma {:induction false} ConcatSplitOn(s: string, seps: set<char>)
    ensures Concat(SplitOn(s, seps)) == Without(s, seps)
  {
    if s != [] {
      var rest := SplitOn(s[1..], seps);
      ConcatSplitOn(s[1..], seps);
      if s[0] in seps {
        assert ([""] + rest)[1..] == rest;
      } else {
        assert ([[s[0]] + rest[0]] + rest[1..])[1..] == rest[1..];
        assert Concat(rest) == rest[0] + Concat(rest[1..]);
      }
    }
  }

  /** `str.split()` returns non-empty words free of whitespace that spell `s` without its whitespace. */
  lemma WordsSpec(s: string)
    ensures forall i :: 0 <= i < |Words(s)| ==>
      Words(s)[i] != "" && forall c :: c in Words(s)[i] ==> c in s && c !in Whitespace
    ensures Concat(Words(s)) == Without(s, Whitespace)
  {
    ConcatSplitOn(s, Whitespace);
    ConcatDropEmpty(SplitOn(s, Whitespace));
  }

  /** Lower-casing twice is lower-casing once. */
  lemma LowerIdempotent(s: string)
    ensures Lower(Lower(s)) == Lower(s)
  {
    assert forall i :: 0 <= i < |s| ==> Lower(Lower(s))[i] == Lower(s)[i];
  }

  /** A separator between two strings splits them apart. */
  lemma {:induction false} SplitAtSeparator(a: string, c: char, b: string, seps: set<char>)
    requires c in seps
    ensures SplitOn(a + [c] + b, seps) == SplitOn(a, seps) + SplitOn(b, seps)
  {
    if a == [] {
      SplitOnCons(c, b, seps);
      assert a + [c] + b == [c] + b;
    } else {
      var t := a[1..] + [c] + b;
      assert a + [c] + b == [a[0]] + t;
      assert a == [a[0]] + a[1..];
      SplitAtSeparator(a[1..], c, b, seps);
      SplitOnCons(a[0], t, seps);
      SplitOnCons(a[0], a[1..], seps);
      ConsPieces(a[0] in seps, [a[0]], SplitOn(t, seps), SplitOn(a[1..], seps), SplitOn(b, seps));
    }
  }

  /** One step of `SplitOn`: a separator starts a new piece, any other character joins the first one. */
  lemma SplitOnCons(x: char, t: string, seps: set<char>)
    ensures SplitOn([x] + t, seps) ==
      if x in seps then [""] + SplitOn(t, seps) else [[x] + SplitOn(t, seps)[0]] + SplitOn(t, seps)[1..]
  {
    assert ([x] + t)[0] == x && ([x] + t)[1..] == t;
  }

  /** Starting a new piece, or gluing a prefix to the first one, commutes with appending more pieces. */
  lemma ConsPieces(starts: bool, p: string, rest: seq<string>, xs: seq<string>, ys: seq<string>)
    requires |xs| >= 1 && rest == xs + ys
    ensures (if starts then [""] + rest else [p + rest[0]] + rest[1..])
         == (if starts then [""] + xs else [p + xs[0]] + xs[1..]) + ys
  {
    assert rest[0] == xs[0] && rest[1..] == xs[1..] + ys;
  }

  /** The words of two strings with a space between them are the words of each, in order. */
  lemma WordsAround(a: string, b: string)
    ensures Words(a + " " + b) == Words(a) + Words(b)
  {
    assert a + " " + b == a + [' '] + b;
    SplitAtSeparator(a, ' ', b, Whitespace);
    DropEmptyAppend(SplitOn(a, Whitespace), SplitOn(b, Whitespace));
  }

  /** Joining non-empty, whitespace-free words with spaces and splitting into words gives them back. */
  lemma WordsJoin(xs: seq<string>)
    requires forall i :: 0 <= i < |xs| ==> xs[i] != "" && forall c :: c in xs[i] ==> c !in Whitespace
    ensures Words(Join(xs, ' ')) == xs
  {
    PiecesJoin(xs, ' ', Whitespace);
  }

  /** Joining non-empty pieces free of `seps` at a character of `seps` and splitting again gives them back. */
  lemma {:induction false} PiecesJoin(xs: seq<string>, sep: char, seps: set<char>)
    requires sep in seps
    requires forall i :: 0 <= i < |xs| ==> xs[i] != "" && forall c :: c in xs[i] ==> c !in seps
    ensures DropEmpty(SplitOn(Join(xs, sep), seps)) == xs
  {
    if xs == [] {
      assert SplitOn("", seps) == [""];
      assert DropEmpty([""]) == [] + DropEmpty([""][1..]);
    } else {
      SplitOnSeparatorFree(xs[0], "", seps);
      assert xs[0] + "" == xs[0];
      assert SplitOn(xs[0], seps) == [xs[0]];
      assert DropEmpty([xs[0]]) == [xs[0]] + DropEmpty([]);
      if |xs| >= 2 {
        var rest := Join(xs[1..], sep);
        assert forall i :: 0 <= i < |xs[1..]| ==> xs[1..][i] == xs[i + 1];
        PiecesJoin(xs[1..], sep, seps);
        assert Join(xs, sep) == xs[0] + [sep] + rest;
        SplitAtSeparator(xs[0], sep, rest, seps);
        DropEmptyAppend(SplitOn(xs[0], seps), SplitOn(rest, seps));
        assert [xs[0]] + xs[1..] == xs;
      }
    }
  }

  /** Decimal notation is injective: distinct numbers get distinct strings. */
  lemma {:induction false} NatToStringInjective(m: nat, n: nat)
    requires NatToString(m) == NatToString(n)
    ensures m == n
  {
    var sm, sn := NatToString(m), NatToString(n);
    if m >= 10 && n >= 10 {
      assert sm[..|sm| - 1] == NatToString(m / 10);
      assert sn[..|sn| - 1] == NatToString(n / 10);
      NatToStringInjective(m / 10, n / 10);
      assert sm[|sm| - 1] == DigitChar(m % 10);
      assert sn[|sn| - 1] == DigitChar(n % 10);
    }
  }
}
