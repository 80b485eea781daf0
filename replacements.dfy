/** The "/regex/substitution/" expressions of replacements/replacements.go:
    escape-aware splitting of an expression on its delimiter, validation of
    its shape, and applying a list of expressions one after the other.
    Strings are sequences of runes. */
module Replacements {
  import opened Wrappers
  import opened Regex

  /** The escape rune of substitution expressions. */
  const ESC: char := '\\'

  /** strings.IndexRune: the index of the first c in s, or -1. */
  function IndexOf(s: string, c: char): (i: int)
    ensures -1 <= i < |s|
    ensures i >= 0 ==> s[i] == c && c !in s[..i]
    ensures i < 0 ==> c !in s
  {
    if s == [] then -1
    else if s[0] == c then 0
    else
      var j := IndexOf(s[1..], c);
      assert j >= 0 ==> s[1..][..j] == s[1..j + 1];
      if j < 0 then -1 else j + 1
  }

  /** The length of the run of r at the end of s. */
  function TrailingCount(s: string, r: char): (n: nat)
    ensures n <= |s|
    ensures forall k :: |s| - n <= k < |s| ==> s[k] == r
    ensures n < |s| ==> s[|s| - n - 1] != r
  {
    if s == [] || s[|s| - 1] != r then 0
    else TrailingCount(s[..|s| - 1], r) + 1
  }

  /** countBack: counts the runes r at the end of s, walking back from the last. */
  method CountBack(s: string, r: char) returns (n: int)
    ensures n == TrailingCount(s, r)
  {
    n := 0;
    var i := |s| - 1;
    while i >= 0
      invariant -1 <= i < |s| && n == |s| - 1 - i
      invariant forall k :: i < k < |s| ==> s[k] == r
      invariant TrailingCount(s, r) == n + TrailingCount(s[..i + 1], r)
    {
      if s[i] != r {
        break;
      }
      assert s[..i + 1][..i] == s[..i];
      n := n + 1;
      i := i - 1;
    }
  }

  /** The parts splitUnescaped produces from the rest s of its input, when the
      part being built so far is current: a separator preceded by an odd run of
      escapes stays in the part, with one escape dropped; any other separator
      ends the part. */
  function SplitFrom(s: string, sep: char, esc: char, current: string): (parts: seq<string>)
    ensures |parts| >= 1
    decreases |s|
  {
    var i := IndexOf(s, sep);
    if i < 0 then [current + s]
    else if TrailingCount(s[..i], esc) % 2 == 1 then
      SplitFrom(s[i + 1..], sep, esc, current + s[..i - 1] + [sep])
    else [current + s[..i]] + SplitFrom(s[i + 1..], sep, esc, "")
  }

  /** splitUnescaped: splits s on sep, keeping separators escaped by esc. */
  method SplitUnescaped(s: string, sep: char, esc: char) returns (result: seq<string>)
    ensures result == SplitFrom(s, sep, esc, "")
    ensures |result| >= 1
  {
    result := [];
    var current := "";
    var rest := s;
    var i := IndexOf(rest, sep);
    while i >= 0
      invariant i == IndexOf(rest, sep)
      invariant result + SplitFrom(rest, sep, esc, current) == SplitFrom(s, sep, esc, "")
      decreases |rest|
    {
      var count := CountBack(rest[..i], esc);
      var escaped := count % 2 == 1;
      SplitRound(rest, sep, esc, current, i, count);
      if escaped {
        current := current + rest[..i - 1] + [sep];
      } else {
        result := result + [current + rest[..i]];
        current := "";
      }
      rest := rest[i + 1..];
      i := IndexOf(rest, sep);
    }
    result := result + [current + rest];
  }

  /** One round of splitUnescaped on rest, when rest holds a separator at i
      after a run of count escapes; the result is stated as the loop uses it,
      with the parts finished so far in front. */
  lemma SplitRound(rest: string, sep: char, esc: char, current: string, i: int, count: nat)
    requires i == IndexOf(rest, sep) >= 0 && count == TrailingCount(rest[..i], esc)
    ensures count % 2 == 1 ==> 1 <= i
    ensures forall done: seq<string> ::
      done + SplitFrom(rest, sep, esc, current) ==
        if count % 2 == 1 then done + SplitFrom(rest[i + 1..], sep, esc, current + rest[..i - 1] + [sep])
        else (done + [current + rest[..i]]) + SplitFrom(rest[i + 1..], sep, esc, "")
  {
    forall done: seq<string>
      ensures done + SplitFrom(rest, sep, esc, current) ==
        if count % 2 == 1 then done + SplitFrom(rest[i + 1..], sep, esc, current + rest[..i - 1] + [sep])
        else (done + [current + rest[..i]]) + SplitFrom(rest[i + 1..], sep, esc, "")
    {
      if count % 2 != 1 {
        assert done + ([current + rest[..i]] + SplitFrom(rest[i + 1..], sep, esc, ""))
          == (done + [current + rest[..i]]) + SplitFrom(rest[i + 1..], sep, esc, "");
      }
    }
  }

  /** The same round, stated on its own. */
  lemma SplitFromStep(rest: string, sep: char, esc: char, current: string)
    requires IndexOf(rest, sep) >= 0
    ensures var i := IndexOf(rest, sep);
      SplitFrom(rest, sep, esc, current) ==
        if TrailingCount(rest[..i], esc) % 2 == 1 then SplitFrom(rest[i + 1..], sep, esc, current + rest[..i - 1] + [sep])
        else [current + rest[..i]] + SplitFrom(rest[i + 1..], sep, esc, "")
  {
  }

  lemma IndexOfUnique(s: string, c: char, i: int)
    requires 0 <= i < |s| && s[i] == c && c !in s[..i]
    ensures IndexOf(s, c) == i
  {
  }

  lemma SplitWithoutSeparator(s: string, sep: char, esc: char, current: string)
    requires sep !in s
    ensures SplitFrom(s, sep, esc, current) == [current + s]
  {
  }

  /** Input without a separator is one part. */
  lemma SplitNoSeparator(s: string, sep: char, esc: char)
    requires sep !in s
    ensures SplitFrom(s, sep, esc, "") == [s]
  {
    assert "" + s == s;
  }

  /** A part written into an expression: every separator gets an escape in front. */
  function Escape(p: string, sep: char, esc: char): (e: string)
    ensures |e| >= |p|
  {
    if p == [] then []
    else (if p[0] == sep then [esc, sep] else [p[0]]) + Escape(p[1..], sep, esc)
  }

  /** The parts joined by sep, each escaped. */
  function JoinEscaped(parts: seq<string>, sep: char, esc: char): string
    requires |parts| >= 1
  {
    if |parts| == 1 then Escape(parts[0], sep, esc)
    else Escape(parts[0], sep, esc) + [sep] + JoinEscaped(parts[1..], sep, esc)
  }

  lemma {:induction false} EscapeNoSeparator(p: string, sep: char, esc: char)
    requires sep !in p
    ensures Escape(p, sep, esc) == p
  {
    if p != [] {
      EscapeNoSeparator(p[1..], sep, esc);
    }
  }

  lemma {:induction false} EscapeAppend(a: string, b: string, sep: char, esc: char)
    ensures Escape(a + b, sep, esc) == Escape(a, sep, esc) + Escape(b, sep, esc)
  {
    if a == [] {
      assert a + b == b;
    } else {
      assert (a + b)[0] == a[0];
      assert (a + b)[1..] == a[1..] + b;
      EscapeAppend(a[1..], b, sep, esc);
    }
  }

  /** Escaping a part around its first separator. */
  lemma EscapeAtSeparator(p: string, sep: char, esc: char)
    requires IndexOf(p, sep) >= 0
    ensures var i := IndexOf(p, sep);
      Escape(p, sep, esc) == p[..i] + [esc, sep] + Escape(p[i + 1..], sep, esc)
  {
    var i := IndexOf(p, sep);
    var a, b := p[..i], p[i + 1..];
    var tail := [sep] + b;
    Decompose(p, i);
    EscapeNoSeparator(a, sep, esc);
    EscapeAppend(a, tail, sep, esc);
    assert Escape(tail, sep, esc) == [esc, sep] + Escape(b, sep, esc);
  }

  lemma Decompose(p: string, i: int)
    requires 0 <= i < |p|
    ensures var tail := [p[i]] + p[i + 1..];
      p == p[..i] + tail && tail[0] == p[i] && tail[1..] == p[i + 1..]
  {
  }

  /** No separator of p follows an odd run of escapes. Escape then puts an odd
      run before every separator, and the splitter keeps each one. */
  predicate EvenBeforeSeparators(p: string, sep: char, esc: char)
  {
    forall i :: 0 <= i < |p| && p[i] == sep ==> TrailingCount(p[..i], esc) % 2 == 0
  }

  /** A part an expression can carry in front of a separator: no odd run of
      escapes right before one of its separators or at its end. */
  predicate Writable(p: string, sep: char, esc: char)
  {
    EvenBeforeSeparators(p, sep, esc) && TrailingCount(p, esc) % 2 == 0
  }

  /** Every escape-free part is writable. */
  lemma EscapeFreeWritable(p: string, sep: char, esc: char)
    requires esc !in p
    ensures Writable(p, sep, esc)
  {
    forall i | 0 <= i < |p| && p[i] == sep
      ensures TrailingCount(p[..i], esc) == 0
    {
      if i > 0 {
        assert p[..i][i - 1] == p[i - 1];
      }
    }
    if |p| > 0 {
      assert p[|p| - 1] in p;
    }
  }

  /** The run of r at the end of x + [c] + y stops at c. */
  lemma {:induction false} TrailingCountAfter(x: string, c: char, y: string, r: char)
    requires c != r
    ensures TrailingCount(x + [c] + y, r) == TrailingCount(y, r)
    decreases |y|
  {
    var s := x + [c] + y;
    if y != [] {
      assert s[|s| - 1] == y[|y| - 1];
      assert s[..|s| - 1] == x + [c] + y[..|y| - 1];
      TrailingCountAfter(x, c, y[..|y| - 1], r);
    }
  }

  lemma TrailingCountSnoc(a: string, r: char)
    ensures TrailingCount(a + [r], r) == TrailingCount(a, r) + 1
  {
    assert (a + [r])[..|a|] == a;
  }

  /** Past the first separator at i, a run of escapes is the same in p and in the rest after i. */
  lemma TailRun(p: string, i: int, k: int, sep: char, esc: char)
    requires 0 <= i < |p| && p[i] == sep && sep != esc && 0 <= k <= |p| - i - 1
    ensures TrailingCount(p[..i + 1 + k], esc) == TrailingCount(p[i + 1..][..k], esc)
  {
    var a, b := p[..i], p[i + 1..];
    assert p[..i + 1 + k] == a + [sep] + b[..k];
    TrailingCountAfter(a, sep, b[..k], esc);
  }

  /** The first separator of p cuts its runs of escapes in two. */
  lemma SeparatorSplitsRuns(p: string, i: int, sep: char, esc: char)
    requires i == IndexOf(p, sep) >= 0 && sep != esc
    ensures EvenBeforeSeparators(p, sep, esc) <==>
      TrailingCount(p[..i], esc) % 2 == 0 && EvenBeforeSeparators(p[i + 1..], sep, esc)
    ensures TrailingCount(p, esc) == TrailingCount(p[i + 1..], esc)
  {
    var b := p[i + 1..];
    TailRun(p, i, |b|, sep, esc);
    assert p[..i + 1 + |b|] == p && b[..|b|] == b;
    if EvenBeforeSeparators(p, sep, esc) {
      RunsAfterSeparator(p, i, sep, esc);
    }
    if TrailingCount(p[..i], esc) % 2 == 0 && EvenBeforeSeparators(b, sep, esc) {
      RunsAroundSeparator(p, i, sep, esc);
    }
  }

  lemma RunsAfterSeparator(p: string, i: int, sep: char, esc: char)
    requires 0 <= i < |p| && p[i] == sep && sep != esc && EvenBeforeSeparators(p, sep, esc)
    ensures EvenBeforeSeparators(p[i + 1..], sep, esc)
  {
    var b := p[i + 1..];
    forall k | 0 <= k < |b| && b[k] == sep
      ensures TrailingCount(b[..k], esc) % 2 == 0
    {
      TailRun(p, i, k, sep, esc);
      assert p[i + 1 + k] == sep;
    }
  }

  lemma RunsAroundSeparator(p: string, i: int, sep: char, esc: char)
    requires i == IndexOf(p, sep) >= 0 && sep != esc
    requires TrailingCount(p[..i], esc) % 2 == 0 && EvenBeforeSeparators(p[i + 1..], sep, esc)
    ensures EvenBeforeSeparators(p, sep, esc)
  {
    forall j | 0 <= j < |p| && p[j] == sep
      ensures TrailingCount(p[..j], esc) % 2 == 0
    {
      RunAtSeparator(p, i, j, sep, esc);
    }
  }

  lemma RunAtSeparator(p: string, i: int, j: int, sep: char, esc: char)
    requires i == IndexOf(p, sep) >= 0 && sep != esc
    requires TrailingCount(p[..i], esc) % 2 == 0 && EvenBeforeSeparators(p[i + 1..], sep, esc)
    requires 0 <= j < |p| && p[j] == sep
    ensures TrailingCount(p[..j], esc) % 2 == 0
  {
    FirstSeparator(p, sep, i, j);
    if j > i {
      var b, k := p[i + 1..], j - i - 1;
      assert b[k] == sep;
      assert TrailingCount(b[..k], esc) % 2 == 0;
      TailRun(p, i, k, sep, esc);
      assert p[..i + 1 + k] == p[..j];
    }
  }

  /** No separator comes before the one IndexOf finds. */
  lemma FirstSeparator(p: string, sep: char, i: int, j: int)
    requires i == IndexOf(p, sep) >= 0 && 0 <= j < |p| && p[j] == sep
    ensures i <= j
  {
    forall k | 0 <= k < i
      ensures p[k] != sep
    {
      assert p[..i][k] == p[k];
    }
  }

  /** A separator after an even run of escapes and a further escape stays in the part. */
  lemma EscapedSeparatorStep(a: string, t: string, sep: char, esc: char, current: string)
    requires sep !in a && sep != esc && TrailingCount(a, esc) % 2 == 0
    ensures SplitFrom(a + [esc, sep] + t, sep, esc, current) == SplitFrom(t, sep, esc, current + a + [sep])
  {
    var s := a + [esc, sep] + t;
    assert s[..|a| + 1] == a + [esc];
    IndexOfUnique(s, sep, |a| + 1);
    TrailingCountSnoc(a, esc);
    SplitFromStep(s, sep, esc, current);
    assert s[..|a|] == a;
    assert s[|a| + 2..] == t;
  }

  /** A separator after an even run of escapes ends the part. */
  lemma PlainSeparatorStep(a: string, t: string, sep: char, esc: char, current: string)
    requires sep !in a && TrailingCount(a, esc) % 2 == 0
    ensures SplitFrom(a + [sep] + t, sep, esc, current) == [current + a] + SplitFrom(t, sep, esc, "")
  {
    var s := a + [sep] + t;
    assert s[..|a|] == a;
    IndexOfUnique(s, sep, |a|);
    SplitFromStep(s, sep, esc, current);
    assert s[|a| + 1..] == t;
  }

  lemma JoinAround(current: string, p: string, i: int)
    requires 0 <= i < |p|
    ensures current + p[..i] + [p[i]] + p[i + 1..] == current + p
  {
    assert p == p[..i] + [p[i]] + p[i + 1..];
  }

  /** The first part begins with what the splitter had collected. */
  lemma {:induction false} FirstPartPrefix(s: string, sep: char, esc: char, current: string)
    ensures var first := SplitFrom(s, sep, esc, current)[0];
      |current| <= |first| && first[..|current|] == current
    decreases |s|
  {
    var i := IndexOf(s, sep);
    if i >= 0 && TrailingCount(s[..i], esc) % 2 == 1 {
      var next := current + s[..i - 1] + [sep];
      FirstPartPrefix(s[i + 1..], sep, esc, next);
      assert next[..|current|] == current;
    }
  }

  /** An escaped writable part followed by a separator comes back as the part,
      whatever the splitter had collected before it. */
  lemma {:induction false} SplitEscapedPart(p: string, rest: string, sep: char, esc: char, current: string)
    requires sep != esc && Writable(p, sep, esc)
    ensures SplitFrom(Escape(p, sep, esc) + [sep] + rest, sep, esc, current)
      == [current + p] + SplitFrom(rest, sep, esc, "")
    decreases |p|
  {
    var i := IndexOf(p, sep);
    if i < 0 {
      EscapeNoSeparator(p, sep, esc);
      PlainSeparatorStep(p, rest, sep, esc, current);
    } else {
      var a, b := p[..i], p[i + 1..];
      SeparatorSplitsRuns(p, i, sep, esc);
      EscapedRunStep(p, i, rest, sep, esc, current);
      SplitEscapedPart(b, rest, sep, esc, current + a + [sep]);
      JoinAround(current, p, i);
      assert current + a + [sep] + b == current + p;
    }
  }

  /** An odd run of escapes before a separator keeps it, so the part goes on past it. */
  lemma UnwritableEnd(p: string, rest: string, sep: char, esc: char, current: string)
    requires sep !in p && sep != esc && TrailingCount(p, esc) % 2 == 1
    ensures SplitFrom(p + [sep] + rest, sep, esc, current)[0] != current + p
  {
    var s := p + [sep] + rest;
    var n := |p|;
    assert s[..n] == p;
    IndexOfUnique(s, sep, n);
    assert s[..n - 1] == p[..n - 1];
    assert s[n + 1..] == rest;
    var kept := current + p[..n - 1] + [sep];
    assert SplitFrom(s, sep, esc, current) == SplitFrom(rest, sep, esc, kept);
    assert p[n - 1] == esc;
    KeptDiffers(p, rest, sep, esc, current, kept);
  }

  lemma KeptDiffers(p: string, rest: string, sep: char, esc: char, current: string, kept: string)
    requires |p| > 0 && p[|p| - 1] == esc && sep != esc
    requires kept == current + p[..|p| - 1] + [sep]
    ensures SplitFrom(rest, sep, esc, kept)[0] != current + p
  {
    FirstPartPrefix(rest, sep, esc, kept);
    var first := SplitFrom(rest, sep, esc, kept)[0];
    assert first[|kept| - 1] == kept[|kept| - 1];
    assert (current + p)[|kept| - 1] == p[|p| - 1];
  }

  /** An odd run of escapes made even by one more escape lets the separator end the part there. */
  lemma OddRunEndsPart(a: string, t: string, sep: char, esc: char, current: string)
    requires sep !in a && sep != esc && TrailingCount(a, esc) % 2 == 1
    ensures SplitFrom(a + [esc, sep] + t, sep, esc, current)[0] == current + (a + [esc])
  {
    var s := a + [esc, sep] + t;
    assert s[..|a| + 1] == a + [esc];
    IndexOfUnique(s, sep, |a| + 1);
    TrailingCountSnoc(a, esc);
    SplitFromStep(s, sep, esc, current);
  }

  /** A part cut at its first separator, with the escape in its place, is not the part. */
  lemma EarlyEndDiffers(p: string, i: int, sep: char, esc: char, current: string)
    requires 0 <= i < |p| && p[i] == sep && sep != esc
    ensures current + (p[..i] + [esc]) != current + p
  {
    assert (current + (p[..i] + [esc]))[|current| + i] == esc;
    assert (current + p)[|current| + i] == sep;
  }

  /** A part that is not writable does not come back: the first part the
      splitter produces differs from it. An odd run before one of its
      separators becomes even once escaped, so that separator ends the part
      early; an odd run at its end keeps the separator that follows. */
  lemma {:induction false} SplitUnwritablePart(p: string, rest: string, sep: char, esc: char, current: string)
    requires sep != esc && !Writable(p, sep, esc)
    ensures SplitFrom(Escape(p, sep, esc) + [sep] + rest, sep, esc, current)[0] != current + p
    decreases |p|
  {
    var i := IndexOf(p, sep);
    if i < 0 {
      EscapeNoSeparator(p, sep, esc);
      assert EvenBeforeSeparators(p, sep, esc);
      UnwritableEnd(p, rest, sep, esc, current);
    } else if TrailingCount(p[..i], esc) % 2 == 1 {
      UnwritableOddRun(p, i, rest, sep, esc, current);
    } else {
      var a, b := p[..i], p[i + 1..];
      SeparatorSplitsRuns(p, i, sep, esc);
      EscapedRunStep(p, i, rest, sep, esc, current);
      SplitUnwritablePart(b, rest, sep, esc, current + a + [sep]);
      JoinAround(current, p, i);
      assert current + a + [sep] + b == current + p;
    }
  }

  /** An odd run of escapes before the first separator of p: the part ends there, too early. */
  lemma UnwritableOddRun(p: string, i: int, rest: string, sep: char, esc: char, current: string)
    requires i == IndexOf(p, sep) >= 0 && sep != esc && TrailingCount(p[..i], esc) % 2 == 1
    ensures SplitFrom(Escape(p, sep, esc) + [sep] + rest, sep, esc, current)[0] != current + p
  {
    var a, b := p[..i], p[i + 1..];
    EscapeAtSeparator(p, sep, esc);
    var t := Escape(b, sep, esc) + [sep] + rest;
    assert Escape(p, sep, esc) + [sep] + rest == a + [esc, sep] + t;
    OddRunEndsPart(a, t, sep, esc, current);
    EarlyEndDiffers(p, i, sep, esc, current);
  }

  /** An even run of escapes before the first separator of p: that separator stays in the part. */
  lemma EscapedRunStep(p: string, i: int, rest: string, sep: char, esc: char, current: string)
    requires i == IndexOf(p, sep) >= 0 && sep != esc && TrailingCount(p[..i], esc) % 2 == 0
    ensures SplitFrom(Escape(p, sep, esc) + [sep] + rest, sep, esc, current)
      == SplitFrom(Escape(p[i + 1..], sep, esc) + [sep] + rest, sep, esc, current + p[..i] + [sep])
  {
    var a, b := p[..i], p[i + 1..];
    EscapeAtSeparator(p, sep, esc);
    var t := Escape(b, sep, esc) + [sep] + rest;
    assert Escape(p, sep, esc) + [sep] + rest == a + [esc, sep] + t;
    EscapedSeparatorStep(a, t, sep, esc, current);
  }

  /** The last escaped part comes back as the part; only the runs before its
      separators matter, since no separator follows it. */
  lemma {:induction false} SplitEscapedLast(p: string, sep: char, esc: char, current: string)
    requires sep != esc && EvenBeforeSeparators(p, sep, esc)
    ensures SplitFrom(Escape(p, sep, esc), sep, esc, current) == [current + p]
    decreases |p|
  {
    var i := IndexOf(p, sep);
    if i < 0 {
      EscapeNoSeparator(p, sep, esc);
      SplitWithoutSeparator(p, sep, esc, current);
    } else {
      var a, b := p[..i], p[i + 1..];
      EscapeAtSeparator(p, sep, esc);
      SeparatorSplitsRuns(p, i, sep, esc);
      var t := Escape(b, sep, esc);
      assert Escape(p, sep, esc) == a + [esc, sep] + t;
      EscapedSeparatorStep(a, t, sep, esc, current);
      SplitEscapedLast(b, sep, esc, current + a + [sep]);
      JoinAround(current, p, i);
      assert current + a + [sep] + b == current + p;
    }
  }

  /** Splitting undoes escaped joining when every part but the last is
      writable and the last has no odd run before a separator, for a separator
      other than the escape. */
  lemma {:induction false} SplitJoin(parts: seq<string>, sep: char, esc: char)
    requires |parts| >= 1 && sep != esc
    requires forall k :: 0 <= k < |parts| - 1 ==> Writable(parts[k], sep, esc)
    requires EvenBeforeSeparators(parts[|parts| - 1], sep, esc)
    ensures SplitFrom(JoinEscaped(parts, sep, esc), sep, esc, "") == parts
    decreases |parts|
  {
    if |parts| == 1 {
      SplitEscapedLast(parts[0], sep, esc, "");
      assert "" + parts[0] == parts[0];
    } else {
      var tail := parts[1..];
      assert forall k :: 0 <= k < |tail| - 1 ==> tail[k] == parts[k + 1];
      assert tail[|tail| - 1] == parts[|parts| - 1];
      SplitEscapedPart(parts[0], JoinEscaped(tail, sep, esc), sep, esc, "");
      SplitJoin(tail, sep, esc);
      assert "" + parts[0] == parts[0];
      assert parts == [parts[0]] + tail;
    }
  }

  datatype ReplaceError =
    | InvalidExpression(expression: string)
    | CompileFailed(pattern: string)

  /** The "/regex/substitution/" shape: the expression's first rune is the
      delimiter, which must not be the escape, and splitting on it gives an
      empty first part, the pattern, the substitution and an empty last part. */
  predicate WellShaped(expression: string)
  {
    && |expression| > 0 && expression[0] != ESC
    && var parts := SplitFrom(expression, expression[0], ESC, "");
      |parts| == 4 && parts[0] == "" && parts[3] == ""
  }

  /** RegexpReplace: replaces every match of the expression's pattern in value
      by its substitution. */
  function RegexpReplace(engine: Engine, value: string, expression: string): (r: Result<string, ReplaceError>)
    ensures r == Err(InvalidExpression(expression)) <==> !WellShaped(expression)
    ensures r.Ok? ==> (WellShaped(expression) &&
      var parts := SplitFrom(expression, expression[0], ESC, "");
      engine.compiles(parts[1]) && r.value == engine.replaceAll(parts[1], value, parts[2]))
  {
    if |expression| == 0 || expression[0] == ESC then Err(InvalidExpression(expression))
    else
      var parts := SplitFrom(expression, expression[0], ESC, "");
      if |parts| != 4 || parts[0] != "" || parts[3] != "" then Err(InvalidExpression(expression))
      else if !engine.compiles(parts[1]) then Err(CompileFailed(parts[1]))
      else Ok(engine.replaceAll(parts[1], value, parts[2]))
  }

  /** The expression that writes pattern and substitution with delimiter d. */
  function Expression(d: char, pattern: string, substitution: string): string
  {
    [d] + JoinEscaped([pattern, substitution, ""], d, ESC)
  }

  /** An expression written with any delimiter other than the escape, from a
      writable pattern and a writable substitution, is accepted and replaces by
      exactly that pattern and substitution. Patterns with escapes such as
      "\\d+" or "\\." are writable; so is every escape-free one. */
  lemma RegexpReplaceExpression(engine: Engine, value: string, d: char, pattern: string, substitution: string)
    requires d != ESC && Writable(pattern, d, ESC) && Writable(substitution, d, ESC)
    ensures RegexpReplace(engine, value, Expression(d, pattern, substitution))
      == if engine.compiles(pattern) then Ok(engine.replaceAll(pattern, value, substitution))
         else Err(CompileFailed(pattern))
  {
    var e := Expression(d, pattern, substitution);
    var parts := ["", pattern, substitution, ""];
    assert JoinEscaped(parts, d, ESC) == Escape("", d, ESC) + [d] + JoinEscaped([pattern, substitution, ""], d, ESC) by {
      assert parts[1..] == [pattern, substitution, ""];
    }
    assert Escape("", d, ESC) == "";
    assert e == JoinEscaped(parts, d, ESC);
    assert e[0] == d;
    assert Writable("", d, ESC);
    SplitJoin(parts, d, ESC);
  }

  /** A pattern that is not writable cannot be put into an expression: the
      expression built from it does not carry it as its pattern. */
  lemma ExpressionLosesUnwritablePattern(d: char, pattern: string, substitution: string)
    requires d != ESC && !Writable(pattern, d, ESC)
    ensures var parts := SplitFrom(Expression(d, pattern, substitution), d, ESC, "");
      |parts| >= 2 && parts[1] != pattern
  {
    var rest := JoinEscaped([substitution, ""], d, ESC);
    var t := Escape(pattern, d, ESC) + [d] + rest;
    assert JoinEscaped([pattern, substitution, ""], d, ESC) == t by {
      assert [pattern, substitution, ""][1..] == [substitution, ""];
    }
    assert Expression(d, pattern, substitution) == "" + [d] + t;
    PlainSeparatorStep("", t, d, ESC, "");
    SplitUnwritablePart(pattern, rest, d, ESC, "");
    assert "" + pattern == pattern;
  }

  /** The error RegexpReplace reports for an empty expression or one that starts
      with the escape. */
  lemma RegexpReplaceRejectsStart(engine: Engine, value: string, expression: string)
    requires |expression| == 0 || expression[0] == ESC
    ensures RegexpReplace(engine, value, expression) == Err(InvalidExpression(expression))
  {
  }

  /** The result of Apply: the expressions applied left to right, stopping with
      the first error. */
  function ApplyAll(engine: Engine, value: string, expressions: seq<string>): Result<string, ReplaceError>
    decreases |expressions|
  {
    if expressions == [] then Ok(value)
    else
      match RegexpReplace(engine, value, expressions[0])
      case Ok(next) => ApplyAll(engine, next, expressions[1..])
      case Err(e) => Err(e)
  }

  /** Apply: folds RegexpReplace over the expressions; on an error the result
      is empty, as RegexpReplace returns it. */
  method Apply(engine: Engine, value: string, expressions: seq<string>) returns (result: string, err: Option<ReplaceError>)
    ensures err.None? <==> ApplyAll(engine, value, expressions).Ok?
    ensures err.None? ==> result == ApplyAll(engine, value, expressions).value
    ensures err.Some? ==> result == "" && ApplyAll(engine, value, expressions) == Err(err.value)
  {
    result := value;
    err := None;
    var k := 0;
    while k < |expressions|
      invariant 0 <= k <= |expressions|
      invariant ApplyAll(engine, value, expressions) == ApplyAll(engine, result, expressions[k..])
    {
      assert expressions[k..][1..] == expressions[k + 1..];
      match RegexpReplace(engine, result, expressions[k]) {
        case Ok(next) =>
          result := next;
        case Err(e) =>
          return "", Some(e);
      }
      k := k + 1;
    }
  }

  /** With no expressions the value comes back unchanged. */
  lemma ApplyNone(engine: Engine, value: string)
    ensures ApplyAll(engine, value, []) == Ok(value)
  {
  }

  /** Applying a concatenation of expression lists applies the first list and
      then the second to its result; an error in the first list stops there. */
  lemma {:induction false} ApplyConcat(engine: Engine, value: string, first: seq<string>, second: seq<string>)
    ensures ApplyAll(engine, value, first + second) ==
      match ApplyAll(engine, value, first)
      case Ok(mid) => ApplyAll(engine, mid, second)
      case Err(e) => Err(e)
    decreases |first|
  {
    if first == [] {
      assert first + second == second;
    } else {
      assert (first + second)[0] == first[0];
      assert (first + second)[1..] == first[1..] + second;
      match RegexpReplace(engine, value, first[0]) {
        case Ok(next) => ApplyConcat(engine, next, first[1..], second);
        case Err(e) =>
      }
    }
  }
}
