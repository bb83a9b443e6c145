/**
 * The few functions of Go's `strings` package that the engine relies on,
 * over strings of Unicode code points.
 */
module GoStrings {

  /** Go's `unicode.IsSpace`: ASCII white space, NEL, NBSP and the rest of
   *  the Unicode White_Space property. */
  predicate IsSpace(c: char) {
    var n := c as int;
    (9 <= n <= 13) || n == 0x20 || n == 0x85 || n == 0xA0 || n == 0x1680 ||
    (0x2000 <= n <= 0x200A) || n == 0x2028 || n == 0x2029 || n == 0x202F ||
    n == 0x205F || n == 0x3000
  }

  /** Every character of `s` is white space (vacuously true of ""). */
  predicate IsBlank(s: string) {
    forall k :: 0 <= k < |s| ==> IsSpace(s[k])
  }

  // The trimming functions promise only a length bound; what they compute
  // is stated by the lemmas after them, which callers invoke where needed
  // (richer postconditions on these functions slow down every proof that
  // mentions a trimmed string).

  /** Removes the leading white space. */
  function TrimLeft(s: string): (r: string)
    ensures |r| <= |s|
  {
    if s == [] || !IsSpace(s[0]) then s else TrimLeft(s[1..])
  }

  /** Removes the trailing white space. */
  function TrimRight(s: string): (r: string)
    ensures |r| <= |s|
  {
    if s == [] || !IsSpace(s[|s| - 1]) then s else TrimRight(s[..|s| - 1])
  }

  /** Go's `strings.TrimSpace`: the slice of `s` left after removing leading
   *  and trailing white space. */
  function TrimSpace(s: string): (r: string)
    ensures |r| <= |s|
  {
    TrimRight(TrimLeft(s))
  }

  /** Blank strings concatenate to a blank string. */
  lemma BlankAppend(a: string, b: string)
    requires IsBlank(a) && IsBlank(b)
    ensures IsBlank(a + b)
  {
    forall k | 0 <= k < |a + b| ensures IsSpace((a + b)[k]) {
      if k < |a| {
        assert (a + b)[k] == a[k];
      } else {
        assert (a + b)[k] == b[k - |a|];
      }
    }
  }

  /** `TrimLeft` keeps a suffix of `s`, drops only white space, and the
   *  suffix does not start with white space. */
  lemma {:induction false} TrimLeftSpec(s: string)
    ensures var r := TrimLeft(s);
      r == s[|s| - |r|..] && IsBlank(s[..|s| - |r|]) && (r == [] || !IsSpace(r[0]))
  {
    if s != [] && IsSpace(s[0]) {
      var t := s[1..];
      TrimLeftSpec(t);
      var r := TrimLeft(t);
      assert TrimLeft(s) == r;
      assert t[|t| - |r|..] == s[|s| - |r|..];
      assert s[..|s| - |r|] == [s[0]] + t[..|t| - |r|];
      BlankAppend([s[0]], t[..|t| - |r|]);
    }
  }

  /** `TrimRight` keeps a prefix of `s`, drops only white space, and the
   *  prefix does not end with white space. */
  lemma {:induction false} TrimRightSpec(s: string)
    ensures var r := TrimRight(s);
      r == s[..|r|] && IsBlank(s[|r|..]) && (r == [] || !IsSpace(r[|r| - 1]))
  {
    if s != [] && IsSpace(s[|s| - 1]) {
      var t := s[..|s| - 1];
      TrimRightSpec(t);
      var r := TrimRight(t);
      assert TrimRight(s) == r;
      assert t[..|r|] == s[..|r|];
      assert s[|r|..] == t[|r|..] + [s[|s| - 1]];
      BlankAppend(t[|r|..], [s[|s| - 1]]);
    }
  }

  /** `r` is the slice of `s` starting at `i`, and everything of `s` outside
   *  that slice is white space. */
  ghost predicate TrimmedAt(s: string, r: string, i: int) {
    0 <= i <= |s| - |r| && r == s[i..i + |r|] &&
    IsBlank(s[..i]) && IsBlank(s[i + |r|..])
  }

  /** `TrimSpace` returns a slice of `s` with only white space outside it,
   *  that neither starts nor ends with white space; it is empty exactly
   *  when `s` is blank. */
  lemma TrimSpaceSpec(s: string)
    ensures exists i :: TrimmedAt(s, TrimSpace(s), i)
    ensures var r := TrimSpace(s); r == [] || (!IsSpace(r[0]) && !IsSpace(r[|r| - 1]))
    ensures TrimSpace(s) == [] <==> IsBlank(s)
  {
    var l := TrimLeft(s);
    var r := TrimRight(l);
    TrimLeftSpec(s);
    TrimRightSpec(l);
    var i := |s| - |l|;
    assert s[i..i + |r|] == r;
    assert s[i + |r|..] == l[|r|..];
    assert r == TrimSpace(s);
    assert TrimmedAt(s, TrimSpace(s), i);
    if r != [] {
      assert r[0] == l[0];
    }
    if r == [] {
      assert l[|r|..] == l;
      assert s[..i] == s;
    }
  }

  /** A blank string trims to nothing. */
  lemma TrimBlank(s: string)
    requires IsBlank(s)
    ensures TrimSpace(s) == []
  {
    TrimSpaceSpec(s);
  }

  /** Trimming is idempotent, so the driver's second `TrimSpace` of an
   *  already trimmed segment changes nothing. */
  lemma TrimSpaceIdempotent(s: string)
    ensures TrimSpace(TrimSpace(s)) == TrimSpace(s)
  {
    var t := TrimSpace(s);
    TrimSpaceSpec(s);
    assert TrimLeft(t) == t;
    assert TrimRight(t) == t;
  }

  /** Go's `strings.HasSuffix`. */
  predicate HasSuffix(s: string, suffix: string) {
    |suffix| <= |s| && s[|s| - |suffix|..] == suffix
  }

  /** Go's `strings.TrimSuffix`: removes one occurrence of `suffix` at the end
   *  of `s`, when there is one. */
  function TrimSuffix(s: string, suffix: string): (r: string)
    ensures HasSuffix(s, suffix) ==> r + suffix == s
    ensures !HasSuffix(s, suffix) ==> r == s
  {
    if HasSuffix(s, suffix) then s[..|s| - |suffix|] else s
  }

  /** Go's `strings.Count` for a one-character separator. */
  function Count(s: string, c: char): (n: nat)
    ensures n <= |s|
    ensures n == 0 <==> c !in s
  {
    if s == [] then 0 else (if s[0] == c then 1 else 0) + Count(s[1..], c)
  }

  lemma {:induction false} CountAppend(a: string, b: string, c: char)
    ensures Count(a + b, c) == Count(a, c) + Count(b, c)
  {
    if a != [] {
      assert (a + b)[1..] == a[1..] + b;
      CountAppend(a[1..], b, c);
    } else {
      assert a + b == b;
    }
  }

  /** A string made of one character only counts that character at every
   *  place. */
  lemma {:induction false} CountUniform(s: string, c: char)
    requires forall k :: 0 <= k < |s| ==> s[k] == c
    ensures Count(s, c) == |s|
  {
    if s != [] {
      CountUniform(s[1..], c);
    }
  }

  /** Go's `strings.Repeat` for a one-character string. */
  function Repeat(c: char, n: nat): (r: string)
    ensures |r| == n && forall k :: 0 <= k < n ==> r[k] == c
  {
    seq(n, _ => c)
  }

  /** Adds `c` at the front of the first piece of a split. */
  function Prepend(c: char, pieces: seq<string>): seq<string>
    requires |pieces| > 0
  {
    [[c] + pieces[0]] + pieces[1..]
  }

  /** Go's `strings.Split(s, string(sep))`: the pieces of `s` between
   *  occurrences of `sep`, with the separators removed. */
  function SplitOn(s: string, sep: char): (pieces: seq<string>)
    ensures |pieces| >= 1
  {
    if s == [] then [[]]
    else
      var rest := SplitOn(s[1..], sep);
      if s[0] == sep then [[]] + rest else Prepend(s[0], rest)
  }

  /** Joins pieces with a one-character separator. */
  function Join(pieces: seq<string>, sep: char): string
    requires |pieces| >= 1
  {
    if |pieces| == 1 then pieces[0] else pieces[0] + [sep] + Join(pieces[1..], sep)
  }

  lemma JoinPrepend(c: char, ps: seq<string>, sep: char)
    requires |ps| >= 1
    ensures Join(Prepend(c, ps), sep) == [c] + Join(ps, sep)
  {
    var p := Prepend(c, ps);
    if |ps| > 1 {
      assert p[1..] == ps[1..];
      assert Join(p, sep) == ([c] + ps[0]) + [sep] + Join(ps[1..], sep);
    }
  }

  lemma JoinSeparator(ps: seq<string>, sep: char)
    requires |ps| >= 1
    ensures Join([[]] + ps, sep) == [sep] + Join(ps, sep)
  {
    assert ([[]] + ps)[1..] == ps;
    assert Join([[]] + ps, sep) == [] + [sep] + Join(ps, sep);
  }

  /** Splitting and re-joining gives back the input, there is one more piece
   *  than there are separators, and no piece contains the separator. */
  lemma {:induction false} SplitOnProperties(s: string, sep: char)
    ensures Join(SplitOn(s, sep), sep) == s
    ensures |SplitOn(s, sep)| == Count(s, sep) + 1
    ensures forall k :: 0 <= k < |SplitOn(s, sep)| ==> sep !in SplitOn(s, sep)[k]
  {
    if s != [] {
      SplitOnProperties(s[1..], sep);
      var rest := SplitOn(s[1..], sep);
      assert s == [s[0]] + s[1..];
      if s[0] == sep {
        JoinSeparator(rest, sep);
        assert forall k :: 1 <= k < |rest| + 1 ==> ([[]] + rest)[k] == rest[k - 1];
      } else {
        JoinPrepend(s[0], rest, sep);
        var p := Prepend(s[0], rest);
        forall k | 0 <= k < |p| ensures sep !in p[k] {
          if k == 0 {
            assert p[0] == [s[0]] + rest[0];
          } else {
            assert p[k] == rest[k];
          }
        }
      }
    }
  }

  /** The last piece of a split is the text after the last separator: a
   *  suffix of `s` without separators, which is all of `s` exactly when
   *  there is one piece, and is otherwise preceded by a separator. */
  lemma {:induction false} SplitOnLast(s: string, sep: char)
    ensures var last := SplitOn(s, sep)[|SplitOn(s, sep)| - 1];
      |last| <= |s| && last == s[|s| - |last|..] && sep !in last &&
      (|last| == |s| <==> |SplitOn(s, sep)| == 1) &&
      (|last| == |s| || s[|s| - |last| - 1] == sep)
  {
    if s != [] {
      SplitOnLast(s[1..], sep);
      var rest := SplitOn(s[1..], sep);
      var last := rest[|rest| - 1];
      if s[0] != sep && |rest| == 1 {
        assert SplitOn(s, sep) == [[s[0]] + last];
        assert [s[0]] + s[1..] == s;
      } else {
        assert SplitOn(s, sep)[|SplitOn(s, sep)| - 1] == last;
        assert |SplitOn(s, sep)| > 1;
        assert s[1..][|s| - 1 - |last|..] == s[|s| - |last|..];
        if |last| < |s| - 1 {
          assert s[1..][|s| - 1 - |last| - 1] == s[|s| - |last| - 1];
        }
      }
    }
  }
}
