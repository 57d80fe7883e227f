/** The string operations both scripts rely on: ASCII upper-casing, prefix and suffix
    tests, substring search, and Python's `str.split` / `str.join` with a one-character
    separator. */
module Text {

  /** `p` is a prefix of `s`. */
  predicate IsPrefix<T(==)>(p: seq<T>, s: seq<T>) {
    |p| <= |s| && s[..|p|] == p
  }

  /** `s` ends with `suffix`, as Python's `str.endswith`. */
  predicate EndsWith<T(==)>(s: seq<T>, suffix: seq<T>) {
    |suffix| <= |s| && s[|s| - |suffix|..] == suffix
  }

  /** `infix` occurs somewhere inside `s`. */
  predicate Contains(s: string, infix: string)
    decreases |s|
  {
    IsPrefix(infix, s) || (|s| > 0 && Contains(s[1..], infix))
  }

  /** Upper-casing of one character; only the ASCII letters change. */
  function UpperChar(c: char): char {
    if 'a' <= c <= 'z' then (c as int - 32) as char else c
  }

  /** Python's `str.upper`, restricted to ASCII letters. */
  function Upper(s: string): (r: string)
    ensures |r| == |s|
    ensures forall i :: 0 <= i < |s| ==> r[i] == UpperChar(s[i])
  {
    seq(|s|, i requires 0 <= i < |s| => UpperChar(s[i]))
  }

  /** Case-insensitive equality, the comparison the directory filter performs. */
  predicate EqualsIgnoringCase(a: string, b: string) {
    Upper(a) == Upper(b)
  }

  /** Upper-casing never produces or removes a `/`. */
  lemma UpperCharSlash(c: char)
    ensures UpperChar(c) == '/' <==> c == '/'
  {
  }

  /** Upper-casing commutes with taking a slice. */
  lemma UpperSlice(s: string, i: int, j: int)
    requires 0 <= i <= j <= |s|
    ensures Upper(s[i..j]) == Upper(s)[i..j]
  {
  }

  function Last<T>(xs: seq<T>): T
    requires |xs| > 0
  {
    xs[|xs| - 1]
  }

  /** The pieces of `[c] + t` from the pieces of `t`: a separator starts a new empty
      piece, any other character joins the first piece. */
  function Attach(c: char, sep: char, parts: seq<string>): seq<string>
    requires |parts| >= 1
  {
    if c == sep then [[]] + parts else [[c] + parts[0]] + parts[1..]
  }

  /** Python's `s.split(sep)` for a one-character separator: the pieces between
      consecutive separators, always at least one (possibly empty) piece. */
  function Split(s: string, sep: char): (parts: seq<string>)
    ensures |parts| >= 1
  {
    if s == [] then [[]] else Attach(s[0], sep, Split(s[1..], sep))
  }

  /** No piece of a split holds the separator. */
  lemma {:induction false} SplitAvoidsSep(s: string, sep: char)
    ensures forall i :: 0 <= i < |Split(s, sep)| ==> sep !in Split(s, sep)[i]
  {
    if s != [] {
      SplitAvoidsSep(s[1..], sep);
    }
  }

  /** Python's `sep.join(parts)`. */
  function Join(parts: seq<string>, sep: char): string
  {
    if parts == [] then []
    else if |parts| == 1 then parts[0]
    else parts[0] + [sep] + Join(parts[1..], sep)
  }

  /** Joining the pieces of a split gives the original string back. */
  lemma {:induction false} JoinSplit(s: string, sep: char)
    ensures Join(Split(s, sep), sep) == s
  {
    if s != [] {
      var rest := Split(s[1..], sep);
      JoinSplit(s[1..], sep);
      if s[0] == sep {
        assert Split(s, sep) == [[]] + rest;
        assert Join(Split(s, sep), sep) == [] + [sep] + Join(rest, sep);
      } else if |rest| == 1 {
        assert Join(rest, sep) == rest[0];
      } else {
        var parts := Split(s, sep);
        assert parts[1..] == rest[1..];
        assert Join(parts, sep) == [s[0]] + rest[0] + [sep] + Join(rest[1..], sep);
        assert Join(rest, sep) == rest[0] + [sep] + Join(rest[1..], sep);
      }
    }
  }

  /** A string without the separator splits into itself alone. */
  lemma {:induction false} SplitWithoutSep(s: string, sep: char)
    requires sep !in s
    ensures Split(s, sep) == [s]
  {
    if s != [] {
      SplitWithoutSep(s[1..], sep);
      assert [s[0]] + s[1..] == s;
    }
  }

  /** The first separator ends the first piece. */
  lemma {:induction false} SplitAtFirst(a: string, sep: char, b: string)
    requires sep !in a
    ensures Split(a + [sep] + b, sep) == [a] + Split(b, sep)
  {
    if a == [] {
      assert (a + [sep] + b)[1..] == b;
    } else {
      assert (a + [sep] + b)[1..] == a[1..] + [sep] + b;
      SplitAtFirst(a[1..], sep, b);
      assert [a[0]] + a[1..] == a;
    }
  }

  lemma SplitCons(c: char, t: string, sep: char)
    ensures Split([c] + t, sep) == Attach(c, sep, Split(t, sep))
  {
    assert ([c] + t)[1..] == t;
  }

  lemma AttachAppend(c: char, sep: char, x: seq<string>, y: seq<string>)
    requires |x| >= 1
    ensures Attach(c, sep, x + y) == Attach(c, sep, x) + y
  {
    if c != sep {
      assert (x + y)[1..] == x[1..] + y;
    }
  }

  /** Splitting at a separator splits each side on its own. */
  lemma {:induction false} SplitConcat(a: string, sep: char, b: string)
    ensures Split(a + [sep] + b, sep) == Split(a, sep) + Split(b, sep)
  {
    if a == [] {
      SplitCons(sep, b, sep);
      assert a + [sep] + b == [sep] + b;
    } else {
      var t := a[1..];
      SplitConcat(t, sep, b);
      assert a + [sep] + b == [a[0]] + (t + [sep] + b);
      SplitCons(a[0], t + [sep] + b, sep);
      assert a == [a[0]] + t;
      SplitCons(a[0], t, sep);
      AttachAppend(a[0], sep, Split(t, sep), Split(b, sep));
    }
  }

  /** Splitting a join gives back the pieces, provided no piece holds the separator. */
  lemma {:induction false} SplitJoin(parts: seq<string>, sep: char)
    requires |parts| >= 1
    requires forall i :: 0 <= i < |parts| ==> sep !in parts[i]
    ensures Split(Join(parts, sep), sep) == parts
  {
    if |parts| == 1 {
      SplitWithoutSep(parts[0], sep);
    } else {
      SplitJoin(parts[1..], sep);
      SplitAtFirst(parts[0], sep, Join(parts[1..], sep));
      assert [parts[0]] + parts[1..] == parts;
    }
  }

  /** A string holding the separator splits into at least two pieces. */
  lemma {:induction false} SplitCount(s: string, sep: char)
    requires sep in s
    ensures |Split(s, sep)| >= 2
  {
    if s[0] != sep {
      SplitCount(s[1..], sep);
    }
  }

  /** A string splits into more than one piece exactly when it holds the separator. */
  lemma SplitCountIff(s: string, sep: char)
    ensures |Split(s, sep)| >= 2 <==> sep in s
  {
    if sep in s {
      SplitCount(s, sep);
    } else {
      SplitWithoutSep(s, sep);
    }
  }

  /** A prefix in front of a string that holds the separator does not change the
      last piece. */
  lemma {:induction false} LastPieceOfAppend(x: string, y: string, sep: char)
    requires sep in y
    ensures Last(Split(x + y, sep)) == Last(Split(y, sep))
  {
    if x != [] {
      var z := x[1..] + y;
      assert (x + y)[1..] == z;
      LastPieceOfAppend(x[1..], y, sep);
      assert sep in z by {
        var k :| 0 <= k < |y| && y[k] == sep;
        assert z[|x| - 1 + k] == sep;
      }
      SplitCount(z, sep);
      var rest := Split(z, sep);
      assert Split(x + y, sep) == if x[0] == sep then [[]] + rest else [[x[0]] + rest[0]] + rest[1..];
      assert Last(Split(x + y, sep)) == Last(rest);
      assert Last(rest) == Last(Split(y, sep));
    } else {
      assert x + y == y;
    }
  }

  /** The last piece of `p + sep + q` is `q` when `q` holds no separator. */
  lemma LastPieceAfterSep(p: string, sep: char, q: string)
    requires sep !in q
    ensures Last(Split(p + [sep] + q, sep)) == q
  {
    SplitAtFirst([], sep, q);
    SplitWithoutSep(q, sep);
    assert [] + [sep] + q == [sep] + q;
    assert Split([sep] + q, sep) == [[], q];
    assert p + [sep] + q == p + ([sep] + q);
    LastPieceOfAppend(p, [sep] + q, sep);
  }

  /** The last piece is a suffix of the string; when the string holds the separator
      that suffix is preceded by a separator. */
  lemma {:induction false} LastPieceIsSuffix(s: string, sep: char)
    ensures EndsWith(s, Last(Split(s, sep)))
    ensures sep in s ==> |Last(Split(s, sep))| < |s| && s[|s| - |Last(Split(s, sep))| - 1] == sep
  {
    if s != [] {
      var c, z := s[0], s[1..];
      assert s == [c] + z;
      SplitCons(c, z, sep);
      var pieces := Split(z, sep);
      var l := Last(Split(s, sep));
      SplitCountIff(z, sep);
      if sep !in z {
        SplitWithoutSep(z, sep);
        if c == sep {
          assert l == z;
        } else {
          assert l == s;
        }
      } else {
        LastPieceIsSuffix(z, sep);
        assert l == Last(pieces);
        assert s[|s| - |l|..] == z[|z| - |l|..];
        assert s[|s| - |l| - 1] == z[|z| - |l| - 1];
      }
    }
  }

  /** `s.split(sep)[0]`: the text before the first `sep`, or all of `s` when
      there is none. */
  function FirstPiece(s: string, sep: char): (r: string)
    ensures IsPrefix(r, s)
    ensures sep !in r
    ensures r == s || s[|r|] == sep
  {
    JoinSplit(s, sep);
    SplitAvoidsSep(s, sep);
    var parts := Split(s, sep);
    if |parts| == 1 then parts[0]
    else
      assert Join(parts, sep) == parts[0] + [sep] + Join(parts[1..], sep);
      parts[0]
  }

  /** The text before the first newline, which is all a regular expression without
      the DOTALL flag can span from the start of a string. */
  function FirstLine(s: string): string {
    FirstPiece(s, '\n')
  }
}
