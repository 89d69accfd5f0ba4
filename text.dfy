/** The Python `str` operations the backend uses, on Dafny strings (`seq<char>`):
    `replace`, `strip`, `split` and `startswith`, with the concatenation of an
    f-string's pieces. `Count` and `Join` are not called by the backend: they are the
    terms in which the line count and the round trip of `split` are stated. */
module Text {

  /** The characters this model's `strip` removes: space, tab, line feed, carriage
      return, vertical tab and form feed. Python's `str.isspace` holds for a wider set
      (U+001C..U+001F, U+0085, U+00A0 and the other Unicode space separators), which
      this model treats as ordinary characters. */
  predicate IsSpace(c: char) {
    c == ' ' || c == '\t' || c == '\n' || c == '\r' || c == '\U{000B}' || c == '\U{000C}'
  }

  /** Neither the first nor the last character is whitespace. */
  predicate NoSurroundingSpace(s: string) {
    s == [] || (!IsSpace(s[0]) && !IsSpace(s[|s| - 1]))
  }

  /** `r` is `s` with some whitespace removed from the front and some from the back. */
  ghost predicate IsTrimOf(r: string, s: string) {
    exists i, j :: TrimmedAt(r, s, i, j)
  }

  /** `r` is `s[i..j]` and everything outside `i..j` is whitespace. */
  ghost predicate TrimmedAt(r: string, s: string, i: int, j: int) {
    0 <= i <= j <= |s| && r == s[i..j] &&
    (forall k :: 0 <= k < i ==> IsSpace(s[k])) &&
    (forall k :: j <= k < |s| ==> IsSpace(s[k]))
  }

  /** `t` occurs in `s` as a contiguous piece. */
  ghost predicate IsSubstring(t: string, s: string) {
    exists i :: 0 <= i <= |s| && t <= s[i..]
  }

  /** Number of occurrences of `c` in `s` (Python `s.count(c)`). */
  function Count(s: string, c: char): (n: nat)
    ensures n <= |s|
  {
    if s == [] then 0 else (if s[0] == c then 1 else 0) + Count(s[1..], c)
  }

  lemma {:induction false} CountConcat(a: string, b: string, c: char)
    ensures Count(a + b, c) == Count(a, c) + Count(b, c)
  {
    if a != [] {
      assert (a + b)[1..] == a[1..] + b;
      CountConcat(a[1..], b, c);
    } else {
      assert a + b == b;
    }
  }

  /** Python `s.replace(c, "")`: every `c` deleted, the rest kept in order. */
  function Remove(s: string, c: char): (r: string)
    ensures c !in r
    ensures |r| == |s| - Count(s, c)
  {
    if s == [] then []
    else if s[0] == c then Remove(s[1..], c)
    else [s[0]] + Remove(s[1..], c)
  }

  /** Removing a character changes no count but its own. */
  lemma {:induction false} RemoveKeepsOthers(s: string, c: char, x: char)
    requires x != c
    ensures Count(Remove(s, c), x) == Count(s, x)
  {
    if s != [] {
      RemoveKeepsOthers(s[1..], c, x);
      if s[0] != c {
        CountConcat([s[0]], Remove(s[1..], c), x);
      }
    }
  }

  /** Removing a character brings in no other character. */
  lemma {:induction false} RemoveKeepsAbsent(s: string, c: char, x: char)
    requires x !in s
    ensures x !in Remove(s, c)
  {
    if s != [] {
      assert x !in s[1..] by { assert forall k :: 0 <= k < |s[1..]| ==> s[1..][k] == s[k + 1]; }
      RemoveKeepsAbsent(s[1..], c, x);
    }
  }

  /** Removing a character that does not occur is the identity. */
  lemma {:induction false} RemoveAbsent(s: string, c: char)
    requires c !in s
    ensures Remove(s, c) == s
  {
    if s != [] {
      assert c !in s[1..] by { assert forall k :: 0 <= k < |s[1..]| ==> s[1..][k] == s[k + 1]; }
      RemoveAbsent(s[1..], c);
    }
  }

  /** Python `s.replace(c, rep)` for a one-character pattern: every `c` becomes `rep`. */
  function ReplaceChar(s: string, c: char, rep: string): (r: string)
    ensures c !in rep ==> c !in r
  {
    if s == [] then []
    else (if s[0] == c then rep else [s[0]]) + ReplaceChar(s[1..], c, rep)
  }

  lemma {:induction false} ReplaceCharConcat(a: string, b: string, c: char, rep: string)
    ensures ReplaceChar(a + b, c, rep) == ReplaceChar(a, c, rep) + ReplaceChar(b, c, rep)
  {
    if a != [] {
      assert (a + b)[1..] == a[1..] + b;
      ReplaceCharConcat(a[1..], b, c, rep);
    } else {
      assert a + b == b;
    }
  }

  /** Replacing a character that does not occur is the identity. */
  lemma {:induction false} ReplaceCharAbsent(s: string, c: char, rep: string)
    requires c !in s
    ensures ReplaceChar(s, c, rep) == s
  {
    if s != [] {
      assert c !in s[1..] by { assert forall k :: 0 <= k < |s[1..]| ==> s[1..][k] == s[k + 1]; }
      ReplaceCharAbsent(s[1..], c, rep);
    }
  }

  /** Every other character is kept: a character `x` other than `c` occurs in the
      result as often as in `s`, plus as often as `rep` holds it for each `c` replaced. */
  lemma {:induction false} ReplaceCharCount(s: string, c: char, rep: string, x: char)
    requires x != c
    ensures Count(ReplaceChar(s, c, rep), x) == Count(s, x) + Count(s, c) * Count(rep, x)
  {
    if s != [] {
      var head := if s[0] == c then rep else [s[0]];
      var tail := ReplaceChar(s[1..], c, rep);
      var n, m := Count(s[1..], c), Count(rep, x);
      ReplaceCharCount(s[1..], c, rep, x);
      CountConcat(head, tail, x);
      assert ReplaceChar(s, c, rep) == head + tail;
      if s[0] == c {
        calc {
          Count(ReplaceChar(s, c, rep), x);
        ==
          m + (Count(s[1..], x) + n * m);
        == { MulSucc(n, m); }
          Count(s, x) + (n + 1) * m;
        }
      } else {
        assert Count(s, c) == n;
      }
    }
  }

  /** The length grows by `|rep| - 1` for every `c` replaced. */
  lemma {:induction false} ReplaceCharLength(s: string, c: char, rep: string)
    ensures |ReplaceChar(s, c, rep)| == |s| + Count(s, c) * (|rep| - 1)
  {
    if s != [] {
      var n, d := Count(s[1..], c), |rep| - 1;
      ReplaceCharLength(s[1..], c, rep);
      if s[0] == c {
        MulSucc(n, d);
      }
    }
  }

  lemma MulSucc(n: int, m: int)
    ensures (n + 1) * m == m + n * m
  {
  }

  /** Python `s.lstrip()` (with this model's whitespace set). */
  function TrimStart(s: string): (r: string)
    ensures |r| <= |s| && r == s[|s| - |r|..]
    ensures forall k :: 0 <= k < |s| - |r| ==> IsSpace(s[k])
    ensures r == [] || !IsSpace(r[0])
  {
    if s != [] && IsSpace(s[0]) then
      var r := TrimStart(s[1..]);
      assert forall k :: 1 <= k < |s| - |r| ==> s[k] == s[1..][k - 1];
      r
    else s
  }

  /** Python `s.rstrip()` (with this model's whitespace set). */
  function TrimEnd(s: string): (r: string)
    ensures |r| <= |s| && r == s[..|r|]
    ensures forall k :: |r| <= k < |s| ==> IsSpace(s[k])
    ensures r == [] || !IsSpace(r[|r| - 1])
  {
    if s != [] && IsSpace(s[|s| - 1]) then
      var r := TrimEnd(s[..|s| - 1]);
      assert forall k :: |r| <= k < |s| - 1 ==> s[k] == s[..|s| - 1][k];
      r
    else s
  }

  /** Python `s.strip()`: the longest piece of `s` that neither starts nor ends with
      whitespace, obtained by dropping whitespace at both ends. */
  function Strip(s: string): (r: string)
    ensures NoSurroundingSpace(r)
    ensures IsTrimOf(r, s)
  {
    var t := TrimStart(s);
    var r := TrimEnd(t);
    StripBounds(s, t, r);
    r
  }

  /** Where the strip sits in `s`: right after the leading whitespace. */
  lemma StripBounds(s: string, t: string, r: string)
    requires |t| <= |s| && t == s[|s| - |t|..] && forall k :: 0 <= k < |s| - |t| ==> IsSpace(s[k])
    requires |r| <= |t| && r == t[..|r|] && forall k :: |r| <= k < |t| ==> IsSpace(t[k])
    ensures TrimmedAt(r, s, |s| - |t|, |s| - |t| + |r|)
  {
    var i := |s| - |t|;
    var j := i + |r|;
    assert r == s[i..j] by {
      assert t == s[i..] && r == t[..|r|];
      forall k | 0 <= k < |r|
        ensures r[k] == s[i..j][k]
      {
        assert r[k] == t[k];
      }
    }
    forall k | j <= k < |s|
      ensures IsSpace(s[k])
    {
      assert s[k] == t[k - i];
    }
  }

  /** Stripping brings in no character. */
  lemma StripKeepsAbsent(s: string, x: char)
    requires x !in s
    ensures x !in Strip(s)
  {
    var t := TrimStart(s);
    var r := TrimEnd(t);
    StripBounds(s, t, r);
  }

  /** A string without surrounding whitespace is its own strip. */
  lemma StripNoSurroundingSpace(s: string)
    requires NoSurroundingSpace(s)
    ensures Strip(s) == s
  {
  }

  /** Strip is determined by its two properties: whatever trims whitespace off the
      ends of `s` and is left with no surrounding whitespace is `Strip(s)`. */
  lemma StripUnique(s: string, r: string)
    requires IsTrimOf(r, s) && NoSurroundingSpace(r)
    ensures r == Strip(s)
  {
    var i, j :| TrimmedAt(r, s, i, j);
    var t := TrimStart(s);
    var q := TrimEnd(t);
    assert q == Strip(s);
    StripBounds(s, t, q);
    TrimmedAtUnique(s, r, i, j, q, |s| - |t|, |s| - |t| + |q|);
  }

  /** Two trims of `s` without surrounding whitespace are the same piece. */
  lemma TrimmedAtUnique(s: string, r: string, i: int, j: int, q: string, i': int, j': int)
    requires TrimmedAt(r, s, i, j) && NoSurroundingSpace(r)
    requires TrimmedAt(q, s, i', j') && NoSurroundingSpace(q)
    ensures r == q
  {
    if r != [] && q != [] {
      assert !IsSpace(s[i]) && !IsSpace(s[i']);
      assert i == i';
      assert !IsSpace(s[j - 1]) && !IsSpace(s[j' - 1]);
      assert j == j';
    }
  }

  /** Python `s.split(sep)` with an explicit one-character separator: the pieces
      between separators, including empty ones; the empty string gives `[""]`. */
  function Split(s: string, sep: char): (lines: seq<string>)
    ensures |lines| == Count(s, sep) + 1
    ensures forall k :: 0 <= k < |lines| ==> sep !in lines[k]
  {
    if s == [] then [[]]
    else
      var rest := Split(s[1..], sep);
      if s[0] == sep then [[]] + rest
      else [[s[0]] + rest[0]] + rest[1..]
  }

  /** Python `sep.join(lines)`. */
  function Join(lines: seq<string>, sep: char): string {
    if lines == [] then []
    else if |lines| == 1 then lines[0]
    else lines[0] + [sep] + Join(lines[1..], sep)
  }

  /** Joining brings in no character but the separator. */
  lemma {:induction false} JoinKeepsAbsent(lines: seq<string>, sep: char, x: char)
    requires x != sep && forall k :: 0 <= k < |lines| ==> x !in lines[k]
    ensures x !in Join(lines, sep)
  {
    if |lines| > 1 {
      JoinKeepsAbsent(lines[1..], sep, x);
    }
  }

  /** Joining the pieces of a split gives back the string. */
  lemma {:induction false} JoinSplit(s: string, sep: char)
    ensures Join(Split(s, sep), sep) == s
  {
    if s != [] {
      var rest := Split(s[1..], sep);
      JoinSplit(s[1..], sep);
      if s[0] == sep {
        assert ([[]] + rest)[1..] == rest;
        assert s == [] + [sep] + s[1..];
      } else {
        var lines := [[s[0]] + rest[0]] + rest[1..];
        assert lines[1..] == rest[1..];
        if |rest| > 1 {
          assert Join(rest, sep) == rest[0] + [sep] + Join(rest[1..], sep);
          assert Join(lines, sep) == [s[0]] + (rest[0] + [sep] + Join(rest[1..], sep));
        }
        assert s == [s[0]] + s[1..];
      }
    }
  }

  /** Splitting a join of separator-free pieces gives back the pieces. */
  lemma {:induction false} SplitJoin(lines: seq<string>, sep: char)
    requires |lines| >= 1
    requires forall k :: 0 <= k < |lines| ==> sep !in lines[k]
    ensures Split(Join(lines, sep), sep) == lines
  {
    if |lines| == 1 {
      SplitPiece(lines[0], sep);
    } else {
      SplitJoin(lines[1..], sep);
      SplitSeparatorPrefix(lines[0], sep, Join(lines[1..], sep));
      assert lines == [lines[0]] + lines[1..];
    }
  }

  /** A separator-free string splits into itself. */
  lemma {:induction false} SplitPiece(s: string, sep: char)
    requires sep !in s
    ensures Split(s, sep) == [s]
  {
    if s != [] {
      assert sep !in s[1..] by { assert forall k :: 0 <= k < |s[1..]| ==> s[1..][k] == s[k + 1]; }
      SplitPiece(s[1..], sep);
      assert s == [s[0]] + s[1..];
    }
  }

  /** A separator-free piece followed by a separator becomes the first line. */
  lemma {:induction false} SplitSeparatorPrefix(p: string, sep: char, t: string)
    requires sep !in p
    ensures Split(p + [sep] + t, sep) == [p] + Split(t, sep)
  {
    var s := p + [sep] + t;
    if p == [] {
      assert s[1..] == t;
    } else {
      assert sep !in p[1..] by { assert forall k :: 0 <= k < |p[1..]| ==> p[1..][k] == p[k + 1]; }
      SplitSeparatorPrefix(p[1..], sep, t);
      assert s[1..] == p[1..] + [sep] + t;
      assert p == [p[0]] + p[1..];
    }
  }

  /** The pieces written one after another (Python `"".join(pieces)`, or an f-string). */
  function Concat(pieces: seq<string>): string {
    if pieces == [] then [] else pieces[0] + Concat(pieces[1..])
  }

  /** A substring of `s` is a substring of anything that extends `s` at the front. */
  lemma SubstringBehind(t: string, u: string, s: string)
    requires IsSubstring(t, s)
    ensures IsSubstring(t, u + s)
  {
    var i :| 0 <= i <= |s| && t <= s[i..];
    assert (u + s)[|u| + i..] == s[i..];
  }

  /** Every piece occurs in the concatenation. */
  lemma {:induction false} ConcatHoldsPiece(pieces: seq<string>, k: nat)
    requires k < |pieces|
    ensures IsSubstring(pieces[k], Concat(pieces))
  {
    if k == 0 {
      assert pieces[0] <= Concat(pieces)[0..];
    } else {
      ConcatHoldsPiece(pieces[1..], k - 1);
      SubstringBehind(pieces[k], pieces[0], Concat(pieces[1..]));
    }
  }

  /** Two neighbouring pieces occur, together, in the concatenation. */
  lemma {:induction false} ConcatHoldsAdjacent(pieces: seq<string>, k: nat)
    requires k + 1 < |pieces|
    ensures IsSubstring(pieces[k] + pieces[k + 1], Concat(pieces))
  {
    if k == 0 {
      var rest := Concat(pieces[2..]);
      assert Concat(pieces[1..]) == pieces[1] + rest;
      assert Concat(pieces) == pieces[0] + (pieces[1] + rest);
      assert pieces[0] + pieces[1] <= Concat(pieces)[0..];
    } else {
      ConcatHoldsAdjacent(pieces[1..], k - 1);
      SubstringBehind(pieces[k] + pieces[k + 1], pieces[0], Concat(pieces[1..]));
    }
  }

  /** Python `s.startswith(p)`. */
  predicate StartsWith(s: string, p: string) {
    |p| <= |s| && s[..|p|] == p
  }
}
