/** The Python string operations the converter relies on:
    `str.strip()`, `str.split(sep)`, `sep.join(pieces)` and substring search. */
module Strings {

  /** Python's `str.isspace` for one character: the ASCII separators and
      control characters 0x1c-0x1f, NEL, no-break space and the Unicode
      space separators. */
  predicate IsSpace(c: char) {
    c in {' ', '\t', '\n', '\r', '\U{0B}', '\U{0C}', '\U{1C}', '\U{1D}', '\U{1E}', '\U{1F}',
          '\U{85}', '\U{A0}', '\U{1680}', '\U{2000}', '\U{2001}', '\U{2002}', '\U{2003}',
          '\U{2004}', '\U{2005}', '\U{2006}', '\U{2007}', '\U{2008}', '\U{2009}', '\U{200A}',
          '\U{2028}', '\U{2029}', '\U{202F}', '\U{205F}', '\U{3000}'}
  }

  /** `s.lstrip()`: drops the leading whitespace and nothing else. */
  function TrimStart(s: string): (r: string)
    ensures |r| <= |s| && r == s[|s| - |r|..]
    ensures forall i :: 0 <= i < |s| - |r| ==> IsSpace(s[i])
    ensures r == [] || !IsSpace(r[0])
    decreases |s|
  {
    if s != [] && IsSpace(s[0]) then TrimStart(s[1..]) else s
  }

  /** `s.rstrip()`: drops the trailing whitespace and nothing else. */
  function TrimEnd(s: string): (r: string)
    ensures |r| <= |s| && r == s[..|r|]
    ensures forall i :: |r| <= i < |s| ==> IsSpace(s[i])
    ensures r == [] || !IsSpace(r[|r| - 1])
    decreases |s|
  {
    if s != [] && IsSpace(s[|s| - 1]) then TrimEnd(s[..|s| - 1]) else s
  }

  /** `s.strip()`: the infix of `s` left once whitespace is removed from
      both ends; it neither starts nor ends with whitespace. */
  function Strip(s: string): (r: string)
    ensures exists k :: StrippedAt(s, k, r)
    ensures r == [] || (!IsSpace(r[0]) && !IsSpace(r[|r| - 1]))
  {
    var t := TrimStart(s);
    var r := TrimEnd(t);
    var k := |s| - |t|;
    assert StrippedAt(s, k, r);
    r
  }

  /** `r` is the infix of `s` at offset `k`, and everything of `s` outside
      that infix is whitespace. */
  predicate StrippedAt(s: string, k: int, r: string) {
    && 0 <= k <= k + |r| <= |s|
    && r == s[k..k + |r|]
    && (forall i :: 0 <= i < k ==> IsSpace(s[i]))
    && (forall i :: k + |r| <= i < |s| ==> IsSpace(s[i]))
  }

  /** Stripping twice is stripping once. */
  lemma StripIdempotent(s: string)
    ensures Strip(Strip(s)) == Strip(s)
  {
    var r := Strip(s);
    assert TrimStart(r) == r;
    assert TrimEnd(r) == r;
  }

  /** `p` is a prefix of `s`. */
  predicate IsPrefix(p: string, s: string) {
    |p| <= |s| && s[..|p|] == p
  }

  /** `sep in s`: some position of `s` starts an occurrence of `sep`. */
  predicate Contains(s: string, sep: string)
    decreases |s|
  {
    IsPrefix(sep, s) || (s != [] && Contains(s[1..], sep))
  }

  /** `s.split(sep)` for a non-empty separator: cuts `s` at the leftmost
      non-overlapping occurrences of `sep`, scanning left to right. */
  function Split(s: string, sep: string): (r: seq<string>)
    requires sep != []
    ensures |r| >= 1
    decreases |s|
  {
    if s == [] then [""]
    else if IsPrefix(sep, s) then [""] + Split(s[|sep|..], sep)
    else
      var rest := Split(s[1..], sep);
      [[s[0]] + rest[0]] + rest[1..]
  }

  /** `sep.join(xs)`. */
  function Join(xs: seq<string>, sep: string): string
  {
    if |xs| == 0 then ""
    else if |xs| == 1 then xs[0]
    else xs[0] + sep + Join(xs[1..], sep)
  }

  /** `"".join(xs)`: the pieces one after another. */
  function Concat(xs: seq<string>): string
  {
    if xs == [] then "" else xs[0] + Concat(xs[1..])
  }

  lemma ConcatAppend(a: seq<string>, b: seq<string>)
    ensures Concat(a + b) == Concat(a) + Concat(b)
  {
    if a != [] {
      assert (a + b)[0] == a[0];
      assert (a + b)[1..] == a[1..] + b;
      ConcatAppend(a[1..], b);
    } else {
      assert a + b == b;
    }
  }

  /** A string that neither starts nor ends with whitespace. */
  predicate Trimmed(s: string) {
    s == [] || (!IsSpace(s[0]) && !IsSpace(s[|s| - 1]))
  }

  /** Pieces that are each trimmed concatenate to a trimmed string: the
      empty ones add nothing, and the others bring their own ends. */
  lemma {:induction false} ConcatTrimmed(xs: seq<string>)
    requires forall i :: 0 <= i < |xs| ==> Trimmed(xs[i])
    ensures Trimmed(Concat(xs))
  {
    if xs != [] {
      ConcatTrimmed(xs[1..]);
      var rest := Concat(xs[1..]);
      assert Concat(xs) == xs[0] + rest;
      assert Trimmed(xs[0]);
    }
  }

  /** Joining the pieces of a split with the same separator gives back the
      original string. */
  lemma {:induction false} JoinSplit(s: string, sep: string)
    requires sep != []
    ensures Join(Split(s, sep), sep) == s
    decreases |s|
  {
    if s == [] {
    } else if IsPrefix(sep, s) {
      var rest := Split(s[|sep|..], sep);
      JoinSplit(s[|sep|..], sep);
      assert Split(s, sep) == [""] + rest;
      assert ([""] + rest)[1..] == rest;
      assert s == sep + s[|sep|..];
    } else {
      var rest := Split(s[1..], sep);
      JoinSplit(s[1..], sep);
      var r := [[s[0]] + rest[0]] + rest[1..];
      assert Split(s, sep) == r;
      if |rest| == 1 {
        assert s == [s[0]] + s[1..];
      } else {
        assert r[1..] == rest[1..];
        assert Join(rest, sep) == rest[0] + sep + Join(rest[1..], sep);
        assert s == [s[0]] + s[1..];
      }
    }
  }

  /** No piece of a split contains the separator: every occurrence was cut. */
  lemma {:induction false} SplitPiecesFree(s: string, sep: string)
    requires sep != []
    ensures forall i :: 0 <= i < |Split(s, sep)| ==> !Contains(Split(s, sep)[i], sep)
    decreases |s|
  {
    if s == [] {
      assert !IsPrefix(sep, "");
    } else if IsPrefix(sep, s) {
      SplitPiecesFree(s[|sep|..], sep);
      var rest := Split(s[|sep|..], sep);
      assert Split(s, sep) == [""] + rest;
      assert !IsPrefix(sep, "");
    } else {
      SplitPiecesFree(s[1..], sep);
      var rest := Split(s[1..], sep);
      var first := [s[0]] + rest[0];
      assert Split(s, sep) == [first] + rest[1..];
      assert first[1..] == rest[0];
      JoinSplit(s[1..], sep);
      assert IsPrefix(first, s) by {
        if |rest| > 1 {
          assert Join(rest, sep) == rest[0] + sep + Join(rest[1..], sep);
        }
        assert s == [s[0]] + Join(rest, sep);
      }
      if IsPrefix(sep, first) {
        assert false;
      }
      assert !Contains(first, sep);
    }
  }

  /** A string without the separator splits into itself alone. */
  lemma {:induction false} SplitWithoutSeparator(s: string, sep: string)
    requires sep != []
    requires !Contains(s, sep)
    ensures Split(s, sep) == [s]
    decreases |s|
  {
    if s != [] {
      SplitWithoutSeparator(s[1..], sep);
      assert s == [s[0]] + s[1..];
    }
  }

  /** Splitting on one character undoes a join whose pieces do not contain
      that character. */
  lemma {:induction false} SplitJoin(xs: seq<string>, c: char)
    requires |xs| >= 1
    requires forall i :: 0 <= i < |xs| ==> c !in xs[i]
    ensures Split(Join(xs, [c]), [c]) == xs
    decreases |xs|
  {
    if |xs| == 1 {
      NoCharNoContains(xs[0], c);
      SplitWithoutSeparator(xs[0], [c]);
    } else {
      SplitJoin(xs[1..], c);
      var tail := [c] + Join(xs[1..], [c]);
      assert Join(xs, [c]) == xs[0] + tail;
      assert Split(tail, [c]) == [""] + xs[1..] by {
        assert IsPrefix([c], tail);
        assert tail[1..] == Join(xs[1..], [c]);
      }
      SplitAfterPlainPrefix(xs[0], tail, c);
      assert ([""] + xs[1..])[1..] == xs[1..];
      assert xs[0] + "" == xs[0];
      assert [xs[0]] + xs[1..] == xs;
    }
  }

  lemma NoCharNoContains(s: string, c: char)
    requires c !in s
    ensures !Contains(s, [c])
    decreases |s|
  {
    if s != [] {
      assert s[0] in s;
      NoCharNoContains(s[1..], c);
    }
  }

  /** For a one-character separator, `Contains` is plain membership. */
  lemma {:induction false} CharContains(s: string, c: char)
    requires c in s
    ensures Contains(s, [c])
    decreases |s|
  {
    if s[0] != c {
      assert c in s[1..] by {
        var k :| 0 <= k < |s| && s[k] == c;
        assert s[1..][k - 1] == c;
      }
      CharContains(s[1..], c);
    }
  }

  /** A prefix free of the separator character glues onto the first piece. */
  lemma {:induction false} SplitAfterPlainPrefix(a: string, t: string, c: char)
    requires c !in a
    requires IsPrefix([c], t)
    ensures Split(a + t, [c]) == [a + Split(t, [c])[0]] + Split(t, [c])[1..]
    decreases |a|
  {
    var st := Split(t, [c]);
    if a == [] {
      assert a + t == t;
      assert "" + st[0] == st[0];
      assert [st[0]] + st[1..] == st;
    } else {
      assert a[0] in a;
      var s := a + t;
      assert s != [] && s[0] == a[0];
      assert !IsPrefix([c], s);
      assert s[1..] == a[1..] + t;
      SplitAfterPlainPrefix(a[1..], t, c);
      assert [a[0]] + (a[1..] + Split(t, [c])[0]) == a + Split(t, [c])[0];
    }
  }
}
