/**
 The handful of Python built-ins that the data-management helpers rely on,
 stated over `string` (= `seq<char>`): `str.strip(chars)`, `str.split(sep)`
 for a one-character separator, `str.find(sub)`, and sequence indexing with
 Python's negative indices. Errors that Python raises are values of `PyError`.
 */
module Py {

  datatype Option<T> = None | Some(value: T)

  /** The Python exceptions the modelled code can raise. */
  datatype PyError =
    | IndexError         // `s[-1]`, `s[0]` on an empty string, a list index out of range
    | TypeError          // `str + None`
    | NameError          // a global name that is never defined
    | UnboundLocalError  // a local read before any assignment

  datatype Result<T> = Ok(value: T) | Err(error: PyError)

  // ---------------------------------------------------------------------------
  // str.strip(chars): `chars` is a SET of characters, removed from both ends.
  // CPython scans forward from the start past characters of `chars`, then
  // backward from the end down to that point, and returns the slice between.

  /** The forward scan from `i`: the first index at or after `i` whose character is not in `chars`. */
  function LeadingEnd(s: string, chars: string, i: nat): (e: nat)
    requires i <= |s|
    ensures i <= e <= |s|
    ensures forall k :: i <= k < e ==> s[k] in chars
    ensures e < |s| ==> s[e] !in chars
    decreases |s| - i
  {
    if i < |s| && s[i] in chars then LeadingEnd(s, chars, i + 1) else i
  }

  /** The backward scan from `j` down to `i`: the end of the last character before `j` not in `chars`. */
  function TrailingStart(s: string, chars: string, i: nat, j: nat): (b: nat)
    requires i <= j <= |s|
    ensures i <= b <= j
    ensures forall k :: b <= k < j ==> s[k] in chars
    ensures i < b ==> s[b - 1] !in chars
    decreases j
  {
    if i < j && s[j - 1] in chars then TrailingStart(s, chars, i, j - 1) else j
  }

  /** `s.strip(chars)`: the slice between the two scans. */
  function Strip(s: string, chars: string): (r: string)
    ensures |r| <= |s|
    ensures r != [] ==> r[0] !in chars && r[|r| - 1] !in chars
  {
    var i := LeadingEnd(s, chars, 0);
    s[i..TrailingStart(s, chars, i, |s|)]
  }

  /**
   `s[i..j]` is what survives stripping: everything before `i` and from `j` on
   is in `chars`, and a non-empty window starts and ends outside `chars`.
   */
  ghost predicate IsStripWindow(s: string, chars: string, i: int, j: int)
  {
    && 0 <= i <= j <= |s|
    && (forall k :: 0 <= k < i ==> s[k] in chars)
    && (forall k :: j <= k < |s| ==> s[k] in chars)
    && (i < j ==> s[i] !in chars && s[j - 1] !in chars)
  }

  /** `Strip` keeps exactly a strip window: a contiguous slice, trimmed only at the ends. */
  lemma StripIsWindow(s: string, chars: string)
    ensures var i := LeadingEnd(s, chars, 0);
            var j := TrailingStart(s, chars, i, |s|);
            IsStripWindow(s, chars, i, j) && Strip(s, chars) == s[i..j]
  {
  }

  /** A strip window is empty exactly when every character of `s` is in `chars`. */
  lemma StripWindowEmpty(s: string, chars: string, i: int, j: int)
    requires IsStripWindow(s, chars, i, j)
    ensures i == j <==> forall k :: 0 <= k < |s| ==> s[k] in chars
  {
    if i < j {
      assert s[i] !in chars;
    }
  }

  /** Two strip windows of one string hold the same slice. */
  lemma StripWindowsAgree(s: string, chars: string, i: int, j: int, i': int, j': int)
    requires IsStripWindow(s, chars, i, j) && IsStripWindow(s, chars, i', j')
    ensures s[i..j] == s[i'..j']
  {
    StripWindowEmpty(s, chars, i, j);
    StripWindowEmpty(s, chars, i', j');
    if i < j {
      assert s[i] !in chars && s[i'] !in chars;
      assert s[j - 1] !in chars && s[j' - 1] !in chars;
      assert i == i' && j == j';
    }
  }

  /** Any strip window of `s` holds exactly `Strip(s, chars)`. */
  lemma StripWindowUnique(s: string, chars: string, i: int, j: int)
    requires IsStripWindow(s, chars, i, j)
    ensures s[i..j] == Strip(s, chars)
  {
    StripIsWindow(s, chars);
    var i0 := LeadingEnd(s, chars, 0);
    StripWindowsAgree(s, chars, i, j, i0, TrailingStart(s, chars, i0, |s|));
  }

  /** The two directions together: `t` is the strip of `s` iff `t` is some strip window of `s`. */
  lemma StripCharacterization(s: string, chars: string, t: string)
    ensures t == Strip(s, chars) <==>
            exists i, j :: IsStripWindow(s, chars, i, j) && t == s[i..j]
  {
    StripIsWindow(s, chars);
    forall i, j | IsStripWindow(s, chars, i, j) ensures s[i..j] == Strip(s, chars) {
      StripWindowUnique(s, chars, i, j);
    }
  }

  /**
   Padding made only of characters of `chars` around a string whose ends lie
   outside `chars` is exactly what stripping removes.
   */
  lemma StripPadded(p: string, m: string, q: string, chars: string)
    requires forall k :: 0 <= k < |p| ==> p[k] in chars
    requires forall k :: 0 <= k < |q| ==> q[k] in chars
    requires m != [] ==> m[0] !in chars && m[|m| - 1] !in chars
    ensures Strip(p + m + q, chars) == m
  {
    var s := p + m + q;
    forall k | 0 <= k < |p| ensures s[k] in chars {
      assert s[k] == p[k];
    }
    forall k | |p| + |m| <= k < |s| ensures s[k] in chars {
      assert s[k] == q[k - |p| - |m|];
    }
    if m != [] {
      assert s[|p|] == m[0] && s[|p| + |m| - 1] == m[|m| - 1];
    }
    assert s[|p|..|p| + |m|] == m;
    StripWindowUnique(s, chars, |p|, |p| + |m|);
  }

  /** A string whose ends lie outside `chars` is left as it is. */
  lemma StripStable(s: string, chars: string)
    requires s != [] ==> s[0] !in chars && s[|s| - 1] !in chars
    ensures Strip(s, chars) == s
  {
    assert [] + s + [] == s;
    StripPadded([], s, [], chars);
  }

  /** `s[i..j]` survives a strip with `a` followed by a strip with `b`. */
  ghost predicate IsTwoStripWindow(s: string, a: string, b: string, i: int, j: int)
  {
    && 0 <= i <= j <= |s|
    && (forall k :: 0 <= k < i ==> s[k] in a || s[k] in b)
    && (forall k :: j <= k < |s| ==> s[k] in a || s[k] in b)
  }

  /** A strip window inside a strip window is a window of the whole string. */
  lemma NestedWindow(s: string, a: string, b: string, i1: int, j1: int, i2: int, j2: int)
    requires IsStripWindow(s, a, i1, j1) && IsStripWindow(s[i1..j1], b, i2, j2)
    ensures IsTwoStripWindow(s, a, b, i1 + i2, i1 + j2)
    ensures s[i1..j1][i2..j2] == s[i1 + i2..i1 + j2]
  {
    var m := s[i1..j1];
    assert m[i2..j2] == s[i1 + i2..i1 + j2] by {
      forall k | 0 <= k < j2 - i2 ensures m[i2..j2][k] == s[i1 + i2..i1 + j2][k] {
        assert m[i2 + k] == s[i1 + i2 + k];
      }
    }
    forall k | i1 <= k < i1 + i2 ensures s[k] in b {
      assert s[k] == m[k - i1];
    }
    forall k | i1 + j2 <= k < j1 ensures s[k] in b {
      assert s[k] == m[k - i1];
    }
  }

  /** Two strips in a row keep one contiguous slice; everything cut off lies in one of the two sets. */
  lemma StripTwiceIsSlice(s: string, a: string, b: string)
    ensures exists i, j :: IsTwoStripWindow(s, a, b, i, j) && Strip(Strip(s, a), b) == s[i..j]
  {
    var i1 := LeadingEnd(s, a, 0);
    var j1 := TrailingStart(s, a, i1, |s|);
    StripIsWindow(s, a);
    var m := s[i1..j1];
    var i2 := LeadingEnd(m, b, 0);
    var j2 := TrailingStart(m, b, i2, |m|);
    StripIsWindow(m, b);
    NestedWindow(s, a, b, i1, j1, i2, j2);
  }

  /** Stripping twice with the same set changes nothing more. */
  lemma StripIdempotent(s: string, chars: string)
    ensures Strip(Strip(s, chars), chars) == Strip(s, chars)
  {
    StripStable(Strip(s, chars), chars);
  }

  // ---------------------------------------------------------------------------
  // str.split(sep) for a one-character separator, and its inverse sep.join.

  /** `sep.join(parts)`. */
  function Join(parts: seq<string>, sep: char): (r: string)
    requires |parts| >= 1
    ensures |r| >= |parts| - 1
  {
    if |parts| == 1 then parts[0] else parts[0] + [sep] + Join(parts[1..], sep)
  }

  /** `s.split(sep)`: the maximal sep-free pieces between separators, left to right. */
  function Split(s: string, sep: char): (r: seq<string>)
    ensures |r| >= 1
    ensures forall k :: 0 <= k < |r| ==> sep !in r[k]
    ensures |r| >= 2 <==> sep in s
  {
    if s == [] then [[]]
    else
      var rest := Split(s[1..], sep);
      if s[0] == sep then [[]] + rest
      else [[s[0]] + rest[0]] + rest[1..]
  }

  /** The pieces of `c + t`, from the pieces of `t`: a separator opens an empty piece, anything else extends the first. */
  function ConsPieces(c: char, rest: seq<string>, sep: char): seq<string>
    requires |rest| >= 1
  {
    if c == sep then [[]] + rest else [[c] + rest[0]] + rest[1..]
  }

  /** Splitting `c + t` adds `c` in front of the pieces of `t`. */
  lemma SplitCons(c: char, t: string, sep: char)
    ensures Split([c] + t, sep) == ConsPieces(c, Split(t, sep), sep)
  {
    assert ([c] + t)[1..] == t;
  }

  /** Joining the pieces of `c + t` puts `c` in front of the join of the pieces of `t`. */
  lemma JoinCons(c: char, rest: seq<string>, sep: char)
    requires |rest| >= 1
    ensures Join(ConsPieces(c, rest, sep), sep) == [c] + Join(rest, sep)
  {
    var parts := ConsPieces(c, rest, sep);
    if c == sep {
      assert parts[1..] == rest;
    } else if |rest| > 1 {
      assert parts[1..] == rest[1..];
      assert Join(rest, sep) == rest[0] + [sep] + Join(rest[1..], sep);
    }
  }

  /** Joining the pieces of a split puts the string back together. */
  lemma {:induction false} JoinSplit(s: string, sep: char)
    ensures Join(Split(s, sep), sep) == s
  {
    if s != [] {
      assert s == [s[0]] + s[1..];
      JoinSplit(s[1..], sep);
      SplitCons(s[0], s[1..], sep);
      JoinCons(s[0], Split(s[1..], sep), sep);
    }
  }

  /** Joining one more piece appends a separator and that piece. */
  lemma {:induction false} JoinSnoc(parts: seq<string>, x: string, sep: char)
    requires |parts| >= 1
    ensures Join(parts + [x], sep) == Join(parts, sep) + [sep] + x
  {
    if |parts| > 1 {
      assert (parts + [x])[1..] == parts[1..] + [x];
      JoinSnoc(parts[1..], x, sep);
    }
  }

  /**
   `s` ends with the pieces `u`, `sep`, `f`: both separator-free, and `u`
   either starts `s` or follows another separator.
   */
  ghost predicate EndsWithPieces(s: string, sep: char, u: string, f: string)
  {
    && sep !in u && sep !in f
    && |u| + |f| + 1 <= |s|
    && s[|s| - |f| - |u| - 1..] == u + [sep] + f
    && (|s| == |u| + |f| + 1 || s[|s| - |f| - |u| - 2] == sep)
  }

  /** A join `s` of two or more separator-free pieces ends with its last two pieces. */
  lemma JoinLastTwo(parts: seq<string>, sep: char, s: string)
    requires |parts| >= 2
    requires forall k :: 0 <= k < |parts| ==> sep !in parts[k]
    requires Join(parts, sep) == s
    ensures EndsWithPieces(s, sep, parts[|parts| - 2], parts[|parts| - 1])
  {
    var n := |parts|;
    var u, f := parts[n - 2], parts[n - 1];
    var q := parts[..n - 1];
    assert parts == q + [f];
    JoinSnoc(q, f, sep);
    if n == 2 {
      assert q == [u];
      PiecesAlone(u, sep, f);
    } else {
      var p := q[..n - 2];
      assert q == p + [u];
      JoinSnoc(p, u, sep);
      PiecesAfterHead(Join(p, sep), sep, u, f);
    }
  }

  /** Two separator-free pieces around one separator. */
  lemma PiecesAlone(u: string, sep: char, f: string)
    requires sep !in u && sep !in f
    ensures EndsWithPieces(u + [sep] + f, sep, u, f)
  {
    var s := u + [sep] + f;
    assert s[|s| - |f| - |u| - 1..] == s;
  }

  /** A separator between a head and the last two pieces marks where they start. */
  lemma PiecesAfterHead(head: string, sep: char, u: string, f: string)
    requires sep !in u && sep !in f
    ensures EndsWithPieces(head + [sep] + u + [sep] + f, sep, u, f)
  {
    var s := head + [sep] + u + [sep] + f;
    assert s[|s| - |f| - |u| - 1..] == u + [sep] + f;
    assert s[|s| - |f| - |u| - 2] == sep;
  }

  /** `(s.split(sep)[-2], s.split(sep)[-1])`, defined whenever `s` holds a separator. */
  function LastTwoPieces(s: string, sep: char): (r: (string, string))
    requires sep in s
    ensures EndsWithPieces(s, sep, r.0, r.1)
  {
    var parts := Split(s, sep);
    JoinSplit(s, sep);
    JoinLastTwo(parts, sep, s);
    (parts[|parts| - 2], parts[|parts| - 1])
  }

  /** What `EndsWithPieces` says, position by position. */
  lemma EndsWithPiecesAt(s: string, sep: char, u: string, f: string)
    requires EndsWithPieces(s, sep, u, f)
    ensures s[|s| - |f|..] == f && s[|s| - |f| - |u| - 1..|s| - |f| - 1] == u
    ensures s[|s| - |f| - 1] == sep
    ensures forall k :: |s| - |f| <= k < |s| ==> s[k] != sep
    ensures forall k :: |s| - |f| - |u| - 1 <= k < |s| - |f| - 1 ==> s[k] != sep
  {
    var w := s[|s| - |f| - |u| - 1..];
    assert w[|u|] == sep;
    forall k | |s| - |f| <= k < |s| ensures s[k] != sep {
      assert s[k] == f[k - (|s| - |f|)];
    }
    forall k | |s| - |f| - |u| - 1 <= k < |s| - |f| - 1 ensures s[k] != sep {
      assert s[k] == u[k - (|s| - |f| - |u| - 1)];
    }
  }

  /** The last two pieces of a string are determined by the string. */
  lemma EndsWithPiecesUnique(s: string, sep: char, u: string, f: string, u': string, f': string)
    requires EndsWithPieces(s, sep, u, f) && EndsWithPieces(s, sep, u', f')
    ensures u == u' && f == f'
  {
    EndsWithPiecesAt(s, sep, u, f);
    EndsWithPiecesAt(s, sep, u', f');
    assert |f| == |f'|;
    assert |u| == |u'|;
  }

  // ---------------------------------------------------------------------------
  // str.find(sub)

  /** `sub` occurs in `s` at index `i`. */
  ghost predicate OccursAt(s: string, sub: string, i: int)
  {
    0 <= i && i + |sub| <= |s| && s[i..i + |sub|] == sub
  }

  /** `s.find(sub, start)`: the lowest index from `start` on where `sub` occurs, or -1. */
  function FindFrom(s: string, sub: string, start: nat): (r: int)
    decreases |s| - start
    ensures r == -1 || (start <= r && OccursAt(s, sub, r))
    ensures r == -1 <==> forall i :: start <= i ==> !OccursAt(s, sub, i)
    ensures r != -1 ==> forall i :: start <= i < r ==> !OccursAt(s, sub, i)
  {
    if start + |sub| > |s| then -1
    else if s[start..start + |sub|] == sub then start
    else FindFrom(s, sub, start + 1)
  }

  /** `s.find(sub)`. */
  function Find(s: string, sub: string): (r: int)
    ensures r != -1 <==> exists i :: OccursAt(s, sub, i)
    ensures r != -1 ==> OccursAt(s, sub, r) && forall i :: 0 <= i < r ==> !OccursAt(s, sub, i)
  {
    FindFrom(s, sub, 0)
  }

  /** `sub in s` for strings. */
  predicate Contains(s: string, sub: string)
  {
    Find(s, sub) != -1
  }

  // ---------------------------------------------------------------------------
  // Sequence indexing `xs[n]` with Python's negative indices.

  /** `xs[n]`: negative `n` counts from the end; anything else out of range is an IndexError. */
  function PyIndex<T>(xs: seq<T>, n: int): (r: Result<T>)
    ensures r.Ok? <==> -|xs| <= n < |xs|
    ensures r.Err? ==> r.error == IndexError
    ensures r.Ok? && 0 <= n ==> r.value == xs[n]
    ensures r.Ok? && n < 0 ==> r.value == xs[|xs| + n]
  {
    if 0 <= n < |xs| then Ok(xs[n])
    else if -|xs| <= n < 0 then Ok(xs[|xs| + n])
    else Err(IndexError)
  }

  /** An index from the end and the matching index from the start pick the same element. */
  lemma PyIndexFromEnd<T>(xs: seq<T>, k: int)
    requires 0 <= k < |xs|
    ensures PyIndex(xs, k - |xs|) == PyIndex(xs, k) == Ok(xs[k])
  {
  }
}
