/**
 * String operations the server relies on: `String.prototype.split` with a
 * literal separator, `replace` with a global literal pattern, and `trim`.
 */
module Text {

  /** JavaScript's WhiteSpace and LineTerminator code points, as removed by `trim`. */
  predicate IsWhiteSpace(c: char)
  {
    c == ' ' || c == '\t' || c == '\n' || c == '\r' || c == '\U{000B}' || c == '\U{000C}'
    || c == '\U{00A0}' || c == '\U{1680}' || ('\U{2000}' <= c <= '\U{200A}')
    || c == '\U{2028}' || c == '\U{2029}' || c == '\U{202F}' || c == '\U{205F}'
    || c == '\U{3000}' || c == '\U{FEFF}'
  }

  /** `p` occurs in `s` at position `i`. */
  predicate OccursAt(s: string, p: string, i: nat)
  {
    i + |p| <= |s| && s[i..i + |p|] == p
  }

  /** `p` occurs somewhere in `s`. */
  predicate Contains(s: string, p: string)
  {
    exists i: nat | i <= |s| :: OccursAt(s, p, i)
  }

  /**
   * `s.split(p)` for a non-empty literal separator: the pieces between the
   * occurrences of `p` found scanning left to right.
   */
  function Split(s: string, p: string): (pieces: seq<string>)
    requires p != []
    ensures |pieces| >= 1
    decreases |s|
  {
    if |s| < |p| then [s]
    else if s[..|p|] == p then [[]] + Split(s[|p|..], p)
    else
      var rest := Split(s[1..], p);
      [[s[0]] + rest[0]] + rest[1..]
  }

  /** `pieces.join(sep)`. */
  function Join(pieces: seq<string>, sep: string): string
  {
    if |pieces| == 0 then []
    else if |pieces| == 1 then pieces[0]
    else pieces[0] + sep + Join(pieces[1..], sep)
  }

  /**
   * `s.replace(/p/g, r)` for a literal pattern `p` and a replacement without
   * `$` patterns: scan left to right, replacing each occurrence found.
   */
  function ReplaceAll(s: string, p: string, r: string): (t: string)
    requires p != []
    ensures r == p ==> t == s
    decreases |s|
  {
    if |s| < |p| then s
    else if s[..|p|] == p then
      assert s == p + s[|p|..];
      r + ReplaceAll(s[|p|..], p, r)
    else
      assert s == [s[0]] + s[1..];
      [s[0]] + ReplaceAll(s[1..], p, r)
  }

  /** Joining with a separator distributes over a first piece extended by one character. */
  lemma JoinConsChar(c: char, pieces: seq<string>, sep: string)
    requires |pieces| >= 1
    ensures Join([[c] + pieces[0]] + pieces[1..], sep) == [c] + Join(pieces, sep)
  {
    var q := [[c] + pieces[0]] + pieces[1..];
    if |pieces| > 1 {
      assert q[1..] == pieces[1..];
    }
  }

  /** Splitting and joining again with the same separator gives back the string. */
  lemma {:induction false} SplitJoin(s: string, p: string)
    requires p != []
    ensures Join(Split(s, p), p) == s
    decreases |s|
  {
    if |s| < |p| {
      assert Split(s, p) == [s];
    } else if s[..|p|] == p {
      SplitJoin(s[|p|..], p);
      var rest := Split(s[|p|..], p);
      assert ([[]] + rest)[1..] == rest;
      assert Join([[]] + rest, p) == [] + p + Join(rest, p);
      assert s == p + s[|p|..];
    } else {
      SplitJoin(s[1..], p);
      JoinConsChar(s[0], Split(s[1..], p), p);
      assert s == [s[0]] + s[1..];
    }
  }

  /** Replacing every occurrence is joining the split pieces with the replacement. */
  lemma {:induction false} ReplaceAllIsSplitJoin(s: string, p: string, r: string)
    requires p != []
    ensures ReplaceAll(s, p, r) == Join(Split(s, p), r)
    decreases |s|
  {
    if |s| < |p| {
      assert Split(s, p) == [s];
    } else if s[..|p|] == p {
      ReplaceAllIsSplitJoin(s[|p|..], p, r);
      var rest := Split(s[|p|..], p);
      assert ([[]] + rest)[1..] == rest;
      assert Join([[]] + rest, r) == [] + r + Join(rest, r);
    } else {
      ReplaceAllIsSplitJoin(s[1..], p, r);
      JoinConsChar(s[0], Split(s[1..], p), r);
    }
  }

  /** A string in which the pattern's first character never appears is left as it is. */
  lemma {:induction false} ReplaceAllUntouched(s: string, p: string, r: string)
    requires p != [] && p[0] !in s
    ensures ReplaceAll(s, p, r) == s
    decreases |s|
  {
    if |s| >= |p| {
      assert s[..|p|][0] != p[0];
      ReplaceAllUntouched(s[1..], p, r);
      assert s == [s[0]] + s[1..];
    }
  }

  /** Text in front that cannot start the pattern is copied as it is. */
  lemma {:induction false} ReplaceAllSkips(a: string, b: string, p: string, r: string)
    requires p != [] && p[0] !in a
    ensures ReplaceAll(a + b, p, r) == a + ReplaceAll(b, p, r)
    decreases |a|
  {
    if a != [] {
      var s := a + b;
      if |s| < |p| {
        assert ReplaceAll(b, p, r) == b;
      } else {
        assert a[0] in a && s[0] == a[0];
        assert s[..|p|][0] == a[0];
        assert s[..|p|] != p;
        assert ReplaceAll(s, p, r) == [s[0]] + ReplaceAll(s[1..], p, r);
        assert s[1..] == a[1..] + b;
        ReplaceAllSkips(a[1..], b, p, r);
        assert a == [a[0]] + a[1..];
      }
    } else {
      assert a + b == b;
    }
  }

  /** An occurrence at the front is replaced, and the scan goes on after it. */
  lemma ReplaceAllAtPattern(p: string, b: string, r: string)
    requires p != []
    ensures ReplaceAll(p + b, p, r) == r + ReplaceAll(b, p, r)
  {
    assert (p + b)[..|p|] == p;
    assert (p + b)[|p|..] == b;
  }

  /** The first piece of a split is a prefix of the string. */
  lemma {:induction false} SplitHeadIsPrefix(s: string, p: string)
    requires p != []
    ensures |Split(s, p)[0]| <= |s| && Split(s, p)[0] == s[..|Split(s, p)[0]|]
    decreases |s|
  {
    if |s| < |p| {
    } else if s[..|p|] == p {
    } else {
      SplitHeadIsPrefix(s[1..], p);
    }
  }

  /** No piece of a split contains the separator: every occurrence was cut out. */
  lemma {:induction false} SplitPiecesAreFree(s: string, p: string)
    requires p != []
    ensures forall k :: 0 <= k < |Split(s, p)| ==> !Contains(Split(s, p)[k], p)
    decreases |s|
  {
    var pieces := Split(s, p);
    if |s| < |p| {
      assert pieces == [s];
      forall i: nat ensures !OccursAt(s, p, i) {}
    } else if s[..|p|] == p {
      SplitPiecesAreFree(s[|p|..], p);
      var rest := Split(s[|p|..], p);
      forall k | 0 <= k < |pieces| ensures !Contains(pieces[k], p) {
        if k == 0 {
          assert pieces[0] == [];
          forall i: nat ensures !OccursAt(pieces[0], p, i) {}
        } else {
          assert pieces[k] == rest[k - 1];
        }
      }
    } else {
      SplitPiecesAreFree(s[1..], p);
      SplitHeadIsPrefix(s[1..], p);
      var rest := Split(s[1..], p);
      var head := [s[0]] + rest[0];
      assert head == s[..|head|];
      forall k | 0 <= k < |pieces| ensures !Contains(pieces[k], p) {
        if k == 0 {
          forall i: nat ensures !OccursAt(head, p, i) {
            if i > 0 && OccursAt(head, p, i) {
              assert head[i..i + |p|] == rest[0][i - 1..i - 1 + |p|];
              assert OccursAt(rest[0], p, i - 1);
            }
          }
        } else {
          assert pieces[k] == rest[k];
        }
      }
    }
  }

  /** A one-character separator at the front cuts off an empty piece. */
  lemma SplitConsSeparator(c: char, t: string)
    ensures Split([c] + t, [c]) == [[]] + Split(t, [c])
  {
    assert ([c] + t)[..1] == [c] && ([c] + t)[1..] == t;
  }

  /** Any other character at the front joins the first piece. */
  lemma SplitConsOther(x: char, c: char, t: string)
    requires x != c
    ensures Split([x] + t, [c]) == [[x] + Split(t, [c])[0]] + Split(t, [c])[1..]
  {
    var s := [x] + t;
    assert s[..1] != [c] by { assert s[..1][0] == x; }
    assert s[0] == x && s[1..] == t;
  }

  /**
   * Splitting on a one-character separator at a place where it occurs
   * splits the two sides separately: the pieces of the left side come
   * first, then those of the right side.
   */
  lemma {:induction false} SplitAtSeparator(a: string, c: char, b: string)
    ensures Split(a + [c] + b, [c]) == Split(a, [c]) + Split(b, [c])
    decreases |a|
  {
    if a == [] {
      assert a + [c] + b == [c] + b;
      SplitConsSeparator(c, b);
      assert Split(a, [c]) == [[]];
    } else {
      var x, u := a[0], a[1..];
      SplitAtSeparator(u, c, b);
      SplitAtSeparatorStep(x, u, c, b);
      assert a == [x] + u;
      assert a + [c] + b == [x] + (u + [c] + b);
    }
  }

  /** The inductive step of `SplitAtSeparator`: one more character `x` in front of the left side `u`. */
  lemma SplitAtSeparatorStep(x: char, u: string, c: char, b: string)
    requires Split(u + [c] + b, [c]) == Split(u, [c]) + Split(b, [c])
    ensures Split([x] + (u + [c] + b), [c]) == Split([x] + u, [c]) + Split(b, [c])
  {
    var left := Split(u, [c]);
    var right := Split(b, [c]);
    if x == c {
      SplitConsSeparator(c, u + [c] + b);
      SplitConsSeparator(c, u);
      PrependPiece(left, right);
    } else {
      SplitConsOther(x, c, u + [c] + b);
      SplitConsOther(x, c, u);
      ExtendFirstPiece([x], left, right);
    }
  }

  /** Sequence bookkeeping for `SplitAtSeparatorStep` when a new empty piece is put in front. */
  lemma PrependPiece(left: seq<string>, right: seq<string>)
    ensures [[]] + (left + right) == ([[]] + left) + right
  {
  }

  /** Sequence bookkeeping for `SplitAtSeparatorStep` when the first piece is extended at its front. */
  lemma ExtendFirstPiece(x: string, left: seq<string>, right: seq<string>)
    requires |left| >= 1
    ensures [x + (left + right)[0]] + (left + right)[1..] == ([x + left[0]] + left[1..]) + right
  {
    assert (left + right)[0] == left[0];
    assert (left + right)[1..] == left[1..] + right;
  }

  /** A string without the separator splits into itself alone. */
  lemma {:induction false} SplitWithoutSeparator(s: string, p: string)
    requires p != [] && !Contains(s, p)
    ensures Split(s, p) == [s]
    decreases |s|
  {
    if |s| < |p| {
    } else {
      assert !OccursAt(s, p, 0);
      assert s[..|p|] != p;
      forall i: nat ensures !OccursAt(s[1..], p, i) {
        if OccursAt(s[1..], p, i) {
          assert s[1..][i..i + |p|] == s[i + 1..i + 1 + |p|];
          assert OccursAt(s, p, i + 1);
        }
      }
      SplitWithoutSeparator(s[1..], p);
      assert s == [s[0]] + s[1..];
    }
  }

  /** A one-character separator occurs exactly where that character does. */
  lemma ContainsChar(s: string, c: char)
    ensures Contains(s, [c]) <==> c in s
  {
    if c in s {
      var i :| 0 <= i < |s| && s[i] == c;
      assert OccursAt(s, [c], i);
    }
    if Contains(s, [c]) {
      var i: nat :| i <= |s| && OccursAt(s, [c], i);
      assert s[i] == s[i..i + 1][0];
    }
  }

  /** Every character of `t` is white space. */
  predicate AllWhiteSpace(t: string)
  {
    forall i :: 0 <= i < |t| ==> IsWhiteSpace(t[i])
  }

  /** `s` with its leading white space removed. */
  function TrimStart(s: string): (r: string)
    ensures |r| <= |s| && r == s[|s| - |r|..]
    ensures r == [] || !IsWhiteSpace(r[0])
    ensures AllWhiteSpace(s[..|s| - |r|])
  {
    if s != [] && IsWhiteSpace(s[0]) then TrimStart(s[1..]) else s
  }

  /** `s` with its trailing white space removed. */
  function TrimEnd(s: string): (r: string)
    ensures |r| <= |s| && r == s[..|r|]
    ensures r == [] || !IsWhiteSpace(r[|r| - 1])
    ensures AllWhiteSpace(s[|r|..])
  {
    if s != [] && IsWhiteSpace(s[|s| - 1]) then TrimEnd(s[..|s| - 1]) else s
  }

  /** Neither the first nor the last character is white space. */
  predicate Trimmed(t: string)
  {
    t == [] || (!IsWhiteSpace(t[0]) && !IsWhiteSpace(t[|t| - 1]))
  }

  /**
   * `s.trim()`: `s` without its leading and trailing white space. All it
   * removes in front, and all it removes at the end, is white space.
   */
  function Trim(s: string): (r: string)
    ensures Trimmed(r) && |r| <= |TrimStart(s)|
    ensures AllWhiteSpace(s[..|s| - |TrimStart(s)|])
    ensures AllWhiteSpace(s[|s| - |TrimStart(s)| + |r|..])
  {
    var t := TrimStart(s);
    var r := TrimEnd(t);
    assert r != [] ==> r[0] == t[0];
    assert s[|s| - |t| + |r|..] == t[|r|..];
    r
  }

  /** What trimming leaves is the slice of `s` after its leading white space. */
  lemma TrimIsSlice(s: string)
    ensures Trim(s) == s[|s| - |TrimStart(s)|..|s| - |TrimStart(s)| + |Trim(s)|]
  {
    var t := TrimStart(s);
    assert Trim(s) == t[..|Trim(s)|];
  }

  /** Trimming only removes characters. */
  lemma TrimKeepsCharacters(s: string)
    ensures forall c :: c in Trim(s) ==> c in s
  {
    TrimIsSlice(s);
    var d := |s| - |TrimStart(s)|;
    SliceKeepsCharacters(s, d, d + |Trim(s)|);
  }

  /** A slice holds only characters of the whole. */
  lemma SliceKeepsCharacters(s: string, i: nat, j: nat)
    requires i <= j <= |s|
    ensures forall c :: c in s[i..j] ==> c in s
  {
    forall c | c in s[i..j] ensures c in s {
      var k :| 0 <= k < j - i && s[i..j][k] == c;
      assert s[i + k] == c;
    }
  }
}
