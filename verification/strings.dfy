/** The little string logic the training script relies on: Python's
    `p == s[:len(p)]` prefix test, the `sub in s` substring test and
    `s.split('.')` on parameter names. */
module Strings {

  /** `p` is a prefix of `s`. */
  predicate IsPrefix(p: string, s: string) {
    |p| <= |s| && s[..|p|] == p
  }

  /** `s.endswith(t)`. */
  predicate IsSuffix(t: string, s: string) {
    |t| <= |s| && s[|s| - |t|..] == t
  }

  /** Python's `sub in s`: `sub` occurs in `s` at some position. */
  predicate Contains(s: string, sub: string)
    decreases |s|
  {
    IsPrefix(sub, s) || (|s| > 0 && Contains(s[1..], sub))
  }

  /** `sub` starts at position `i` of `s`. */
  predicate OccursAt(s: string, sub: string, i: int) {
    0 <= i && i + |sub| <= |s| && s[i..i + |sub|] == sub
  }

  /** The scanning definition of `Contains` agrees with the positional one. */
  lemma {:induction false} ContainsIffOccurs(s: string, sub: string)
    ensures Contains(s, sub) <==> exists i :: OccursAt(s, sub, i)
    decreases |s|
  {
    if IsPrefix(sub, s) {
      assert OccursAt(s, sub, 0);
    } else if |s| > 0 {
      ContainsIffOccurs(s[1..], sub);
      if Contains(s[1..], sub) {
        var i :| OccursAt(s[1..], sub, i);
        assert s[1..][i..i + |sub|] == s[i + 1..i + 1 + |sub|];
        assert OccursAt(s, sub, i + 1);
      } else {
        forall i | OccursAt(s, sub, i)
          ensures false
        {
          assert i != 0;
          assert s[1..][i - 1..i - 1 + |sub|] == s[i..i + |sub|];
          assert OccursAt(s[1..], sub, i - 1);
        }
      }
    }
  }

  /** Python's `s.split(sep)`: the pieces between separators, always at
      least one (`"".split('.') == ['']`, `"a..b".split('.') == ['a', '', 'b']`). */
  function Split(s: string, sep: char): (parts: seq<string>)
    ensures |parts| >= 1
    ensures forall k :: 0 <= k < |parts| ==> sep !in parts[k]
    decreases |s|
  {
    if |s| == 0 then [""]
    else
      var p := Split(s[..|s| - 1], sep);
      var c := s[|s| - 1];
      if c == sep then p + [""]
      else p[..|p| - 1] + [p[|p| - 1] + [c]]
  }

  /** Python's `sep.join(parts)`. */
  function Join(parts: seq<string>, sep: char): string
    requires |parts| >= 1
    decreases |parts|
  {
    if |parts| == 1 then parts[0]
    else Join(parts[..|parts| - 1], sep) + [sep] + parts[|parts| - 1]
  }

  /** A new empty last piece adds one separator. */
  lemma JoinEmptyPiece(p: seq<string>, sep: char)
    requires |p| >= 1
    ensures Join(p + [""], sep) == Join(p, sep) + [sep]
  {
    assert (p + [""])[..|p|] == p;
  }

  /** Growing the last piece by `c` appends `c`. */
  lemma JoinGrowLast(p: seq<string>, c: char, sep: char)
    requires |p| >= 1
    ensures Join(p[..|p| - 1] + [p[|p| - 1] + [c]], sep) == Join(p, sep) + [c]
  {
    var q := p[..|p| - 1] + [p[|p| - 1] + [c]];
    if |p| > 1 {
      assert q[..|q| - 1] == p[..|p| - 1];
      var j := Join(p[..|p| - 1], sep);
      assert Join(q, sep) == j + [sep] + (p[|p| - 1] + [c]);
      assert Join(p, sep) == j + [sep] + p[|p| - 1];
    }
  }

  /** Splitting loses nothing: joining the pieces gives back the string. */
  lemma {:induction false} JoinSplit(s: string, sep: char)
    ensures Join(Split(s, sep), sep) == s
    decreases |s|
  {
    if |s| > 0 {
      var init := s[..|s| - 1];
      var p := Split(init, sep);
      JoinSplit(init, sep);
      var c := s[|s| - 1];
      assert s == init + [c];
      assert Split(s, sep) == if c == sep then p + [""] else p[..|p| - 1] + [p[|p| - 1] + [c]];
      if c == sep {
        JoinEmptyPiece(p, sep);
      } else {
        JoinGrowLast(p, c, sep);
      }
    }
  }

  /** Python's `s.split(sep)[-1]`: the text after the last separator. */
  function LastPiece(s: string, sep: char): (piece: string)
    // the piece is a suffix of `s` free of separators ...
    ensures |piece| <= |s| && s[|s| - |piece|..] == piece && sep !in piece
    // ... and it is maximal: it is all of `s`, or a separator precedes it
    ensures |piece| == |s| || s[|s| - |piece| - 1] == sep
  {
    var parts := Split(s, sep);
    LastPieceIsSuffix(s, sep);
    parts[|parts| - 1]
  }

  lemma {:induction false} LastPieceIsSuffix(s: string, sep: char)
    ensures var parts := Split(s, sep); var piece := parts[|parts| - 1];
      && |piece| <= |s| && s[|s| - |piece|..] == piece
      && (|piece| == |s| || s[|s| - |piece| - 1] == sep)
    decreases |s|
  {
    if |s| > 0 {
      LastPieceIsSuffix(s[..|s| - 1], sep);
    }
  }
}
