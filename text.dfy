/** Python's `str.replace(target, repl)` (no count argument) and the facts
    about it that the title and body formatting rely on. */
module Text {

  /** `p` occurs in `s` as a contiguous block (Python's `p in s`). */
  predicate Contains(s: string, p: string)
    decreases |s|
  {
    p <= s || (s != [] && Contains(s[1..], p))
  }

  /** `s.replace(target, repl)`: scans left to right and replaces every
      non-overlapping occurrence of `target`. An empty `target` matches
      before every character and at the end, as in Python. */
  function ReplaceAll(s: string, target: string, repl: string): (r: string)
    ensures !Contains(s, target) ==> r == s
    ensures s != [] && repl != [] ==> r != []
    decreases |s|
  {
    if target == [] then Interleave(s, repl)
    else if target <= s then repl + ReplaceAll(s[|target|..], target, repl)
    else if s == [] then []
    else [s[0]] + ReplaceAll(s[1..], target, repl)
  }

  /** `s.replace("", repl)`: `repl` before each character and at the end. */
  function Interleave(s: string, repl: string): (r: string)
    ensures |r| == |s| + (|s| + 1) * |repl|
    decreases |s|
  {
    if s == [] then repl else repl + [s[0]] + Interleave(s[1..], repl)
  }

  /** Replacing a pattern by itself gives back the input. */
  lemma {:induction false} ReplaceBySelf(s: string, target: string)
    ensures ReplaceAll(s, target, target) == s
    decreases |s|
  {
    if target == [] {
      InterleaveEmpty(s);
    } else if target <= s {
      ReplaceBySelf(s[|target|..], target);
      assert s == target + s[|target|..];
    } else if s != [] {
      ReplaceBySelf(s[1..], target);
      assert s == [s[0]] + s[1..];
    }
  }

  lemma {:induction false} InterleaveEmpty(s: string)
    ensures Interleave(s, []) == s
    decreases |s|
  {
    if s != [] {
      InterleaveEmpty(s[1..]);
      assert s == [s[0]] + s[1..];
    }
  }

  // ---------------------------------------------------------------------
  // Python's `str.split(sep)` and `sep.join(pieces)` as an independent
  // description of replacement: `s.replace(t, r) == r.join(s.split(t))`.
  // ---------------------------------------------------------------------

  /** `s.split(t)` for a non-empty separator: the pieces between the
      occurrences of `t` found scanning left to right. */
  function Split(s: string, t: string): (pieces: seq<string>)
    requires t != []
    ensures |pieces| > 0
    decreases |s|
  {
    if t <= s then [[]] + Split(s[|t|..], t)
    else if s == [] then [[]]
    else
      var rest := Split(s[1..], t);
      [[s[0]] + rest[0]] + rest[1..]
  }

  /** `sep.join(pieces)`. */
  function Join(pieces: seq<string>, sep: string): (r: string)
    requires |pieces| > 0
    decreases |pieces|
  {
    if |pieces| == 1 then pieces[0] else pieces[0] + sep + Join(pieces[1..], sep)
  }

  lemma {:induction false} JoinConsFirst(c: char, pieces: seq<string>, sep: string)
    requires |pieces| > 0
    ensures Join([[c] + pieces[0]] + pieces[1..], sep) == [c] + Join(pieces, sep)
  {
    var ps := [[c] + pieces[0]] + pieces[1..];
    if |pieces| > 1 {
      assert ps[1..] == pieces[1..];
    }
  }

  /** Replacement is joining the split pieces with the replacement. */
  lemma {:induction false} ReplaceIsJoinOfSplit(s: string, t: string, r: string)
    requires t != []
    ensures ReplaceAll(s, t, r) == Join(Split(s, t), r)
    decreases |s|
  {
    if t <= s {
      ReplaceIsJoinOfSplit(s[|t|..], t, r);
      var rest := Split(s[|t|..], t);
      assert ([[]] + rest)[1..] == rest;
    } else if s != [] {
      ReplaceIsJoinOfSplit(s[1..], t, r);
      JoinConsFirst(s[0], Split(s[1..], t), r);
    }
  }

  /** The first piece of a split is a prefix of the input. */
  lemma {:induction false} SplitHeadIsPrefix(s: string, t: string)
    requires t != []
    ensures Split(s, t)[0] <= s
    decreases |s|
  {
    if !(t <= s) && s != [] {
      SplitHeadIsPrefix(s[1..], t);
    }
  }

  /** No piece of a split contains the separator: together with
      ReplaceIsJoinOfSplit this says that replacement leaves no
      occurrence of the target outside the replaced blocks. */
  lemma {:induction false} SplitPiecesAreFree(s: string, t: string)
    requires t != []
    ensures forall i :: 0 <= i < |Split(s, t)| ==> !Contains(Split(s, t)[i], t)
    decreases |s|
  {
    if t <= s {
      SplitPiecesAreFree(s[|t|..], t);
      var rest := Split(s[|t|..], t);
      assert !Contains([], t);
      assert forall i :: 1 <= i < |[[]] + rest| ==> ([[]] + rest)[i] == rest[i - 1];
    } else if s != [] {
      SplitPiecesAreFree(s[1..], t);
      var rest := Split(s[1..], t);
      var head := [s[0]] + rest[0];
      SplitHeadIsPrefix(s[1..], t);
      assert head <= s;
      assert head[1..] == rest[0];
      if t <= head {
        PrefixTransitive(t, head, s);
      }
      assert !Contains(head, t);
      var pieces := [head] + rest[1..];
      assert forall i :: 1 <= i < |pieces| ==> pieces[i] == rest[i];
    }
  }

  lemma PrefixTransitive(a: string, b: string, c: string)
    requires a <= b && b <= c
    ensures a <= c
  {
    assert forall i :: 0 <= i < |a| ==> a[i] == b[i] == c[i];
  }

  /** Splitting and joining with the same separator is the identity. */
  lemma SplitJoinRoundTrip(s: string, t: string)
    requires t != []
    ensures Join(Split(s, t), t) == s
  {
    ReplaceIsJoinOfSplit(s, t, t);
    ReplaceBySelf(s, t);
  }

  /** The split cuts at the leftmost occurrence first: when there is more
      than one piece, the first piece runs up to the first occurrence of
      `t`, and the remaining pieces are the split of what follows it. */
  lemma {:induction false} SplitAtFirstOccurrence(s: string, t: string)
    requires t != [] && |Split(s, t)| > 1
    ensures var p0 := Split(s, t)[0];
      && |p0| + |t| <= |s|
      && t <= s[|p0|..]
      && (forall j :: 0 <= j < |p0| ==> !(t <= s[j..]))
      && Split(s, t)[1..] == Split(s[|p0| + |t|..], t)
    decreases |s|
  {
    if t <= s {
      assert s[0..] == s;
      assert ([[]] + Split(s[|t|..], t))[1..] == Split(s[|t|..], t);
    } else {
      var rest := Split(s[1..], t);
      SplitAtFirstOccurrence(s[1..], t);
      var q0 := rest[0];
      var p0 := Split(s, t)[0];
      assert p0 == [s[0]] + q0;
      assert s[1..][|q0|..] == s[|p0|..];
      assert s[1..][|q0| + |t|..] == s[|p0| + |t|..];
      forall j | 0 <= j < |p0|
        ensures !(t <= s[j..])
      {
        if j > 0 {
          assert s[j..] == s[1..][j - 1..];
        } else {
          assert s[j..] == s;
        }
      }
    }
  }

  /** The split has a single piece exactly when `t` does not occur, and
      that piece is then the whole input. */
  lemma {:induction false} SplitWithoutSeparator(s: string, t: string)
    requires t != []
    ensures |Split(s, t)| == 1 <==> !Contains(s, t)
    ensures !Contains(s, t) ==> Split(s, t) == [s]
    decreases |s|
  {
    if !Contains(s, t) {
      if s != [] {
        SplitWithoutSeparator(s[1..], t);
        assert [s[0]] + s[1..] == s;
      }
    }
    if |Split(s, t)| == 1 {
      SplitJoinRoundTrip(s, t);
      SplitPiecesAreFree(s, t);
    }
  }

  /** Replacement, likewise, acts first at the leftmost occurrence of `t`
      (the one right after `pre`) and resumes scanning after the replaced
      block, so occurrences overlapping it are not replaced. */
  lemma {:induction false} ReplaceAtFirstOccurrence(pre: string, t: string, post: string, r: string)
    requires t != []
    requires forall k :: 0 <= k < |pre| ==> !(t <= (pre + t + post)[k..])
    ensures ReplaceAll(pre + t + post, t, r) == pre + r + ReplaceAll(post, t, r)
    decreases |pre|
  {
    var s := pre + t + post;
    if pre == [] {
      assert s == t + post && s[|t|..] == post;
      assert t <= s;
      assert ReplaceAll(s, t, r) == r + ReplaceAll(post, t, r);
    } else {
      var rest := pre[1..] + t + post;
      assert s[0..] == s;
      assert s[1..] == rest;
      forall k | 0 <= k < |pre[1..]|
        ensures !(t <= rest[k..])
      {
        assert rest[k..] == s[k + 1..];
      }
      ReplaceAtFirstOccurrence(pre[1..], t, post, r);
      var after := ReplaceAll(post, t, r);
      assert ReplaceAll(s, t, r) == [pre[0]] + ReplaceAll(rest, t, r);
      assert ReplaceAll(rest, t, r) == pre[1..] + r + after;
      ConsOntoConcat(pre, r, after);
    }
  }

  lemma ConsOntoConcat(a: string, b: string, c: string)
    requires a != []
    ensures [a[0]] + (a[1..] + b + c) == a + b + c
  {
    assert a == [a[0]] + a[1..];
  }

  /** `s.replace("", r)`: `r` before each character and at the end, that
      is, `r` joined around the one-character pieces of `s`. */
  lemma {:induction false} EmptyTargetSurroundsEachChar(s: string, r: string)
    ensures ReplaceAll(s, [], r) == if s == [] then r else r + Join(Chars(s), r) + r
    decreases |s|
  {
    if |s| == 1 {
      assert Interleave(s, r) == r + [s[0]] + Interleave([], r);
      assert Join(Chars(s), r) == [s[0]];
    } else if |s| > 1 {
      var rest := Join(Chars(s[1..]), r);
      EmptyTargetSurroundsEachChar(s[1..], r);
      assert Interleave(s[1..], r) == r + rest + r;
      assert Join(Chars(s), r) == [s[0]] + r + rest;
      assert Interleave(s, r) == r + [s[0]] + (r + rest + r);
    }
  }

  /** The characters of `s` as one-character strings (Python's `list(s)`). */
  function Chars(s: string): seq<string>
  {
    if s == [] then [] else [[s[0]]] + Chars(s[1..])
  }

  // ---------------------------------------------------------------------
  // Two-character patterns replaced by one character (the title rewrite).
  // ---------------------------------------------------------------------

  lemma ReplacePairHead(t: string, a: char, b: char, c: char)
    requires t != []
    ensures |ReplaceAll(t, [a, b], [c])| > 0
    ensures ReplaceAll(t, [a, b], [c])[0] == if [a, b] <= t then c else t[0]
  {
  }

  /** Replacing `ab` by a character `c` other than `a` and `b` leaves no `ab`. */
  lemma {:induction false} ReplacePairRemovesIt(s: string, a: char, b: char, c: char)
    requires c != a && c != b
    ensures !Contains(ReplaceAll(s, [a, b], [c]), [a, b])
    decreases |s|
  {
    var r := ReplaceAll(s, [a, b], [c]);
    if [a, b] <= s {
      var tail := ReplaceAll(s[2..], [a, b], [c]);
      ReplacePairRemovesIt(s[2..], a, b, c);
      assert r == [c] + tail && r[1..] == tail;
    } else if s != [] {
      var t := s[1..];
      var tail := ReplaceAll(t, [a, b], [c]);
      ReplacePairRemovesIt(t, a, b, c);
      assert r == [s[0]] + tail && r[1..] == tail;
      if t != [] {
        ReplacePairHead(t, a, b, c);
      }
    }
  }

  /** Replacing `ab` by a character that is neither `x` nor `y` cannot
      create an `xy` where there was none. */
  lemma {:induction false} ReplacePairKeepsAbsent(s: string, a: char, b: char, c: char, x: char, y: char)
    requires c != x && c != y
    requires !Contains(s, [x, y])
    ensures !Contains(ReplaceAll(s, [a, b], [c]), [x, y])
    decreases |s|
  {
    var r := ReplaceAll(s, [a, b], [c]);
    if [a, b] <= s {
      assert s[1..][1..] == s[2..];
      var tail := ReplaceAll(s[2..], [a, b], [c]);
      ReplacePairKeepsAbsent(s[2..], a, b, c, x, y);
      assert r == [c] + tail && r[1..] == tail;
    } else if s != [] {
      var t := s[1..];
      var tail := ReplaceAll(t, [a, b], [c]);
      ReplacePairKeepsAbsent(t, a, b, c, x, y);
      assert r == [s[0]] + tail && r[1..] == tail;
      if t != [] {
        ReplacePairHead(t, a, b, c);
      }
    }
  }
}
