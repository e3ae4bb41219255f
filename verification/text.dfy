/** String searching and the literal-pattern global replace of JavaScript
    (`s.replace(/literal/g, replacement)`), over `seq<char>`. */
module Text {
  import opened Base

  /** `p` occurs in `s` starting at index `i`. */
  predicate OccursAt(s: string, p: string, i: int) {
    0 <= i && i + |p| <= |s| && s[i..i + |p|] == p
  }

  predicate StartsWith(s: string, p: string) {
    |p| <= |s| && s[..|p|] == p
  }

  /** `p` occurs somewhere in `s`. */
  predicate Contains(s: string, p: string) {
    exists i | 0 <= i <= |s| - |p| :: OccursAt(s, p, i)
  }

  /** An occurrence in the tail of `s` is an occurrence in `s`, one index further. */
  lemma OccursInTail(s: string, p: string, i: nat)
    requires |s| > 0
    ensures OccursAt(s[1..], p, i) <==> OccursAt(s, p, i + 1)
  {
    if i + 1 + |p| <= |s| {
      assert s[1..][i..i + |p|] == s[i + 1..i + 1 + |p|];
    }
  }

  /** Occurrences in a suffix are occurrences in the whole string. */
  lemma ContainsSuffix(s: string, k: nat, p: string)
    requires k <= |s|
    requires Contains(s[k..], p)
    ensures Contains(s, p)
  {
    var i :| 0 <= i <= |s[k..]| - |p| && OccursAt(s[k..], p, i);
    assert s[k..][i..i + |p|] == s[k + i..k + i + |p|];
    assert OccursAt(s, p, k + i);
  }

  /** Leftmost occurrence of `p` in `s`, as `indexOf` computes it. */
  function IndexOf(s: string, p: string): (r: Option<nat>)
    ensures r.Some? ==> OccursAt(s, p, r.value)
    ensures r.Some? ==> forall j :: 0 <= j < r.value ==> !OccursAt(s, p, j)
    ensures r.None? <==> !Contains(s, p)
    decreases |s|
  {
    if StartsWith(s, p) then
      assert OccursAt(s, p, 0);
      Some(0)
    else if |s| == 0 then
      None
    else
      var t := IndexOf(s[1..], p);
      if t.None? then
        forall i | 0 <= i <= |s| - |p| ensures !OccursAt(s, p, i) {
          if i > 0 {
            OccursInTail(s, p, i - 1);
          }
        }
        None
      else
        OccursInTail(s, p, t.value);
        assert forall j :: 1 <= j <= t.value ==> (OccursAt(s, p, j) <==> OccursAt(s[1..], p, j - 1)) by {
          forall j | 1 <= j <= t.value ensures OccursAt(s, p, j) <==> OccursAt(s[1..], p, j - 1) {
            OccursInTail(s, p, j - 1);
          }
        }
        Some(t.value + 1)
  }

  /** Searching past a first character that starts no occurrence shifts the index by one. */
  lemma IndexOfTail(s: string, p: string)
    requires |s| > 0 && !StartsWith(s, p)
    ensures IndexOf(s, p) == match IndexOf(s[1..], p) case None => None case Some(k) => Some(k + 1)
  {
  }

  /** `IndexOf` returns exactly the leftmost occurrence. */
  lemma IndexOfIsLeftmost(s: string, p: string, k: nat)
    requires OccursAt(s, p, k)
    requires forall j :: 0 <= j < k ==> !OccursAt(s, p, j)
    ensures IndexOf(s, p) == Some(k)
  {
    assert Contains(s, p);
  }

  /** One left-to-right pass replacing every non-overlapping occurrence of the
      literal `p` by `rep`: what `s.replace(/p/g, rep)` does when `rep`
      holds no `$` substitution pattern. After a match the scan resumes just
      past it, so text spliced together by a replacement is not rescanned. */
  function ReplaceAll(s: string, p: string, rep: string): (r: string)
    requires |p| > 0
    ensures |r| <= |s| || |rep| > |p|
    decreases |s|
  {
    if |s| == 0 then []
    else if StartsWith(s, p) then rep + ReplaceAll(s[|p|..], p, rep)
    else [s[0]] + ReplaceAll(s[1..], p, rep)
  }

  /** With no occurrence of the pattern, the replace is the identity. */
  lemma {:induction false} ReplaceAllNoMatch(s: string, p: string, rep: string)
    requires |p| > 0
    requires !Contains(s, p)
    ensures ReplaceAll(s, p, rep) == s
    decreases |s|
  {
    if |s| > 0 {
      assert !OccursAt(s, p, 0);
      if Contains(s[1..], p) {
        ContainsSuffix(s, 1, p);
      }
      ReplaceAllNoMatch(s[1..], p, rep);
    }
  }

  /** The replace finds the leftmost occurrence, substitutes it, and carries on
      with the text after it: the global-replace loop of ECMAScript. */
  lemma {:induction false} ReplaceAllLeftmost(s: string, p: string, rep: string, k: nat)
    requires |p| > 0
    requires OccursAt(s, p, k)
    requires forall j :: 0 <= j < k ==> !OccursAt(s, p, j)
    ensures ReplaceAll(s, p, rep) == s[..k] + rep + ReplaceAll(s[k + |p|..], p, rep)
    decreases k
  {
    if k == 0 {
      assert StartsWith(s, p);
      assert s[..k] == [];
    } else {
      LeftmostInTail(s, p, rep, k);
      ReplaceAllLeftmost(s[1..], p, rep, k - 1);
      SliceUnderCons(s, k, |p|);
      GlueUnderCons(s, k, ReplaceAll(s[1..], p, rep), rep, ReplaceAll(s[k + |p|..], p, rep));
    }
  }

  lemma SliceUnderCons(s: string, k: nat, n: nat)
    requires 0 < k && k + n <= |s|
    ensures s[1..][k - 1 + n..] == s[k + n..]
  {
  }

  lemma GlueUnderCons(s: string, k: nat, x: string, rep: string, y: string)
    requires 0 < k <= |s|
    requires x == s[1..][..k - 1] + rep + y
    ensures [s[0]] + x == s[..k] + rep + y
  {
    assert s[..k] == [s[0]] + s[1..][..k - 1];
  }

  /** A leftmost occurrence past the start is the tail's leftmost one, one
      index earlier, and the text does not start with the pattern. */
  lemma LeftmostInTail(s: string, p: string, rep: string, k: nat)
    requires |p| > 0 && 0 < k && OccursAt(s, p, k)
    requires forall j :: 0 <= j < k ==> !OccursAt(s, p, j)
    ensures !StartsWith(s, p)
    ensures ReplaceAll(s, p, rep) == [s[0]] + ReplaceAll(s[1..], p, rep)
    ensures OccursAt(s[1..], p, k - 1)
    ensures forall j :: 0 <= j < k - 1 ==> !OccursAt(s[1..], p, j)
  {
    assert !OccursAt(s, p, 0);
    forall j | 0 <= j < k - 1 ensures !OccursAt(s[1..], p, j) {
      OccursInTail(s, p, j);
    }
    OccursInTail(s, p, k - 1);
  }

  /** Text before the first occurrence of the pattern is copied unchanged. */
  lemma {:induction false} ReplaceAllKeepsPrefix(t: string, p: string, rep: string, m: nat)
    requires |p| > 0
    requires m <= |t|
    requires forall j :: 0 <= j < m ==> !OccursAt(t, p, j)
    ensures m <= |ReplaceAll(t, p, rep)| && ReplaceAll(t, p, rep)[..m] == t[..m]
    decreases m
  {
    if m > 0 {
      assert !StartsWith(t, p) by { assert !OccursAt(t, p, 0); }
      forall j | 0 <= j < m - 1 ensures !OccursAt(t[1..], p, j) {
        OccursInTail(t, p, j);
      }
      ReplaceAllKeepsPrefix(t[1..], p, rep, m - 1);
    }
  }

  /** Every occurrence is replaced, not only the first: when `rep` cannot start
      inside `p` and `p` cannot start inside `rep`, the result holds no `p`. */
  lemma {:induction false} ReplaceAllEliminates(s: string, p: string, rep: string)
    requires |p| > 0 && |rep| > 0
    requires p[0] !in rep && rep[0] !in p
    ensures !Contains(ReplaceAll(s, p, rep), p)
    decreases |s|
  {
    var r := ReplaceAll(s, p, rep);
    if |s| == 0 {
    } else if StartsWith(s, p) {
      var tail := ReplaceAll(s[|p|..], p, rep);
      ReplaceAllEliminates(s[|p|..], p, rep);
      forall i | 0 <= i <= |r| - |p| ensures !OccursAt(r, p, i) {
        if i < |rep| {
          assert r[i] == rep[i] && r[i] != p[0];
        } else {
          assert r[i..i + |p|] == tail[i - |rep|..i - |rep| + |p|];
          assert !OccursAt(tail, p, i - |rep|);
        }
      }
    } else {
      var tail := ReplaceAll(s[1..], p, rep);
      ReplaceAllEliminates(s[1..], p, rep);
      forall i | 0 <= i <= |r| - |p| ensures !OccursAt(r, p, i) {
        if i == 0 {
          FirstWindowNotPattern(s, p, rep);
        } else {
          assert r[i..i + |p|] == tail[i - 1..i - 1 + |p|];
          assert !OccursAt(tail, p, i - 1);
        }
      }
    }
  }

  /** Helper for `ReplaceAllEliminates`: when the input does not start with the
      pattern, neither does the output. */
  lemma FirstWindowNotPattern(s: string, p: string, rep: string)
    requires |p| > 0 && |rep| > 0
    requires p[0] !in rep && rep[0] !in p
    requires !StartsWith(s, p)
    ensures !StartsWith(ReplaceAll(s, p, rep), p)
  {
    var r := ReplaceAll(s, p, rep);
    var k := IndexOf(s, p);
    if k.Some? && k.value < |p| {
      // the first replacement starts inside the window, at a place where `p` has no `rep[0]`
      var j := k.value;
      ReplaceAllLeftmost(s, p, rep, j);
      if |p| <= |r| {
        assert r[j] == rep[0];
        assert r[..|p|][j] != p[j];
      }
    } else if |p| <= |s| {
      forall j | 0 <= j < |p| ensures !OccursAt(s, p, j) {
        if j > 0 && k.Some? {
          assert j < k.value;
        }
      }
      ReplaceAllKeepsPrefix(s, p, rep, |p|);
    } else {
      ReplaceAllNoMatch(s, p, rep);
    }
  }

  /** An occurrence in `b` is also one in `a + b`. */
  lemma ContainsAppendLeft(a: string, b: string, q: string)
    requires Contains(b, q)
    ensures Contains(a + b, q)
  {
    var i :| 0 <= i <= |b| - |q| && OccursAt(b, q, i);
    assert (a + b)[|a| + i..|a| + i + |q|] == b[i..i + |q|];
    assert OccursAt(a + b, q, |a| + i);
  }

  /** Text that cannot overlap a match of `p` survives the replace: if `q`
      shares no first character with `p` in either direction, an occurrence of
      `q` in the input is still an occurrence in the output. */
  lemma {:induction false} ReplaceAllPreserves(t: string, p: string, rep: string, q: string, i: nat)
    requires |p| > 0 && |q| > 0
    requires p[0] !in q && q[0] !in p
    requires OccursAt(t, q, i)
    ensures Contains(ReplaceAll(t, p, rep), q)
    decreases |t|
  {
    if i == 0 {
      PreservesAtStart(t, p, rep, q);
    } else if StartsWith(t, p) {
      OccurrenceAfterMatch(t, p, q, i);
      ReplaceAllPreserves(t[|p|..], p, rep, q, i - |p|);
      ContainsAppendLeft(rep, ReplaceAll(t[|p|..], p, rep), q);
    } else {
      OccursInTail(t, q, i - 1);
      ReplaceAllPreserves(t[1..], p, rep, q, i - 1);
      ContainsAppendLeft([t[0]], ReplaceAll(t[1..], p, rep), q);
    }
  }

  /** An occurrence of `q` at the very start survives when `p` starts with
      no character of `q`. */
  lemma PreservesAtStart(t: string, p: string, rep: string, q: string)
    requires |p| > 0 && |q| > 0 && p[0] !in q
    requires OccursAt(t, q, 0)
    ensures Contains(ReplaceAll(t, p, rep), q)
  {
    forall j | 0 <= j < |q| ensures !OccursAt(t, p, j) {
      assert t[j] == q[j];
    }
    ReplaceAllKeepsPrefix(t, p, rep, |q|);
    assert OccursAt(ReplaceAll(t, p, rep), q, 0);
  }

  /** An occurrence of `q` past a leading match of `p` starts after that
      match when `q` begins with no character of `p`. */
  lemma OccurrenceAfterMatch(t: string, p: string, q: string, i: nat)
    requires |q| > 0 && q[0] !in p
    requires StartsWith(t, p) && OccursAt(t, q, i)
    ensures i >= |p| && OccursAt(t[|p|..], q, i - |p|)
  {
    assert forall j :: 0 <= j < |p| ==> t[j] == p[j];
    assert t[i] == q[0];
    assert t[|p|..][i - |p|..i - |p| + |q|] == t[i..i + |q|];
  }

  /** `a` is what is left of `s` after deleting some of its characters. */
  ghost predicate IsSubsequence(a: string, s: string)
    decreases |s|
  {
    |a| == 0 ||
    (|s| > 0 && ((a[0] == s[0] && IsSubsequence(a[1..], s[1..])) || IsSubsequence(a, s[1..])))
  }

  lemma {:induction false} SubsequenceOfLonger(a: string, pre: string, s: string)
    requires IsSubsequence(a, s)
    ensures IsSubsequence(a, pre + s)
    decreases |pre|
  {
    if |pre| > 0 {
      SubsequenceOfLonger(a, pre[1..], s);
      assert (pre + s)[1..] == pre[1..] + s;
    } else {
      assert pre + s == s;
    }
  }

  lemma {:induction false} SubsequenceSamePrefix(w: string, a: string, s: string)
    requires IsSubsequence(a, s)
    ensures IsSubsequence(w + a, w + s)
    decreases |w|
  {
    if |w| > 0 {
      SubsequenceSamePrefix(w[1..], a, s);
      assert (w + a)[1..] == w[1..] + a;
      assert (w + s)[1..] == w[1..] + s;
    } else {
      assert w + a == a && w + s == s;
    }
  }

  /** Deleting every scanned occurrence keeps all other characters, in order. */
  lemma {:induction false} DeleteAllIsSubsequence(s: string, p: string)
    requires |p| > 0
    ensures IsSubsequence(ReplaceAll(s, p, ""), s)
    decreases |s|
  {
    if |s| > 0 {
      if StartsWith(s, p) {
        DeleteAllIsSubsequence(s[|p|..], p);
        assert ReplaceAll(s, p, "") == ReplaceAll(s[|p|..], p, "");
        SubsequenceOfLonger(ReplaceAll(s[|p|..], p, ""), s[..|p|], s[|p|..]);
        assert s[..|p|] + s[|p|..] == s;
      } else {
        DeleteAllIsSubsequence(s[1..], p);
        var r := ReplaceAll(s, p, "");
        assert r == [s[0]] + ReplaceAll(s[1..], p, "");
        assert r[1..] == ReplaceAll(s[1..], p, "");
      }
    }
  }

  /** The fields of `s` between occurrences of `sep`, as `s.split(sep)` returns them
      for a one-character separator: always at least one field, possibly empty. */
  function Split(s: string, sep: char): (r: seq<string>)
    ensures |r| >= 1
    ensures forall i :: 0 <= i < |r| ==> sep !in r[i]
    decreases |s|
  {
    if |s| == 0 then [""]
    else
      var rest := Split(s[1..], sep);
      if s[0] == sep then [""] + rest
      else [[s[0]] + rest[0]] + rest[1..]
  }

  /** `fields.join(sep)`. */
  function Join(fields: seq<string>, sep: char): string
    requires |fields| >= 1
    decreases |fields|
  {
    if |fields| == 1 then fields[0] else fields[0] + [sep] + Join(fields[1..], sep)
  }

  lemma JoinConsFirst(c: char, x: string, ys: seq<string>, sep: char)
    ensures Join([[c] + x] + ys, sep) == [c] + Join([x] + ys, sep)
  {
    if |ys| > 0 {
      assert ([[c] + x] + ys)[1..] == ys;
      assert ([x] + ys)[1..] == ys;
    }
  }

  /** Joining the fields back gives the original text. */
  lemma {:induction false} JoinSplit(s: string, sep: char)
    ensures Join(Split(s, sep), sep) == s
    decreases |s|
  {
    if |s| > 0 {
      var rest := Split(s[1..], sep);
      JoinSplit(s[1..], sep);
      if s[0] == sep {
        assert ([""] + rest)[1..] == rest;
      } else {
        JoinConsFirst(s[0], rest[0], rest[1..], sep);
        assert [rest[0]] + rest[1..] == rest;
      }
    }
  }

  /** Splitting a join of separator-free fields gives the fields back. */
  lemma {:induction false} SplitJoin(fields: seq<string>, sep: char)
    requires |fields| >= 1
    requires forall i :: 0 <= i < |fields| ==> sep !in fields[i]
    ensures Split(Join(fields, sep), sep) == fields
    decreases |fields|, |fields[0]|
  {
    var f := fields[0];
    if |f| > 0 {
      var fields' := [f[1..]] + fields[1..];
      assert fields'[1..] == fields[1..];
      SplitJoin(fields', sep);
      JoinConsFirst(f[0], f[1..], fields[1..], sep);
      assert [f[0]] + f[1..] == f;
      assert fields == [f] + fields[1..];
      assert Join(fields, sep)[1..] == Join(fields', sep);
    } else if |fields| > 1 {
      SplitJoin(fields[1..], sep);
      assert Join(fields, sep) == [sep] + Join(fields[1..], sep);
      assert Join(fields, sep)[1..] == Join(fields[1..], sep);
    }
  }

  /** A pattern using a character the text lacks does not occur in it. */
  lemma MissingCharNoMatch(s: string, p: string, c: char)
    requires c in p && c !in s
    ensures !Contains(s, p)
  {
    forall i | 0 <= i <= |s| - |p| ensures !OccursAt(s, p, i) {
      var j :| 0 <= j < |p| && p[j] == c;
      assert s[i + j] != c;
      assert s[i..i + |p|][j] == s[i + j];
    }
  }

  /** A prefix holding no first character of the pattern is copied as it is. */
  lemma {:induction false} ReplaceAllSkip(a: string, b: string, p: string, rep: string)
    requires |p| > 0 && p[0] !in a
    ensures ReplaceAll(a + b, p, rep) == a + ReplaceAll(b, p, rep)
    decreases |a|
  {
    if |a| > 0 {
      assert (a + b)[0] == a[0];
      assert !StartsWith(a + b, p);
      assert (a + b)[1..] == a[1..] + b;
      ReplaceAllSkip(a[1..], b, p, rep);
    } else {
      assert a + b == b;
    }
  }

  /** One scan does not rescan the text it has joined: when the pattern's
      first character occurs nowhere else in it, the pattern placed inside a
      split copy of itself is replaced and the two halves are joined around
      the replacement. With an empty replacement the halves form the pattern
      again, and it survives the pass. */
  lemma ReplaceAllSplice(p: string, rep: string)
    requires |p| >= 2 && p[0] !in p[1..]
    ensures ReplaceAll([p[0]] + p + p[1..], p, rep) == [p[0]] + rep + p[1..]
  {
    var u := p[1..];
    var t := p + u;
    assert [p[0]] + p + u == [p[0]] + t;
    assert !StartsWith([p[0]] + t, p) by {
      assert ([p[0]] + t)[1] != p[1];
    }
    ReplaceAllStep(p[0], t, p, rep);
    ReplaceAllAtStart(u, p, rep);
    MissingCharNoMatch(u, p, p[0]);
    ReplaceAllNoMatch(u, p, rep);
  }

  /** A text that does not start with the pattern keeps its first character. */
  lemma ReplaceAllStep(c: char, t: string, p: string, rep: string)
    requires |p| > 0 && !StartsWith([c] + t, p)
    ensures ReplaceAll([c] + t, p, rep) == [c] + ReplaceAll(t, p, rep)
  {
    assert ([c] + t)[1..] == t;
  }

  /** A text that starts with the pattern starts its output with the replacement. */
  lemma ReplaceAllAtStart(t: string, p: string, rep: string)
    requires |p| > 0
    ensures ReplaceAll(p + t, p, rep) == rep + ReplaceAll(t, p, rep)
  {
    assert (p + t)[..|p|] == p;
    assert (p + t)[|p|..] == t;
  }

  /** `b` occurs in `a + b + c` right after `a`. */
  lemma OccursAtJoin(a: string, b: string, c: string)
    ensures OccursAt(a + b + c, b, |a|)
  {
    assert (a + b + c)[|a|..|a| + |b|] == b;
  }

  /** `b` occurs at the end of `a + b`. */
  lemma OccursAfter(a: string, b: string)
    ensures OccursAt(a + b, b, |a|)
  {
    assert (a + b)[|a|..|a| + |b|] == b;
  }

  /** An occurrence stays where it is when text is appended, and moves by the
      length of what is prepended. */
  lemma OccursExtend(x: string, y: string, b: string, i: int)
    requires OccursAt(x, b, i)
    ensures OccursAt(x + y, b, i)
    ensures OccursAt(y + x, b, |y| + i)
  {
    assert (x + y)[i..i + |b|] == x[i..i + |b|];
    assert (y + x)[|y| + i..|y| + i + |b|] == x[i..i + |b|];
  }
}
