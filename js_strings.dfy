/**
 * The ECMAScript string built-ins the plugin relies on, for the arguments
 * it passes them: `lastIndexOf` of one character, `substring`, and
 * `replace` with a global pattern that matches a fixed text.
 */
module JsStrings {

  /** `s.lastIndexOf(c)`: the last position of `c`, or -1. */
  function LastIndexOf(s: string, c: char): (i: int)
    ensures -1 <= i < |s|
    ensures i >= 0 ==> s[i] == c && c !in s[i + 1..]
    ensures i == -1 ==> c !in s
  {
    if s == [] then -1
    else if s[|s| - 1] == c then |s| - 1
    else
      assert s == s[..|s| - 1] + [s[|s| - 1]];
      LastIndexOf(s[..|s| - 1], c)
  }

  function Clamp(n: int, len: nat): (r: nat)
    ensures r <= len
  {
    if n < 0 then 0 else if n > len then len else n
  }

  /**
   * `s.substring(start, end)`: both bounds are clamped to `[0, |s|]` and
   * swapped when `start > end`.
   */
  function Substring(s: string, start: int, end: int): (sub: string)
    ensures 0 <= start <= end <= |s| ==> sub == s[start..end]
    ensures 0 <= end <= start <= |s| ==> sub == s[end..start]
    ensures start <= 0 && end <= 0 ==> sub == ""
    ensures |sub| <= |s|
  {
    var a, b := Clamp(start, |s|), Clamp(end, |s|);
    if a <= b then s[a..b] else s[b..a]
  }

  predicate StartsWith(s: string, p: string) {
    |p| <= |s| && s[..|p|] == p
  }

  /** `p` occurs somewhere in `s`. */
  predicate Occurs(p: string, s: string) {
    StartsWith(s, p) || (s != [] && Occurs(p, s[1..]))
  }

  /** Whatever surrounds `p`, it occurs in the result. */
  lemma {:induction false} OccursInside(a: string, p: string, b: string)
    ensures Occurs(p, a + p + b)
  {
    if a == [] {
      assert (a + p + b)[..|p|] == p;
    } else {
      OccursInside(a[1..], p, b);
      assert (a + p + b)[1..] == a[1..] + p + b;
    }
  }

  /**
   * `s.replace(/p/g, v)` read as plain text substitution: scanning left to
   * right, every non-overlapping occurrence of `p` becomes `v`.
   */
  function ReplaceAll(s: string, p: string, v: string): string
    requires |p| > 0
    decreases |s|
  {
    if StartsWith(s, p) then v + ReplaceAll(s[|p|..], p, v)
    else if s == [] then []
    else [s[0]] + ReplaceAll(s[1..], p, v)
  }

  /**
   * GetSubstitution of ECMA-262 for a pattern without capture groups: the
   * replacement string `r` with `$$`, `$&`, `` $` `` and `$'` expanded; any
   * other `$` stays as it is.
   */
  function Expand(r: string, matched: string, before: string, after: string): string {
    if |r| >= 2 && r[0] == '$' && r[1] in {'$', '&', '`', '\''} then
      (match r[1]
        case '$' => "$"
        case '&' => matched
        case '`' => before
        case _ => after)
      + Expand(r[2..], matched, before, after)
    else if r == [] then []
    else [r[0]] + Expand(r[1..], matched, before, after)
  }

  /**
   * `s.replace(/p/g, r)` as ECMA-262 evaluates it when `r` is a string:
   * the scan resumes at `i`, and each match is replaced by `r` expanded
   * against the whole of `s`.
   */
  function ReplaceAllFrom(s: string, i: nat, p: string, r: string): string
    requires |p| > 0 && i <= |s|
    decreases |s| - i
  {
    if StartsWith(s[i..], p) then
      Expand(r, p, s[..i], s[i + |p|..]) + ReplaceAllFrom(s, i + |p|, p, r)
    else if i == |s| then []
    else [s[i]] + ReplaceAllFrom(s, i + 1, p, r)
  }

  /** `s.replace(/p/g, r)`, as written in the plugin. */
  function ReplaceAllAsWritten(s: string, p: string, r: string): string
    requires |p| > 0
  {
    ReplaceAllFrom(s, 0, p, r)
  }

  /** One step of the plain scan, at a match. */
  lemma ReplaceAllMatch(s: string, p: string, v: string)
    requires |p| > 0 && StartsWith(s, p)
    ensures ReplaceAll(s, p, v) == v + ReplaceAll(s[|p|..], p, v)
  {
  }

  /** One step of the plain scan, past a character that starts no match. */
  lemma ReplaceAllSkipOne(s: string, p: string, v: string)
    requires |p| > 0 && s != [] && !StartsWith(s, p)
    ensures ReplaceAll(s, p, v) == [s[0]] + ReplaceAll(s[1..], p, v)
  {
  }

  /** One step of the scan as written, at a match: its replacement is expanded. */
  lemma ReplaceAllFromMatch(s: string, i: nat, p: string, r: string)
    requires |p| > 0 && i <= |s| && StartsWith(s[i..], p)
    ensures ReplaceAllFrom(s, i, p, r) == Expand(r, p, s[..i], s[i + |p|..]) + ReplaceAllFrom(s, i + |p|, p, r)
  {
  }

  /**
   * `c` followed by `x` and then `y`, however grouped. Like `Assoc` and
   * `AssocFront`, a solver aid: proofs that unfold the replace functions
   * call these instead of regrouping concatenations themselves, which keeps
   * them fast on every solver seed.
   */
  lemma ConsAssoc(c: char, x: string, y: string)
    ensures [c] + (x + y) == [c] + x + y
  {
  }

  /** One step of the scan as written, past a character that starts no match. */
  lemma ReplaceAllFromSkipOne(s: string, i: nat, p: string, r: string)
    requires |p| > 0 && i < |s| && !StartsWith(s[i..], p)
    ensures ReplaceAllFrom(s, i, p, r) == [s[i]] + ReplaceAllFrom(s, i + 1, p, r)
  {
  }

  /** A replacement without `$` is inserted literally. */
  lemma {:induction false} ExpandWithoutDollar(r: string, matched: string, before: string, after: string)
    requires '$' !in r
    ensures Expand(r, matched, before, after) == r
  {
    if r != [] {
      ExpandWithoutDollar(r[1..], matched, before, after);
    }
  }

  lemma {:induction false} ReplaceAllFromWithoutDollar(s: string, i: nat, p: string, r: string)
    requires |p| > 0 && i <= |s| && '$' !in r
    ensures ReplaceAllFrom(s, i, p, r) == ReplaceAll(s[i..], p, r)
    decreases |s| - i
  {
    if StartsWith(s[i..], p) {
      ReplaceAllFromMatch(s, i, p, r);
      ExpandWithoutDollar(r, p, s[..i], s[i + |p|..]);
      ReplaceAllFromWithoutDollar(s, i + |p|, p, r);
      ReplaceAllMatch(s[i..], p, r);
      assert s[i..][|p|..] == s[i + |p|..];
    } else if i < |s| {
      ReplaceAllFromSkipOne(s, i, p, r);
      ReplaceAllFromWithoutDollar(s, i + 1, p, r);
      ReplaceAllSkipOne(s[i..], p, r);
      assert s[i..][0] == s[i];
      assert s[i..][1..] == s[i + 1..];
    } else {
      ReplaceAllFromEnd(s, p, r);
      assert s[i..] == [];
    }
  }

  /**
   * The replacement as written agrees with plain substitution whenever the
   * replacement text holds no `$`.
   */
  lemma AsWrittenWithoutDollar(s: string, p: string, r: string)
    requires |p| > 0 && '$' !in r
    ensures ReplaceAllAsWritten(s, p, r) == ReplaceAll(s, p, r)
  {
    ReplaceAllFromWithoutDollar(s, 0, p, r);
    assert s[0..] == s;
  }

  /** Text in which `p` does not occur passes through unchanged. */
  lemma {:induction false} ReplaceAllNoMatch(s: string, p: string, v: string)
    requires |p| > 0 && !Occurs(p, s)
    ensures ReplaceAll(s, p, v) == s
  {
    if s != [] {
      ReplaceAllNoMatch(s[1..], p, v);
    }
  }

  /**
   * The leftmost occurrence of `p` is replaced, and the scan resumes
   * after it: when no occurrence starts inside `a`, the text `a + p + b`
   * becomes `a + v` followed by the replacement of `b`.
   */
  lemma {:induction false} ReplaceAllLeftmost(a: string, p: string, b: string, v: string)
    requires |p| > 0 && !Occurs(p, a + p[..|p| - 1])
    ensures ReplaceAll(a + p + b, p, v) == a + v + ReplaceAll(b, p, v)
  {
    var s := a + p + b;
    if a == [] {
      assert s == p + b && s[..|p|] == p && s[|p|..] == b;
    } else {
      var c, rest := a[0], a[1..];
      var pre := a + p[..|p| - 1];
      assert |pre| >= |p|;
      assert s[..|p|] == pre[..|p|];
      assert pre[1..] == rest + p[..|p| - 1];
      ReplaceAllLeftmost(rest, p, b, v);
      assert a == [c] + rest;
      assert s == [c] + (rest + p + b);
      ReplaceAllSkipFront(c, rest + p + b, p, v);
      Assoc([c], rest + v, ReplaceAll(b, p, v));
      Assoc([c], rest, v);
    }
  }

  /**
   * A placeholder: a name between braces, with no brace inside the name.
   */
  predicate IsPlaceholder(q: string) {
    && |q| >= 2
    && q[0] == '{' && q[|q| - 1] == '}'
    && forall k :: 0 < k < |q| - 1 ==> q[k] != '{' && q[k] != '}'
  }

  lemma {:induction false} ReplaceAllSkipsBraceFree(c: string, b: string, p: string, v: string)
    requires |p| > 0 && p[0] == '{' && '{' !in c
    ensures ReplaceAll(c + b, p, v) == c + ReplaceAll(b, p, v)
  {
    if c != [] {
      assert (c + b)[0] == c[0];
      assert (c + b)[1..] == c[1..] + b;
      ReplaceAllSkipsBraceFree(c[1..], b, p, v);
    } else {
      assert c + b == b;
    }
  }

  lemma PlaceholderNotAtStart(q: string, b: string, p: string)
    requires IsPlaceholder(p) && IsPlaceholder(q) && p != q
    ensures !StartsWith(q + b, p)
  {
    if |p| < |q| {
      assert (q + b)[|p| - 1] != p[|p| - 1];
    } else if |p| == |q| {
      assert (q + b)[..|p|] == q;
    } else {
      assert (q + b)[|q| - 1] != p[|q| - 1];
    }
  }

  lemma PlaceholderInside(p: string, k: nat)
    requires IsPlaceholder(p) && 0 < k < |p|
    ensures p[k] != '{'
  {
  }

  lemma ReplaceAllPassesPlaceholder(q: string, b: string, p: string, v: string)
    requires IsPlaceholder(p) && IsPlaceholder(q) && p != q
    ensures ReplaceAll(q + b, p, v) == q + ReplaceAll(b, p, v)
  {
    PlaceholderNotAtStart(q, b, p);
    assert q == [q[0]] + q[1..];
    assert q + b == [q[0]] + (q[1..] + b);
    ReplaceAllSkipFront(q[0], q[1..] + b, p, v);
    PlaceholderTail(q);
    ReplaceAllSkipsBraceFree(q[1..], b, p, v);
    Assoc([q[0]], q[1..], ReplaceAll(b, p, v));
  }

  lemma PlaceholderTail(q: string)
    requires IsPlaceholder(q)
    ensures '{' !in q[1..]
  {
    forall k | 0 <= k < |q| - 1 ensures q[1..][k] != '{' {
      assert q[1..][k] == q[k + 1];
    }
  }

  /**
   * Replacing one placeholder leaves any other placeholder in the text
   * untouched: no occurrence of `p` can overlap `q`.
   */
  lemma {:induction false} ReplaceAllKeepsOtherPlaceholder(a: string, q: string, b: string, p: string, v: string)
    requires IsPlaceholder(p) && IsPlaceholder(q) && p != q
    ensures ReplaceAll(a + q + b, p, v) == ReplaceAll(a, p, v) + q + ReplaceAll(b, p, v)
    decreases |a|
  {
    var s := a + q + b;
    if a == [] {
      assert s == q + b;
      ReplaceAllPassesPlaceholder(q, b, p, v);
    } else if StartsWith(s, p) {
      if |a| < |p| {
        PlaceholderInside(p, |a|);
      }
      assert a[..|p|] == s[..|p|];
      assert a == p + a[|p|..];
      assert s == p + (a[|p|..] + q + b);
      ReplaceAllKeepsOtherPlaceholder(a[|p|..], q, b, p, v);
      ReplaceAllMatchBefore(p, a[|p|..], q, b, v);
    } else {
      assert !StartsWith(a, p) by {
        if |p| <= |a| { assert s[..|p|] == a[..|p|]; }
      }
      assert a == [a[0]] + a[1..];
      assert s == [a[0]] + (a[1..] + q + b);
      ReplaceAllKeepsOtherPlaceholder(a[1..], q, b, p, v);
      ReplaceAllSkipBefore(a[0], a[1..], q, b, p, v);
    }
  }

  /**
   * A match at the front is replaced the same way whatever follows, so the
   * split around `q` carries over from the text after the match.
   */
  lemma ReplaceAllMatchBefore(p: string, rest: string, q: string, b: string, v: string)
    requires |p| > 0
    requires ReplaceAll(rest + q + b, p, v) == ReplaceAll(rest, p, v) + q + ReplaceAll(b, p, v)
    ensures ReplaceAll(p + (rest + q + b), p, v) == ReplaceAll(p + rest, p, v) + q + ReplaceAll(b, p, v)
  {
    ReplaceAllAtFront(p, rest + q + b, v);
    ReplaceAllAtFront(p, rest, v);
    var x, y := ReplaceAll(rest, p, v), ReplaceAll(b, p, v);
    AssocFront(v, x, q, y);
  }

  /** Regrouping after a prefix `v`; a solver aid like `ConsAssoc`. */
  lemma AssocFront(v: string, x: string, q: string, y: string)
    ensures v + (x + q + y) == v + x + q + y
  {
  }

  /** A first character that starts no match is copied. */
  lemma ReplaceAllSkipFront(c: char, x: string, p: string, v: string)
    requires |p| > 0 && !StartsWith([c] + x, p)
    ensures ReplaceAll([c] + x, p, v) == [c] + ReplaceAll(x, p, v)
  {
    assert ([c] + x)[1..] == x;
  }

  /**
   * A first character that starts no match is copied whatever follows, so
   * the split around `q` carries over from the text after it.
   */
  lemma ReplaceAllSkipBefore(c: char, rest: string, q: string, b: string, p: string, v: string)
    requires |p| > 0 && !StartsWith([c] + (rest + q + b), p) && !StartsWith([c] + rest, p)
    requires ReplaceAll(rest + q + b, p, v) == ReplaceAll(rest, p, v) + q + ReplaceAll(b, p, v)
    ensures ReplaceAll([c] + (rest + q + b), p, v) == ReplaceAll([c] + rest, p, v) + q + ReplaceAll(b, p, v)
  {
    ReplaceAllSkipFront(c, rest + q + b, p, v);
    ReplaceAllSkipFront(c, rest, p, v);
    var x, y := ReplaceAll(rest, p, v), ReplaceAll(b, p, v);
    AssocFront([c], x, q, y);
  }

  /** The pieces of `segs` joined by `sep`. */
  function Join(segs: seq<string>, sep: string): string
    requires |segs| > 0
  {
    if |segs| == 1 then segs[0] else segs[0] + sep + Join(segs[1..], sep)
  }

  /** Replacement at the very front of the text. */
  lemma ReplaceAllAtFront(p: string, x: string, v: string)
    requires |p| > 0
    ensures ReplaceAll(p + x, p, v) == v + ReplaceAll(x, p, v)
  {
    assert (p + x)[..|p|] == p;
    assert (p + x)[|p|..] == x;
  }

  /**
   * Every occurrence is replaced and nothing else changes: text made of
   * brace-free pieces separated by a pattern that starts with a brace
   * becomes the same pieces separated by the replacement.
   */
  lemma {:induction false} ReplaceAllJoin(segs: seq<string>, p: string, v: string)
    requires |segs| > 0 && |p| > 0 && p[0] == '{'
    requires forall i :: 0 <= i < |segs| ==> '{' !in segs[i]
    ensures ReplaceAll(Join(segs, p), p, v) == Join(segs, v)
  {
    if |segs| == 1 {
      ReplaceAllSkipsBraceFree(segs[0], [], p, v);
      assert segs[0] + [] == segs[0];
    } else {
      var rest := Join(segs[1..], p);
      assert Join(segs, p) == segs[0] + (p + rest);
      ReplaceAllSkipsBraceFree(segs[0], p + rest, p, v);
      ReplaceAllAtFront(p, rest, v);
      ReplaceAllJoin(segs[1..], p, v);
    }
  }

  /** The scan as written copies brace-free text unchanged. */
  lemma {:induction false} ReplaceAllFromSkips(s: string, i: nat, j: nat, p: string, r: string)
    requires |p| > 0 && p[0] == '{' && i <= j <= |s|
    requires forall k :: i <= k < j ==> s[k] != '{'
    ensures ReplaceAllFrom(s, i, p, r) == s[i..j] + ReplaceAllFrom(s, j, p, r)
    decreases j - i
  {
    if i < j {
      assert s[i..][0] == s[i];
      ReplaceAllFromSkipOne(s, i, p, r);
      ReplaceAllFromSkips(s, i + 1, j, p, r);
      assert s[i..j] == [s[i]] + s[i + 1..j];
      ConsAssoc(s[i], s[i + 1..j], ReplaceAllFrom(s, j, p, r));
    }
  }

  /** The characters of `s` that make up `c` are those of `c`. */
  lemma BraceFreeAt(s: string, i: nat, c: string)
    requires i + |c| <= |s| && s[i..i + |c|] == c && '{' !in c
    ensures forall k :: i <= k < i + |c| ==> s[k] != '{'
  {
    forall k | i <= k < i + |c| ensures s[k] != '{' {
      assert s[k] == c[k - i];
    }
  }

  lemma ExpandDollarAmpersand(matched: string, before: string, after: string)
    ensures Expand("$&", matched, before, after) == matched
  {
    assert "$&"[2..] == [];
    assert Expand([], matched, before, after) == [];
  }

  lemma ReplaceAllFromEnd(s: string, p: string, r: string)
    requires |p| > 0
    ensures ReplaceAllFrom(s, |s|, p, r) == []
  {
    assert s[|s|..] == [];
  }

  /**
   * With the replacement `$&`, the replacement as written puts the matched
   * pattern back, so the text comes out as it went in.
   */
  lemma DollarAmpersandKeepsMatch(a: string, p: string, b: string)
    requires |p| > 0 && p[0] == '{' && '{' !in a && '{' !in b
    ensures ReplaceAllAsWritten(a + p + b, p, "$&") == a + p + b
  {
    var s := a + p + b;
    DollarAmpersandTail(s, |a|, p, b);
    assert s[0..|a|] == a;
    BraceFreeAt(s, 0, a);
    ReplaceAllFromSkips(s, 0, |a|, p, "$&");
    Assoc(a, p, b);
  }

  /** From a match onwards, `$&` puts the match back and the brace-free rest is copied. */
  lemma DollarAmpersandTail(s: string, i: nat, p: string, b: string)
    requires |p| > 0 && p[0] == '{' && '{' !in b && i + |p| + |b| == |s|
    requires s[i..] == p + b
    ensures ReplaceAllFrom(s, i, p, "$&") == p + b
  {
    assert s[i..][..|p|] == p;
    ReplaceAllFromMatch(s, i, p, "$&");
    ExpandDollarAmpersand(p, s[..i], s[i + |p|..]);
    assert s[i + |p|..|s|] == b;
    BraceFreeAt(s, i + |p|, b);
    ReplaceAllFromSkips(s, i + |p|, |s|, p, "$&");
    ReplaceAllFromEnd(s, p, "$&");
    assert b + [] == b;
  }

  /** Regrouping three strings; a solver aid like `ConsAssoc`. */
  lemma Assoc(x: string, y: string, z: string)
    ensures x + (y + z) == x + y + z
  {
  }

  /** A single occurrence between brace-free text is replaced by the value itself. */
  lemma ReplaceAllOnce(a: string, p: string, b: string, v: string)
    requires |p| > 0 && p[0] == '{' && '{' !in a && '{' !in b
    ensures ReplaceAll(a + p + b, p, v) == a + v + b
  {
    var empty: string := [];
    assert b + empty == b;
    assert ReplaceAll(empty, p, v) == [];
    ReplaceAllSkipsBraceFree(b, empty, p, v);
    assert ReplaceAll(b, p, v) == b;
    ReplaceAllAtFront(p, b, v);
    assert a + (p + b) == a + p + b;
    ReplaceAllSkipsBraceFree(a, p + b, p, v);
  }

  /** Plain substitution of `$&` inserts the two characters themselves. */
  lemma DollarAmpersandLiteral(a: string, p: string, b: string)
    requires |p| > 0 && p[0] == '{' && '{' !in a && '{' !in b
    ensures ReplaceAll(a + p + b, p, "$&") == a + "$&" + b
  {
    ReplaceAllOnce(a, p, b, "$&");
  }
}
