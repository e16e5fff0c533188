/** Strings as JavaScript compares them: code unit by code unit, a proper
    prefix first. Used for the ISO date comparison of the scheduled items
    and for the category list that `sort()` orders. */
module Text {

  /** `s < t` on JavaScript strings. */
  predicate LexLess(s: string, t: string)
    decreases |s|
  {
    if |s| == 0 then |t| > 0
    else if |t| == 0 then false
    else if s[0] < t[0] then true
    else if s[0] == t[0] then LexLess(s[1..], t[1..])
    else false
  }

  /** The order is a strict total order: never both ways ... */
  lemma {:induction false} LexAsymmetric(s: string, t: string)
    ensures !(LexLess(s, t) && LexLess(t, s))
    decreases |s|
  {
    if |s| > 0 && |t| > 0 && s[0] == t[0] {
      LexAsymmetric(s[1..], t[1..]);
    }
  }

  /** ... and, between different strings, always one way. */
  lemma {:induction false} LexTotal(s: string, t: string)
    ensures s == t || LexLess(s, t) || LexLess(t, s)
    decreases |s|
  {
    if |s| > 0 && |t| > 0 && s[0] == t[0] {
      LexTotal(s[1..], t[1..]);
      if s[1..] == t[1..] {
        assert s == [s[0]] + s[1..] && t == [t[0]] + t[1..];
      }
    }
  }

  /** Comparing two concatenations whose first parts have equal length:
      the first parts decide, and only a tie passes the decision on. */
  lemma {:induction false} LexConcat(a: string, c: string, b: string, d: string)
    requires |a| == |b|
    ensures LexLess(a + c, b + d) <==> LexLess(a, b) || (a == b && LexLess(c, d))
    ensures a + c == b + d <==> a == b && c == d
    decreases |a|
  {
    if |a| == 0 {
      assert a + c == c && b + d == d;
    } else {
      assert (a + c)[0] == a[0] && (b + d)[0] == b[0];
      assert (a + c)[1..] == a[1..] + c && (b + d)[1..] == b[1..] + d;
      LexConcat(a[1..], c, b[1..], d);
      assert a == [a[0]] + a[1..] && b == [b[0]] + b[1..];
      if a + c == b + d {
        assert a == (a + c)[..|a|] && b == (b + d)[..|b|];
        assert c == (a + c)[|a|..] && d == (b + d)[|b|..];
      }
    }
  }

  /** `t` starts with `p`. */
  predicate StartsWith(t: string, p: string) {
    |p| <= |t| && t[..|p|] == p
  }

  /** `content.includes(needle)`. */
  predicate Contains(content: string, needle: string)
    decreases |content|
  {
    StartsWith(content, needle) || (|content| > 0 && Contains(content[1..], needle))
  }

  /** `needle` occurs in `content` starting at index `i`. */
  predicate OccursAt(content: string, needle: string, i: int) {
    0 <= i && i + |needle| <= |content| && content[i..i + |needle|] == needle
  }

  /** `Contains` holds exactly when the needle occurs somewhere. */
  lemma {:induction false} ContainsAt(content: string, needle: string)
    ensures Contains(content, needle) <==> exists i :: OccursAt(content, needle, i)
    decreases |content|
  {
    if StartsWith(content, needle) {
      assert OccursAt(content, needle, 0);
    } else if |content| > 0 {
      ContainsAt(content[1..], needle);
      if Contains(content[1..], needle) {
        var i :| OccursAt(content[1..], needle, i);
        assert content[1..][i..i + |needle|] == content[i + 1..i + 1 + |needle|];
        assert OccursAt(content, needle, i + 1);
      }
      if i :| OccursAt(content, needle, i) {
        assert i != 0;
        assert content[1..][i - 1..i - 1 + |needle|] == content[i..i + |needle|];
        assert OccursAt(content[1..], needle, i - 1);
      }
    }
  }

  /** A string contains its own tail. */
  lemma ContainsSuffix(a: string, b: string)
    ensures Contains(a + b, b)
  {
    ContainsAt(a + b, b);
    assert (a + b)[|a|..|a| + |b|] == b;
    assert OccursAt(a + b, b, |a|);
  }

  /** ... and its own head. */
  lemma ContainsPrefix(a: string, b: string)
    ensures Contains(a + b, a)
  {
    assert (a + b)[..|a|] == a;
  }

  /** ... and any middle piece. */
  lemma ContainsMiddle(a: string, b: string, c: string)
    ensures Contains(a + b + c, b)
  {
    ContainsAt(a + b + c, b);
    assert (a + b + c)[|a|..|a| + |b|] == b;
    assert OccursAt(a + b + c, b, |a|);
  }
}
