/**
 * The few Python string operations the scripts rely on: `lower()`, `upper()`,
 * the substring test `a in b`, and the first and last pieces of `split(sep)`.
 * Case mapping covers the ASCII letters only.
 */
module Strings {

  predicate IsUpperChar(c: char) { 'A' <= c <= 'Z' }

  predicate IsLowerChar(c: char) { 'a' <= c <= 'z' }

  function LowerChar(c: char): (d: char)
    ensures !IsUpperChar(d)
    ensures IsUpperChar(c) ==> IsLowerChar(d) && d as int - c as int == 'a' as int - 'A' as int
    ensures !IsUpperChar(c) ==> d == c
  {
    if IsUpperChar(c) then (c as int - 'A' as int + 'a' as int) as char else c
  }

  function UpperChar(c: char): (d: char)
    ensures !IsLowerChar(d)
    ensures IsLowerChar(c) ==> IsUpperChar(d) && c as int - d as int == 'a' as int - 'A' as int
    ensures !IsLowerChar(c) ==> d == c
  {
    if IsLowerChar(c) then (c as int - 'a' as int + 'A' as int) as char else c
  }

  /** Python's `s.lower()`, restricted to ASCII letters. */
  function Lower(s: string): (r: string)
    ensures |r| == |s|
  {
    seq(|s|, i requires 0 <= i < |s| => LowerChar(s[i]))
  }

  /** Python's `s.upper()`, restricted to ASCII letters. */
  function Upper(s: string): (r: string)
    ensures |r| == |s|
  {
    seq(|s|, i requires 0 <= i < |s| => UpperChar(s[i]))
  }

  /** `sub` occurs in `s` starting at index `i`. */
  predicate OccursAt(s: string, sub: string, i: int)
  {
    0 <= i <= |s| - |sub| && forall k, m :: 0 <= k < |sub| && m == i + k ==> s[m] == sub[k]
  }

  /** Python's `sub in s`: `sub` occurs at some index of `s`. */
  predicate Contains(s: string, sub: string)
  {
    exists i | 0 <= i <= |s| - |sub| :: OccursAt(s, sub, i)
  }

  /** A witness index gives `Contains`. */
  lemma ContainsAtIndex(s: string, sub: string, i: int)
    requires OccursAt(s, sub, i)
    ensures Contains(s, sub)
  {
  }

  /** The substring relation is transitive. */
  lemma ContainsTransitive(a: string, b: string, c: string)
    requires Contains(a, b) && Contains(b, c)
    ensures Contains(a, c)
  {
    var i :| 0 <= i <= |a| - |b| && OccursAt(a, b, i);
    var j :| 0 <= j <= |b| - |c| && OccursAt(b, c, j);
    forall k | 0 <= k < |c|
      ensures a[i + j + k] == c[k]
    {
      assert c[k] == b[j + k] == a[i + (j + k)];
    }
    ContainsAtIndex(a, c, i + j);
  }

  /** Every string contains the empty string. */
  lemma ContainsEmpty(s: string)
    ensures Contains(s, "")
  {
    assert OccursAt(s, "", 0);
  }

  /** Every string contains itself. */
  lemma ContainsSelf(s: string)
    ensures Contains(s, s)
  {
    assert OccursAt(s, s, 0);
  }

  /** A contained string is no longer than the one containing it. */
  lemma ContainsLength(s: string, sub: string)
    requires Contains(s, sub)
    ensures |sub| <= |s|
  {
  }

  /** A string contains each of its prefixes. */
  lemma ContainsPrefix(s: string, k: int)
    requires 0 <= k <= |s|
    ensures Contains(s, s[..k])
  {
    assert OccursAt(s, s[..k], 0);
  }

  /** A string contains each of its suffixes. */
  lemma ContainsSuffix(s: string, k: int)
    requires 0 <= k <= |s|
    ensures Contains(s, s[k..])
  {
    assert OccursAt(s, s[k..], k);
  }

  /** A character of a string is contained in it as a one-character string. */
  lemma ContainsChar(s: string, c: char)
    requires c in s
    ensures Contains(s, [c])
  {
    var i :| 0 <= i < |s| && s[i] == c;
    assert OccursAt(s, [c], i);
  }

  /** Every character of a contained string occurs in the containing one. */
  lemma ContainsChars(s: string, sub: string)
    requires Contains(s, sub)
    ensures forall c :: c in sub ==> c in s
  {
    var i :| 0 <= i <= |s| - |sub| && OccursAt(s, sub, i);
    forall c | c in sub
      ensures c in s
    {
      var k :| 0 <= k < |sub| && sub[k] == c;
      assert s[i + k] == c;
    }
  }

  /** Between strings of one length, containment is equality. */
  lemma ContainsSameLength(s: string, sub: string)
    requires |s| == |sub|
    ensures Contains(s, sub) <==> s == sub
  {
    if Contains(s, sub) {
      assert OccursAt(s, sub, 0);
      assert s == sub;
    } else if s == sub {
      ContainsSelf(s);
    }
  }

  /** A string lacking some character of `sub` does not contain `sub`. */
  lemma MissingCharNotContained(s: string, sub: string, c: char)
    requires c in sub && c !in s
    ensures !Contains(s, sub)
  {
    if Contains(s, sub) {
      ContainsChars(s, sub);
    }
  }

  /** A string with no upper-case letter is its own lower-case form. */
  lemma LowerOfLowercase(s: string)
    requires forall i :: 0 <= i < |s| ==> !IsUpperChar(s[i])
    ensures Lower(s) == s
  {
  }

  /** Lower-casing twice is lower-casing once. */
  lemma LowerIdempotent(s: string)
    ensures Lower(Lower(s)) == Lower(s)
  {
    assert forall i :: 0 <= i < |s| ==> LowerChar(LowerChar(s[i])) == LowerChar(s[i]);
  }

  /** The result of `Lower` has no upper-case letter. */
  lemma LowerHasNoUpper(s: string, i: int)
    requires 0 <= i < |s|
    ensures !IsUpperChar(Lower(s)[i])
  {
  }

  /** An occurrence in a suffix of `s` is an occurrence in `s`, shifted. */
  lemma OccursAtShift(s: string, sub: string, k: int, j: int)
    requires 0 <= k <= |s|
    ensures OccursAt(s[k..], sub, j) <==> j >= 0 && OccursAt(s, sub, j + k)
  {
  }

  /** `s.find(sep)`: the first index where `sep` occurs in `s`, or -1. */
  function Find(s: string, sep: string): (i: int)
    ensures i == -1 || 0 <= i <= |s| - |sep|
    decreases |s|
  {
    if |s| < |sep| then -1
    else if OccursAt(s, sep, 0) then 0
    else
      var k := Find(s[1..], sep);
      if k < 0 then -1 else k + 1
  }

  /** When `Find` answers an index, `sep` occurs there. */
  lemma {:induction false} FindFound(s: string, sep: string)
    requires Find(s, sep) >= 0
    ensures OccursAt(s, sep, Find(s, sep))
    decreases |s|
  {
    if |sep| <= |s| && !OccursAt(s, sep, 0) {
      FindFound(s[1..], sep);
      OccursAtShift(s, sep, 1, Find(s[1..], sep));
    }
  }

  /** `sep` occurs at no index before the one `Find` answers, nor anywhere when it answers -1. */
  lemma {:induction false} FindFirst(s: string, sep: string, i: int)
    requires 0 <= i && (Find(s, sep) < 0 || i < Find(s, sep))
    ensures !OccursAt(s, sep, i)
    decreases |s|
  {
    if |sep| <= |s| && !OccursAt(s, sep, 0) {
      if i == 0 {
      } else {
        FindFirst(s[1..], sep, i - 1);
        OccursAtShift(s, sep, 1, i - 1);
      }
    }
  }

  /** `Find` answers -1 exactly when `s` does not contain `sep`. */
  lemma FindContains(s: string, sep: string)
    ensures Find(s, sep) >= 0 <==> Contains(s, sep)
  {
    if Find(s, sep) >= 0 {
      FindFound(s, sep);
    } else if Contains(s, sep) {
      var i :| 0 <= i <= |s| - |sep| && OccursAt(s, sep, i);
      FindFirst(s, sep, i);
    }
  }

  /** Dropping `a` elements and then `b` more drops `a + b`. */
  lemma DropDrop<T>(s: seq<T>, a: int, b: int)
    requires 0 <= a <= |s| && 0 <= b <= |s| - a
    ensures s[a..][b..] == s[a + b..]
  {
  }

  /**
   * Where the last piece of Python's `s.split(sep)` starts: the scan finds
   * the occurrences of `sep` from left to right without overlap, and the
   * last piece starts right after the last one found, or at 0 when there is
   * none.
   */
  function SplitStart(s: string, sep: string): (j: int)
    requires sep != []
    ensures 0 <= j <= |s|
    decreases |s|
  {
    var i := Find(s, sep);
    if i < 0 then 0 else i + |sep| + SplitStart(s[i + |sep|..], sep)
  }

  /** The last piece of Python's `s.split(sep)`, that is `s.split(sep)[-1]`. */
  function SplitLast(s: string, sep: string): (r: string)
    requires sep != []
    ensures |r| <= |s|
  {
    s[SplitStart(s, sep)..]
  }

  /**
   * The last piece of a split holds no separator; it is all of `s` when `s`
   * holds none, and otherwise it is preceded in `s` by a separator.
   */
  lemma SplitLastSpec(s: string, sep: string)
    requires sep != []
    ensures SplitLast(s, sep) == s[|s| - |SplitLast(s, sep)|..]
    ensures !Contains(SplitLast(s, sep), sep)
    ensures !Contains(s, sep) ==> SplitLast(s, sep) == s
    ensures Contains(s, sep) ==> OccursAt(s, sep, |s| - |SplitLast(s, sep)| - |sep|)
  {
    FindContains(s, sep);
    SplitLastNoSeparator(s, sep);
    if Find(s, sep) >= 0 {
      SplitLastPlaced(s, sep);
    } else {
      assert s[0..] == s;
    }
  }

  /** The last piece of a split holds no separator. */
  lemma {:induction false} SplitLastNoSeparator(s: string, sep: string)
    requires sep != []
    ensures !Contains(SplitLast(s, sep), sep)
    decreases |s|
  {
    var i := Find(s, sep);
    if i < 0 {
      FindContains(s, sep);
      assert SplitLast(s, sep) == s;
    } else {
      var t := s[i + |sep|..];
      SplitLastNoSeparator(t, sep);
      DropDrop(s, i + |sep|, SplitStart(t, sep));
      assert SplitLast(s, sep) == SplitLast(t, sep);
    }
  }

  /** When `Find` succeeds, the last piece of the split follows a separator. */
  lemma {:induction false} SplitLastPlaced(s: string, sep: string)
    requires sep != [] && Find(s, sep) >= 0
    ensures OccursAt(s, sep, SplitStart(s, sep) - |sep|)
    decreases |s|
  {
    var i := Find(s, sep);
    var t := s[i + |sep|..];
    var j := SplitStart(t, sep);
    assert SplitStart(s, sep) == i + |sep| + j;
    if Find(t, sep) >= 0 {
      SplitLastPlaced(t, sep);
      OccursAtShift(s, sep, i + |sep|, j - |sep|);
    } else {
      FindFound(s, sep);
    }
  }

  /** One character of an occurrence. */
  lemma OccursAtChar(s: string, sub: string, i: int, k: int)
    requires OccursAt(s, sub, i) && 0 <= k < |sub|
    ensures i + k < |s| && s[i + k] == sub[k]
  {
  }

  /** `sep` cannot overlap a shifted copy of itself: its first character does not recur in it. */
  predicate NoSelfOverlap(sep: string)
  {
    sep != [] && forall d :: 0 < d < |sep| ==> sep[d] != sep[0]
  }

  /**
   * After a separator that cannot overlap itself, a tail holding no
   * separator is the last piece of the split, whatever precedes it.
   */
  lemma SplitLastAfter(p: string, sep: string, y: string)
    requires NoSelfOverlap(sep) && !Contains(y, sep)
    ensures SplitLast(p + sep + y, sep) == y
  {
    var s := p + sep + y;
    var n := |sep|;
    assert OccursAt(s, sep, |p|) by {
      assert forall k :: 0 <= k < n ==> s[|p| + k] == sep[k];
    }
    ContainsAtIndex(s, sep, |p|);
    SplitLastSpec(s, sep);
    var r := SplitLast(s, sep);
    var a := |s| - |r| - n;
    if a + n <= |p| {
      OccursAtShift(s, sep, a + n, |p| - (a + n));
      ContainsAtIndex(r, sep, |p| - (a + n));
      assert false;
    } else if a < |p| {
      OccursAtChar(s, sep, a, |p| - a);
      OccursAtChar(s, sep, |p|, 0);
      assert false;
    } else if |p| + n <= a {
      assert y == s[|p| + n..];
      OccursAtShift(s, sep, |p| + n, a - (|p| + n));
      ContainsAtIndex(y, sep, a - (|p| + n));
      assert false;
    } else if |p| < a {
      OccursAtChar(s, sep, |p|, a - |p|);
      OccursAtChar(s, sep, a, 0);
      assert false;
    }
    assert r == s[|p| + n..];
  }

  /**
   * The first piece of Python's `s.split(sep)`: everything before the first
   * occurrence of `sep`, or all of `s` when there is none.
   */
  function SplitFirst(s: string, sep: string): (r: string)
    requires sep != []
    ensures |r| <= |s|
  {
    var i := Find(s, sep);
    if i < 0 then s else s[..i]
  }

  /**
   * The first piece of a split is a prefix of `s` that holds no occurrence of
   * the separator; it is all of `s` exactly when `s` holds no separator, and
   * otherwise a separator starts right after it.
   */
  lemma SplitFirstSpec(s: string, sep: string)
    requires sep != []
    ensures SplitFirst(s, sep) == s[..|SplitFirst(s, sep)|]
    ensures forall i :: 0 <= i < |SplitFirst(s, sep)| ==> !OccursAt(s, sep, i)
    ensures SplitFirst(s, sep) == s <==> !Contains(s, sep)
    ensures Contains(s, sep) ==> OccursAt(s, sep, |SplitFirst(s, sep)|)
  {
    FindContains(s, sep);
    if Find(s, sep) >= 0 {
      FindFound(s, sep);
    }
    forall i | 0 <= i < |SplitFirst(s, sep)|
      ensures !OccursAt(s, sep, i)
    {
      FindFirst(s, sep, i);
    }
  }

  /** The first piece of a split holds no separator. */
  lemma SplitFirstNoSeparator(s: string, sep: string)
    requires sep != []
    ensures !Contains(SplitFirst(s, sep), sep)
  {
    SplitFirstSpec(s, sep);
    var r := SplitFirst(s, sep);
    if Contains(r, sep) {
      var i :| 0 <= i <= |r| - |sep| && OccursAt(r, sep, i);
      assert OccursAt(s, sep, i);
      assert false;
    }
  }

  /** Before the first occurrence of a one-character separator, the first piece is what precedes it. */
  lemma SplitFirstBefore(x: string, c: char, q: string)
    requires c !in x
    ensures SplitFirst(x + [c] + q, [c]) == x
  {
    var s := x + [c] + q;
    assert OccursAt(s, [c], |x|);
    ContainsAtIndex(s, [c], |x|);
    SplitFirstSpec(s, [c]);
    var r := SplitFirst(s, [c]);
    if |r| < |x| {
      OccursAtChar(s, [c], |r|, 0);
      assert false;
    }
    assert !OccursAt(s, [c], |x|) <== |x| < |r|;
    assert r == s[..|x|];
  }
}
