/**
 * JavaScript's default `Array.prototype.sort()` on strings: ascending order of character
 * codes, compared lexicographically.
 */
module StringOrder {

  /** `a < b` for JavaScript strings. */
  predicate Less(a: string, b: string) {
    if a == [] then b != []
    else if b == [] then false
    else if a[0] != b[0] then a[0] < b[0]
    else Less(a[1..], b[1..])
  }

  predicate AtMost(a: string, b: string) {
    a == b || Less(a, b)
  }

  lemma LessIrreflexive(a: string)
    ensures !Less(a, a)
  {
    if a != [] { LessIrreflexive(a[1..]); }
  }

  lemma LessTransitive(a: string, b: string, c: string)
    requires Less(a, b) && Less(b, c)
    ensures Less(a, c)
  {
    if a != [] && b != [] && c != [] && a[0] == b[0] && b[0] == c[0] {
      LessTransitive(a[1..], b[1..], c[1..]);
    }
  }

  lemma LessTotal(a: string, b: string)
    ensures a == b || Less(a, b) || Less(b, a)
  {
    if a != [] && b != [] && a[0] == b[0] {
      LessTotal(a[1..], b[1..]);
      if a[1..] == b[1..] { assert a == [a[0]] + a[1..] && b == [b[0]] + b[1..]; }
    }
  }

  /** Ascending: every element is at most its successor. */
  predicate Sorted(s: seq<string>) {
    forall i :: 0 <= i < |s| - 1 ==> AtMost(s[i], s[i + 1])
  }

  lemma {:induction false} SortedFirstIsLeast(s: seq<string>, i: nat)
    requires Sorted(s) && i < |s|
    ensures AtMost(s[0], s[i])
  {
    if i > 0 {
      SortedFirstIsLeast(s, i - 1);
      if s[0] != s[i - 1] && s[i - 1] != s[i] { LessTransitive(s[0], s[i - 1], s[i]); }
    }
  }

  lemma InsertKeepsSorted(s: seq<string>, j: nat, k: string)
    requires Sorted(s) && j <= |s|
    requires j > 0 ==> AtMost(s[j - 1], k)
    requires j < |s| ==> AtMost(k, s[j])
    ensures Sorted(s[..j] + [k] + s[j..])
  {
    var r := s[..j] + [k] + s[j..];
    forall a | 0 <= a < |r| - 1 ensures AtMost(r[a], r[a + 1]) {
      if a + 1 < j {
        assert r[a] == s[a] && r[a + 1] == s[a + 1];
      } else if a + 1 == j {
        assert r[a] == s[a] && r[a + 1] == k;
      } else if a == j {
        assert r[a] == k && r[a + 1] == s[j];
      } else {
        assert r[a] == s[a - 1] && r[a + 1] == s[a];
      }
    }
  }

  /** Splicing `k` in at `j` adds exactly one `k`. */
  lemma InsertAddsOne(s: seq<string>, j: nat, k: string)
    requires j <= |s|
    ensures multiset(s[..j] + [k] + s[j..]) == multiset(s) + multiset{k}
  {
    assert s == s[..j] + s[j..];
  }

  /** Places `k` after every element below it, keeping `s` sorted. */
  method Insert(s: seq<string>, k: string) returns (r: seq<string>)
    requires Sorted(s)
    ensures Sorted(r)
    ensures multiset(r) == multiset(s) + multiset{k}
  {
    var j := 0;
    while j < |s| && Less(s[j], k)
      invariant 0 <= j <= |s|
      invariant j > 0 ==> Less(s[j - 1], k)
    {
      j := j + 1;
    }
    if j < |s| { LessTotal(s[j], k); }
    InsertKeepsSorted(s, j, k);
    InsertAddsOne(s, j, k);
    r := s[..j] + [k] + s[j..];
  }

  /** `keys.sort()`: the same strings, in ascending order. */
  method Sort(keys: seq<string>) returns (r: seq<string>)
    ensures Sorted(r)
    ensures multiset(r) == multiset(keys)
  {
    r := [];
    var i := 0;
    while i < |keys|
      invariant 0 <= i <= |keys|
      invariant Sorted(r)
      invariant multiset(r) == multiset(keys[..i])
    {
      r := Insert(r, keys[i]);
      assert keys[..i + 1] == keys[..i] + [keys[i]];
      i := i + 1;
    }
    assert keys[..i] == keys;
  }
}
