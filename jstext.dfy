/**
 * The string operations of JavaScript that the site relies on: `trim()`, the `\s`
 * character class, `toLowerCase()`, `includes`, `indexOf`, `replace` with a string
 * pattern, and `split(sep)[k]` for the first two fields.
 */
module JsText {
  import opened Wrappers
  import Lists

  /** ECMAScript WhiteSpace and LineTerminator code points: what `trim()` removes and `\s` matches. */
  predicate IsSpace(c: char) {
    c == ' ' || c == '\t' || c == '\n' || c == '\r' || c == '\U{B}' || c == '\U{C}'
    || c == '\U{A0}' || c == '\U{1680}' || ('\U{2000}' <= c <= '\U{200A}')
    || c == '\U{2028}' || c == '\U{2029}' || c == '\U{202F}' || c == '\U{205F}'
    || c == '\U{3000}' || c == '\U{FEFF}'
  }

  /** A string that `trim()` turns into the empty string, i.e. one that JavaScript treats as "not filled in". */
  predicate IsBlank(s: string) {
    forall i :: 0 <= i < |s| ==> IsSpace(s[i])
  }

  function TrimStart(s: string): (r: string)
    ensures |r| <= |s| && r == s[|s| - |r|..]
    ensures r == [] || !IsSpace(r[0])
    ensures forall i :: 0 <= i < |s| - |r| ==> IsSpace(s[i])
  {
    if s != [] && IsSpace(s[0]) then
      var r := TrimStart(s[1..]);
      TrimStartStep(s, r);
      r
    else s
  }

  /** The recursive step of `TrimStart`: a leading space joins the run that the tail's trim removed. */
  lemma TrimStartStep(s: string, r: string)
    requires s != [] && IsSpace(s[0]) && |r| < |s|
    requires r == s[1..][|s| - 1 - |r|..]
    requires forall i :: 0 <= i < |s| - 1 - |r| ==> IsSpace(s[1..][i])
    ensures r == s[|s| - |r|..]
    ensures forall i :: 0 <= i < |s| - |r| ==> IsSpace(s[i])
  {
    forall i | 0 < i < |s| - |r|
      ensures IsSpace(s[i])
    {
      assert s[i] == s[1..][i - 1];
    }
  }

  function TrimEnd(s: string): (r: string)
    ensures |r| <= |s| && r == s[..|r|]
    ensures r == [] || !IsSpace(r[|r| - 1])
    ensures forall i :: |r| <= i < |s| ==> IsSpace(s[i])
  {
    if s != [] && IsSpace(s[|s| - 1]) then TrimEnd(s[..|s| - 1]) else s
  }

  /** `s.trim()`. */
  function Trim(s: string): string {
    TrimEnd(TrimStart(s))
  }

  /** `!s.trim()` holds exactly for the blank strings. */
  lemma TrimEmptyIffBlank(s: string)
    ensures Trim(s) == [] <==> IsBlank(s)
  {
    var t := TrimStart(s);
    if Trim(s) == [] {
      assert t == [];
    } else {
      var r := Trim(s);
      assert r[0] == t[0];
      assert t[0] == s[|s| - |t|];
    }
  }

  /** Leading blanks before a non-blank character are exactly what `TrimStart` removes. */
  lemma {:induction false} TrimStartOf(a: string, rest: string)
    requires IsBlank(a) && rest != [] && !IsSpace(rest[0])
    ensures TrimStart(a + rest) == rest
  {
    if a == [] {
      assert a + rest == rest;
    } else {
      assert (a + rest)[0] == a[0];
      assert (a + rest)[1..] == a[1..] + rest;
      TrimStartOf(a[1..], rest);
    }
  }

  /** Trailing blanks after a non-blank character are exactly what `TrimEnd` removes. */
  lemma {:induction false} TrimEndOf(b: string, c: string)
    requires IsBlank(c) && b != [] && !IsSpace(b[|b| - 1])
    ensures TrimEnd(b + c) == b
  {
    if c == [] {
      assert b + c == b;
    } else {
      var bc := b + c;
      assert bc[|bc| - 1] == c[|c| - 1];
      assert bc[..|bc| - 1] == b + c[..|c| - 1];
      TrimEndOf(b, c[..|c| - 1]);
    }
  }

  /** Trimming blanks around a string that starts and ends with a non-blank character gives that string. */
  lemma TrimAround(a: string, b: string, c: string)
    requires IsBlank(a) && IsBlank(c)
    requires b != [] && !IsSpace(b[0]) && !IsSpace(b[|b| - 1])
    ensures Trim(a + b + c) == b
  {
    assert a + b + c == a + (b + c);
    TrimStartOf(a, b + c);
    TrimEndOf(b, c);
  }

  /**
   * `s.replace(/\s/g, '')`: every whitespace character removed, and every other character kept,
   * as often as it occurs and in its original order.
   */
  function StripSpaces(s: string): (r: string)
    ensures forall i :: 0 <= i < |r| ==> !IsSpace(r[i])
    ensures |r| <= |s|
  {
    if s == [] then []
    else if IsSpace(s[0]) then StripSpaces(s[1..])
    else [s[0]] + StripSpaces(s[1..])
  }

  /** Every character other than white space is kept, as often as it occurs. */
  lemma {:induction false} StripSpacesKeeps(s: string)
    ensures forall c :: !IsSpace(c) ==> multiset(StripSpaces(s))[c] == multiset(s)[c]
  {
    if s != [] {
      StripSpacesKeeps(s[1..]);
      assert s == [s[0]] + s[1..];
    }
  }

  /** The kept characters stay in their original order. */
  lemma {:induction false} StripSpacesKeepsOrder(s: string)
    ensures Lists.IsSubseq(StripSpaces(s), s)
  {
    if s != [] {
      StripSpacesKeepsOrder(s[1..]);
      var r := StripSpaces(s);
      if !IsSpace(s[0]) {
        assert r[0] == s[0] && r[1..] == StripSpaces(s[1..]);
      }
    }
  }

  /** Text without white space is left as it is. */
  lemma {:induction false} StripSpacesNone(s: string)
    requires forall i :: 0 <= i < |s| ==> !IsSpace(s[i])
    ensures StripSpaces(s) == s
  {
    if s != [] {
      StripSpacesNone(s[1..]);
    }
  }

  /** Removing white space works piece by piece. */
  lemma {:induction false} StripSpacesAppend(a: string, b: string)
    ensures StripSpaces(a + b) == StripSpaces(a) + StripSpaces(b)
  {
    if a == [] {
      assert a + b == b;
    } else {
      assert (a + b)[0] == a[0];
      assert (a + b)[1..] == a[1..] + b;
      StripSpacesAppend(a[1..], b);
    }
  }

  /**
   * `toLowerCase()` on one character: ASCII and Latin-1 capitals map to their small letters;
   * every other character is left as it is.
   */
  function LowerChar(c: char): (r: char)
    ensures ('A' <= c <= 'Z') ==> r as int == c as int + 32
    ensures ('\U{C0}' <= c <= '\U{DE}' && c != '\U{D7}') ==> r as int == c as int + 32
    ensures c == '\U{D7}' ==> r == c
    ensures !('A' <= c <= 'Z') && !('\U{C0}' <= c <= '\U{DE}') ==> r == c
  {
    if 'A' <= c <= 'Z' || ('\U{C0}' <= c <= '\U{DE}' && c != '\U{D7}') then (c as int + 32) as char else c
  }

  function ToLower(s: string): (r: string)
    ensures |r| == |s|
    ensures forall i :: 0 <= i < |s| ==> r[i] == LowerChar(s[i])
  {
    seq(|s|, i requires 0 <= i < |s| => LowerChar(s[i]))
  }

  /** A character outside the Basic Multilingual Plane, which UTF-16 writes as a surrogate pair. */
  predicate Astral(c: char) {
    c as int > 0xFFFF
  }

  /**
   * `s.length`: the number of UTF-16 code units, one per character of the Basic Multilingual
   * Plane and two per character beyond it.
   */
  function Utf16Length(s: string): (n: nat)
    ensures |s| <= n <= 2 * |s|
  {
    if s == [] then 0 else (if Astral(s[0]) then 2 else 1) + Utf16Length(s[1..])
  }

  /** The length in code units equals the number of characters exactly when none is astral. */
  lemma {:induction false} Utf16LengthBounds(s: string)
    ensures Utf16Length(s) == |s| <==> forall i :: 0 <= i < |s| ==> !Astral(s[i])
    ensures Utf16Length(s) == 2 * |s| <==> forall i :: 0 <= i < |s| ==> Astral(s[i])
  {
    if s != [] {
      Utf16LengthBounds(s[1..]);
      assert forall i :: 1 <= i < |s| ==> s[i] == s[1..][i - 1];
    }
  }

  lemma {:induction false} Utf16LengthAppend(a: string, b: string)
    ensures Utf16Length(a + b) == Utf16Length(a) + Utf16Length(b)
  {
    if a == [] {
      assert a + b == b;
    } else {
      assert (a + b)[0] == a[0];
      assert (a + b)[1..] == a[1..] + b;
      Utf16LengthAppend(a[1..], b);
    }
  }

  /** `t` occurs in `s` starting at position `i`. */
  predicate OccursAt(s: string, t: string, i: nat) {
    i + |t| <= |s| && s[i..i + |t|] == t
  }

  /** `s.includes(t)`. */
  predicate Contains(s: string, t: string) {
    exists i: nat :: i <= |s| && OccursAt(s, t, i)
  }

  /** `s.indexOf(t)`, with `None` for -1: the first position where `t` occurs. */
  function IndexOf(s: string, t: string): (r: Option<nat>)
    ensures r.Some? ==> OccursAt(s, t, r.value) && forall j: nat :: j < r.value ==> !OccursAt(s, t, j)
    ensures r.None? ==> forall j: nat :: !OccursAt(s, t, j)
    ensures r.Some? <==> Contains(s, t)
  {
    if |t| > |s| then None
    else if s[..|t|] == t then Some(0)
    else
      match IndexOf(s[1..], t)
      case Some(k) =>
        assert forall j: nat :: OccursAt(s[1..], t, j) <==> OccursAt(s, t, j + 1) by {
          forall j: nat ensures OccursAt(s[1..], t, j) <==> OccursAt(s, t, j + 1) {
            if j + 1 + |t| <= |s| { assert s[1..][j..j + |t|] == s[j + 1..j + 1 + |t|]; }
          }
        }
        assert forall j: nat :: j < k + 1 ==> !OccursAt(s, t, j) by {
          forall j: nat | j < k + 1 ensures !OccursAt(s, t, j) {
            if j == 0 { assert s[0..|t|] == s[..|t|]; } else { assert !OccursAt(s[1..], t, j - 1); }
          }
        }
        Some(k + 1)
      case None =>
        assert forall j: nat :: OccursAt(s[1..], t, j) <==> OccursAt(s, t, j + 1) by {
          forall j: nat ensures OccursAt(s[1..], t, j) <==> OccursAt(s, t, j + 1) {
            if j + 1 + |t| <= |s| { assert s[1..][j..j + |t|] == s[j + 1..j + 1 + |t|]; }
          }
        }
        assert forall j: nat :: !OccursAt(s, t, j) by {
          forall j: nat ensures !OccursAt(s, t, j) {
            if j > 0 { assert !OccursAt(s[1..], t, j - 1); } else { assert s[0..|t|] == s[..|t|]; }
          }
        }
        None
  }

  /** An occurrence with none before it is the one `IndexOf` finds. */
  lemma IndexOfFirst(s: string, t: string, i: nat)
    requires OccursAt(s, t, i) && forall j: nat :: j < i ==> !OccursAt(s, t, j)
    ensures IndexOf(s, t) == Some(i)
  {
    assert Contains(s, t);
  }

  /** A pattern cannot start before `i` when its first character does not occur there. */
  lemma NoOccurrenceBefore(s: string, t: string, i: nat)
    requires |t| > 0 && i <= |s| && t[0] !in s[..i]
    ensures forall j: nat :: j < i ==> !OccursAt(s, t, j)
  {
    forall j: nat | j < i ensures !OccursAt(s, t, j) {
      if j + |t| <= |s| {
        assert s[j..j + |t|][0] == s[..i][j];
      }
    }
  }

  /** `s.replace(pattern, replacement)` with a string pattern: only the first occurrence is replaced. */
  function ReplaceFirst(s: string, pattern: string, replacement: string): string {
    match IndexOf(s, pattern)
    case None => s
    case Some(i) => s[..i] + replacement + s[i + |pattern|..]
  }

  /** What `ReplaceFirst` promises: unchanged when the pattern is absent, else exactly the first occurrence substituted. */
  lemma ReplaceFirstSpec(s: string, pattern: string, replacement: string)
    ensures !Contains(s, pattern) ==> ReplaceFirst(s, pattern, replacement) == s
    ensures Contains(s, pattern) ==>
      exists i: nat :: OccursAt(s, pattern, i) && (forall j: nat :: j < i ==> !OccursAt(s, pattern, j))
        && ReplaceFirst(s, pattern, replacement) == s[..i] + replacement + s[i + |pattern|..]
  {
    match IndexOf(s, pattern)
    case None =>
    case Some(i) =>
      assert OccursAt(s, pattern, i);
  }

  /** The longest prefix of `s` that does not contain `c`. */
  function TakeUntil(s: string, c: char): (r: string)
    ensures |r| <= |s| && r == s[..|r|]
    ensures c !in r
    ensures |r| < |s| ==> s[|r|] == c
  {
    if s == [] || s[0] == c then [] else [s[0]] + TakeUntil(s[1..], c)
  }

  /** `s.split(c)[0]`: the text before the first `c` (all of `s` when there is none). */
  function FirstField(s: string, c: char): string {
    TakeUntil(s, c)
  }

  /** `s.split(c)[1]`: the text between the first and the second `c`; `None` (undefined) when `c` does not occur. */
  function SecondField(s: string, c: char): (r: Option<string>)
    ensures r.None? <==> c !in s
  {
    var head := TakeUntil(s, c);
    if |head| == |s| then None else Some(TakeUntil(s[|head| + 1..], c))
  }

  lemma TakeUntilWhole(s: string, c: char)
    requires c !in s
    ensures TakeUntil(s, c) == s
  {
    if s != [] { TakeUntilWhole(s[1..], c); }
  }

  lemma TakeUntilStopsAt(a: string, c: char, rest: string)
    requires c !in a
    ensures TakeUntil(a + [c] + rest, c) == a
  {
    if a != [] {
      assert (a + [c] + rest)[1..] == a[1..] + [c] + rest;
      TakeUntilStopsAt(a[1..], c, rest);
    }
  }

  /** Splitting `a + [c] + b`, where neither part holds `c`, gives `b` as the second field. */
  lemma SecondFieldOf(a: string, c: char, b: string)
    requires c !in a && c !in b
    ensures SecondField(a + [c] + b, c) == Some(b)
  {
    var s := a + [c] + b;
    TakeUntilStopsAt(a, c, b);
    assert s[|a| + 1..] == b;
    TakeUntilWhole(b, c);
  }

  /** Replacing a character that occurs only at the very end deletes it. */
  lemma ReplaceLastChar(a: string, c: char)
    requires c !in a
    ensures ReplaceFirst(a + [c], [c], "") == a
  {
    var s := a + [c];
    assert OccursAt(s, [c], |a|) by { assert s[|a|..|a| + 1] == [c]; }
    forall j: nat | j < |a| ensures !OccursAt(s, [c], j) {
      assert s[j..j + 1][0] == s[j] == a[j];
    }
    assert IndexOf(s, [c]) == Some(|a|);
    assert s[..|a|] == a;
  }
}
