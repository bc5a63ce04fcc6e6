/**
 * The string operations the model needs from JavaScript and MySQL:
 * `String.prototype.includes`, the UTF-16 `length` that zod's length
 * checks count, and the binary comparison behind `gte` on an id column.
 */
module Strings {

  /** `sub` occurs in `s` starting at offset `i`. */
  ghost predicate OccursAt(s: string, sub: string, i: int)
  {
    0 <= i && i + |sub| <= |s| && s[i..i + |sub|] == sub
  }

  /** JavaScript's `s.includes(sub)`: `sub` occurs somewhere in `s`. */
  function Includes(s: string, sub: string): (b: bool)
    ensures b <==> exists i :: OccursAt(s, sub, i)
    decreases |s|
  {
    if |sub| > |s| then false
    else if s[..|sub|] == sub then
      assert OccursAt(s, sub, 0);
      true
    else
      var b := Includes(s[1..], sub);
      assert b ==> exists i :: OccursAt(s, sub, i) by {
        if b {
          var i :| OccursAt(s[1..], sub, i);
          assert s[1..][i..i + |sub|] == s[i + 1..i + 1 + |sub|];
          assert OccursAt(s, sub, i + 1);
        }
      }
      assert (exists i :: OccursAt(s, sub, i)) ==> b by {
        if i :| OccursAt(s, sub, i) {
          assert i != 0;
          assert s[1..][i - 1..i - 1 + |sub|] == s[i..i + |sub|];
          assert OccursAt(s[1..], sub, i - 1);
        }
      }
      b
  }

  /** A string that holds `sub` between two other strings includes it. */
  lemma IncludesInfix(a: string, sub: string, c: string)
    ensures Includes(a + sub + c, sub)
  {
    assert (a + sub + c)[|a|..|a| + |sub|] == sub;
    assert OccursAt(a + sub + c, sub, |a|);
  }

  /** A string lacking one of the characters of `sub` does not include `sub`. */
  lemma MissingCharExcludes(s: string, sub: string, c: char)
    requires c in sub && c !in s
    ensures !Includes(s, sub)
  {
    var k :| 0 <= k < |sub| && sub[k] == c;
    forall i
      ensures !OccursAt(s, sub, i)
    {
      if 0 <= i && i + |sub| <= |s| {
        assert s[i..i + |sub|][k] == s[i + k];
        assert s[i + k] in s;
      }
    }
  }

  /** JavaScript's `length`: UTF-16 code units, two for a character beyond U+FFFF. */
  function Utf16Length(s: string): (n: nat)
    ensures |s| <= n <= 2 * |s|
    ensures n == |s| <==> forall i :: 0 <= i < |s| ==> s[i] as int < 0x1_0000
  {
    if |s| == 0 then 0
    else (if s[0] as int < 0x1_0000 then 1 else 2) + Utf16Length(s[1..])
  }

  /** `a >= b` under a binary collation: code-point order, a proper prefix sorting first. */
  predicate AtLeast(a: string, b: string)
    decreases |b|
  {
    if |b| == 0 then true
    else if |a| == 0 then false
    else if a[0] != b[0] then a[0] > b[0]
    else AtLeast(a[1..], b[1..])
  }

  /** Every string is at least itself. */
  lemma {:induction false} AtLeastReflexive(a: string)
    ensures AtLeast(a, a)
    decreases |a|
  {
    if |a| > 0 {
      AtLeastReflexive(a[1..]);
    }
  }

  /** Any two strings are comparable. */
  lemma {:induction false} AtLeastTotal(a: string, b: string)
    ensures AtLeast(a, b) || AtLeast(b, a)
    decreases |b|
  {
    if |a| > 0 && |b| > 0 && a[0] == b[0] {
      AtLeastTotal(a[1..], b[1..]);
    }
  }

  /** Strings at least each other are equal. */
  lemma {:induction false} AtLeastAntisymmetric(a: string, b: string)
    requires AtLeast(a, b) && AtLeast(b, a)
    ensures a == b
    decreases |b|
  {
    if |a| > 0 && |b| > 0 {
      AtLeastAntisymmetric(a[1..], b[1..]);
      assert a == [a[0]] + a[1..] && b == [b[0]] + b[1..];
    }
  }

  /** The order is transitive. */
  lemma {:induction false} AtLeastTransitive(a: string, b: string, c: string)
    requires AtLeast(a, b) && AtLeast(b, c)
    ensures AtLeast(a, c)
    decreases |c|
  {
    if |c| > 0 && a[0] == b[0] && b[0] == c[0] {
      AtLeastTransitive(a[1..], b[1..], c[1..]);
    }
  }
}
