/** The three functions of Go's `strings` package that the service uses
    (`HasPrefix`, `TrimPrefix`, `Contains`), and the facts about the
    "not found" marker that the HTTP layer's error classification relies on. */
module Text {

  /** `strings.HasPrefix(s, p)`. */
  predicate HasPrefix(s: string, p: string) {
    |p| <= |s| && s[..|p|] == p
  }

  /** `strings.TrimPrefix(s, p)`: removes one leading copy of `p`, if there is one. */
  function TrimPrefix(s: string, p: string): (r: string)
    ensures HasPrefix(s, p) ==> s == p + r
    ensures !HasPrefix(s, p) ==> r == s
  {
    if HasPrefix(s, p) then s[|p|..] else s
  }

  /** `strings.Contains(s, sub)`: `sub` occurs in `s` at some position. */
  predicate Contains(s: string, sub: string)
    decreases |s|
  {
    HasPrefix(s, sub) || (|s| > 0 && Contains(s[1..], sub))
  }

  /** The same occurrence test stated by positions, independent of the recursion. */
  predicate OccursAt(s: string, sub: string, i: int) {
    0 <= i && i + |sub| <= |s| && s[i..i + |sub|] == sub
  }

  lemma {:induction false} ContainsIffOccurs(s: string, sub: string)
    ensures Contains(s, sub) <==> exists i :: OccursAt(s, sub, i)
    decreases |s|
  {
    if HasPrefix(s, sub) {
      assert OccursAt(s, sub, 0);
    } else if |s| > 0 {
      ContainsIffOccurs(s[1..], sub);
      if Contains(s[1..], sub) {
        var i :| OccursAt(s[1..], sub, i);
        assert s[1..][i..i + |sub|] == s[i + 1..i + 1 + |sub|];
        assert OccursAt(s, sub, i + 1);
      } else {
        forall i | OccursAt(s, sub, i) ensures false {
          if i > 0 {
            assert s[1..][i - 1..i - 1 + |sub|] == s[i..i + |sub|];
            assert OccursAt(s[1..], sub, i - 1);
          }
        }
      }
    }
  }

  /** An occurrence of `sub` anywhere in the middle of a string is found. */
  lemma {:induction false} ContainsMiddle(a: string, sub: string, b: string)
    ensures Contains(a + sub + b, sub)
    decreases |a|
  {
    if a == [] {
      assert a + sub + b == sub + b;
      assert (sub + b)[..|sub|] == sub;
    } else {
      ContainsMiddle(a[1..], sub, b);
      assert (a + sub + b)[1..] == a[1..] + sub + b;
    }
  }

  /** No suffix of `p` starts an occurrence of `sub` that the rest of a string
      could complete: neither does a suffix contain `sub` at its start, nor is
      a suffix a beginning of `sub`. */
  predicate Sealed(p: string, sub: string)
    decreases |p|
  {
    p == [] || (!HasPrefix(p, sub) && !HasPrefix(sub, p) && Sealed(p[1..], sub))
  }

  /** A sealed prefix cannot create an occurrence of `sub` that the appended
      text does not already hold. */
  lemma {:induction false} SealedPrefixAddsNoOccurrence(p: string, d: string, sub: string)
    requires Sealed(p, sub)
    requires !Contains(d, sub)
    ensures !Contains(p + d, sub)
    decreases |p|
  {
    if p == [] {
      assert p + d == d;
    } else {
      SealedPrefixAddsNoOccurrence(p[1..], d, sub);
      assert (p + d)[1..] == p[1..] + d;
    }
  }

  /** Text put in front of a string keeps every occurrence it already holds. */
  lemma {:induction false} ContainsAfterPrefix(p: string, d: string, sub: string)
    requires Contains(d, sub)
    ensures Contains(p + d, sub)
    decreases |p|
  {
    if p == [] {
      assert p + d == d;
    } else {
      ContainsAfterPrefix(p[1..], d, sub);
      assert (p + d)[1..] == p[1..] + d;
    }
  }

  /** A string is sealed against `sub` when some character `sub[j]` (with
      `j > 0`) never occurs in it and `sub[0]` does not occur among its last
      `j` characters: any occurrence or partial occurrence would need one of them. */
  lemma {:induction false} SealedByMissingChar(p: string, sub: string, j: nat)
    requires 0 < j < |sub|
    requires sub[j] !in p
    requires forall k :: |p| - j <= k < |p| && 0 <= k ==> p[k] != sub[0]
    ensures Sealed(p, sub)
    decreases |p|
  {
    if p != [] {
      if j < |p| {
        assert p[j] in p;
      } else {
        assert p[0] != sub[0];
      }
      forall k | |p[1..]| - j <= k < |p[1..]| && 0 <= k ensures p[1..][k] != sub[0] {
        assert p[1..][k] == p[k + 1];
      }
      SealedByMissingChar(p[1..], sub, j);
    }
  }

  /** The same test with the string given as two pieces, so that callers only
      check membership in each piece. */
  lemma SealedByMissingCharSplit(front: string, back: string, sub: string, j: nat)
    requires 0 < j < |sub| && j <= |back|
    requires sub[j] !in front && sub[j] !in back
    requires sub[0] !in back
    ensures Sealed(front + back, sub)
  {
    var p := front + back;
    forall k | |p| - j <= k < |p| && 0 <= k ensures p[k] != sub[0] {
      assert p[k] == back[k - |front|];
    }
    SealedByMissingChar(p, sub, j);
  }
}
