/** The two string operations the client performs itself: Python's substring
    test `p in s` and `s.replace(p, '')`. */
module Text {

  predicate StartsWith(s: string, p: string)
  {
    |p| <= |s| && s[..|p|] == p
  }

  /** `p` occurs in `s` starting at index `i`. */
  ghost predicate OccursAt(s: string, p: string, i: int)
  {
    0 <= i && i + |p| <= |s| && s[i..i + |p|] == p
  }

  /** Python's `p in s`, scanning start positions left to right. */
  function Contains(s: string, p: string): (r: bool)
    ensures p == [] ==> r
    ensures r ==> |p| <= |s|
    decreases |s|
  {
    StartsWith(s, p) || (s != [] && Contains(s[1..], p))
  }

  /** The scan finds `p` exactly when `p` occurs somewhere in `s`. */
  lemma {:induction false} ContainsIffOccurs(s: string, p: string)
    ensures Contains(s, p) <==> exists i :: OccursAt(s, p, i)
    decreases |s|
  {
    if StartsWith(s, p) {
      assert OccursAt(s, p, 0);
    } else if s == [] {
      forall i
        ensures !OccursAt(s, p, i)
      {
      }
    } else {
      ContainsIffOccurs(s[1..], p);
      if Contains(s[1..], p) {
        var j :| OccursAt(s[1..], p, j);
        assert s[1..][j..j + |p|] == s[j + 1..j + 1 + |p|];
        assert OccursAt(s, p, j + 1);
      } else {
        forall i
          ensures !OccursAt(s, p, i)
        {
          if 1 <= i && i + |p| <= |s| {
            assert s[1..][i - 1..i - 1 + |p|] == s[i..i + |p|];
            assert OccursAt(s, p, i) ==> OccursAt(s[1..], p, i - 1);
          }
        }
      }
    }
  }

  /** Python's `s.replace(p, '')`: every occurrence of `p` found by a
      left-to-right scan is removed, and scanning resumes after it. An empty
      pattern leaves `s` as it is. */
  function RemoveAll(s: string, p: string): (r: string)
    ensures |r| <= |s|
    ensures p != [] && Contains(s, p) ==> |r| < |s|
    decreases |s|
  {
    if p == [] || s == [] then s
    else if StartsWith(s, p) then RemoveAll(s[|p|..], p)
    else [s[0]] + RemoveAll(s[1..], p)
  }

  /** `replace` returns its input unchanged exactly when the pattern does not
      occur in it. */
  lemma {:induction false} RemoveAllIdentityIff(s: string, p: string)
    requires p != []
    ensures RemoveAll(s, p) == s <==> !Contains(s, p)
    decreases |s|
  {
    if s != [] && !StartsWith(s, p) {
      RemoveAllIdentityIff(s[1..], p);
      if !Contains(s, p) {
        assert RemoveAll(s, p) == [s[0]] + s[1..] == s;
      }
    }
  }

  /** When no occurrence of `p` can start inside `x` (its first character is
      not in `x`), `replace` strips exactly the trailing `p` of `x + p`. */
  lemma {:induction false} RemoveAllTrailing(x: string, p: string)
    requires p != [] && p[0] !in x
    ensures RemoveAll(x + p, p) == x
    decreases |x|
  {
    if x == [] {
      assert x + p == p;
      assert StartsWith(p, p);
    } else {
      assert (x + p)[0] == x[0] != p[0];
      assert (x + p)[1..] == x[1..] + p;
      RemoveAllTrailing(x[1..], p);
      assert [x[0]] + x[1..] == x;
    }
  }
}
