/**
 * Order-preserving selection, the semantics of JavaScript's
 * `Array.prototype.filter` with a side-effect-free callback, and the
 * facts that pin it down: the result is a subsequence of the input, it
 * keeps every element that passes (with its multiplicity) and drops every
 * element that fails, and it is the only sequence with those properties.
 */
module Selection {

  /** `s.filter(p)`: visits `s` from the front and keeps what passes `p`. */
  function Keep<T(==)>(s: seq<T>, p: T -> bool): (r: seq<T>)
    ensures |r| <= |s|
    ensures forall i | 0 <= i < |r| :: p(r[i]) && r[i] in s
  {
    if s == [] then []
    else if p(s[0]) then [s[0]] + Keep(s[1..], p)
    else Keep(s[1..], p)
  }

  /** `t` is obtained from `s` by deleting elements, keeping the order of the rest. */
  ghost predicate IsSubsequence<T>(t: seq<T>, s: seq<T>)
    decreases |s|
  {
    t == [] ||
    (s != [] && ((t[0] == s[0] && IsSubsequence(t[1..], s[1..])) || IsSubsequence(t, s[1..])))
  }

  lemma {:induction false} KeepIsSubsequence<T>(s: seq<T>, p: T -> bool)
    ensures IsSubsequence(Keep(s, p), s)
  {
    if s != [] {
      KeepIsSubsequence(s[1..], p);
      if p(s[0]) {
        var r := Keep(s, p);
        assert r[0] == s[0] && r[1..] == Keep(s[1..], p);
      }
    }
  }

  /** Each passing element keeps its multiplicity; each failing one is gone. */
  lemma {:induction false} KeepCounts<T>(s: seq<T>, p: T -> bool)
    ensures forall x :: multiset(Keep(s, p))[x] == if p(x) then multiset(s)[x] else 0
  {
    if s != [] {
      KeepCounts(s[1..], p);
      assert s == [s[0]] + s[1..];
      assert multiset(s) == multiset{s[0]} + multiset(s[1..]);
    }
  }

  /** A subsequence holds no element more often than the sequence it came from. */
  lemma {:induction false} SubsequenceCounts<T>(t: seq<T>, s: seq<T>)
    requires IsSubsequence(t, s)
    ensures multiset(t) <= multiset(s)
    decreases |s|
  {
    if t != [] {
      assert s == [s[0]] + s[1..];
      if t[0] == s[0] && IsSubsequence(t[1..], s[1..]) {
        SubsequenceCounts(t[1..], s[1..]);
        assert t == [t[0]] + t[1..];
      } else {
        SubsequenceCounts(t, s[1..]);
      }
    }
  }

  /**
   * Keep is the only subsequence of `s` whose elements all pass `p` and
   * which keeps every passing element as often as `s` has it.
   */
  lemma {:induction false} KeepUnique<T>(s: seq<T>, p: T -> bool, t: seq<T>)
    requires IsSubsequence(t, s)
    requires forall i | 0 <= i < |t| :: p(t[i])
    requires forall x | p(x) :: multiset(t)[x] == multiset(s)[x]
    ensures t == Keep(s, p)
    decreases |s|
  {
    if s == [] {
    } else {
      var x := s[0];
      assert s == [x] + s[1..];
      assert multiset(s) == multiset{x} + multiset(s[1..]);
      if p(x) {
        assert t != [];
        if !(t[0] == x && IsSubsequence(t[1..], s[1..])) {
          SubsequenceCounts(t, s[1..]);
          assert false;
        }
        assert t == [x] + t[1..];
        forall y | p(y) ensures multiset(t[1..])[y] == multiset(s[1..])[y] {
          assert multiset(t) == multiset{x} + multiset(t[1..]);
        }
        KeepUnique(s[1..], p, t[1..]);
      } else {
        assert t == [] || t[0] != x;
        forall y | p(y) ensures multiset(t)[y] == multiset(s[1..])[y] {
        }
        KeepUnique(s[1..], p, t);
      }
    }
  }

  /** Nothing is dropped exactly when everything passes, and then the input comes back. */
  lemma {:induction false} KeepAll<T>(s: seq<T>, p: T -> bool)
    ensures |Keep(s, p)| == |s| <==> forall i | 0 <= i < |s| :: p(s[i])
    ensures (forall i | 0 <= i < |s| :: p(s[i])) ==> Keep(s, p) == s
  {
    if s != [] {
      KeepAll(s[1..], p);
      assert forall i | 1 <= i < |s| :: s[i] == s[1..][i - 1];
      if p(s[0]) {
        assert s == [s[0]] + s[1..];
      }
    }
  }

  /** Selecting from a concatenation selects from each part. */
  lemma {:induction false} KeepAppend<T>(a: seq<T>, b: seq<T>, p: T -> bool)
    ensures Keep(a + b, p) == Keep(a, p) + Keep(b, p)
  {
    if a != [] {
      assert (a + b)[1..] == a[1..] + b;
      KeepAppend(a[1..], b, p);
    } else {
      assert a + b == b;
    }
  }
}
