/** General facts about sequences and multisets that the query proofs
    rest on. */
module Sequences {
  /** A slice of the right operand of a concatenation, read through the
      concatenation. */
  lemma ShiftSlice<T>(a: seq<T>, t: seq<T>, x: nat, y: nat)
    requires x <= y <= |t|
    ensures (a + t)[|a| + x..|a| + y] == t[x..y]
  {
  }

  /** Removing the element at `j` removes one copy of it from the multiset. */
  lemma SeqRemove<T>(s: seq<T>, j: nat)
    requires j < |s|
    ensures multiset(s) == multiset(s[..j] + s[j + 1..]) + multiset{s[j]}
  {
    assert s == s[..j] + [s[j]] + s[j + 1..];
  }

  /** Dropping position `j` from a sequence and from its pointwise image
      leaves a sequence and its pointwise image. */
  lemma DropAt<A, B>(f: A -> B, s: seq<A>, fs: seq<B>, j: nat, s': seq<A>, fs': seq<B>)
    requires |fs| == |s| && j < |s|
    requires forall i :: 0 <= i < |s| ==> fs[i] == f(s[i])
    requires s' == s[..j] + s[j + 1..] && fs' == fs[..j] + fs[j + 1..]
    ensures |fs'| == |s'|
    ensures forall i :: 0 <= i < |s'| ==> fs'[i] == f(s'[i])
  {
    forall i | 0 <= i < |s'|
      ensures fs'[i] == f(s'[i])
    {
      if i < j {
        assert s'[i] == s[i] && fs'[i] == fs[i];
      } else {
        assert s'[i] == s[i + 1] && fs'[i] == fs[i + 1];
      }
    }
  }

  /** The tail of a sequence and of its pointwise image. */
  lemma DropFirst<A, B>(f: A -> B, s: seq<A>, fs: seq<B>)
    requires |fs| == |s| > 0
    requires forall i :: 0 <= i < |s| ==> fs[i] == f(s[i])
    ensures forall i :: 0 <= i < |s| - 1 ==> fs[1..][i] == f(s[1..][i])
  {
    forall i | 0 <= i < |s| - 1
      ensures fs[1..][i] == f(s[1..][i])
    {
      assert fs[1..][i] == fs[i + 1] && s[1..][i] == s[i + 1];
    }
  }

  /** One copy of the same element can be cancelled from both sides. */
  lemma MultisetCancel<T>(m1: multiset<T>, m2: multiset<T>, x: T)
    requires m1 + multiset{x} == m2 + multiset{x}
    ensures m1 == m2
  {
    assert m1 == (m1 + multiset{x}) - multiset{x};
    assert m2 == (m2 + multiset{x}) - multiset{x};
  }

  /** Pointwise images of two permutations of one another are
      permutations of one another. */
  lemma {:induction false} PermutedImages<A, B>(f: A -> B, a: seq<A>, b: seq<A>, fa: seq<B>, fb: seq<B>)
    requires multiset(a) == multiset(b)
    requires |fa| == |a| && |fb| == |b|
    requires forall i :: 0 <= i < |a| ==> fa[i] == f(a[i])
    requires forall i :: 0 <= i < |b| ==> fb[i] == f(b[i])
    ensures multiset(fa) == multiset(fb)
  {
    if |a| == 0 {
      assert |multiset(b)| == 0;
    } else {
      var x := a[0];
      assert x in multiset(b);
      var j :| 0 <= j < |b| && b[j] == x;
      var b', fb' := b[..j] + b[j + 1..], fb[..j] + fb[j + 1..];
      assert multiset(a[1..]) == multiset(b') by {
        SeqRemove(b, j);
        assert a == [x] + a[1..];
        assert multiset(a) == multiset{x} + multiset(a[1..]);
        MultisetCancel(multiset(a[1..]), multiset(b'), x);
      }
      DropAt(f, b, fb, j, b', fb');
      DropFirst(f, a, fa);
      PermutedImages(f, a[1..], b', fa[1..], fb');
      var y := fa[0];
      assert y == fb[j];
      assert multiset(fa) == multiset{y} + multiset(fa[1..]) by {
        assert fa == [y] + fa[1..];
      }
      SeqRemove(fb, j);
    }
  }
}
