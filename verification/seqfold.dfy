/** Folding a sequence with a commutative, associative operation, and the
    fact that such a fold forgets the order of what it folds. */
module SeqFold {

  /** Right fold of `hs` with `op`, starting from `unit`. */
  function Fold<H>(hs: seq<H>, op: (H, H) -> H, unit: H): H {
    if hs == [] then unit else op(hs[0], Fold(hs[1..], op, unit))
  }

  ghost predicate CommutativeMonoid<H(!new)>(op: (H, H) -> H, unit: H) {
    (forall x, y :: op(x, y) == op(y, x))
    && (forall x, y, z :: op(x, op(y, z)) == op(op(x, y), z))
    && (forall x :: op(x, unit) == x)
  }

  lemma {:induction false} FoldAppend<H(!new)>(a: seq<H>, b: seq<H>, op: (H, H) -> H, unit: H)
    requires CommutativeMonoid(op, unit)
    ensures Fold(a + b, op, unit) == op(Fold(a, op, unit), Fold(b, op, unit))
  {
    if a == [] {
      assert a + b == b;
    } else {
      assert (a + b)[0] == a[0];
      assert (a + b)[1..] == a[1..] + b;
      FoldAppend(a[1..], b, op, unit);
    }
  }

  lemma MultisetRemove<T>(s: seq<T>, i: nat)
    requires i < |s|
    ensures multiset(s) == multiset(s[..i] + s[i + 1..]) + multiset{s[i]}
  {
    assert s == s[..i] + [s[i]] + s[i + 1..];
  }

  /** A position of an element of a sequence's multiset. */
  lemma MemberIndex<T>(x: T, s: seq<T>) returns (j: nat)
    requires x in multiset(s)
    ensures j < |s| && s[j] == x
  {
    assert x in s;
    j :| 0 <= j < |s| && s[j] == x;
  }

  /** The first element of `a` sits at some position of its permutation
      `b`, and the rest of `a` is a permutation of `b` without it. */
  lemma RemoveAt<T>(a: seq<T>, b: seq<T>) returns (i: nat)
    requires a != [] && multiset(a) == multiset(b)
    ensures i < |b| && b[i] == a[0]
    ensures multiset(a[1..]) == multiset(b[..i] + b[i + 1..])
  {
    MultisetRemove(a, 0);
    assert a[..0] + a[1..] == a[1..];
    i := MemberIndex(a[0], b);
    MultisetRemove(b, i);
    assert multiset(a[1..]) == multiset(a) - multiset{a[0]};
    assert multiset(b[..i] + b[i + 1..]) == multiset(b) - multiset{b[i]};
  }

  /** An element can be moved to the front of a fold. */
  lemma FoldMove<H(!new)>(p: seq<H>, x: H, s: seq<H>, op: (H, H) -> H, unit: H)
    requires CommutativeMonoid(op, unit)
    ensures Fold(p + ([x] + s), op, unit) == op(x, Fold(p + s, op, unit))
  {
    var A, F := Fold(p, op, unit), Fold(s, op, unit);
    FoldAppend(p, [x] + s, op, unit);
    assert ([x] + s)[1..] == s;
    assert Fold([x] + s, op, unit) == op(x, F);
    FoldAppend(p, s, op, unit);
    calc {
      op(A, op(x, F));
      op(op(A, x), F);
      { assert op(A, x) == op(x, A); }
      op(op(x, A), F);
      op(x, op(A, F));
    }
  }

  /** Folding with a commutative monoid gives the same result on any
      permutation. */
  lemma {:induction false} FoldPermutation<H(!new)>(a: seq<H>, b: seq<H>, op: (H, H) -> H, unit: H)
    requires CommutativeMonoid(op, unit)
    requires multiset(a) == multiset(b)
    ensures Fold(a, op, unit) == Fold(b, op, unit)
    decreases |a|
  {
    if a == [] {
      assert |b| == |multiset(b)| == 0;
    } else {
      var i := RemoveAt(a, b);
      FoldPermutation(a[1..], b[..i] + b[i + 1..], op, unit);
      assert b == b[..i] + ([b[i]] + b[i + 1..]);
      FoldMove(b[..i], b[i], b[i + 1..], op, unit);
    }
  }

  /** `f` applied to every element of `s`. */
  function MapSeq<T, H>(s: seq<T>, f: T --> H): (r: seq<H>)
    requires forall j :: 0 <= j < |s| ==> f.requires(s[j])
    ensures |r| == |s| && forall j :: 0 <= j < |s| ==> r[j] == f(s[j])
  {
    seq(|s|, j requires 0 <= j < |s| => f(s[j]))
  }

  /** Mapping preserves permutations. */
  lemma {:induction false} MapSeqPermutation<T, H>(a: seq<T>, b: seq<T>, f: T -> H)
    requires multiset(a) == multiset(b)
    ensures multiset(MapSeq(a, f)) == multiset(MapSeq(b, f))
    decreases |a|
  {
    if a == [] {
      assert |b| == |multiset(b)| == 0;
    } else {
      var i := RemoveAt(a, b);
      MapSeqPermutation(a[1..], b[..i] + b[i + 1..], f);
      assert MapSeq(a, f) == [f(a[0])] + MapSeq(a[1..], f);
      assert MapSeq(b, f) == MapSeq(b[..i], f) + [f(b[i])] + MapSeq(b[i + 1..], f);
      assert MapSeq(b[..i] + b[i + 1..], f) == MapSeq(b[..i], f) + MapSeq(b[i + 1..], f);
    }
  }
}
