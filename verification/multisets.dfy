/** A fact about rearranged sequences shared by the order-independence proofs. */
module Multisets {

  /** Taking the same element out of two rearrangements leaves two rearrangements. */
  lemma RemoveOne<T>(xs: seq<T>, ys: seq<T>, i: nat)
    requires i < |ys| && multiset(xs + [ys[i]]) == multiset(ys)
    ensures multiset(xs) == multiset(ys[..i] + ys[i + 1..])
  {
    var front, back := ys[..i], ys[i + 1..];
    assert ys == front + [ys[i]] + back;
    assert multiset(ys) == multiset(front) + multiset{ys[i]} + multiset(back);
    assert multiset(xs + [ys[i]]) == multiset(xs) + multiset{ys[i]};
    assert multiset(front + back) == multiset(front) + multiset(back);
    var y := multiset{ys[i]};
    assert multiset(xs) + y == multiset(front + back) + y;
    assert multiset(xs) == (multiset(xs) + y) - y;
    assert multiset(front + back) == (multiset(front + back) + y) - y;
  }
}
