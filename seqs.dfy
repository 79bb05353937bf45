/** Sequence helpers shared by the models. */
module Seqs {

  /** The concatenation of all the pieces, in order. */
  function Flatten<X>(pieces: seq<seq<X>>): seq<X>
  {
    if pieces == [] then [] else pieces[0] + Flatten(pieces[1..])
  }

  /** Appending one piece at the end appends its elements at the end. */
  lemma {:induction false} FlattenSnoc<X>(pieces: seq<seq<X>>, last: seq<X>)
    ensures Flatten(pieces + [last]) == Flatten(pieces) + last
  {
    if pieces != [] {
      assert (pieces + [last])[1..] == pieces[1..] + [last];
      FlattenSnoc(pieces[1..], last);
    }
  }

  /** `a + b` opens every concatenation `a + (b + c)`. */
  lemma PrefixOfConcat<X>(a: seq<X>, b: seq<X>, c: seq<X>)
    ensures a + b <= a + (b + c)
  {
  }
}
