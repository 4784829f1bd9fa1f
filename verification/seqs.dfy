/** Generic facts about sequences used by the other modules. */
module Seqs {

  /** The concatenation of a sequence of batches. */
  function Flatten<T>(cs: seq<seq<T>>): seq<T>
  {
    if cs == [] then [] else Flatten(cs[..|cs| - 1]) + cs[|cs| - 1]
  }

  lemma {:induction false} FlattenCons<T>(c: seq<T>, cs: seq<seq<T>>)
    ensures Flatten([c] + cs) == c + Flatten(cs)
  {
    if cs == [] {
      assert [c] + cs == [c];
      assert [c][..0] == [];
    } else {
      var init, last := cs[..|cs| - 1], cs[|cs| - 1];
      assert ([c] + cs)[..|[c] + cs| - 1] == [c] + init;
      FlattenCons(c, init);
      Assoc(c, Flatten(init), last);
    }
  }

  lemma FlattenSnoc<T>(cs: seq<seq<T>>, i: nat)
    requires i < |cs|
    ensures Flatten(cs[..i + 1]) == Flatten(cs[..i]) + cs[i]
  {
    assert cs[..i + 1][..i] == cs[..i];
  }

  lemma Assoc<T>(a: seq<T>, b: seq<T>, c: seq<T>)
    ensures a + (b + c) == (a + b) + c
  {
  }

  lemma Snoc<T>(a: seq<T>, b: seq<T>)
    requires b != []
    ensures (a + b)[..|a + b| - 1] == a + b[..|b| - 1]
    ensures (a + b)[|a + b| - 1] == b[|b| - 1]
  {
  }

  lemma LastOfMiddle<T>(x: seq<T>, y: seq<T>, z: seq<T>)
    requires y != []
    ensures (x + y) + z != []
    ensures ((x + y) + z)[|(x + y) + z| - 1] == if z == [] then y[|y| - 1] else z[|z| - 1]
  {
  }

  lemma FirstOfMiddle<T>(x: seq<T>, y: seq<T>, z: seq<T>)
    requires y != []
    ensures |x| < |(x + y) + z| && ((x + y) + z)[|x|] == y[0]
  {
  }
}
