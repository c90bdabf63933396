/** Joining a sequence of sequences end to end, as string concatenation and `new Blob(parts)` do. */
module Seqs {

  /** The parts joined in order. */
  function Flatten<T>(parts: seq<seq<T>>): seq<T> {
    if parts == [] then [] else Flatten(parts[..|parts| - 1]) + parts[|parts| - 1]
  }

  /** Joining two runs of parts is joining each run and then the two results. */
  lemma FlattenAppend<T>(a: seq<seq<T>>, b: seq<seq<T>>)
    ensures Flatten(a + b) == Flatten(a) + Flatten(b)
    decreases |b|
  {
    if b != [] {
      var b' := b[..|b| - 1];
      assert (a + b)[..|a + b| - 1] == a + b';
      assert (a + b)[|a + b| - 1] == b[|b| - 1];
      FlattenAppend(a, b');
      calc {
        Flatten(a + b);
        Flatten(a + b') + b[|b| - 1];
        Flatten(a) + Flatten(b') + b[|b| - 1];
        Flatten(a) + Flatten(b);
      }
    } else {
      assert a + b == a;
    }
  }

  /** A single part joins to itself. */
  lemma FlattenSingleton<T>(x: seq<T>)
    ensures Flatten([x]) == x
  {
    assert [x][..0] == [];
  }
}
