/** A sequence of `shutil.move` calls out of one directory, and what it does to a `Tree`. */
module Moves {
  import opened FileTree

  /** One `shutil.move`: the file named `name` goes into the directory `dest`. */
  datatype Move<K> = Move(name: string, dest: K)

  /** The moves performed one after another, all out of `src`. */
  function ApplyMoves<K(==)>(t: map<K, seq<Entry>>, src: K, ms: seq<Move<K>>): map<K, seq<Entry>>
    decreases |ms|
  {
    if ms == [] then t
    else
      var last := ms[|ms| - 1];
      MoveFile(ApplyMoves(t, src, ms[..|ms| - 1]), src, last.name, last.dest)
  }

  /** The entries the moves `ms` take out of the source, in order. */
  function Moved<K>(ms: seq<Move<K>>): seq<Entry> {
    seq(|ms|, i requires 0 <= i < |ms| => File(ms[i].name))
  }

  /** The entries the moves `ms` bring into `d`, in order. */
  function Into<K(==)>(ms: seq<Move<K>>, d: K): seq<Entry>
    decreases |ms|
  {
    if ms == [] then []
    else Into(ms[..|ms| - 1], d) + (if ms[|ms| - 1].dest == d then [File(ms[|ms| - 1].name)] else [])
  }

  lemma MovedAppend<K>(a: seq<Move<K>>, b: seq<Move<K>>)
    ensures Moved(a + b) == Moved(a) + Moved(b)
  {
  }

  lemma ApplyMovesLast<K>(t: map<K, seq<Entry>>, src: K, ms: seq<Move<K>>)
    requires ms != []
    ensures ApplyMoves(t, src, ms) == MoveFile(ApplyMoves(t, src, ms[..|ms| - 1]), src, ms[|ms| - 1].name, ms[|ms| - 1].dest)
  {
  }

  lemma ApplyMovesStep<K>(t: map<K, seq<Entry>>, src: K, ms: seq<Move<K>>, m: Move<K>)
    ensures ApplyMoves(t, src, ms + [m]) == MoveFile(ApplyMoves(t, src, ms), src, m.name, m.dest)
  {
    var s := ms + [m];
    assert s[..|s| - 1] == ms;
    ApplyMovesLast(t, src, s);
  }

  lemma {:induction false} ApplyMovesConcat<K>(t: map<K, seq<Entry>>, src: K, a: seq<Move<K>>, b: seq<Move<K>>)
    ensures ApplyMoves(t, src, a + b) == ApplyMoves(ApplyMoves(t, src, a), src, b)
    decreases |b|
  {
    if b == [] {
      assert a + b == a;
    } else {
      var init, m := b[..|b| - 1], b[|b| - 1];
      assert a + b == (a + init) + [m];
      assert b == init + [m];
      ApplyMovesConcat(t, src, a, init);
      ApplyMovesStep(t, src, a + init, m);
      ApplyMovesStep(ApplyMoves(t, src, a), src, init, m);
    }
  }
}
