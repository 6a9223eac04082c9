/** What a sequence of moves out of one directory does to every directory's listing and to the files held together. */
module MoveEffects {
  import opened FileTree
  import opened Moves

  lemma MovedInit<K>(ms: seq<Move<K>>, t: map<K, seq<Entry>>, src: K)
    requires ms != []
    requires multiset(Moved(ms)) <= multiset(Listing(t, src))
    ensures Moved(ms) == Moved(ms[..|ms| - 1]) + [File(ms[|ms| - 1].name)]
    ensures multiset(Moved(ms[..|ms| - 1])) <= multiset(Listing(t, src))
  {
    var init := ms[..|ms| - 1];
    assert Moved(ms) == Moved(init) + [File(ms[|ms| - 1].name)];
    assert forall x :: multiset(Moved(init))[x] <= multiset(Moved(ms))[x];
  }

  /** Moving out of `src` leaves in it its old entries less the moved ones. */
  lemma {:induction false} ApplyMovesSource<K>(t: map<K, seq<Entry>>, src: K, ms: seq<Move<K>>)
    requires forall i :: 0 <= i < |ms| ==> ms[i].dest != src
    requires multiset(Moved(ms)) <= multiset(Listing(t, src))
    ensures multiset(Listing(ApplyMoves(t, src, ms), src)) == multiset(Listing(t, src)) - multiset(Moved(ms))
    decreases |ms|
  {
    if ms != [] {
      var init, m := ms[..|ms| - 1], ms[|ms| - 1];
      MovedInit(ms, t, src);
      ApplyMovesSource(t, src, init);
      var t0 := ApplyMoves(t, src, init);
      ApplyMovesLast(t, src, ms);
      MoveFileSource(t0, src, m.name, m.dest);
    }
  }

  /** Moving out of `src` appends each moved file to its destination, in order. */
  lemma {:induction false} ApplyMovesDest<K>(t: map<K, seq<Entry>>, src: K, ms: seq<Move<K>>, d: K)
    requires d != src
    ensures Listing(ApplyMoves(t, src, ms), d) == Listing(t, d) + Into(ms, d)
    decreases |ms|
  {
    if ms != [] {
      var init, m := ms[..|ms| - 1], ms[|ms| - 1];
      var t0 := ApplyMoves(t, src, init);
      var extra := if d == m.dest then [File(m.name)] else [];
      var before, moved := Listing(t, d), Into(init, d);
      calc {
        Listing(ApplyMoves(t, src, ms), d);
        { ApplyMovesLast(t, src, ms);
          MoveFileElsewhere(t0, src, m.name, m.dest); }
        Listing(t0, d) + extra;
        { ApplyMovesDest(t, src, init, d); }
        (before + moved) + extra;
        { assert (before + moved) + extra == before + (moved + extra); }
        before + (moved + extra);
        before + Into(ms, d);
      }
    }
  }

  /** No move removes a directory. */
  lemma {:induction false} ApplyMovesKeys<K>(t: map<K, seq<Entry>>, src: K, ms: seq<Move<K>>)
    ensures forall d :: d in t ==> d in ApplyMoves(t, src, ms)
    decreases |ms|
  {
    if ms != [] {
      var init, m := ms[..|ms| - 1], ms[|ms| - 1];
      ApplyMovesKeys(t, src, init);
      MoveFileElsewhere(ApplyMoves(t, src, init), src, m.name, m.dest);
    }
  }

  /** Moving out of `src` into directories of `ds` leaves the file names summed over `ds` unchanged. */
  lemma {:induction false} ApplyMovesTally<K>(t: map<K, seq<Entry>>, src: K, ms: seq<Move<K>>, ds: seq<K>)
    requires forall i :: 0 <= i < |ms| ==> ms[i].dest != src && ms[i].dest in ds
    requires multiset(Moved(ms)) <= multiset(Listing(t, src))
    requires NoDuplicates(ds) && src in ds
    ensures Tally(ApplyMoves(t, src, ms), ds) == Tally(t, ds)
    decreases |ms|
  {
    if ms != [] {
      var init, m := ms[..|ms| - 1], ms[|ms| - 1];
      MovedInit(ms, t, src);
      ApplyMovesTally(t, src, init, ds);
      ApplyMovesSource(t, src, init);
      var t0 := ApplyMoves(t, src, init);
      ApplyMovesLast(t, src, ms);
      MoveFileSource(t0, src, m.name, m.dest);
      MoveKeepsTally(t0, src, m.name, m.dest, ds);
    }
  }
}
