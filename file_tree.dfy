/**
  The part of the filesystem the dataset utilities touch: every existing
  directory with its entries in enumeration order. A path is the sequence of
  its components, so `os.path.join` is concatenation.
 */
module FileTree {

  type Path = seq<string>

  datatype Entry = File(name: string) | Dir(name: string)

  /** Existing directories and their listings. */
  type Tree = map<Path, seq<Entry>>

  /** The entries of `d`; a missing directory lists nothing, as `glob` does. */
  function Listing<K(==)>(t: map<K, seq<Entry>>, d: K): seq<Entry> {
    if d in t then t[d] else []
  }

  /** A name the pattern `*` does not match. */
  predicate Hidden(e: Entry) {
    |e.name| > 0 && e.name[0] == '.'
  }

  /** `glob(os.path.join(d, '*'))` over the listing of `d`: every entry but the hidden ones, in listing order. */
  function Visible(es: seq<Entry>): (r: seq<Entry>)
    ensures forall e :: e in r <==> e in es && !Hidden(e)
    ensures multiset(r) <= multiset(es)
    decreases |es|
  {
    if es == [] then []
    else
      var init := es[..|es| - 1];
      assert es == init + [es[|es| - 1]];
      Visible(init) + (if Hidden(es[|es| - 1]) then [] else [es[|es| - 1]])
  }

  /** The names of the files (not directories) among `es`, in order. */
  function FileNames(es: seq<Entry>): (r: seq<string>)
    ensures |r| <= |es|
  {
    if es == [] then []
    else (if es[0].File? then [es[0].name] else []) + FileNames(es[1..])
  }

  lemma {:induction false} FileNamesAppend(a: seq<Entry>, b: seq<Entry>)
    ensures FileNames(a + b) == FileNames(a) + FileNames(b)
  {
    if a == [] {
      assert a + b == b;
    } else {
      assert (a + b)[1..] == a[1..] + b;
      FileNamesAppend(a[1..], b);
      assert (a + b)[0] == a[0];
    }
  }

  /** The multiset of file names in `d`. */
  function Files<K(==)>(t: map<K, seq<Entry>>, d: K): multiset<string> {
    multiset(FileNames(Listing(t, d)))
  }

  /** `os.makedirs(p)`: the missing ancestors of `p` and `p` itself are created, outermost first, each appended to its parent's listing. */
  function MakeDirs(t: Tree, p: Path): (t': Tree)
    requires p != []
    ensures p in t'
    decreases |p|
  {
    if p in t then t
    else
      var parent := p[..|p| - 1];
      var t1 := if parent == [] then t else MakeDirs(t, parent);
      var t2 := if parent in t1 then t1[parent := t1[parent] + [Dir(p[|p| - 1])]] else t1;
      t2[p := []]
  }

  /** `makedirs` keeps every directory, with its entries in order. */
  lemma {:induction false} MakeDirsKeepsDirs(t: Tree, p: Path)
    requires p != []
    ensures forall q :: q in t ==> q in MakeDirs(t, p) && t[q] <= MakeDirs(t, p)[q]
    decreases |p|
  {
    if p !in t {
      var parent := p[..|p| - 1];
      if parent != [] {
        MakeDirsKeepsDirs(t, parent);
      }
    }
  }

  /** `makedirs` changes no directory's files; a directory it creates holds none. */
  lemma {:induction false} MakeDirsKeepsFiles(t: Tree, p: Path)
    requires p != []
    ensures forall q :: Files(MakeDirs(t, p), q) == Files(t, q)
    decreases |p|
  {
    if p !in t {
      var parent := p[..|p| - 1];
      var t1 := if parent == [] then t else MakeDirs(t, parent);
      assert forall q :: Files(t1, q) == Files(t, q) by {
        if parent != [] {
          MakeDirsKeepsFiles(t, parent);
        }
      }
      var d := Dir(p[|p| - 1]);
      var t2 := if parent in t1 then t1[parent := t1[parent] + [d]] else t1;
      forall q ensures Files(t2[p := []], q) == Files(t, q) {
        if q == p {
          assert Listing(t, q) == [];
          assert FileNames([]) == [];
        } else if q == parent && parent in t1 {
          assert Listing(t2, q) == Listing(t1, q) + [d];
          FileNamesAppend(Listing(t1, q), [d]);
          assert FileNames([d]) == [];
          assert FileNames(Listing(t1, q)) + [] == FileNames(Listing(t1, q));
        } else {
          assert Listing(t2[p := []], q) == Listing(t1, q);
        }
      }
    }
  }

  /** `s` without its first occurrence of `e`. */
  function RemoveFirst(s: seq<Entry>, e: Entry): (r: seq<Entry>)
    ensures |r| <= |s|
    decreases |s|
  {
    if s == [] then []
    else if s[0] == e then s[1..]
    else [s[0]] + RemoveFirst(s[1..], e)
  }

  /** Removing the first occurrence takes one `e` out of the multiset, and nothing else. */
  lemma {:induction false} RemoveFirstCount(s: seq<Entry>, e: Entry)
    ensures multiset(RemoveFirst(s, e)) == multiset(s) - multiset{e}
    decreases |s|
  {
    if s != [] {
      assert s == [s[0]] + s[1..];
      if s[0] != e {
        RemoveFirstCount(s[1..], e);
      }
    }
  }

  /** `shutil.move(join(src, name), dest)` into the existing directory `dest`: the file leaves `src` and is listed last in `dest`. */
  function MoveFile<K(==)>(t: map<K, seq<Entry>>, src: K, name: string, dest: K): map<K, seq<Entry>> {
    var t1 := t[src := RemoveFirst(Listing(t, src), File(name))];
    t1[dest := Listing(t1, dest) + [File(name)]]
  }

  predicate NoDuplicates<T(==)>(s: seq<T>) {
    forall i, j :: 0 <= i < j < |s| ==> s[i] != s[j]
  }

  /** The union of `f(d)` over the directories `ds`. */
  function Sum<P>(f: P -> multiset<string>, ds: seq<P>): multiset<string>
    decreases |ds|
  {
    if ds == [] then multiset{} else f(ds[0]) + Sum(f, ds[1..])
  }

  /** All file names held by the directories `ds`, counted with multiplicity. */
  function Tally<K(==)>(t: map<K, seq<Entry>>, ds: seq<K>): multiset<string> {
    Sum((d: K) => Files(t, d), ds)
  }

  /** Removing one occurrence of a file entry removes one occurrence of its name. */
  lemma {:induction false} FilesWithoutOne(s: seq<Entry>, name: string)
    requires File(name) in s
    ensures multiset(FileNames(RemoveFirst(s, File(name)))) + multiset{name} == multiset(FileNames(s))
  {
    if s[0] != File(name) {
      FilesWithoutOne(s[1..], name);
    }
  }

  /** Moving a file changes the listings of its two directories only: one loses it, the other lists it last. */
  lemma MoveFileEffect<K>(t: map<K, seq<Entry>>, src: K, name: string, dest: K)
    requires src != dest
    requires File(name) in Listing(t, src)
    ensures forall d :: d != src && d != dest ==> Listing(MoveFile(t, src, name, dest), d) == Listing(t, d)
    ensures forall d :: d != src && d != dest ==> Files(MoveFile(t, src, name, dest), d) == Files(t, d)
    ensures Files(MoveFile(t, src, name, dest), src) + multiset{name} == Files(t, src)
    ensures Listing(MoveFile(t, src, name, dest), dest) == Listing(t, dest) + [File(name)]
    ensures Files(MoveFile(t, src, name, dest), dest) == Files(t, dest) + multiset{name}
  {
    var t' := MoveFile(t, src, name, dest);
    assert Listing(t', src) == RemoveFirst(Listing(t, src), File(name));
    FilesWithoutOne(Listing(t, src), name);
    FileNamesAppend(Listing(t, dest), [File(name)]);
    assert FileNames([File(name)]) == [name];
  }

  /** The source directory loses one entry for the file. */
  lemma MoveFileSource<K>(t: map<K, seq<Entry>>, src: K, name: string, dest: K)
    requires src != dest
    ensures multiset(Listing(MoveFile(t, src, name, dest), src)) == multiset(Listing(t, src)) - multiset{File(name)}
  {
    RemoveFirstCount(Listing(t, src), File(name));
  }

  /** Every directory but `src` keeps its listing, `dest` with the file appended; no directory disappears. */
  lemma MoveFileElsewhere<K>(t: map<K, seq<Entry>>, src: K, name: string, dest: K)
    ensures forall d :: d != src ==> Listing(MoveFile(t, src, name, dest), d) == Listing(t, d) + (if d == dest then [File(name)] else [])
    ensures forall d :: d in t ==> d in MoveFile(t, src, name, dest)
  {
  }

  /** When one name leaves `src` for `dest` and nothing else changes, each name keeps its count over a duplicate-free list of places. */
  lemma {:induction false} SumShift<P>(f: P -> multiset<string>, g: P -> multiset<string>, src: P, dest: P, name: string, ds: seq<P>, n: string)
    requires src != dest
    requires forall d :: d != src && d != dest ==> g(d) == f(d)
    requires g(src) + multiset{name} == f(src)
    requires g(dest) == f(dest) + multiset{name}
    requires NoDuplicates(ds)
    ensures Sum(g, ds)[n] + (if src in ds && n == name then 1 else 0)
         == Sum(f, ds)[n] + (if dest in ds && n == name then 1 else 0)
    decreases |ds|
  {
    if ds != [] {
      var d, rest := ds[0], ds[1..];
      assert NoDuplicates(rest);
      SumShift(f, g, src, dest, name, rest, n);
      assert src in ds <==> d == src || src in rest;
      assert dest in ds <==> d == dest || dest in rest;
      assert d == src ==> src !in rest;
      assert d == dest ==> dest !in rest;
      assert Sum(g, ds)[n] == g(d)[n] + Sum(g, rest)[n];
      assert Sum(f, ds)[n] == f(d)[n] + Sum(f, rest)[n];
      assert g(src)[n] + (if n == name then 1 else 0) == f(src)[n];
      assert g(dest)[n] == f(dest)[n] + (if n == name then 1 else 0);
    }
  }

  /** Moving a file between two directories of a duplicate-free list that holds both keeps the files they hold together. */
  lemma MoveKeepsTally<K>(t: map<K, seq<Entry>>, src: K, name: string, dest: K, ds: seq<K>)
    requires src != dest
    requires File(name) in Listing(t, src)
    requires NoDuplicates(ds) && src in ds && dest in ds
    ensures Tally(MoveFile(t, src, name, dest), ds) == Tally(t, ds)
  {
    var t' := MoveFile(t, src, name, dest);
    MoveFileEffect(t, src, name, dest);
    var f, g := (d: K) => Files(t, d), (d: K) => Files(t', d);
    assert forall d :: d != src && d != dest ==> g(d) == f(d);
    assert g(src) + multiset{name} == f(src);
    assert g(dest) == f(dest) + multiset{name};
    forall n
      ensures Sum(g, ds)[n] == Sum(f, ds)[n]
    {
      SumShift(f, g, src, dest, name, ds, n);
    }
    assert Sum(g, ds) == Sum(f, ds);
  }

  /** Trees whose directories hold the same files hold the same files in total. */
  lemma {:induction false} TallySame<K>(t: map<K, seq<Entry>>, t': map<K, seq<Entry>>, ds: seq<K>)
    requires forall d :: Files(t', d) == Files(t, d)
    ensures Tally(t', ds) == Tally(t, ds)
    decreases |ds|
  {
    if ds != [] {
      TallySame(t, t', ds[1..]);
      assert Tally(t', ds) == Files(t', ds[0]) + Tally(t', ds[1..]);
      assert Tally(t, ds) == Files(t, ds[0]) + Tally(t, ds[1..]);
    }
  }
}
