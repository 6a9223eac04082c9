/**
  `subdivide` of utils.py: sort the files of a flat directory into class
  directories. All class directories are made first; then every listed entry
  that is not a directory goes to the directory of the first class, in list
  order, whose name occurs in the file name, under `train/` or `val/` by a
  random draw when splitting. The filesystem is a `Tree` value the method
  takes and returns; the k-th `random.random()` of the call is `draws(k)`.
 */
module Subdivide {
  import opened Wrappers
  import opened Text
  import opened FileTree
  import opened Moves
  import opened MoveEffects

  datatype Error = RatioOutOfRange   // the `assert 0 < train_ratio < 1` fails

  /** The routing parameters of one call. */
  datatype Rule = Rule(classes: seq<string>, save: Path, split: bool, ratio: real, draws: nat -> real)

  /** The class of a file name: the first class, in list order, that occurs in it. */
  function FirstMatch(classes: seq<string>, name: string): (k: Option<nat>)
    ensures k.Some? ==> k.value < |classes| && Contains(name, classes[k.value])
    ensures k.Some? ==> forall j :: 0 <= j < k.value ==> !Contains(name, classes[j])
    ensures k.None? ==> forall j :: 0 <= j < |classes| ==> !Contains(name, classes[j])
    decreases |classes|
  {
    if classes == [] then None
    else if Contains(name, classes[0]) then Some(0)
    else match FirstMatch(classes[1..], name)
      case None => None
      case Some(k) => Some(k + 1)
  }

  /** The directories made for class `c`: `save/train/c` and `save/val/c` when splitting, else `save/c`. */
  function ClassDirs(save: Path, c: string, split: bool): seq<Path> {
    if split then [save + ["train", c], save + ["val", c]] else [save + [c]]
  }

  /** Every directory the call makes sure of, in the order it does so. */
  function TargetDirs(save: Path, classes: seq<string>, split: bool): (r: seq<Path>)
    ensures forall i :: 0 <= i < |r| ==> r[i] != []
    decreases |classes|
  {
    if classes == [] then []
    else TargetDirs(save, classes[..|classes| - 1], split) + ClassDirs(save, classes[|classes| - 1], split)
  }

  /** `if not os.path.exists(p): os.makedirs(p)` */
  function EnsureDir(t: Tree, p: Path): (t': Tree)
    requires p != []
  {
    if p in t then t else MakeDirs(t, p)
  }

  /** The directories of class `c` made sure of, `train` before `val`. */
  function PrepareClass(t: Tree, save: Path, c: string, split: bool): Tree {
    if split then EnsureDir(EnsureDir(t, save + ["train", c]), save + ["val", c])
    else EnsureDir(t, save + [c])
  }

  /** The directory-creation pass of the call, class by class. */
  function Prepare(t: Tree, save: Path, classes: seq<string>, split: bool): Tree
    decreases |classes|
  {
    if classes == [] then t
    else PrepareClass(Prepare(t, save, classes[..|classes| - 1], split), save, classes[|classes| - 1], split)
  }

  /** Where a file of class `c` goes, `k` being the number of draws made before it. */
  function Destination(rule: Rule, c: string, k: nat): Path {
    if !rule.split then rule.save + [c]
    else if rule.draws(k) < rule.ratio then rule.save + ["train", c]
    else rule.save + ["val", c]
  }

  /** The move, if any, for one listed entry, `k` draws having been made before it. */
  function Route(rule: Rule, e: Entry, k: nat): seq<Move<Path>> {
    if e.Dir? then []
    else match FirstMatch(rule.classes, e.name)
      case None => []
      case Some(i) => [Move(e.name, Destination(rule, rule.classes[i], k))]
  }

  /** The moves the scan of `es` makes, in order; each matched file uses the next draw. */
  function Plan(rule: Rule, es: seq<Entry>): seq<Move<Path>>
    decreases |es|
  {
    if es == [] then []
    else
      var done := Plan(rule, es[..|es| - 1]);
      done + Route(rule, es[|es| - 1], |done|)
  }

  /** The directory the files are sorted into: `save_dir`, or `dir` when it is None. */
  function SaveDir(dir: Path, saveDir: Option<Path>): Path {
    if saveDir.Some? then saveDir.value else dir
  }

  /** The filesystem once the class directories are made, before any move. */
  function Prepared(fs: Tree, rule: Rule): Tree {
    Prepare(fs, rule.save, rule.classes, rule.split)
  }

  /** The moves of the scan of `dir`, listed after the directories are made. */
  function Scan(fs: Tree, dir: Path, rule: Rule): seq<Move<Path>> {
    Plan(rule, Visible(Listing(Prepared(fs, rule), dir)))
  }

  /** The filesystem after a call whose ratio check passed: directories made, then the moves of the scan. */
  function Subdivided(fs: Tree, dir: Path, rule: Rule): Tree {
    ApplyMoves(Prepared(fs, rule), dir, Scan(fs, dir, rule))
  }

  predicate RatioRejected(split: bool, ratio: real) {
    split && !(0.0 < ratio < 1.0)
  }

  lemma PlanStep(rule: Rule, es: seq<Entry>, e: Entry)
    ensures Plan(rule, es + [e]) == Plan(rule, es) + Route(rule, e, |Plan(rule, es)|)
  {
    assert (es + [e])[..|es|] == es;
  }

  /** The class search of the scan: the index of the first class occurring in `name`, or `|classes|`. */
  method FindClass(classes: seq<string>, name: string) returns (k: nat)
    ensures k <= |classes|
    ensures k < |classes| <==> FirstMatch(classes, name).Some?
    ensures k < |classes| ==> FirstMatch(classes, name) == Some(k)
  {
    k := 0;
    while k < |classes| && !Contains(name, classes[k])
      invariant 0 <= k <= |classes|
      invariant forall m :: 0 <= m < k ==> !Contains(name, classes[m])
    {
      k := k + 1;
    }
  }

  /** One pass of the first loop: the directories of class `c`, each made only when it does not exist. */
  method MakeClassDir(t: Tree, save: Path, c: string, split: bool) returns (t': Tree)
    ensures t' == PrepareClass(t, save, c, split)
  {
    t' := t;
    if split {
      var p, q := save + ["train", c], save + ["val", c];
      if p !in t' { t' := MakeDirs(t', p); }
      if q !in t' { t' := MakeDirs(t', q); }
    } else {
      var p := save + [c];
      if p !in t' { t' := MakeDirs(t', p); }
    }
  }

  /** The first loop of `subdivide`: make every class directory that does not exist yet. */
  method MakeClassDirs(fs: Tree, save: Path, classes: seq<string>, split: bool) returns (t: Tree)
    ensures t == Prepare(fs, save, classes, split)
  {
    t := fs;
    var i := 0;
    while i < |classes|
      invariant 0 <= i <= |classes|
      invariant t == Prepare(fs, save, classes[..i], split)
    {
      assert classes[..i + 1][..i] == classes[..i];
      t := MakeClassDir(t, save, classes[i], split);
      i := i + 1;
    }
    assert classes[..|classes|] == classes;
  }

  /** One pass of the second loop: the entry `e` is moved when it is a file whose name holds a class. */
  method MoveEntry(t: Tree, dir: Path, e: Entry, rule: Rule, drawn: nat) returns (t': Tree, moved: bool)
    ensures |Route(rule, e, drawn)| == if moved then 1 else 0
    ensures t' == ApplyMoves(t, dir, Route(rule, e, drawn))
  {
    t', moved := t, false;
    if e.File? {
      var k := FindClass(rule.classes, e.name);
      if k < |rule.classes| {
        var c := rule.classes[k];
        var dest;
        if !rule.split {
          dest := rule.save + [c];
        } else if rule.draws(drawn) < rule.ratio {
          dest := rule.save + ["train", c];
        } else {
          dest := rule.save + ["val", c];
        }
        assert Route(rule, e, drawn) == [Move(e.name, dest)];
        ApplyMovesStep(t, dir, [], Move(e.name, dest));
        assert [] + [Move(e.name, dest)] == [Move(e.name, dest)];
        t', moved := MoveFile(t, dir, e.name, dest), true;
      } else {
        assert Route(rule, e, drawn) == [];
      }
    } else {
      assert Route(rule, e, drawn) == [];
    }
  }

  /** One turn of the move loop: the next entry of the listing is routed and moved, and the draw count follows. */
  method MoveNext(mid: Tree, dir: Path, listing: seq<Entry>, rule: Rule, j: nat, t: Tree, drawn: nat) returns (t': Tree, drawn': nat)
    requires j < |listing|
    requires drawn == |Plan(rule, listing[..j])|
    requires t == ApplyMoves(mid, dir, Plan(rule, listing[..j]))
    ensures drawn' == |Plan(rule, listing[..j + 1])|
    ensures t' == ApplyMoves(mid, dir, Plan(rule, listing[..j + 1]))
  {
    var e := listing[j];
    ghost var done, ms := Plan(rule, listing[..j]), Route(rule, e, drawn);
    assert Plan(rule, listing[..j + 1]) == done + ms by {
      assert listing[..j + 1] == listing[..j] + [e];
      PlanStep(rule, listing[..j], e);
    }
    assert ApplyMoves(mid, dir, done + ms) == ApplyMoves(t, dir, ms) by {
      ApplyMovesConcat(mid, dir, done, ms);
    }
    var moved;
    t', moved := MoveEntry(t, dir, e, rule, drawn);
    drawn' := if moved then drawn + 1 else drawn;
  }

  /** The second loop of `subdivide`: move every listed file whose name holds a class. */
  method MoveMatched(mid: Tree, dir: Path, listing: seq<Entry>, rule: Rule) returns (t: Tree)
    ensures t == ApplyMoves(mid, dir, Plan(rule, listing))
  {
    t := mid;
    var drawn := 0;
    var j := 0;
    while j < |listing|
      invariant 0 <= j <= |listing|
      invariant drawn == |Plan(rule, listing[..j])|
      invariant t == ApplyMoves(mid, dir, Plan(rule, listing[..j]))
    {
      t, drawn := MoveNext(mid, dir, listing, rule, j, t, drawn);
      j := j + 1;
    }
    assert listing[..|listing|] == listing;
  }


  /** `subdivide(dir, classes, save_dir, split_train_val=split, train_ratio=ratio)` */
  method Run(fs: Tree, dir: Path, classes: seq<string>, saveDir: Option<Path>, split: bool, ratio: real, draws: nat -> real)
    returns (r: Result<Tree, Error>)
    ensures RatioRejected(split, ratio) ==> r == Failure(RatioOutOfRange)
    ensures !RatioRejected(split, ratio) ==>
      r == Success(Subdivided(fs, dir, Rule(classes, SaveDir(dir, saveDir), split, ratio, draws)))
  {
    var save := if saveDir.Some? then saveDir.value else dir;
    if split && !(0.0 < ratio < 1.0) {
      return Failure(RatioOutOfRange);
    }
    var t := MakeClassDirs(fs, save, classes, split);
    var listing := Visible(Listing(t, dir));
    t := MoveMatched(t, dir, listing, Rule(classes, save, split, ratio, draws));
    return Success(t);
  }

  // ---------------------------------------------------------------------------
  // What the call does to the filesystem

  /** A file the classes claim. */
  predicate Claimed(classes: seq<string>, e: Entry) {
    e.File? && FirstMatch(classes, e.name).Some?
  }

  /** The files of `es` the classes claim, in order. */
  function Matched(classes: seq<string>, es: seq<Entry>): (r: seq<Entry>)
    ensures forall e :: multiset(r)[e] == if Claimed(classes, e) then multiset(es)[e] else 0
    decreases |es|
  {
    if es == [] then []
    else
      var init, e := es[..|es| - 1], es[|es| - 1];
      assert es == init + [e];
      Matched(classes, init) + (if Claimed(classes, e) then [e] else [])
  }

  lemma {:induction false} VisibleCount(es: seq<Entry>, e: Entry)
    ensures multiset(Visible(es))[e] == if Hidden(e) then 0 else multiset(es)[e]
    decreases |es|
  {
    if es != [] {
      var init := es[..|es| - 1];
      assert es == init + [es[|es| - 1]];
      VisibleCount(init, e);
    }
  }

  /** The scan moves exactly the claimed files, in listing order. */
  lemma {:induction false} PlanMovesClaimed(rule: Rule, es: seq<Entry>)
    ensures Moved(Plan(rule, es)) == Matched(rule.classes, es)
    decreases |es|
  {
    if es != [] {
      var init, e := es[..|es| - 1], es[|es| - 1];
      var done := Plan(rule, init);
      var ms := Route(rule, e, |done|);
      calc {
        Moved(Plan(rule, es));
        { assert Plan(rule, es) == done + ms; }
        Moved(done + ms);
        { MovedAppend(done, ms); }
        Moved(done) + Moved(ms);
        { PlanMovesClaimed(rule, init); }
        Matched(rule.classes, init) + Moved(ms);
        { assert Moved(ms) == if Claimed(rule.classes, e) then [e] else []; }
        Matched(rule.classes, es);
      }
    }
  }

  /** The i-th move of the scan takes its file to the directory of the first class occurring in its name, and uses the i-th draw. */
  lemma {:induction false} PlanRoutes(rule: Rule, es: seq<Entry>)
    ensures forall i :: 0 <= i < |Plan(rule, es)| ==>
      && FirstMatch(rule.classes, Plan(rule, es)[i].name).Some?
      && Plan(rule, es)[i].dest == Destination(rule, rule.classes[FirstMatch(rule.classes, Plan(rule, es)[i].name).value], i)
    decreases |es|
  {
    if es != [] {
      var init, e := es[..|es| - 1], es[|es| - 1];
      PlanRoutes(rule, init);
      var done := Plan(rule, init);
      assert Plan(rule, es) == done + Route(rule, e, |done|);
    }
  }

  lemma {:induction false} ClassDirsInTargets(save: Path, classes: seq<string>, split: bool, k: nat)
    requires k < |classes|
    ensures forall p :: p in ClassDirs(save, classes[k], split) ==> p in TargetDirs(save, classes, split)
    decreases |classes|
  {
    var init := classes[..|classes| - 1];
    if k < |init| {
      ClassDirsInTargets(save, init, split, k);
    }
  }

  /** Every move goes into one of the directories made first. */
  lemma DestinationIsTarget(rule: Rule, k: nat, i: nat)
    requires k < |rule.classes|
    ensures Destination(rule, rule.classes[k], i) in TargetDirs(rule.save, rule.classes, rule.split)
  {
    ClassDirsInTargets(rule.save, rule.classes, rule.split, k);
  }

  lemma ScanTargets(fs: Tree, dir: Path, rule: Rule)
    ensures forall i :: 0 <= i < |Scan(fs, dir, rule)| ==> Scan(fs, dir, rule)[i].dest in TargetDirs(rule.save, rule.classes, rule.split)
  {
    var ms := Scan(fs, dir, rule);
    PlanRoutes(rule, Visible(Listing(Prepared(fs, rule), dir)));
    forall i | 0 <= i < |ms|
      ensures ms[i].dest in TargetDirs(rule.save, rule.classes, rule.split)
    {
      DestinationIsTarget(rule, FirstMatch(rule.classes, ms[i].name).value, i);
    }
  }

  lemma EnsureDirKeeps(t: Tree, p: Path)
    requires p != []
    ensures p in EnsureDir(t, p)
    ensures forall q :: q in t ==> q in EnsureDir(t, p) && t[q] <= EnsureDir(t, p)[q]
    ensures forall q :: Files(EnsureDir(t, p), q) == Files(t, q)
  {
    if p !in t {
      MakeDirsKeepsDirs(t, p);
      MakeDirsKeepsFiles(t, p);
    }
  }

  lemma PrepareClassKeeps(t: Tree, save: Path, c: string, split: bool)
    ensures forall p :: p in ClassDirs(save, c, split) ==> p in PrepareClass(t, save, c, split)
    ensures forall q :: q in t ==> q in PrepareClass(t, save, c, split) && t[q] <= PrepareClass(t, save, c, split)[q]
    ensures forall q :: Files(PrepareClass(t, save, c, split), q) == Files(t, q)
  {
    if split {
      var p, p' := save + ["train", c], save + ["val", c];
      EnsureDirKeeps(t, p);
      EnsureDirKeeps(EnsureDir(t, p), p');
    } else {
      EnsureDirKeeps(t, save + [c]);
    }
  }

  /** Making the class directories keeps every directory, with its entries in order, and every directory's files. */
  lemma {:induction false} PrepareKeeps(t: Tree, save: Path, classes: seq<string>, split: bool)
    ensures forall q :: q in t ==> q in Prepare(t, save, classes, split) && t[q] <= Prepare(t, save, classes, split)[q]
    ensures forall q :: Files(Prepare(t, save, classes, split), q) == Files(t, q)
    decreases |classes|
  {
    if classes != [] {
      var init := classes[..|classes| - 1];
      PrepareKeeps(t, save, init, split);
      PrepareClassKeeps(Prepare(t, save, init, split), save, classes[|classes| - 1], split);
    }
  }

  /** After the first loop every class directory exists. */
  lemma {:induction false} PrepareMakesTargets(t: Tree, save: Path, classes: seq<string>, split: bool)
    ensures forall p :: p in TargetDirs(save, classes, split) ==> p in Prepare(t, save, classes, split)
    decreases |classes|
  {
    if classes != [] {
      var init := classes[..|classes| - 1];
      PrepareMakesTargets(t, save, init, split);
      PrepareClassKeeps(Prepare(t, save, init, split), save, classes[|classes| - 1], split);
    }
  }

  /** Where every class directory exists already, the first loop changes nothing. */
  lemma {:induction false} PrepareExisting(t: Tree, save: Path, classes: seq<string>, split: bool)
    requires forall p :: p in TargetDirs(save, classes, split) ==> p in t
    ensures Prepare(t, save, classes, split) == t
    decreases |classes|
  {
    if classes != [] {
      PrepareExisting(t, save, classes[..|classes| - 1], split);
    }
  }

  /** Running the first loop again changes nothing. */
  lemma PrepareIdempotent(t: Tree, save: Path, classes: seq<string>, split: bool)
    ensures Prepare(Prepare(t, save, classes, split), save, classes, split) == Prepare(t, save, classes, split)
  {
    PrepareMakesTargets(t, save, classes, split);
    PrepareExisting(Prepare(t, save, classes, split), save, classes, split);
  }

  /** The scan moves only entries of the listing, each at most as often as it is listed. */
  lemma ScanFromListing(fs: Tree, dir: Path, rule: Rule)
    ensures multiset(Moved(Scan(fs, dir, rule))) <= multiset(Listing(Prepared(fs, rule), dir))
  {
    var es := Visible(Listing(Prepared(fs, rule), dir));
    PlanMovesClaimed(rule, es);
  }

  /** Once the call is over, every class directory exists. */
  lemma TargetsExist(fs: Tree, dir: Path, rule: Rule)
    ensures forall p :: p in TargetDirs(rule.save, rule.classes, rule.split) ==> p in Subdivided(fs, dir, rule)
  {
    PrepareMakesTargets(fs, rule.save, rule.classes, rule.split);
    ApplyMovesKeys(Prepared(fs, rule), dir, Scan(fs, dir, rule));
  }

  /** Every visible file of `dir` whose name holds a class leaves it; every other entry stays, as often as it was listed. */
  lemma SourceKeepsRest(fs: Tree, dir: Path, rule: Rule, e: Entry)
    requires dir !in TargetDirs(rule.save, rule.classes, rule.split)
    ensures multiset(Listing(Subdivided(fs, dir, rule), dir))[e] ==
      if Claimed(rule.classes, e) && !Hidden(e) then 0 else multiset(Listing(Prepared(fs, rule), dir))[e]
  {
    var mid, ms := Prepared(fs, rule), Scan(fs, dir, rule);
    var es := Visible(Listing(mid, dir));
    ScanTargets(fs, dir, rule);
    ScanFromListing(fs, dir, rule);
    ApplyMovesSource(mid, dir, ms);
    PlanMovesClaimed(rule, es);
    VisibleCount(Listing(mid, dir), e);
  }

  /** A directory other than `dir` ends with its old entries followed by the files moved into it, in scan order. */
  lemma Arrivals(fs: Tree, dir: Path, rule: Rule, d: Path)
    requires d != dir
    ensures Listing(Subdivided(fs, dir, rule), d) == Listing(Prepared(fs, rule), d) + Into(Scan(fs, dir, rule), d)
  {
    ApplyMovesDest(Prepared(fs, rule), dir, Scan(fs, dir, rule), d);
  }

  /** No file is lost or duplicated: over the source and all class directories, the file names are those there were before the call. */
  lemma FilesConserved(fs: Tree, dir: Path, rule: Rule, ds: seq<Path>)
    requires dir !in TargetDirs(rule.save, rule.classes, rule.split)
    requires NoDuplicates(ds) && dir in ds
    requires forall p :: p in TargetDirs(rule.save, rule.classes, rule.split) ==> p in ds
    ensures Tally(Subdivided(fs, dir, rule), ds) == Tally(fs, ds)
  {
    var mid, ms := Prepared(fs, rule), Scan(fs, dir, rule);
    ScanTargets(fs, dir, rule);
    ScanFromListing(fs, dir, rule);
    ApplyMovesTally(mid, dir, ms, ds);
    PrepareKeeps(fs, rule.save, rule.classes, rule.split);
    TallySame(fs, mid, ds);
  }

  lemma PlanOfUnclaimed(rule: Rule, es: seq<Entry>)
    requires forall e :: e in es ==> !Claimed(rule.classes, e)
    ensures Plan(rule, es) == []
  {
    PlanMovesClaimed(rule, es);
    assert |Moved(Plan(rule, es))| == |Matched(rule.classes, es)|;
  }

  /** Calling `subdivide` again with the same arguments changes nothing. */
  lemma SecondRunChangesNothing(fs: Tree, dir: Path, rule: Rule)
    requires dir !in TargetDirs(rule.save, rule.classes, rule.split)
    ensures Subdivided(Subdivided(fs, dir, rule), dir, rule) == Subdivided(fs, dir, rule)
  {
    var out := Subdivided(fs, dir, rule);
    TargetsExist(fs, dir, rule);
    PrepareExisting(out, rule.save, rule.classes, rule.split);
    var es := Visible(Listing(out, dir));
    forall e | e in es
      ensures !Claimed(rule.classes, e)
    {
      VisibleCount(Listing(out, dir), e);
      SourceKeepsRest(fs, dir, rule, e);
    }
    PlanOfUnclaimed(rule, es);
  }
}
