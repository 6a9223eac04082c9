/**
  `to_nparray` of utils.py: load every image of a directory into one batch,
  optionally with the label of each file, optionally channels-first, and
  optionally shuffled. Decoding (`Image.open`, `resize`, `np.array`) is the
  oracle `decode`, which gives the pixel array of a file name or None when the
  file cannot be opened; the permutation `sklearn.utils.shuffle` draws is the
  parameter `perm`.
 */
module Batch {
  import opened Wrappers
  import opened Text
  import opened FileTree

  /** A decoded image, indexed `[row][column][channel]`. */
  type Image = seq<seq<seq<int>>>

  /** A rectangular array with `h` rows, `w` columns and `c` channels, none of them zero. */
  predicate IsBox(x: Image, h: nat, w: nat, c: nat) {
    && h > 0 && w > 0 && c > 0
    && |x| == h
    && (forall i :: 0 <= i < h ==> |x[i]| == w)
    && (forall i, j :: 0 <= i < h && 0 <= j < w ==> |x[i][j]| == c)
  }

  /** The shape `(rows, columns, channels)` read off the first row and pixel. */
  function Shape(x: Image): (nat, nat, nat) {
    if |x| == 0 || |x[0]| == 0 then (|x|, 0, 0) else (|x|, |x[0]|, |x[0][0]|)
  }

  predicate Regular(x: Image) {
    IsBox(x, Shape(x).0, Shape(x).1, Shape(x).2)
  }

  /** `np.transpose(x, (2, 0, 1))`: the channel axis first. */
  function ChannelsFirst(x: Image): (r: Image)
    requires Regular(x)
    ensures IsBox(r, Shape(x).2, Shape(x).0, Shape(x).1)
    ensures forall k, i, j :: 0 <= k < Shape(x).2 && 0 <= i < Shape(x).0 && 0 <= j < Shape(x).1 ==>
      r[k][i][j] == x[i][j][k]
  {
    var (h, w, c) := Shape(x);
    seq(c, k requires 0 <= k < c => seq(h, i requires 0 <= i < h => seq(w, j requires 0 <= j < w => x[i][j][k])))
  }

  /** `np.transpose(x, (1, 2, 0))`: the channel axis last again. */
  function ChannelsLast(x: Image): (r: Image)
    requires Regular(x)
    ensures IsBox(r, Shape(x).1, Shape(x).2, Shape(x).0)
  {
    var (c, h, w) := Shape(x);
    seq(h, i requires 0 <= i < h => seq(w, j requires 0 <= j < w => seq(c, k requires 0 <= k < c => x[k][i][j])))
  }

  /** Moving the channels to the front and back again gives the image back. */
  lemma ChannelsRoundTrip(x: Image)
    requires Regular(x)
    ensures Regular(ChannelsFirst(x)) && ChannelsLast(ChannelsFirst(x)) == x
  {
    var (h, w, c) := Shape(x);
    var y := ChannelsFirst(x);
    assert Shape(y) == (c, h, w);
    var z := ChannelsLast(y);
    assert |z| == |x|;
    forall i | 0 <= i < h
      ensures z[i] == x[i]
    {
      forall j | 0 <= j < w
        ensures z[i][j] == x[i][j]
      {
        assert |z[i][j]| == |x[i][j]|;
      }
    }
  }

  /** The dictionary `labels`, in its iteration order. */
  type LabelMap = seq<(string, int)>

  /** The label of a file name: the value of the first key, in dictionary order, that the name starts with. */
  function LabelOf(labels: LabelMap, name: string): Option<int>
    decreases |labels|
  {
    if labels == [] then None
    else if StartsWith(name, labels[0].0) then Some(labels[0].1)
    else LabelOf(labels[1..], name)
  }

  /** A name has a label exactly when it starts with some key, and the label is the value of the first such key. */
  lemma {:induction false} LabelOfFirstKey(labels: LabelMap, name: string)
    ensures LabelOf(labels, name).Some? <==> exists k :: 0 <= k < |labels| && StartsWith(name, labels[k].0)
    ensures LabelOf(labels, name).Some? ==>
      exists k :: (0 <= k < |labels| && StartsWith(name, labels[k].0) && LabelOf(labels, name).value == labels[k].1 &&
                   forall j :: 0 <= j < k ==> !StartsWith(name, labels[j].0))
    decreases |labels|
  {
    if labels != [] && !StartsWith(name, labels[0].0) {
      LabelOfFirstKey(labels[1..], name);
      assert forall k :: 0 < k < |labels| ==> labels[k] == labels[1..][k - 1];
      if LabelOf(labels, name).Some? {
        var k :| 0 <= k < |labels[1..]| && StartsWith(name, labels[1..][k].0) && LabelOf(labels, name).value == labels[1..][k].1 &&
                 forall j :: 0 <= j < k ==> !StartsWith(name, labels[1..][j].0);
        assert StartsWith(name, labels[k + 1].0);
      }
    } else if labels != [] {
      assert StartsWith(name, labels[0].0);
    }
  }

  /** The label list the scan of `files` builds: one entry per file that has a label, in order. */
  function Labels(labels: LabelMap, files: seq<Entry>): (y: seq<int>)
    ensures |y| <= |files|
    decreases |files|
  {
    if files == [] then []
    else
      var y := Labels(labels, files[..|files| - 1]);
      match LabelOf(labels, files[|files| - 1].name)
      case None => y
      case Some(v) => y + [v]
  }

  datatype LoadError =
    | NotAnImage(name: string)    // `Image.open` raises: a directory or an undecodable file
    | NothingToStack              // `np.stack` of no arrays
    | ShapeMismatch               // `np.stack` of arrays of different shapes
    | InconsistentLengths         // `shuffle(X, y)` with `len(y) != len(X)`

  /** The array appended for one decoded image. */
  function Prepare(x: Image, channelsFirst: bool): Image
    requires Regular(x)
  {
    if channelsFirst then ChannelsFirst(x) else x
  }

  /** PIL gives every opened image as a regular array. */
  ghost predicate Decodes(decode: string -> Option<Image>) {
    forall n :: decode(n).Some? ==> Regular(decode(n).value)
  }

  /** `Image.open` succeeds on `e`: a file that decodes. */
  predicate Opens(e: Entry, decode: string -> Option<Image>) {
    e.File? && decode(e.name).Some?
  }

  /** The image list the scan of `files` builds, or the error of the first file that cannot be opened. */
  function Load(files: seq<Entry>, decode: string -> Option<Image>, channelsFirst: bool): (r: Result<seq<Image>, LoadError>)
    requires Decodes(decode)
    ensures r.Success? ==> |r.value| == |files|
    decreases |files|
  {
    if files == [] then Success([])
    else
      var e := files[|files| - 1];
      match Load(files[..|files| - 1], decode, channelsFirst)
      case Failure(err) => Failure(err)
      case Success(imgs) =>
        if !Opens(e, decode) then Failure(NotAnImage(e.name))
        else Success(imgs + [Prepare(decode(e.name).value, channelsFirst)])
  }

  /** The scan succeeds exactly when every file opens, and then holds the prepared array of each file at its position. */
  lemma {:induction false} LoadSucceeds(files: seq<Entry>, decode: string -> Option<Image>, channelsFirst: bool)
    requires Decodes(decode)
    ensures Load(files, decode, channelsFirst).Success? <==> forall i :: 0 <= i < |files| ==> Opens(files[i], decode)
    ensures Load(files, decode, channelsFirst).Success? ==>
      forall i :: 0 <= i < |files| ==> Load(files, decode, channelsFirst).value[i] == Prepare(decode(files[i].name).value, channelsFirst)
    decreases |files|
  {
    if files != [] {
      var init := files[..|files| - 1];
      LoadSucceeds(init, decode, channelsFirst);
      assert forall i :: 0 <= i < |init| ==> init[i] == files[i];
    }
  }

  /** A failed scan reports the first file that does not open. */
  lemma {:induction false} LoadFailsAtFirst(files: seq<Entry>, decode: string -> Option<Image>, channelsFirst: bool)
    requires Decodes(decode)
    requires Load(files, decode, channelsFirst).Failure?
    ensures exists i :: (0 <= i < |files| && !Opens(files[i], decode) && Load(files, decode, channelsFirst).error == NotAnImage(files[i].name) &&
                         forall j :: 0 <= j < i ==> Opens(files[j], decode))
    decreases |files|
  {
    var init := files[..|files| - 1];
    assert forall i :: 0 <= i < |init| ==> init[i] == files[i];
    if Load(init, decode, channelsFirst).Failure? {
      LoadFailsAtFirst(init, decode, channelsFirst);
    } else {
      LoadSucceeds(init, decode, channelsFirst);
      assert !Opens(files[|files| - 1], decode);
    }
  }

  /** One more file extends the scan by its array, or ends it with that file's error. */
  lemma LoadStep(files: seq<Entry>, j: nat, decode: string -> Option<Image>, channelsFirst: bool)
    requires Decodes(decode)
    requires j < |files| && Load(files[..j], decode, channelsFirst).Success?
    ensures Load(files[..j + 1], decode, channelsFirst) ==
      if Opens(files[j], decode) then Success(Load(files[..j], decode, channelsFirst).value + [Prepare(decode(files[j].name).value, channelsFirst)])
      else Failure(NotAnImage(files[j].name))
  {
    assert files[..j + 1][..j] == files[..j];
  }

  /** Once the scan of a prefix fails, the scan of the whole fails the same way. */
  lemma {:induction false} LoadFailureStays(files: seq<Entry>, k: nat, decode: string -> Option<Image>, channelsFirst: bool)
    requires Decodes(decode)
    requires k <= |files| && Load(files[..k], decode, channelsFirst).Failure?
    ensures Load(files, decode, channelsFirst) == Load(files[..k], decode, channelsFirst)
    decreases |files| - k
  {
    if k < |files| {
      assert files[..k + 1][..k] == files[..k];
      LoadFailureStays(files, k + 1, decode, channelsFirst);
    } else {
      assert files[..k] == files;
    }
  }

  /** One more file extends the label list by its label, when it has one. */
  lemma LabelsStep(labels: LabelMap, files: seq<Entry>, j: nat)
    requires j < |files|
    ensures Labels(labels, files[..j + 1]) ==
      Labels(labels, files[..j]) + (if LabelOf(labels, files[j].name).Some? then [LabelOf(labels, files[j].name).value] else [])
  {
    assert files[..j + 1][..j] == files[..j];
  }

  /** All arrays have the shape of the first. */
  predicate SameShape(xs: seq<Image>) {
    forall i :: 0 <= i < |xs| ==> Shape(xs[i]) == Shape(xs[0])
  }

  /** `0, 1, ..., n - 1` */
  function Range(n: nat): (r: seq<nat>)
    ensures |r| == n && forall i :: 0 <= i < n ==> r[i] == i
  {
    seq(n, i requires 0 <= i < n => i)
  }

  /** `perm` lists `0, ..., n - 1`, each once. */
  predicate IsPermutation(perm: seq<nat>, n: nat) {
    && |perm| == n
    && (forall i :: 0 <= i < n ==> perm[i] < n)
    && multiset(perm) == multiset(Range(n))
  }

  /** `s` reindexed by `perm`: position `i` holds `s[perm[i]]`. */
  function Permute<T>(s: seq<T>, perm: seq<nat>): (r: seq<T>)
    requires forall i :: 0 <= i < |perm| ==> perm[i] < |s|
  {
    seq(|perm|, i requires 0 <= i < |perm| => s[perm[i]])
  }

  datatype Output = Images(X: seq<Image>) | Labelled(X: seq<Image>, y: seq<int>)

  /** What `to_nparray(dir, size, channels_first, labels, shuffle)` returns for the listed `files`. */
  function ToNpArraySpec(files: seq<Entry>, decode: string -> Option<Image>, channelsFirst: bool,
                         labels: Option<LabelMap>, shuffle: bool, perm: seq<nat>): Result<Output, LoadError>
    requires Decodes(decode)
    requires shuffle ==> IsPermutation(perm, |files|)
  {
    match Load(files, decode, channelsFirst)
    case Failure(e) => Failure(e)
    case Success(imgs) =>
      if imgs == [] then Failure(NothingToStack)
      else if !SameShape(imgs) then Failure(ShapeMismatch)
      else if labels.None? then
        if shuffle then Success(Images(Permute(imgs, perm)))
        else Success(Images(imgs))
      else
        var y := Labels(labels.value, files);
        if !shuffle then Success(Labelled(imgs, y))
        else if |y| != |imgs| then Failure(InconsistentLengths)
        else Success(Labelled(Permute(imgs, perm), Permute(y, perm)))
  }

  /** When every file has a label, the label list has one entry per file, in file order. */
  lemma {:induction false} LabelsAligned(labels: LabelMap, files: seq<Entry>)
    requires forall i :: 0 <= i < |files| ==> LabelOf(labels, files[i].name).Some?
    ensures |Labels(labels, files)| == |files|
    ensures forall i :: 0 <= i < |files| ==> Labels(labels, files)[i] == LabelOf(labels, files[i].name).value
    decreases |files|
  {
    if files != [] {
      var init, e := files[..|files| - 1], files[|files| - 1];
      assert forall i :: 0 <= i < |init| ==> init[i] == files[i];
      LabelsAligned(labels, init);
      assert Labels(labels, files) == Labels(labels, init) + [LabelOf(labels, e.name).value];
    }
  }

  /** A file without a label leaves the label list shorter than the file list. */
  lemma {:induction false} UnlabelledShortens(labels: LabelMap, files: seq<Entry>, k: nat)
    requires k < |files| && LabelOf(labels, files[k].name).None?
    ensures |Labels(labels, files)| < |files|
    decreases |files|
  {
    var init := files[..|files| - 1];
    if k < |init| {
      assert init[k] == files[k];
      UnlabelledShortens(labels, init, k);
    }
  }

  lemma PermuteAppend<T>(s: seq<T>, a: seq<nat>, b: seq<nat>)
    requires forall i :: 0 <= i < |a| ==> a[i] < |s|
    requires forall i :: 0 <= i < |b| ==> b[i] < |s|
    ensures Permute(s, a + b) == Permute(s, a) + Permute(s, b)
  {
  }

  /** Dropping position `k` drops one occurrence of its element. */
  lemma RemoveAt(q: seq<nat>, k: nat)
    requires k < |q|
    ensures multiset(q[..k] + q[k + 1..]) == multiset(q) - multiset{q[k]}
  {
    assert q == q[..k] + [q[k]] + q[k + 1..];
  }

  /** The elements picked by `q` are the one picked at position `k` and those picked by the rest of `q`. */
  lemma PermuteRemoveAt<T>(s: seq<T>, q: seq<nat>, k: nat)
    requires forall i :: 0 <= i < |q| ==> q[i] < |s|
    requires k < |q|
    ensures multiset(Permute(s, q)) == multiset{s[q[k]]} + multiset(Permute(s, q[..k] + q[k + 1..]))
  {
    var a, b := q[..k], q[k + 1..];
    assert q == a + [q[k]] + b;
    PermuteAppend(s, a + [q[k]], b);
    PermuteAppend(s, a, [q[k]]);
    PermuteAppend(s, a, b);
  }

  /** Index lists with the same elements obey the same bound. */
  lemma BoundsTransfer(p: seq<nat>, q: seq<nat>, n: nat)
    requires forall i :: 0 <= i < |p| ==> p[i] < n
    requires multiset(p) == multiset(q)
    ensures forall i :: 0 <= i < |q| ==> q[i] < n
  {
    forall i | 0 <= i < |q|
      ensures q[i] < n
    {
      assert q[i] in multiset(p);
    }
  }

  /** Taking the same element out of two lists with the same elements leaves lists with the same elements. */
  lemma RemainderSame(p: seq<nat>, q: seq<nat>, k: nat)
    requires multiset(p) == multiset(q)
    requires p != [] && k < |q| && q[k] == p[0]
    ensures multiset(p[1..]) == multiset(q[..k] + q[k + 1..])
  {
    var rest := q[..k] + q[k + 1..];
    calc {
      multiset(p[1..]);
      { assert p == [p[0]] + p[1..]; }
      multiset(p) - multiset{p[0]};
      multiset(q) - multiset{q[k]};
      { RemoveAt(q, k); }
      multiset(rest);
    }
  }

  /** Index lists with the same elements pick out the same elements. */
  lemma {:induction false} PermuteSameIndices<T>(s: seq<T>, p: seq<nat>, q: seq<nat>)
    requires forall i :: 0 <= i < |p| ==> p[i] < |s|
    requires multiset(p) == multiset(q)
    ensures forall i :: 0 <= i < |q| ==> q[i] < |s|
    ensures multiset(Permute(s, p)) == multiset(Permute(s, q))
    decreases |p|
  {
    BoundsTransfer(p, q, |s|);
    if p != [] {
      assert p[0] in multiset(q);
      var k :| 0 <= k < |q| && q[k] == p[0];
      RemainderSame(p, q, k);
      PermuteMatched(s, p, q, k);
    }
  }

  lemma TailBelow(p: seq<nat>, n: nat)
    requires p != [] && forall i :: 0 <= i < |p| ==> p[i] < n
    ensures forall i :: 0 <= i < |p[1..]| ==> p[1..][i] < n
  {
  }

  /** The inductive step: `p[0]` sits at position `k` of `q`, and what remains of both lists picks out the same elements. */
  lemma {:induction false} PermuteMatched<T>(s: seq<T>, p: seq<nat>, q: seq<nat>, k: nat)
    requires forall i :: 0 <= i < |p| ==> p[i] < |s|
    requires forall i :: 0 <= i < |q| ==> q[i] < |s|
    requires p != [] && k < |q| && q[k] == p[0]
    requires multiset(p[1..]) == multiset(q[..k] + q[k + 1..])
    ensures multiset(Permute(s, p)) == multiset(Permute(s, q))
    decreases |p|, 0
  {
    var tail, rest := p[1..], q[..k] + q[k + 1..];
    assert forall i :: 0 <= i < |tail| ==> tail[i] < |s| by {
      TailBelow(p, |s|);
    }
    var m := multiset(Permute(s, tail));
    assert m == multiset(Permute(s, rest)) by {
      PermuteSameIndices(s, tail, rest);
    }
    assert multiset(Permute(s, p)) == multiset{s[p[0]]} + m by {
      PermuteRemoveAt(s, p, 0);
      assert p[..0] + p[1..] == tail;
    }
    assert multiset(Permute(s, q)) == multiset{s[p[0]]} + m by {
      PermuteRemoveAt(s, q, k);
    }
  }

  /** Reindexing by a permutation rearranges `s` without adding or losing an element. */
  lemma PermuteMultiset<T>(s: seq<T>, perm: seq<nat>)
    requires IsPermutation(perm, |s|)
    ensures multiset(Permute(s, perm)) == multiset(s)
  {
    PermuteSameIndices(s, perm, Range(|s|));
    assert Permute(s, Range(|s|)) == s;
  }

  /** The pairs `(X[i], y[i])`. */
  function Pairs(X: seq<Image>, y: seq<int>): seq<(Image, int)>
    requires |X| == |y|
  {
    seq(|X|, i requires 0 <= i < |X| => (X[i], y[i]))
  }

  /** Without shuffling and with every file labelled, image `i` and label `i` both come from file `i`. */
  lemma AlignedBatch(files: seq<Entry>, decode: string -> Option<Image>, channelsFirst: bool, labels: LabelMap, perm: seq<nat>)
    requires Decodes(decode)
    requires ToNpArraySpec(files, decode, channelsFirst, Some(labels), false, perm).Success?
    requires forall i :: 0 <= i < |files| ==> LabelOf(labels, files[i].name).Some?
    ensures match ToNpArraySpec(files, decode, channelsFirst, Some(labels), false, perm).value
      case Images(_) => false
      case Labelled(X, y) =>
        && |X| == |y| == |files|
        && (forall i :: 0 <= i < |files| ==> Opens(files[i], decode) && X[i] == Prepare(decode(files[i].name).value, channelsFirst))
        && (forall i :: 0 <= i < |files| ==> y[i] == LabelOf(labels, files[i].name).value)
  {
    LoadSucceeds(files, decode, channelsFirst);
    LabelsAligned(labels, files);
  }

  /** Without shuffling, a file without a label leaves fewer labels than images. */
  lemma UnlabelledFileMisaligns(files: seq<Entry>, decode: string -> Option<Image>, channelsFirst: bool, labels: LabelMap, perm: seq<nat>, k: nat)
    requires Decodes(decode)
    requires ToNpArraySpec(files, decode, channelsFirst, Some(labels), false, perm).Success?
    requires k < |files| && LabelOf(labels, files[k].name).None?
    ensures ToNpArraySpec(files, decode, channelsFirst, Some(labels), false, perm).value.Labelled?
    ensures |ToNpArraySpec(files, decode, channelsFirst, Some(labels), false, perm).value.y|
          < |ToNpArraySpec(files, decode, channelsFirst, Some(labels), false, perm).value.X|
  {
    UnlabelledShortens(labels, files, k);
  }

  /** Shuffling with labels succeeds only when every file has a label, and then moves image and label together:
      position `i` holds the image and the label of file `perm[i]`, and the multiset of pairs is the unshuffled one. */
  lemma ShuffleKeepsPairs(files: seq<Entry>, decode: string -> Option<Image>, channelsFirst: bool, labels: LabelMap, perm: seq<nat>)
    requires Decodes(decode)
    requires IsPermutation(perm, |files|)
    requires ToNpArraySpec(files, decode, channelsFirst, Some(labels), true, perm).Success?
    ensures forall i :: 0 <= i < |files| ==> LabelOf(labels, files[i].name).Some?
    ensures forall i :: 0 <= i < |files| ==> Opens(files[i], decode)
    ensures match ToNpArraySpec(files, decode, channelsFirst, Some(labels), true, perm).value
      case Images(_) => false
      case Labelled(X', y') =>
        && |X'| == |y'| == |files|
        && (forall i :: 0 <= i < |files| ==> Opens(files[perm[i]], decode) && X'[i] == Prepare(decode(files[perm[i]].name).value, channelsFirst))
        && (forall i :: 0 <= i < |files| ==> y'[i] == LabelOf(labels, files[perm[i]].name).value)
        && match ToNpArraySpec(files, decode, channelsFirst, Some(labels), false, perm).value
           case Images(_) => false
           case Labelled(X, y) => |X| == |y| && multiset(Pairs(X', y')) == multiset(Pairs(X, y))
  {
    LoadSucceeds(files, decode, channelsFirst);
    forall k | 0 <= k < |files|
      ensures LabelOf(labels, files[k].name).Some?
    {
      if LabelOf(labels, files[k].name).None? {
        UnlabelledShortens(labels, files, k);
      }
    }
    LabelsAligned(labels, files);
    var X, y := Load(files, decode, channelsFirst).value, Labels(labels, files);
    var X', y' := Permute(X, perm), Permute(y, perm);
    assert Pairs(X', y') == Permute(Pairs(X, y), perm);
    PermuteMultiset(Pairs(X, y), perm);
  }

  /** With labels and shuffling, a file without a label makes `shuffle(X, y)` fail. */
  lemma ShuffleRejectsUnlabelled(files: seq<Entry>, decode: string -> Option<Image>, channelsFirst: bool, labels: LabelMap, perm: seq<nat>, k: nat)
    requires Decodes(decode)
    requires IsPermutation(perm, |files|)
    requires ToNpArraySpec(files, decode, channelsFirst, Some(labels), false, perm).Success?
    requires k < |files| && LabelOf(labels, files[k].name).None?
    ensures ToNpArraySpec(files, decode, channelsFirst, Some(labels), true, perm) == Failure(InconsistentLengths)
  {
    UnlabelledShortens(labels, files, k);
  }

  /** Shuffling images alone rearranges them without adding or losing one. */
  lemma ShuffleKeepsImages(files: seq<Entry>, decode: string -> Option<Image>, channelsFirst: bool, perm: seq<nat>)
    requires Decodes(decode)
    requires IsPermutation(perm, |files|)
    requires ToNpArraySpec(files, decode, channelsFirst, None, true, perm).Success?
    ensures match ToNpArraySpec(files, decode, channelsFirst, None, true, perm).value
      case Labelled(_, _) => false
      case Images(X') =>
        && |X'| == |files|
        && match ToNpArraySpec(files, decode, channelsFirst, None, false, perm).value
           case Labelled(_, _) => false
           case Images(X) => multiset(X') == multiset(X)
  {
    PermuteMultiset(Load(files, decode, channelsFirst).value, perm);
  }

  /** The batch is refused exactly when a file does not open, the directory lists nothing, or the arrays differ in shape;
      a file that does not open is reported as the first such file. */
  lemma BatchErrors(files: seq<Entry>, decode: string -> Option<Image>, channelsFirst: bool, labels: Option<LabelMap>, perm: seq<nat>)
    requires Decodes(decode)
    ensures ToNpArraySpec(files, decode, channelsFirst, labels, false, perm).Failure? <==>
      || (exists i :: 0 <= i < |files| && !Opens(files[i], decode))
      || files == []
      || !SameShape(seq(|files|, i requires 0 <= i < |files| && Opens(files[i], decode) => Prepare(decode(files[i].name).value, channelsFirst)))
    ensures ToNpArraySpec(files, decode, channelsFirst, labels, false, perm).Failure? ==>
      match ToNpArraySpec(files, decode, channelsFirst, labels, false, perm).error
      case NotAnImage(n) => exists i :: 0 <= i < |files| && !Opens(files[i], decode) && n == files[i].name &&
                                      forall j :: 0 <= j < i ==> Opens(files[j], decode)
      case NothingToStack => files == []
      case ShapeMismatch => files != []
      case InconsistentLengths => false
  {
    LoadSucceeds(files, decode, channelsFirst);
    if Load(files, decode, channelsFirst).Failure? {
      LoadFailsAtFirst(files, decode, channelsFirst);
    } else {
      assert Load(files, decode, channelsFirst).value ==
        seq(|files|, i requires 0 <= i < |files| && Opens(files[i], decode) => Prepare(decode(files[i].name).value, channelsFirst));
    }
  }

  /** The label search of the scan: the first key the name starts with. */
  method FindLabel(labels: LabelMap, name: string) returns (r: Option<int>)
    ensures r == LabelOf(labels, name)
  {
    var k := 0;
    while k < |labels| && !StartsWith(name, labels[k].0)
      invariant 0 <= k <= |labels|
      invariant LabelOf(labels[k..], name) == LabelOf(labels, name)
    {
      assert labels[k..][1..] == labels[k + 1..];
      k := k + 1;
    }
    if k < |labels| {
      r := Some(labels[k].1);
    } else {
      r := None;
    }
  }

  /** The scan loop of `to_nparray`: each file is labelled, then opened; the first file that cannot be opened ends the scan. */
  method LoadAll(files: seq<Entry>, decode: string -> Option<Image>, channelsFirst: bool, labels: Option<LabelMap>)
    returns (r: Result<seq<Image>, LoadError>, y: seq<int>)
    requires Decodes(decode)
    ensures r == Load(files, decode, channelsFirst)
    ensures r.Success? && labels.Some? ==> y == Labels(labels.value, files)
  {
    var imgs: seq<Image> := [];
    y := [];
    var j := 0;
    while j < |files|
      invariant 0 <= j <= |files|
      invariant Load(files[..j], decode, channelsFirst) == Success(imgs)
      invariant labels.Some? ==> y == Labels(labels.value, files[..j])
    {
      var e := files[j];
      if labels.Some? {
        var v := FindLabel(labels.value, e.name);
        if v.Some? {
          y := y + [v.value];
        }
        assert y == Labels(labels.value, files[..j + 1]) by {
          LabelsStep(labels.value, files, j);
        }
      }
      if e.Dir? || decode(e.name).None? {
        assert Load(files, decode, channelsFirst) == Failure(NotAnImage(e.name)) by {
          LoadStep(files, j, decode, channelsFirst);
          LoadFailureStays(files, j + 1, decode, channelsFirst);
        }
        return Failure(NotAnImage(e.name)), y;
      }
      var x := decode(e.name).value;
      if channelsFirst {
        x := ChannelsFirst(x);
      }
      assert Load(files[..j + 1], decode, channelsFirst) == Success(imgs + [x]) by {
        LoadStep(files, j, decode, channelsFirst);
      }
      imgs := imgs + [x];
      j := j + 1;
    }
    assert files[..|files|] == files;
    r := Success(imgs);
  }

  /** `to_nparray(dir, size, channels_first, labels, shuffle)` over the directory `dir` of `fs`. */
  method ToNpArray(fs: Tree, dir: Path, decode: string -> Option<Image>, channelsFirst: bool,
                   labels: Option<LabelMap>, shuffle: bool, perm: seq<nat>) returns (r: Result<Output, LoadError>)
    requires Decodes(decode)
    requires shuffle ==> IsPermutation(perm, |Visible(Listing(fs, dir))|)
    ensures r == ToNpArraySpec(Visible(Listing(fs, dir)), decode, channelsFirst, labels, shuffle, perm)
  {
    var files := Visible(Listing(fs, dir));
    var loaded, y := LoadAll(files, decode, channelsFirst, labels);
    if loaded.Failure? {
      return Failure(loaded.error);
    }
    var imgs := loaded.value;
    if imgs == [] {
      return Failure(NothingToStack);
    }
    if !SameShape(imgs) {
      return Failure(ShapeMismatch);
    }
    if labels.None? {
      if shuffle {
        return Success(Images(Permute(imgs, perm)));
      }
      return Success(Images(imgs));
    }
    if !shuffle {
      return Success(Labelled(imgs, y));
    }
    if |y| != |imgs| {
      return Failure(InconsistentLengths);
    }
    return Success(Labelled(Permute(imgs, perm), Permute(y, perm)));
  }
}
