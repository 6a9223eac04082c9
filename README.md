# Dataset-preparation utilities of the dog/cat classifier, in Dafny

This project models the file and data helpers that prepare the image dataset of a
Keras dog/cat classifier, and proves properties of that model.

From `utils.py` it models:
- `subdivide`, which sorts a flat image directory into one folder per class, optionally
  split into `train/` and `val/` by a random draw;
- `to_nparray`, which reads every image of a directory into one batch, labels each file
  by the first dictionary key its name starts with, optionally moves the channel axis
  first, and shuffles images and labels together;
- `one_hot_encoding`.

From `download_utils.py` it models:
- `time_format`, a six-character duration;
- `retri_fn_url`, the file name of a URL, through `urlparse` and `os.path.basename`;
- the per-URL loop of `down_fr_url`, which goes on after a failed URL.

Modules:
- `Wrappers`: `Option` and `Result`.
- `Text`: Python's `startswith`, `in`, `find`, `rfind`, `str(n)`, `zfill` and `rjust`.
- `TimeFormat`: `time_format`.
- `UrlName`: `urlsplit`, `urlparse`, `basename` and `retri_fn_url`.
- `Download`: `down_fr_url`.
- `OneHot`: `np.eye` and `one_hot_encoding`.
- `FileTree`: the filesystem as a map from directory path to its listing. Also covers
  `glob('*')`, `os.makedirs` and `shutil.move`.
- `Moves` and `MoveEffects`: a run of moves out of one directory and its effect.
- `Subdivide`: `subdivide`.
- `Batch`: `to_nparray`.

The functions written as expressions are Dafny functions: `time_format`, `retri_fn_url`
and `one_hot_encoding`. The loops are methods with invariants:
- the two loops of `subdivide`;
- the scan of `to_nparray`;
- the URL loop of `down_fr_url`.

Each method's postcondition ties its result to a specification function. The lemmas
beside that function state what the source promises.

Things that stand in for I/O or randomness:
- The filesystem is a value passed in and returned.
- The `k`-th `random.random()` is `draws(k)`.
- The permutation `sklearn.utils.shuffle` draws is a parameter `perm`.
- `Image.open`, `resize` and `np.array` are a function `decode` from file name to an
  optional pixel array.
- The outcomes of `urlretrieve` and of the zip extraction are two sequences of booleans,
  one entry per URL.

## Model

| member | source | states |
|---|---|---|
| OneHot.Eye | utils.py:29 | `np.eye(n)`: n rows of length n, 1 on the diagonal and 0 elsewhere |
| OneHot.EyeAt | utils.py:29 | `np.eye(n)[labels]` succeeds iff every label indexes a row (negative ones from the end); then row i is row `labels[i]` of the identity |
| OneHot.EncodeAsWritten | utils.py:27-29 | as written, an omitted `num_classes` always fails: at `np.max` when there are no labels, and otherwise at `np.eye(None)`, because the inferred count is stored in a misspelled variable |
| OneHot.Max | utils.py:28 | `np.max(labels)`: an element of the labels that no label exceeds |
| OneHot.Encode | utils.py:11-29 | documented behaviour: with a count it is the code as written, and with no count and no labels it fails |
| OneHot.OneHotRows | utils.py:29 | with `num_classes = n` and labels in `0..n-1`: one row per label, of length n, with 1 exactly at column `labels[i]` |
| OneHot.IdentityForAllClasses | utils.py:29 | labels `0..n-1` encode to the n×n identity |
| OneHot.InferredCount | utils.py:18-19 | without a count, non-negative labels encode as with count `max(labels)+1`, never fail, and give rows of that length |
| OneHot.CountIsLost | utils.py:27-29 | for every non-empty list of non-negative labels, the code as written fails where the documented behaviour succeeds |
| OneHot.ColumnOfOne | utils.py:29 | the column of a row's first 1, at most the row's length |
| OneHot.DecodeRoundTrip | utils.py:29 | reading back the column of each row's 1 gives the labels: the encoding loses nothing |
| Text.StartsWith | utils.py:68 | Python's `name.startswith(key)`: `key` is a prefix of the name |
| Text.Contains | utils.py:125 | Python's `n in basename`: an occurrence of `n` at some position of the name (see `ContainsIff`) |
| Text.ContainsIff | utils.py:125 | Python's `n in basename` holds iff `n` occurs at some position of the name |
| Text.IndexOf | download_utils.py:41 | first occurrence of a character: every earlier character differs |
| Text.LastIndexOf | download_utils.py:42 | last occurrence of a character: every later character differs |
| Text.Decimal | download_utils.py:47-60 | `str(n)`: at least one digit, one digit below 10, two digits from 10 to 99 |
| Text.ZFill | download_utils.py:47 | `s.zfill(w)`: `s` padded on the left with zeros (see `PadLeft`, `PadLeftParts`) |
| Text.RJust | download_utils.py:49-61 | `s.rjust(w)`: `s` padded on the left with spaces (see `PadLeft`, `PadLeftParts`) |
| Text.PadLeft | download_utils.py:47-61 | `zfill(w)` and `rjust(w)` pad to width w and never shorten |
| Text.PadLeftParts | download_utils.py:47-61 | padding keeps the string whole at the right end, with only the fill character before it |
| TimeFormat.Field | download_utils.py:47 | `'{}u'.format(n).zfill(3)` is n on two digits followed by the unit |
| TimeFormat.PaddedField | download_utils.py:47 | zero-padding `str(n)+unit` to 3 characters gives the two-digit form |
| TimeFormat.Format | download_utils.py:44-61 | `time_format(secs)` has exactly 6 characters for every integer |
| TimeFormat.SecondsOnly | download_utils.py:47-49 | below 60 seconds (negatives included): three spaces, `secs % 60` on two digits, `s` |
| TimeFormat.MinutesSeconds | download_utils.py:50-53 | from 60 to 3599: two-digit minutes, `'`, two-digit seconds, `s` |
| TimeFormat.HoursMinutes | download_utils.py:54-57 | from 1 to 23 hours: two-digit hours, `h`, two-digit minutes, `'`; the seconds are dropped |
| TimeFormat.HoursOfSeconds | download_utils.py:50-54 | dividing by 60 twice equals dividing by 3600 |
| TimeFormat.DaysHours | download_utils.py:58-61 | from 24 to 48 whole hours: a space, the day count (1 or 2), `d`, two-digit remaining hours, `h` |
| TimeFormat.Unknown | download_utils.py:58-59 | beyond 48 whole hours the literal `uknown` |
| TimeFormat.SecondsField | download_utils.py:47-53 | below an hour the last three characters are the seconds field |
| TimeFormat.BelowAnHourReadsBack | download_utils.py:47-53 | below an hour the minutes and seconds read back from the text give `secs` |
| TimeFormat.FieldsReadBack | download_utils.py:47-53 | the text `mm'sss` reads back as `60*mm + ss` |
| TimeFormat.ReadTwoDigits | download_utils.py:47 | reading back the two-digit field of n gives n |
| UrlName.Lower | download_utils.py:41 | scheme lower-casing keeps the length |
| UrlName.HasScheme | download_utils.py:41 | the text before the first `:` is a scheme: non-empty, starting with an ASCII letter, all scheme characters |
| UrlName.SplitScheme | download_utils.py:41 | the lower-cased scheme and the text after its `:`, or no scheme and the whole URL (see `SchemeSplit`) |
| UrlName.SplitAuthority | download_utils.py:41 | after a leading `//`, the authority up to the first `/`, `?` or `#`, and the rest (see `AuthoritySplit`) |
| UrlName.After | download_utils.py:41 | the text after the first `c`, or nothing when there is none: the query and the fragment |
| UrlName.AuthorityEnd | download_utils.py:41 | the authority ends at the first `/`, `?` or `#`, or at the end |
| UrlName.Before | download_utils.py:41 | the text before the first `c` is a prefix without `c` |
| UrlName.UrlSplit | download_utils.py:41 | the path `urlsplit` returns never holds `?` or `#` |
| UrlName.StripParams | download_utils.py:41 | stripping `;params` leaves a prefix of the path |
| UrlName.UrlParse | download_utils.py:41 | the path `urlparse` returns never holds `?` or `#` |
| UrlName.Basename | download_utils.py:42 | `os.path.basename` never holds `/` |
| UrlName.LastSegment | download_utils.py:42 | the basename is the path's suffix after its last `/`, or the whole path |
| UrlName.FileName | download_utils.py:30-42 | `retri_fn_url` never holds `/` |
| UrlName.NoQueryOrFragment | download_utils.py:41-42 | the file name never holds the `?` of a query or the `#` of a fragment |
| UrlName.StrippedSegment | download_utils.py:41 | once params are split off, the last segment holds no `;` |
| UrlName.ParamsDropped | download_utils.py:41-42 | for a scheme that uses params, the file name holds no `;` (its value is pinned by `ParamsUrl`) |
| UrlName.PlainName | download_utils.py:41-42 | a name without `:`, `/`, `;`, `?`, `#` is its own file name |
| UrlName.BasenameAfterSlash | download_utils.py:42 | the basename of `d/n` is `n` when `n` holds no `/` |
| UrlName.SchemeSplit | download_utils.py:41 | a scheme followed by `:` is split off, lower-cased, and the rest is kept whole |
| UrlName.AuthoritySplit | download_utils.py:41 | after `//`, an authority without `/?#` is split off up to the delimiter that follows it |
| UrlName.PathCut | download_utils.py:41 | cutting `path + query + fragment` at `#` and then at `?` leaves the path |
| UrlName.HierarchicalSplit | download_utils.py:41 | `urlsplit` of `scheme://authority/path?query#fragment` gives the lower-cased scheme and the path whole |
| UrlName.HierarchicalUrl | download_utils.py:41-42 | for every URL shaped `scheme://authority/path?query#fragment` (query and fragment optional, no `;` in the path), the file name is the last segment of the path |
| UrlName.ParamsStripped | download_utils.py:41 | `_splitparams` of `dir/name;params` cuts the last segment at its `;`, leaving `dir/name` |
| UrlName.ParsedPath | download_utils.py:41 | `urlparse` splits the `;params` off the path exactly when the scheme is in `uses_params` |
| UrlName.ParamsUrl | download_utils.py:41-42 | for every URL shaped `scheme://authority/dir/name;params?query#fragment`, the file name is `name` when the scheme is in `uses_params` and `name;params` otherwise |
| UrlName.DropboxLink | download_utils.py:88 | the link in the source's own example gives `checkpoint-3.pth.tar` |
| UrlName.BareWord | download_utils.py:86-87 | `retri_fn_url('funny') == 'funny'` |
| UrlName.IndexOfKept | download_utils.py:41 | appending text does not move a `:` already present |
| UrlName.SchemeAppend | download_utils.py:41 | a tail starting with a non-scheme character only extends what follows the scheme |
| UrlName.AuthorityEndAppend | download_utils.py:41 | a tail starting with a delimiter does not move the end of the authority |
| UrlName.AuthorityAppend | download_utils.py:41 | a tail starting with `?` or `#` only extends what follows the authority |
| UrlName.RestIsPartOfUrl | download_utils.py:41 | what follows the scheme and the authority holds no character the URL lacks |
| UrlName.PathOfSplit | download_utils.py:41 | proof step, unfolding the definition: the path is what follows the authority, cut at the first `#` and then at the first `?` |
| UrlName.SameSchemeAndPath | download_utils.py:41-42 | proof step, unfolding the definition: the file name depends on the URL only through its scheme and path |
| UrlName.QueryCut | download_utils.py:41 | cutting at `#` then `?` removes a query and any fragment after it |
| UrlName.QueryIgnored | download_utils.py:41-42 | `retri_fn_url(u + '?' + q) == retri_fn_url(u)` |
| UrlName.FragmentKeepsSplit | download_utils.py:41 | appending `#fragment` to a URL without `#` changes neither the scheme nor the path `urlsplit` returns |
| UrlName.FragmentIgnored | download_utils.py:41-42 | `retri_fn_url(u + '#' + f) == retri_fn_url(u)` |
| Download.JoinPath | download_utils.py:68 | `os.path.join(a, b)` is `b` when `b` is absolute |
| Download.Ending | download_utils.py:66-81 | one URL's `try`: `DownloadFailed` iff the transfer failed; extraction only when `unzip` is set and the transfer worked, into `.`; `ExtractFailed` when the archive does not open or extract; `Saved` only without `unzip` |
| Download.SavePath | download_utils.py:67-68 | `os.path.join(save_dir, retri_fn_url(url))` (see `SavePathEndsInFileName`) |
| Download.Report | download_utils.py:64-82 | one attempt per URL |
| Download.DownloadAll | download_utils.py:64-82 | the loop attempts every URL, in order, each in its own `try`, and yields the report |
| Download.SavePathEndsInFileName | download_utils.py:67-68 | the basename of the save path is the URL's file name |
| Download.JoinThenBasename | download_utils.py:68 | `basename(join(d, n)) == n` for a name without `/` |
| Download.ReportEntries | download_utils.py:64-81 | entry i is URL i, saved under its file name; it failed iff its transfer failed; it was extracted iff `unzip`, transfer and extraction all worked |
| Download.FailureIsContained | download_utils.py:65-81 | the attempt for URL j does not depend on what happened to the URLs before it |
| FileTree.Visible | utils.py:63 | `glob('*')` lists every entry but the hidden ones, each at most as often as the directory does |
| FileTree.FileNames | utils.py:120 | the file names of a listing are no more than its entries |
| FileTree.FileNamesAppend | utils.py:120 | file names of a concatenation are the concatenation of file names |
| FileTree.MoveFile | utils.py:128-132 | `shutil.move(join(src, name), dest)`: the file leaves `src` and is listed last in `dest` (see `MoveFileEffect`) |
| FileTree.MakeDirs | utils.py:112 | `os.makedirs(p)` makes `p` exist |
| FileTree.MakeDirsKeepsDirs | utils.py:112 | `makedirs` keeps every directory with its entries in order |
| FileTree.MakeDirsKeepsFiles | utils.py:112 | `makedirs` changes no directory's files |
| FileTree.RemoveFirst | utils.py:128-132 | dropping one entry from a listing never lengthens it |
| FileTree.RemoveFirstCount | utils.py:128-132 | `shutil.move` takes exactly one occurrence of the entry out of its source listing |
| FileTree.FilesWithoutOne | utils.py:128-132 | removing a file entry removes one occurrence of its name |
| FileTree.MoveFileEffect | utils.py:128-132 | a move changes only the source (one name less) and the destination (the name listed last) |
| FileTree.MoveFileSource | utils.py:128-132 | the source directory loses one entry for the file |
| FileTree.MoveFileElsewhere | utils.py:128-132 | every other directory keeps its listing, the destination with the file appended, and none disappears |
| FileTree.SumShift | utils.py:128-132 | one name going from one place to another keeps each name's count over a list of places |
| FileTree.MoveKeepsTally | utils.py:128-132 | a move between two listed directories keeps the multiset of file names they hold |
| FileTree.TallySame | utils.py:104-117 | trees whose directories hold the same files hold the same files in total |
| Moves.ApplyMoves | utils.py:119-133 | the `shutil.move` calls of the scan, one after another, all out of the scanned directory (see `MoveEffects.ApplyMovesSource`, `MoveEffects.ApplyMovesDest`) |
| Moves.MovedAppend | utils.py:119-133 | the entries moved by two runs of moves are those of each, in order |
| Moves.ApplyMovesLast | utils.py:119-133 | proof step, unfolding the definition: a run of moves is its prefix followed by its last move |
| Moves.ApplyMovesStep | utils.py:119-133 | proof step, unfolding the definition: one more move is applied after the others |
| Moves.ApplyMovesConcat | utils.py:119-133 | applying two runs of moves is applying one after the other |
| MoveEffects.MovedInit | utils.py:119-133 | proof step, unfolding the definition: the files moved by a run are those of its prefix and its last move |
| MoveEffects.ApplyMovesSource | utils.py:119-133 | the source keeps its old entries less the moved ones |
| MoveEffects.ApplyMovesDest | utils.py:119-133 | each other directory gets the files moved into it appended, in order |
| MoveEffects.ApplyMovesKeys | utils.py:119-133 | no move removes a directory |
| MoveEffects.ApplyMovesTally | utils.py:119-133 | moves into listed directories keep the multiset of file names over the list |
| Subdivide.FirstMatch | utils.py:124-125 | the class of a name is the first class that occurs in it; no earlier class occurs; none occurs when there is no match |
| Subdivide.TargetDirs | utils.py:104-117 | every directory made is a non-empty path |
| Subdivide.Destination | utils.py:126-132 | `save/c`, or `save/train/c` when the draw is below the ratio and `save/val/c` otherwise (see `PlanRoutes`) |
| Subdivide.Route | utils.py:120-133 | a directory or an unmatched file is not moved; a matched file moves once, to its first class's directory (see `MoveEntry`) |
| Subdivide.Plan | utils.py:119-133 | the moves of the scan in listing order, each matched file using the next draw (see `PlanMovesClaimed`, `PlanRoutes`) |
| Subdivide.EnsureDir | utils.py:111-112 | `if not os.path.exists(p): os.makedirs(p)` (see `EnsureDirKeeps`) |
| Subdivide.PrepareClass | utils.py:108-117 | one class's directories, `train` before `val` when splitting (see `PrepareClassKeeps`) |
| Subdivide.Prepare | utils.py:104-117 | the directory-creation loop, class by class (see `PrepareMakesTargets`, `PrepareIdempotent`) |
| Subdivide.Subdivided | utils.py:104-133 | the filesystem after a call whose ratio check passed: directories made, then the scan's moves (see `FilesConserved`, `SecondRunChangesNothing`) |
| Subdivide.PlanStep | utils.py:119-133 | proof step, unfolding the definition: one more listed entry appends its own route to the moves |
| Subdivide.FindClass | utils.py:124-133 | the class search finds the index of the first matching class, or none |
| Subdivide.MakeClassDir | utils.py:108-117 | one class's directories are made only when missing, `train` before `val` |
| Subdivide.MakeClassDirs | utils.py:104-117 | the first loop yields the prepared tree |
| Subdivide.MoveEntry | utils.py:120-133 | one entry is moved at most once: exactly when it is a file whose name holds a class |
| Subdivide.MoveNext | utils.py:119-133 | one turn of the move loop extends the moves made and the draws used by the next entry's route |
| Subdivide.MoveMatched | utils.py:119-133 | the move loop yields the tree after the planned moves |
| Subdivide.Run | utils.py:89-133 | the ratio check fails iff splitting with a ratio outside (0, 1); else directories are made, then the visible listing is scanned; `save_dir` defaults to `dir` |
| Subdivide.Matched | utils.py:120-125 | the claimed files of a listing, each as often as listed |
| Subdivide.VisibleCount | utils.py:119 | a hidden entry is never scanned; any other entry is scanned as often as listed |
| Subdivide.PlanMovesClaimed | utils.py:119-133 | the scan moves exactly the claimed files, once each, in listing order |
| Subdivide.PlanRoutes | utils.py:124-132 | move i takes its file to the directory of the first matching class; when splitting it uses draw i, going to `train` iff the draw is below the ratio |
| Subdivide.ClassDirsInTargets | utils.py:104-117 | a class's directories are among those made |
| Subdivide.DestinationIsTarget | utils.py:126-132 | every destination is one of the directories made first |
| Subdivide.ScanTargets | utils.py:119-133 | every move of the scan goes into a directory made first |
| Subdivide.EnsureDirKeeps | utils.py:111-112 | `if not exists: makedirs` makes the directory and keeps everything else |
| Subdivide.PrepareClassKeeps | utils.py:108-117 | one class's pass makes its directories and keeps everything else |
| Subdivide.PrepareKeeps | utils.py:104-117 | the first loop keeps every directory, its entries and its files |
| Subdivide.PrepareMakesTargets | utils.py:104-117 | after the first loop every class directory exists |
| Subdivide.PrepareExisting | utils.py:111-116 | existing directories are left alone |
| Subdivide.PrepareIdempotent | utils.py:104-117 | running the first loop twice is running it once |
| Subdivide.ScanFromListing | utils.py:119-133 | the scan moves only listed entries, each at most as often as listed |
| Subdivide.TargetsExist | utils.py:104-133 | after the call every class directory exists |
| Subdivide.SourceKeepsRest | utils.py:119-133 | every visible claimed file leaves `dir`; directories, unmatched and hidden entries stay |
| Subdivide.Arrivals | utils.py:119-133 | another directory ends with its old entries followed by the files moved into it, in scan order |
| Subdivide.FilesConserved | utils.py:119-133 | over the source and all class directories, the multiset of file names is unchanged |
| Subdivide.PlanOfUnclaimed | utils.py:119-133 | a listing with no claimed file produces no move |
| Subdivide.SecondRunChangesNothing | utils.py:89-133 | calling `subdivide` again with the same arguments changes nothing |
| Batch.ChannelsFirst | utils.py:74-75 | `(h, w, c)` becomes `(c, h, w)` with `out[k][i][j] == in[i][j][k]` |
| Batch.ChannelsLast | utils.py:74-75 | the inverse transpose gives shape `(h, w, c)` back |
| Batch.ChannelsRoundTrip | utils.py:74-75 | transposing to channels-first and back gives the image back |
| Batch.LabelOf | utils.py:66-70 | the label of a file name: the value of the first key, in dictionary order, the name starts with (see `LabelOfFirstKey`) |
| Batch.LabelOfFirstKey | utils.py:66-70 | a name has a label iff it starts with some key, and the label is the value of the first such key in dictionary order |
| Batch.FindLabel | utils.py:67-70 | the key loop finds that label |
| Batch.Labels | utils.py:66-70 | the label list is no longer than the file list |
| Batch.Load | utils.py:63-76 | a successful scan has one array per file |
| Batch.LoadSucceeds | utils.py:63-76 | the scan succeeds iff every entry opens, and array i is file i decoded and transposed as asked |
| Batch.LoadFailsAtFirst | utils.py:71 | a failed scan reports the first entry that does not open |
| Batch.LoadStep | utils.py:63-76 | proof step, unfolding the definition: one more file extends the images or ends the scan with its error |
| Batch.LoadFailureStays | utils.py:63-76 | a failure stops the scan |
| Batch.LabelsStep | utils.py:66-70 | proof step, unfolding the definition: one more file adds its label when it has one |
| Batch.Range | utils.py:82 | the identity arrangement `0..n-1` |
| Batch.ToNpArraySpec | utils.py:58-86 | the result of `to_nparray`: the first file that does not open, an empty listing or mismatched shapes fail; otherwise the images, or images and labels, shuffled together by `perm` when asked, and a labelled shuffle fails on inconsistent lengths (see `BatchErrors`, `ShuffleKeepsPairs`) |
| Batch.LabelsAligned | utils.py:58-76 | when every file has a label, the label list has one entry per file and entry i is file i's label |
| Batch.UnlabelledShortens | utils.py:66-70 | an unlabelled file leaves fewer labels than files |
| Batch.PermuteMultiset | utils.py:82-85 | reindexing by a permutation neither adds nor loses an element |
| Batch.AlignedBatch | utils.py:58-83 | without shuffling and with every file labelled, image i and label i both come from file i |
| Batch.UnlabelledFileMisaligns | utils.py:58-83 | without shuffling, an unlabelled file still contributes an image but no label |
| Batch.ShuffleKeepsPairs | utils.py:79-83 | a labelled shuffle succeeds only when every file is labelled; it applies one permutation to X and y, so the multiset of (image, label) pairs is kept |
| Batch.ShuffleRejectsUnlabelled | utils.py:80-82 | with an unlabelled file, `shuffle(X, y)` fails on inconsistent lengths |
| Batch.ShuffleKeepsImages | utils.py:84-85 | shuffling images alone rearranges them without adding or losing one |
| Batch.BatchErrors | utils.py:63-79 | the batch is refused iff a file does not open, nothing is listed, or shapes differ; the error names the first cause |
| Batch.LoadAll | utils.py:58-76 | the scan loop labels each file before opening it, and yields the images (or the first error) and the label list |
| Batch.ToNpArray | utils.py:32-86 | `to_nparray` over the visible listing of `dir` gives the specified result: the images, or images and labels, stacked and shuffled as asked, or the error |

## Left out

- Network and archive I/O: `urlretrieve`, `zipfile` and `urlopen` are not modelled.
  The outcomes of the transfer and of the extraction are boolean inputs, one per URL.
- `retri_file_size` (download_utils.py:23-27) is not modelled. It is only a network
  query, and nothing else in the core calls it.
- `error_handle` is left out, along with every `print`, the `verbose` flags and the
  unused matplotlib import. They only write to the console.
- `UrlName.UrlSplit` does not model three steps of `urlsplit`, one cleaning step and two
  checks:
  - stripping of leading control characters and spaces, and removal of every tab (`\t`),
    carriage return (`\r`) and newline (`\n`) anywhere in the URL. For URLs that hold
    such characters, the model's path keeps them;
  - validation of IPv6 brackets in the authority. The model never raises on it;
  - `_checknetloc`, which NFKC-normalises a non-ASCII authority and raises `ValueError`
    when the normalised text holds a `/`, `?`, `#`, `@` or `:` the original did not.
    The model never raises on it either.
- `Text.ZFill` handles only strings that do not begin with a sign. Every field
  `time_format` pads starts with a digit.
- `Batch.Load`: the decoding, resizing and conversion to an array (`Image.open`,
  `resize`, `np.array`) are the function `decode`. The resize is inside it, so decoded
  sizes are free.
- `Batch.Load`: two-dimensional (grayscale) arrays are left out. Every decoded image is
  a regular height × width × channel array, which the `channels_first` transpose
  requires.
- `Batch.ToNpArraySpec`: the `isinstance` assertion on `labels` (utils.py:60) is not
  modelled. The type of the Dafny parameter already rules out the values it rejects.
- `Subdivide.Run`: the `isinstance` assertion on `save_dir` (utils.py:102) is not
  modelled, for the same reason.
- `Batch.ToNpArraySpec`: `sklearn.utils.shuffle` draws its permutation at random. Here
  the permutation is a parameter.
- `Subdivide.Run`: `random.seed(None)` and `random.random()` are left out. The
  sequence of draws is a parameter.
- `Subdivide.Run`: a matched file whose name already exists in its destination directory
  is not modelled. This includes a file moved into the directory it already sits in,
  when `dir` is one of the class directories. There `shutil.move` (utils.py:128-132)
  raises `shutil.Error`, and the rest of the scan is abandoned. The model instead
  appends a second entry with the same name to the destination's listing.
  `FilesConserved`, `SourceKeepsRest` and `SecondRunChangesNothing` therefore require
  that `dir` is not one of the class directories.
- `Subdivide.Run`: class names that contain `/` are not modelled. Paths are sequences of
  components, so such a name is one component rather than several.
- `Subdivide.Run`: the class names `""`, `.` and `..` are not modelled. The model takes
  every class name as a fresh path component. `os.path.join` does not. `save_dir/` and
  `save_dir/.` are `save_dir` itself, and `save_dir/..` is its parent. For example,
  `subdivide('d', [''])` on a directory holding `a.jpg` makes nothing, because `d/`
  exists (utils.py:115-117). Then `shutil.move('d/a.jpg', 'd/')` (utils.py:132) raises
  `shutil.Error`, since `d/a.jpg` is already there. The model makes a new directory
  `d` + `""` and moves `a.jpg` into it. `FilesConserved` and `SecondRunChangesNothing`
  still apply to that result, because `dir` differs from that new directory.
- `Subdivide.EnsureDir`: a plain file that already sits at a class directory's path is
  not modelled. In the source, `os.path.exists` is true for that file, so `makedirs` is
  skipped. `shutil.move` then renames a matched file onto that path, which on POSIX
  silently replaces the existing file. The model only tests for a directory, so it
  makes one there.
- `FileTree.MakeDirs` and `Subdivide.EnsureDir`: a plain file at an ancestor of a class
  directory is not modelled. Examples are a file at `save_dir/train` or `save_dir/val`
  when splitting, or a file at a component of `save_dir`. In the source,
  `os.path.exists` of the class path is false, so `os.makedirs` runs (utils.py:111-117).
  It fails with `NotADirectoryError`, and `subdivide` stops before any move. The model
  tests only whether the path is a directory. It adds a directory of that name beside
  the file in the parent's listing, and then moves files into it.
- `Batch.ToNpArray` and `Subdivide.Run`: `dir` is taken to hold no glob metacharacters.
  `glob.glob(os.path.join(dir, '*'))` (utils.py:63, utils.py:119) treats a `*`, `?` or
  `[` in `dir` as a pattern. For example, `dir = 'photos[1]'` lists `photos1`. The
  model lists the directory with that literal name.
- `FileTree.MakeDirs` and `FileTree.MoveFile`: an entry they create is listed last in
  its directory. A real filesystem leaves the order that `glob` returns undefined. The
  entries already present keep the order the directory gives them. `Arrivals`' "in scan
  order" holds under this convention.

## Findings

| source | as written | input that shows it | evidently intended | confidence | as-written member | corrected member |
|---|---|---|---|---|---|---|
| utils.py:27-29 | the inferred count `np.max(labels) + 1` is assigned to `num_clases`, and `np.eye(num_classes)` is then called with `None` | `one_hot_encoding([0, 1])` calls `np.eye(None)`, which raises (`one_hot_encoding([])` fails earlier, at `np.max`) | with `num_classes` omitted, use `max(labels) + 1` classes, as the docstring at utils.py:18-19 states | high; not executed | OneHot.EncodeAsWritten, OneHot.CountIsLost | OneHot.Encode, OneHot.InferredCount |
