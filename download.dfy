/**
  `down_fr_url` of download_utils.py: every URL of the list is attempted in
  order, each inside its own try/except, so one URL's failure is reported and
  the loop goes on. The network transfer (`urlretrieve`) and the archive
  extraction (`zipfile`) are not modelled; their outcome for the i-th URL is
  given by the caller as two booleans.
 */
module Download {
  import opened Text
  import opened UrlName

  /** The directory `extractall('.')` writes into: the working directory, whatever `save_dir` is. */
  const ExtractDir: string := "."

  /** `os.path.join(a, b)` on POSIX. */
  function JoinPath(a: string, b: string): (r: string)
    ensures |b| > 0 && b[0] == '/' ==> r == b
  {
    if |b| > 0 && b[0] == '/' then b
    else if a == "" || a[|a| - 1] == '/' then a + b
    else a + "/" + b
  }

  /** How one attempt ended. */
  datatype Outcome =
    | DownloadFailed                     // `urlretrieve` raised; nothing saved
    | Saved                              // saved, no extraction asked for
    | Extracted(into: string)            // saved and extracted
    | ExtractFailed                      // saved, but opening or extracting the archive raised

  /** One line of the report: the URL, the path it is saved to, and how it ended. */
  datatype Attempt = Attempt(url: string, savePath: string, outcome: Outcome)

  /** `os.path.join(save_dir, retri_fn_url(url))` */
  function SavePath(saveDir: string, url: string): string {
    JoinPath(saveDir, FileName(url))
  }

  /** How the body of the `try` for one URL ends, with `fetched` and `unpacked` standing for the outcome of the transfer and of the extraction. */
  function Ending(unzip: bool, fetched: bool, unpacked: bool): (o: Outcome)
    ensures o.Extracted? ==> unzip && fetched && o.into == ExtractDir
    ensures o.ExtractFailed? ==> unzip && fetched
    ensures unzip && fetched ==> (o == ExtractFailed <==> !unpacked)
    ensures o == Saved ==> !unzip && fetched
    ensures o == DownloadFailed <==> !fetched
  {
    if !fetched then DownloadFailed
    else if !unzip then Saved
    else if unpacked then Extracted(ExtractDir)
    else ExtractFailed
  }

  /** The report of `down_fr_url(urls, save_dir, unzip)`: one attempt per URL, in list order, saved under its own file name. */
  function Report(urls: seq<string>, saveDir: string, unzip: bool, fetched: seq<bool>, unpacked: seq<bool>): (r: seq<Attempt>)
    requires |fetched| == |urls| && |unpacked| == |urls|
    ensures |r| == |urls|
  {
    seq(|urls|, i requires 0 <= i < |urls| => Attempt(urls[i], SavePath(saveDir, urls[i]), Ending(unzip, fetched[i], unpacked[i])))
  }

  lemma PrefixStep<T>(s: seq<T>, i: nat)
    requires i < |s|
    ensures s[..i + 1] == s[..i] + [s[i]]
  {
  }

  lemma PrefixWhole<T>(s: seq<T>)
    ensures s[..|s|] == s
  {
  }

  /** `down_fr_url(urls, save_dir, unzip)`: every URL is attempted, in list order, inside its own `try`. */
  method DownloadAll(urls: seq<string>, saveDir: string, unzip: bool, fetched: seq<bool>, unpacked: seq<bool>)
    returns (report: seq<Attempt>)
    requires |fetched| == |urls| && |unpacked| == |urls|
    ensures report == Report(urls, saveDir, unzip, fetched, unpacked)
  {
    report := [];
    var i := 0;
    while i < |urls|
      invariant 0 <= i <= |urls|
      invariant report == Report(urls, saveDir, unzip, fetched, unpacked)[..i]
    {
      var path := SavePath(saveDir, urls[i]);
      var attempt := Attempt(urls[i], path, Ending(unzip, fetched[i], unpacked[i]));
      assert attempt == Report(urls, saveDir, unzip, fetched, unpacked)[i];
      PrefixStep(Report(urls, saveDir, unzip, fetched, unpacked), i);
      report := report + [attempt];
      i := i + 1;
    }
    PrefixWhole(Report(urls, saveDir, unzip, fetched, unpacked));
  }

  /** The saved file's name is the URL's file name: joining and taking the basename again gives it back. */
  lemma SavePathEndsInFileName(url: string, saveDir: string)
    ensures Basename(SavePath(saveDir, url)) == FileName(url)
  {
    JoinThenBasename(saveDir, FileName(url));
  }

  /** `basename(join(d, n)) == n` for a name without `/`. */
  lemma JoinThenBasename(d: string, n: string)
    requires '/' !in n
    ensures Basename(JoinPath(d, n)) == n
  {
    var prefix := if d == "" || d[|d| - 1] == '/' then d else d + "/";
    assert n == [] || n[0] != '/';
    assert JoinPath(d, n) == prefix + n;
    LastIndexOfAppend(prefix, n, '/');
    assert LastIndexOf(prefix, '/') == |prefix| - 1;
    assert (prefix + n)[|prefix|..] == n;
  }

  /** Each line of the report: the URL, a save path whose basename is the URL's file name, and the outcome of its own transfer and extraction. */
  lemma ReportEntries(urls: seq<string>, saveDir: string, unzip: bool, fetched: seq<bool>, unpacked: seq<bool>, i: nat)
    requires |fetched| == |urls| && |unpacked| == |urls| && i < |urls|
    ensures Report(urls, saveDir, unzip, fetched, unpacked)[i].url == urls[i]
    ensures Basename(Report(urls, saveDir, unzip, fetched, unpacked)[i].savePath) == FileName(urls[i])
    ensures Report(urls, saveDir, unzip, fetched, unpacked)[i].outcome == DownloadFailed <==> !fetched[i]
    ensures Report(urls, saveDir, unzip, fetched, unpacked)[i].outcome.Extracted? <==> unzip && fetched[i] && unpacked[i]
  {
    SavePathEndsInFileName(urls[i], saveDir);
  }

  /** One URL failing does not stop the others: the attempt for URL `j` is the one it would get if the list began with it, whatever happened before. */
  lemma FailureIsContained(urls: seq<string>, saveDir: string, unzip: bool, fetched: seq<bool>, unpacked: seq<bool>, j: nat)
    requires |fetched| == |urls| && |unpacked| == |urls| && j < |urls|
    ensures Report(urls, saveDir, unzip, fetched, unpacked)[j] == Report(urls[j..], saveDir, unzip, fetched[j..], unpacked[j..])[0]
  {
  }
}
