/** `GetImages` in `controllers/images/service.go`: discovery, then the
    download directory, then the download, stopping at the first error. The
    folder name (the UTC time of the call) is a parameter. */
module Pipeline {
  import opened Basics
  import opened Browser
  import opened Failures
  import opened Storage
  import opened Discovery
  import opened Download

  const DownloadsRoot := "downloads"

  function SaveDirectory(stamp: string): string {
    DownloadsRoot + "/" + stamp
  }

  /** `GetImages(ammount)`: the directory is created only after discovery
      succeeded, and the download runs only once the directory exists. */
  method GetImages(site: string, pages: seq<PageLoad>, tab: Tab, fs: FileSystem, amount: int, stamp: string)
    returns (err: Option<ScrapeError>)
    modifies fs
    ensures Discovered(site, pages, amount).Fail? ==>
              err == Some(Discovered(site, pages, amount).error)
              && fs.dirs == old(fs.dirs) && fs.files == old(fs.files)
    ensures Discovered(site, pages, amount).Ok? && !MkdirSucceeds(old(fs.dirs), old(fs.files), stamp) ==>
              err == Some(MkdirError(SaveDirectory(stamp)))
              && fs.dirs == old(fs.dirs) && fs.files == old(fs.files)
    ensures Discovered(site, pages, amount).Ok? && MkdirSucceeds(old(fs.dirs), old(fs.files), stamp) ==>
              var run := DownloadRun(tab, Discovered(site, pages, amount).value, SaveDirectory(stamp), true);
              && err == run.failure
              && fs.dirs == old(fs.dirs) + {SaveDirectory(stamp)}
              && fs.files == old(fs.files) + Written(SaveDirectory(stamp), run.bodies)
  {
    var imageUrls, visited := GetImagesUrls(site, pages, amount);
    if imageUrls.Fail? {
      return Some(imageUrls.error);
    }
    var ok := fs.Mkdir(DownloadsRoot, stamp);
    if !ok {
      return Some(MkdirError(SaveDirectory(stamp)));
    }
    err := DownloadImages(tab, imageUrls.value, SaveDirectory(stamp), fs);
  }

  /** When `os.Mkdir` succeeds for the save directory. */
  predicate MkdirSucceeds(dirs: set<string>, files: map<string, Bytes>, stamp: string) {
    DownloadsRoot in dirs && SaveDirectory(stamp) !in dirs && SaveDirectory(stamp) !in files
  }

  /** A fully successful run requesting `amount` images writes exactly the
      files `1.jpg` .. `amount.jpg` into the new directory, the k-th holding
      the body fetched for the k-th discovered address. */
  lemma SuccessWritesAmountFiles(site: string, pages: seq<PageLoad>, tab: Tab, amount: int, stamp: string)
    requires Discovered(site, pages, amount).Ok?
    requires DownloadRun(tab, Discovered(site, pages, amount).value, SaveDirectory(stamp), true).failure.None?
    ensures var run := DownloadRun(tab, Discovered(site, pages, amount).value, SaveDirectory(stamp), true);
            var files := Written(SaveDirectory(stamp), run.bodies);
      && |run.bodies| == Max0(amount)
      && (forall k :: 1 <= k <= Max0(amount) ==>
            FilePath(SaveDirectory(stamp), k) in files && files[FilePath(SaveDirectory(stamp), k)] == run.bodies[k - 1])
      && (forall f :: f in files ==> exists k :: 1 <= k <= Max0(amount) && f == FilePath(SaveDirectory(stamp), k))
  {
    var urls := Discovered(site, pages, amount).value;
    DiscoveredInPageOrder(site, pages, amount);
    DownloadStopsAtFirstFailure(tab, urls, SaveDirectory(stamp), true);
    WrittenFiles(SaveDirectory(stamp), DownloadRun(tab, urls, SaveDirectory(stamp), true).bodies);
  }
}
