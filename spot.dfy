/**
 The SPOT session of the ALS micro-CT toolbox, reduced to what it computes
 locally: how a dataset string and an optional username become the
 `(filename, username)` pair, the request URLs built from that pair, and the
 local file the download operations write. The HTTP traffic itself is not
 modelled; where an operation depends on what the service answered (the
 derived datasets, the image listing), that answer is a parameter.
 */
module Spot {
  import opened Py
  import opened Paths

  const AuthenticationUrl := "https://portal-auth.nersc.gov/als/auth"
  /** The account hard-wired into every session. */
  const DefaultAccount := "alvarorh"

  const DerivedDatasetsUrl := "https://portal-auth.nersc.gov/als/hdf/dataset"
  const AttributesBase := "https://portal-auth.nersc.gov/als/hdf/attributes/als/bl832/"
  const ListImagesBase := "https://portal-auth.nersc.gov/als/hdf/listimages/als/bl832/"
  const StageBase := "https://portal-auth.nersc.gov/als/hdf/stageifneeded/als/bl832/"
  const DownloadBase := "https://portal-auth.nersc.gov/als/hdf/download/als/bl832/"
  const RawDataUrl := "https://portal-auth.nersc.gov/als/hdf/rawdata"
  const ImageUrl := "https://portal-auth.nersc.gov/als/hdf/image"
  const TomoPyJobUrl := "https://portal-auth.nersc.gov/als/hdf/tomopyjob"

  /** The argument of every `strip(".h5")`: a SET of three characters, not a suffix. */
  const H5 := ".h5"

  /** `base + user + "/" + f + "/raw/" + f + ".h5"`: a raw dataset file under an endpoint. */
  function RawFilePath(base: string, user: string, f: string): string
  {
    base + user + "/" + f + "/raw/" + f + ".h5"
  }

  /** The endpoint is a plain prefix of the path. */
  lemma RawFilePathAtBase(base: string, u: string, f: string)
    ensures RawFilePath(base, u, f) == base + (u + "/" + f + "/raw/" + f + ".h5")
  {
  }

  /** Distinct (user, filename) pairs get distinct paths, as long as the filename has no `/`. */
  lemma RawFilePathInjective(base: string, u1: string, f1: string, u2: string, f2: string)
    requires '/' !in f1 && '/' !in f2
    requires RawFilePath(base, u1, f1) == RawFilePath(base, u2, f2)
    ensures u1 == u2 && f1 == f2
  {
    RawFilePathPieces(base, u1, f1);
    RawFilePathPieces(base, u2, f2);
    EndsWithPiecesUnique(RawFilePath(base, u1, f1), '/', "raw", f1 + H5, "raw", f2 + H5);
    assert f1 == (f1 + H5)[..|f1|];
    assert base + u1 == RawFilePath(base, u1, f1)[..|base| + |u1|];
    assert u1 == (base + u1)[|base|..];
  }

  /** A raw file path ends with the pieces `raw` and `f.h5`. */
  lemma RawFilePathPieces(base: string, u: string, f: string)
    requires '/' !in f
    ensures EndsWithPieces(RawFilePath(base, u, f), '/', "raw", f + H5)
  {
    assert RawFilePath(base, u, f) == (base + u + "/" + f) + ['/'] + "raw" + ['/'] + (f + H5);
    PiecesAfterHead(base + u + "/" + f, '/', "raw", f + H5);
  }

  /** `username == 'default' or username == None`: the caller gave no username. */
  predicate IsDefaultUser(username: Option<string>)
  {
    username == None || username == Some(DefaultSentinel)
  }

  /** The names of the request `download_image` / `download_URLS` issue for one image. */
  datatype ImageRequest = ImageRequest(
    derivedQuery: string,  // the `dataset` parameter of the derived-datasets query
    listingUrl: string,    // the image-listing URL
    url: string,           // `rawdata` or `image` endpoint + the selected derived path
    group: string)         // the `group` parameter: "/" + the selected image

  /** What `download` requests and where it writes. */
  datatype DatasetDownload = DatasetDownload(url: string, fileLocation: string)

  /** What `download_image` requests and where it writes. */
  datatype ImageDownload = ImageDownload(request: ImageRequest, fileLocation: string)

  /** `path.find(kind) != -1`, the test the derived-dataset scan applies. */
  predicate Matches(path: string, kind: string)
  {
    Find(path, kind) != -1
  }

  /**
   Where the scan over derived paths stops, starting at `i`: at the first path
   containing `kind`, or on the last path, because the loop variable keeps
   the last value it was given.
   */
  function SelectedIndex(paths: seq<string>, kind: string, i: nat): (k: nat)
    requires i < |paths|
    decreases |paths| - i
    ensures i <= k < |paths|
    ensures forall j :: i <= j < k ==> !Matches(paths[j], kind)
    ensures Matches(paths[k], kind) || k == |paths| - 1
  {
    if i == |paths| - 1 || Matches(paths[i], kind) then i
    else SelectedIndex(paths, kind, i + 1)
  }

  /** The first matching path wins. */
  lemma SelectedIndexFirstMatch(paths: seq<string>, kind: string, j: nat)
    requires j < |paths| && Matches(paths[j], kind)
    requires forall i :: 0 <= i < j ==> !Matches(paths[i], kind)
    ensures SelectedIndex(paths, kind, 0) == j
  {
  }

  /** With no match the last path is used, not an error. */
  lemma SelectedIndexNoMatch(paths: seq<string>, kind: string)
    requires |paths| > 0
    requires forall i :: 0 <= i < |paths| ==> !Matches(paths[i], kind)
    ensures SelectedIndex(paths, kind, 0) == |paths| - 1
  {
  }

  /**
   The scan of `download_image` / `download_URLS`:
   `for i in range(len(p)): path = p[i]['path']; if path.find(kind) != -1: break`.
   `None` stands for `path` never being assigned, which only an empty list causes.
   */
  method SelectDerivedPath(paths: seq<string>, kind: string) returns (path: Option<string>)
    ensures path.None? <==> paths == []
    ensures path.Some? ==> path.value == paths[SelectedIndex(paths, kind, 0)]
  {
    path := None;
    var i := 0;
    while i < |paths|
      invariant 0 <= i <= |paths|
      invariant path == if i == 0 then None else Some(paths[i - 1])
      invariant i < |paths| ==> SelectedIndex(paths, kind, 0) == SelectedIndex(paths, kind, i)
      invariant 0 < i == |paths| ==> SelectedIndex(paths, kind, 0) == |paths| - 1
    {
      path := Some(paths[i]);
      if Find(paths[i], kind) != -1 {
        break;
      }
      i := i + 1;
    }
  }

  /** `derived_datasets(dataset)`: the `dataset` parameter it sends. */
  function DerivedDatasetsQuery(dataset: string): string
  {
    Strip(dataset, H5)
  }

  /**
   `list_images(dataset, username)`: it strips the dataset but does not
   resolve the username; concatenating `None` raises TypeError.
   */
  function ListImagesUrl(dataset: string, username: Option<string>): (r: Result<string>)
    ensures r.Ok? <==> username.Some?
    ensures r.Err? ==> r.error == TypeError
  {
    match username
    case None => Err(TypeError)
    case Some(u) => Ok(RawFilePath(ListImagesBase, u, Strip(dataset, H5)))
  }

  /** The `dataset` parameter of `run_TomoPy`: `strip('.h5')`, then `strip('/')`. */
  function TomoPyJobDataset(rawDataset: string): (r: string)
    ensures r != [] ==> r[0] != '/' && r[|r| - 1] != '/'
  {
    Strip(Strip(rawDataset, H5), "/")
  }

  /** `"hello.h5".strip(".h5")` is `"ello"`: the `h` of `hello` goes as well as the `.h5`. */
  lemma StripH5IsNotSuffixRemoval()
    ensures Strip("hello.h5", H5) == "ello"
  {
    assert "h" + "ello" + ".h5" == "hello.h5";
    StripPadded("h", "ello", ".h5", H5);
  }

  /** One leading character of `.`, `h`, `5` in front of a stable string is all `strip(".h5")` removes. */
  lemma StripDropsLeadingH5Char(c: char, rest: string)
    requires c in H5 && rest != [] && rest[0] !in H5 && rest[|rest| - 1] !in H5
    ensures Strip([c] + rest, H5) == rest
  {
    assert [c] + rest + [] == [c] + rest;
    StripPadded([c], rest, [], H5);
  }

  /** The order of the two strips matters: a trailing `/` shields the `.h5` from the first. */
  lemma TomoPyJobDatasetKeepsShieldedSuffix(name: string)
    requires name != [] && name[0] !in H5 && name[0] != '/'
    ensures TomoPyJobDataset(name + ".h5/") == name + ".h5"
  {
    var s := name + ".h5/";
    var t := name + ".h5";
    assert s[0] == name[0] && s[|s| - 1] == '/';
    StripStable(s, H5);
    assert t[0] == name[0] && t[|t| - 1] == '5';
    assert [] + t + "/" == s;
    StripPadded([], t, "/", "/");
  }

  class SpotSession {
    const authenticationUrl: string
    /** The account hard-wired into the class. */
    const username: string
    /** The account used in every resolved path that has no explicit username. */
    const spotUsername: string

    /** `SpotSession(username)`: `'default'` selects the hard-wired account. */
    constructor (username: string)
      ensures authenticationUrl == AuthenticationUrl
      ensures this.username == DefaultAccount
      ensures spotUsername == if username == DefaultSentinel then DefaultAccount else username
    {
      authenticationUrl := AuthenticationUrl;
      this.username := DefaultAccount;
      spotUsername := if username == DefaultSentinel then DefaultAccount else username;
    }

    /**
     `formatPath(dataset, username)`. The dataset is stripped first; a missing
     username wins before any splitting; an explicit username is replaced by
     the second-to-last `/`-piece when the dataset contains a `/`.
     */
    function FormatPath(dataset: string, username: Option<string>): (r: (string, string))
      ensures IsDefaultUser(username) ==> r == (Strip(dataset, H5), spotUsername)
      ensures !IsDefaultUser(username) && '/' !in Strip(dataset, H5) ==>
                r == (Strip(dataset, H5), username.value)
      ensures !IsDefaultUser(username) && '/' in Strip(dataset, H5) ==>
                EndsWithPieces(Strip(dataset, H5), '/', r.1, r.0)
    {
      var d := Strip(dataset, H5);
      if IsDefaultUser(username) then (d, spotUsername)
      else if '/' in d then
        var (user, filename) := LastTwoPieces(d, '/');
        (filename, user)
      else (d, username.value)
    }

    /** An explicit `.../u/f` dataset resolves to `(f, u)`, whatever username was passed. */
    lemma FormatPathFromPieces(dataset: string, username: Option<string>, u: string, f: string)
      requires !IsDefaultUser(username)
      requires EndsWithPieces(Strip(dataset, H5), '/', u, f)
      ensures FormatPath(dataset, username) == (f, u)
    {
      var d := Strip(dataset, H5);
      EndsWithPiecesAt(d, '/', u, f);
      assert d[|d| - |f| - 1] == '/';
      var r := FormatPath(dataset, username);
      EndsWithPiecesUnique(d, '/', r.1, r.0, u, f);
    }

    /**
     `"u/f"` with an explicit username resolves to `(f, u)` when stripping
     leaves the string alone: `u` does not start and `f` does not end in one of `.`, `h`, `5`.
     */
    lemma FormatPathUserSlashFile(u: string, f: string, username: Option<string>)
      requires !IsDefaultUser(username)
      requires '/' !in u && '/' !in f
      requires f != [] && f[|f| - 1] !in H5
      requires u != [] ==> u[0] !in H5
      ensures FormatPath(u + "/" + f, username) == (f, u)
    {
      var d := u + "/" + f;
      assert d[|d| - 1] == f[|f| - 1];
      assert d[0] == if u == [] then '/' else u[0];
      StripStable(d, H5);
      assert d[|d| - |f| - |u| - 1..] == u + ['/'] + f;
      FormatPathFromPieces(d, username, u, f);
    }

    /** Resolving an already stripped dataset gives the same pair. */
    lemma FormatPathStripInvariant(dataset: string, username: Option<string>)
      ensures FormatPath(Strip(dataset, H5), username) == FormatPath(dataset, username)
    {
      StripIdempotent(dataset, H5);
    }

    /**
     `strip(".h5")` removes characters, not a suffix: a user piece that starts
     with `.`, `h` or `5` loses that character.
     */
    lemma FormatPathDropsLeadingChar(c: char, u: string, f: string, username: Option<string>)
      requires !IsDefaultUser(username)
      requires c in H5 && u != [] && u[0] !in H5 && '/' !in u
      requires '/' !in f && f != [] && f[|f| - 1] !in H5
      ensures FormatPath([c] + u + "/" + f, username) == (f, u)
    {
      var e := u + "/" + f;
      assert [c] + e + [] == [c] + u + "/" + f;
      assert e[0] == u[0] && e[|e| - 1] == f[|f| - 1];
      StripPadded([c], e, [], H5);
      FormatPathStripInvariant([c] + e, username);
      FormatPathUserSlashFile(u, f, username);
    }

    /** So the account `hmwood` in a dataset path resolves to `mwood`. */
    lemma FormatPathHmwood(f: string, username: Option<string>)
      requires !IsDefaultUser(username)
      requires '/' !in f && f != [] && f[|f| - 1] !in H5
      ensures FormatPath("hmwood/" + f, username) == (f, "mwood")
    {
      assert ['h'] + "mwood" + "/" + f == "hmwood/" + f;
      FormatPathDropsLeadingChar('h', "mwood", f, username);
    }

    /** `attributes(dataset, username)`: the URL it requests (with `group="/"`). */
    function AttributesUrl(dataset: string, username: Option<string>): string
    {
      var (f, u) := FormatPath(dataset, username);
      RawFilePath(AttributesBase, u, f)
    }

    /** `stage(dataset, username)`: the URL it requests. */
    function StageUrl(dataset: string, username: Option<string>): string
    {
      var (f, u) := FormatPath(dataset, username);
      RawFilePath(StageBase, u, f)
    }

    /** `download(dataset, username)`: the URL it requests. */
    function DownloadUrl(dataset: string, username: Option<string>): string
    {
      var (f, u) := FormatPath(dataset, username);
      RawFilePath(DownloadBase, u, f)
    }

    /** Attributes, stage and download address the same file, each under its own endpoint. */
    lemma EndpointsShareDatasetPath(dataset: string, username: Option<string>)
      ensures var (f, u) := FormatPath(dataset, username);
              var p := u + "/" + f + "/raw/" + f + ".h5";
              && AttributesUrl(dataset, username) == AttributesBase + p
              && StageUrl(dataset, username) == StageBase + p
              && DownloadUrl(dataset, username) == DownloadBase + p
    {
      var (f, u) := FormatPath(dataset, username);
      RawFilePathAtBase(AttributesBase, u, f);
      RawFilePathAtBase(StageBase, u, f);
      RawFilePathAtBase(DownloadBase, u, f);
    }

    /**
     `list_images` builds the attributes path without `formatPath`: for an
     explicit username and a dataset without `/`, the two agree after their bases.
     */
    lemma ListImagesMatchesAttributes(dataset: string, u: string)
      requires u != DefaultSentinel && '/' !in Strip(dataset, H5)
      ensures var f := Strip(dataset, H5);
              var p := u + "/" + f + "/raw/" + f + ".h5";
              && ListImagesUrl(dataset, Some(u)) == Ok(ListImagesBase + p)
              && AttributesUrl(dataset, Some(u)) == AttributesBase + p
    {
      var f := Strip(dataset, H5);
      RawFilePathAtBase(ListImagesBase, u, f);
      RawFilePathAtBase(AttributesBase, u, f);
    }

    /** `"u/f"` with an explicit username: every endpoint addresses `u/f/raw/f.h5`. */
    lemma ExplicitUserUrls(u: string, f: string, username: Option<string>)
      requires !IsDefaultUser(username)
      requires '/' !in u && '/' !in f
      requires f != [] && f[|f| - 1] !in H5
      requires u != [] ==> u[0] !in H5
      ensures AttributesUrl(u + "/" + f, username) == AttributesBase + u + "/" + f + "/raw/" + f + ".h5"
      ensures StageUrl(u + "/" + f, username) == StageBase + u + "/" + f + "/raw/" + f + ".h5"
      ensures DownloadUrl(u + "/" + f, username) == DownloadBase + u + "/" + f + "/raw/" + f + ".h5"
    {
      FormatPathUserSlashFile(u, f, username);
    }

    /**
     `download(dataset, username, downloadPath, downloadName)`. The name is
     stripped BEFORE it is compared with the sentinel; an empty directory
     fails on `downloadPath[-1]`.
     */
    function Download(dataset: string, username: Option<string>, downloadPath: string, downloadName: string)
      : (r: Result<DatasetDownload>)
      ensures r.Ok? <==> downloadPath != []
      ensures r.Err? ==> r.error == IndexError
      ensures r.Ok? ==> r.value.url == DownloadUrl(dataset, username)
      ensures r.Ok? ==> var loc := r.value.fileLocation;
                |loc| >= 4 && loc[|loc| - 3..] == ".h5"
    {
      var (filename, _) := FormatPath(dataset, username);
      var name := Strip(downloadName, H5);
      var name := if name == DefaultSentinel then filename else name;
      match DestinationDir(downloadPath)
      case Err(e) => Err(e)
      case Ok(dir) =>
        var loc := dir + name + ".h5";
        assert loc[|loc| - 3..] == ".h5";
        Ok(DatasetDownload(DownloadUrl(dataset, username), loc))
    }

    /** With both defaults the file is `./<filename>.h5`. */
    lemma DownloadDefaults(dataset: string, username: Option<string>)
      ensures Download(dataset, username, DefaultSentinel, DefaultSentinel) ==
              Ok(DatasetDownload(DownloadUrl(dataset, username), "./" + FormatPath(dataset, username).0 + ".h5"))
    {
      assert Strip(DefaultSentinel, H5) == DefaultSentinel by {
        StripStable(DefaultSentinel, H5);
      }
    }

    /** The file lives in the fixed-up directory and is named after the given or resolved name. */
    lemma DownloadLocation(dataset: string, username: Option<string>, downloadPath: string, downloadName: string)
      requires downloadPath != []
      ensures var dir := DestinationDir(downloadPath).value;
              var n := Strip(downloadName, H5);
              Download(dataset, username, downloadPath, downloadName).value.fileLocation ==
                dir + (if n == DefaultSentinel then FormatPath(dataset, username).0 else n) + ".h5"
    {
    }

    /** A name that strips to the sentinel, such as `default.h5`, also selects the default name. */
    lemma DownloadNameSentinelAfterStrip(dataset: string, username: Option<string>, downloadPath: string)
      ensures Download(dataset, username, downloadPath, "default.h5") ==
              Download(dataset, username, downloadPath, DefaultSentinel)
    {
      assert Strip(DefaultSentinel, H5) == DefaultSentinel by {
        StripStable(DefaultSentinel, H5);
      }
      assert [] + DefaultSentinel + H5 == "default.h5";
      StripPadded([], DefaultSentinel, H5, H5);
    }

    /**
     `download_image(dataset, username, kind, number, downloadPath, downloadName)`,
     given the service's derived paths and image listing. Errors arise in source
     order: the image index, then `downloadPath[-1]`, then the unassigned `path`.
     */
    method DownloadImage(dataset: string, username: Option<string>, kind: string, number: int,
                         downloadPath: string, downloadName: string,
                         derivedPaths: seq<string>, imageList: seq<string>)
      returns (r: Result<ImageDownload>)
      ensures var image := PyIndex(imageList, number);
              var dir := DestinationDir(downloadPath);
              && (image.Err? ==> r == Err(IndexError))
              && (image.Ok? && dir.Err? ==> r == Err(IndexError))
              && (image.Ok? && dir.Ok? && derivedPaths == [] ==> r == Err(UnboundLocalError))
      ensures r.Ok? <==> -|imageList| <= number < |imageList| && downloadPath != [] && derivedPaths != []
      ensures r.Ok? ==>
                var (f, u) := FormatPath(dataset, username);
                && r.value.request == ImageRequest(
                     Strip(f, H5),
                     RawFilePath(ListImagesBase, u, Strip(f, H5)),
                     RawDataUrl + derivedPaths[SelectedIndex(derivedPaths, kind, 0)],
                     "/" + PyIndex(imageList, number).value)
                && r.value.fileLocation ==
                     DestinationDir(downloadPath).value
                     + (if downloadName == DefaultSentinel then f else downloadName) + ".tif"
    {
      var (filename, user) := FormatPath(dataset, username);
      var derivedQuery := DerivedDatasetsQuery(filename);
      var path := SelectDerivedPath(derivedPaths, kind);
      var listingUrl := ListImagesUrl(filename, Some(user));
      var image := PyIndex(imageList, number);
      if image.Err? {
        return Err(image.error);
      }
      var dir := DestinationDir(downloadPath);
      if dir.Err? {
        return Err(dir.error);
      }
      var name := if downloadName == DefaultSentinel then filename else downloadName;
      if path.None? {
        return Err(UnboundLocalError);
      }
      var request := ImageRequest(derivedQuery, listingUrl.value, RawDataUrl + path.value, "/" + image.value);
      r := Ok(ImageDownload(request, dir.value + name + ".tif"));
    }

    /**
     `download_URLS(dataset, username, kind, number)`: the same lookup as
     `download_image`, against the `image` endpoint, without a local file.
     */
    method DownloadUrls(dataset: string, username: Option<string>, kind: string, number: int,
                        derivedPaths: seq<string>, imageList: seq<string>)
      returns (r: Result<ImageRequest>)
      ensures !(-|imageList| <= number < |imageList|) ==> r == Err(IndexError)
      ensures -|imageList| <= number < |imageList| && derivedPaths == [] ==> r == Err(UnboundLocalError)
      ensures r.Ok? <==> -|imageList| <= number < |imageList| && derivedPaths != []
      ensures r.Ok? ==>
                var (f, u) := FormatPath(dataset, username);
                r.value == ImageRequest(
                  Strip(f, H5),
                  RawFilePath(ListImagesBase, u, Strip(f, H5)),
                  ImageUrl + derivedPaths[SelectedIndex(derivedPaths, kind, 0)],
                  "/" + PyIndex(imageList, number).value)
    {
      var (filename, user) := FormatPath(dataset, username);
      var derivedQuery := DerivedDatasetsQuery(filename);
      var path := SelectDerivedPath(derivedPaths, kind);
      var listingUrl := ListImagesUrl(filename, Some(user));
      var image := PyIndex(imageList, number);
      if image.Err? {
        return Err(image.error);
      }
      if path.None? {
        return Err(UnboundLocalError);
      }
      r := Ok(ImageRequest(derivedQuery, listingUrl.value, ImageUrl + path.value, "/" + image.value));
    }

    /**
     The image lookups strip the resolved filename a second time, so a
     filename starting with one of `.`, `h`, `5` is queried without it:
     `u/5scan` resolves to `5scan`, but its derived datasets are asked for as `scan`.
     */
    lemma ImageLookupRestripsFilename(u: string, c: char, rest: string, username: Option<string>)
      requires !IsDefaultUser(username)
      requires '/' !in u && (u != [] ==> u[0] !in H5)
      requires c in H5 && '/' !in rest && rest != [] && rest[0] !in H5 && rest[|rest| - 1] !in H5
      ensures FormatPath(u + "/" + ([c] + rest), username).0 == [c] + rest
      ensures DerivedDatasetsQuery([c] + rest) == rest
    {
      var f := [c] + rest;
      assert f[|f| - 1] == rest[|rest| - 1];
      FormatPathUserSlashFile(u, f, username);
      StripDropsLeadingH5Char(c, rest);
    }
  }
}
