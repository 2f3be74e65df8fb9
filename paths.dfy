/**
 Local directory handling shared by `download`, `download_image` and
 `list_h5_files`: the `'default'` sentinel for the destination directory and
 the fix-up that appends one `/` when the directory does not end in one.
 */
module Paths {
  import opened Py

  /** The sentinel the download operations use for "argument not given". */
  const DefaultSentinel := "default"

  /** The directory a download goes to when none is given. */
  const DefaultDir := "./"

  /**
   `if d[-1] != "/": d = d + "/"`. Reading `d[-1]` raises IndexError on an
   empty string, so that is the one failing input.
   */
  function EnsureTrailingSlash(dir: string): (r: Result<string>)
    ensures r.Ok? <==> dir != []
    ensures r.Err? ==> r.error == IndexError
    ensures r.Ok? ==> |dir| <= |r.value| <= |dir| + 1 && r.value[..|dir|] == dir
    ensures r.Ok? ==> r.value[|r.value| - 1] == '/'
    ensures r.Ok? && dir[|dir| - 1] == '/' ==> r.value == dir
  {
    match PyIndex(dir, -1)
    case Err(e) => Err(e)
    case Ok(last) => Ok(if last != '/' then dir + "/" else dir)
  }

  /** Fixing up an already fixed-up directory changes nothing. */
  lemma EnsureTrailingSlashIdempotent(dir: string)
    requires dir != []
    ensures EnsureTrailingSlash(EnsureTrailingSlash(dir).value) == EnsureTrailingSlash(dir)
  {
  }

  /**
   The destination directory of `download` and `download_image`: the sentinel
   becomes `"./"`, then the slash fix-up runs.
   */
  function DestinationDir(downloadPath: string): (r: Result<string>)
    ensures r.Ok? <==> downloadPath != []
    ensures r.Err? ==> r.error == IndexError
    ensures downloadPath == DefaultSentinel ==> r == Ok(DefaultDir)
    ensures r.Ok? && downloadPath != DefaultSentinel ==>
              |downloadPath| <= |r.value| <= |downloadPath| + 1 && r.value[..|downloadPath|] == downloadPath
    ensures r.Ok? && downloadPath != DefaultSentinel && downloadPath[|downloadPath| - 1] == '/' ==>
              r.value == downloadPath
    ensures r.Ok? ==> |r.value| > 0 && r.value[|r.value| - 1] == '/'
  {
    EnsureTrailingSlash(if downloadPath == DefaultSentinel then DefaultDir else downloadPath)
  }
}
