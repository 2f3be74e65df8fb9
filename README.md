# ALS micro-CT toolbox: data-management string logic in Dafny

This project models the local computations of `data_management.py` in the
ALS micro-CT toolbox. Given a dataset name, an optional username and a
destination directory, that code builds:

- the SPOT REST request paths (`attributes`, `list_images`, `stage`,
  `download`, `download_image`, `download_URLS`, `run_TomoPy`);
- the local file a download writes;
- the derived dataset and image a download picks;
- the line list produced by `list_from_txt`;
- the NERSC archive paths and copy commands.

The HTTP traffic, prompts and file writes are not modelled. Answers from the
service (the derived-dataset paths, the image listing) and the lines of a
text file are parameters.

Modules, one file each:

- `py.dfy` (`Py`): the Python built-ins the code relies on.
  - `str.strip(chars)` treats `chars` as a set of characters. As in
    CPython, it is a forward scan, a backward scan, and the slice between.
  - `str.split` for a one-character separator. `join` is modelled only for
    non-empty lists of pieces, the only lists `split` returns, since it
    serves as the inverse of `split`.
  - `str.find`, and `in` between strings.
  - Sequence indexing with negative indices.
  - Python exceptions are values: the `PyError` cases inside `Result`.
- `paths.dfy` (`Paths`): the `'default'` destination directory, and the
  fix-up that appends one `/`.
- `spot.dfy` (`Spot`):
  - the class `SpotSession`, with the constructor's username rule,
    `formatPath` and the URL builders;
  - `download`, plus the methods `DownloadImage` and `DownloadUrls`;
  - the `for`/`break` scan over derived datasets, as a loop method.
- `nersc.dfy` (`Nersc`):
  - `list_from_txt`, as a loop method proved against a filter function;
  - the `list_h5_files` search pattern;
  - `NERSC_ArchivePath`, and the path lists of `NERSC_RetreiveData`.

The username argument of `formatPath` and its callers is an
`Option<string>`:

- `None` is Python's `None`;
- `Some("default")` is the sentinel string.

Two behaviours of the code are easy to misread:

- **`list_from_txt` on `"a\n#b\n c \n"` with comment `#`** gives
  `["a", "c "]`. The code strips `" "` while the newline still shields the
  trailing space, and only then strips `"\n"` (`Nersc.FilterLinesSample`).
  Only spaces and newlines are trimmed, not all whitespace
  (`Nersc.CleanLineIsSlice`).
- **The derived-dataset scan when nothing matches** uses the last path,
  because the loop variable keeps the last entry (`Spot.SelectedIndexNoMatch`).
  Only an empty list leaves `path` unassigned, and that raises
  UnboundLocalError (`Spot.SelectDerivedPath`).

## Model

| member | source | states |
|---|---|---|
| Py.LeadingEnd | als-microct-toolbox/data_management.py:236 | the forward scan of `strip`: every character it passes is in the set, and it stops at the end or at a character outside the set |
| Py.TrailingStart | als-microct-toolbox/data_management.py:236 | the backward scan of `strip`: every character it passes is in the set, and it stops at the forward scan's end or after a character outside the set |
| Py.Strip | als-microct-toolbox/data_management.py:236 | the result of `strip(chars)` is no longer than the input, and neither of its ends is in the set |
| Py.StripIsWindow | als-microct-toolbox/data_management.py:236 | `strip` returns the slice between the two scans, and that slice is a strip window: outside it every character is in the set, and its ends are not |
| Py.StripWindowEmpty | als-microct-toolbox/data_management.py:236 | a strip window is empty exactly when every character of the string is in the set |
| Py.StripWindowsAgree | als-microct-toolbox/data_management.py:236 | two strip windows of one string hold the same slice |
| Py.StripWindowUnique | als-microct-toolbox/data_management.py:236 | any strip window holds exactly what `strip` returns |
| Py.StripCharacterization | als-microct-toolbox/data_management.py:192 | both directions: `t` is `s.strip(chars)` iff `t` is some strip window of `s`, so only characters of the set are removed, and only from the ends |
| Py.StripPadded | als-microct-toolbox/data_management.py:401 | padding made only of set characters, around a string whose ends are not in the set, is exactly what `strip` removes |
| Py.StripStable | als-microct-toolbox/data_management.py:236 | a string whose ends are outside the set is returned unchanged |
| Py.StripIdempotent | als-microct-toolbox/data_management.py:236 | stripping twice with the same set equals stripping once |
| Py.NestedWindow | als-microct-toolbox/data_management.py:646-647 | a strip window of a strip window is one slice of the whole string, and only characters of the two sets lie outside it |
| Py.StripTwiceIsSlice | als-microct-toolbox/data_management.py:646-647 | `s.strip(a).strip(b)` is a contiguous slice of `s`, and every character cut off is in `a` or in `b` |
| Py.Join | als-microct-toolbox/data_management.py:244 | `sep.join(parts)` for a non-empty list of pieces has at least one character per separator |
| Py.Split | als-microct-toolbox/data_management.py:244 | `split(sep)` gives at least one piece; no piece holds `sep`; there are two or more pieces iff `sep` occurs |
| Py.SplitCons | als-microct-toolbox/data_management.py:244 | splitting `c + t` starts a new empty piece when `c` is the separator, and otherwise puts `c` in front of the first piece of `t` |
| Py.JoinCons | als-microct-toolbox/data_management.py:244 | joining those pieces gives `c` followed by the join of the pieces of `t` |
| Py.JoinSplit | als-microct-toolbox/data_management.py:244 | joining the pieces of a split gives back the string |
| Py.JoinSnoc | als-microct-toolbox/data_management.py:244 | joining one more piece appends the separator and that piece |
| Py.JoinLastTwo | als-microct-toolbox/data_management.py:244-246 | a join of two or more separator-free pieces ends with `pieces[-2] + sep + pieces[-1]`, preceded by the start of the string or by a separator |
| Py.PiecesAlone | als-microct-toolbox/data_management.py:244-246 | `u + sep + f` ends with the pieces `u` and `f` |
| Py.PiecesAfterHead | als-microct-toolbox/data_management.py:244-246 | a separator before `u + sep + f` marks where the last two pieces begin |
| Py.LastTwoPieces | als-microct-toolbox/data_management.py:244-246 | `(split(sep)[-2], split(sep)[-1])` is defined whenever `sep` occurs, and the two pieces are the string's last two separator-free pieces |
| Py.EndsWithPiecesAt | als-microct-toolbox/data_management.py:244-246 | the last two pieces, position by position: where the final separator sits, and that neither piece holds a separator |
| Py.EndsWithPiecesUnique | als-microct-toolbox/data_management.py:244-246 | the last two pieces are determined by the string |
| Py.FindFrom | als-microct-toolbox/data_management.py:480 | `s.find(sub, start)` is -1 iff `sub` occurs at no index from `start` on; otherwise it is the lowest such index |
| Py.Find | als-microct-toolbox/data_management.py:480 | `s.find(sub) != -1` iff `sub` occurs in `s`; otherwise the result is the first occurrence |
| Py.PyIndex | als-microct-toolbox/data_management.py:484 | `xs[n]` succeeds iff `-len(xs) <= n < len(xs)`; a negative `n` counts from the end; otherwise IndexError |
| Py.PyIndexFromEnd | als-microct-toolbox/data_management.py:484 | `xs[k - len(xs)]` and `xs[k]` pick the same element |
| Paths.EnsureTrailingSlash | als-microct-toolbox/data_management.py:659-660 | the fix-up succeeds iff the directory is non-empty (`[-1]` raises IndexError otherwise); it keeps the directory as a prefix, adds at most one character, ends in `/`, and leaves a directory already ending in `/` unchanged |
| Paths.EnsureTrailingSlashIdempotent | als-microct-toolbox/data_management.py:411-412 | fixing up a fixed-up directory changes nothing |
| Paths.DestinationDir | als-microct-toolbox/data_management.py:405-412 | the sentinel `'default'` gives `./`. Any other directory keeps its text and gains at most one `/`, and one already ending in `/` comes back unchanged. The result always ends in `/`; an empty directory is an IndexError |
| Spot.RawFilePathAtBase | als-microct-toolbox/data_management.py:279 | the endpoint is a plain prefix of `base + user + "/" + f + "/raw/" + f + ".h5"` |
| Spot.RawFilePathInjective | als-microct-toolbox/data_management.py:279 | for filenames without `/`, different (user, filename) pairs give different request paths |
| Spot.RawFilePathPieces | als-microct-toolbox/data_management.py:279 | a request path ends with the pieces `raw` and `f.h5` |
| Spot.SelectedIndex | als-microct-toolbox/data_management.py:477-481 | where the scan stops: no earlier path contains `kind`, and the stopping path contains `kind` or is the last one |
| Spot.SelectedIndexFirstMatch | als-microct-toolbox/data_management.py:477-481 | the first path containing `kind` is the one chosen |
| Spot.SelectedIndexNoMatch | als-microct-toolbox/data_management.py:477-481 | when no path contains `kind`, the last path is chosen |
| Spot.SelectDerivedPath | als-microct-toolbox/data_management.py:477-481 | the `for`/`break` loop leaves `path` unassigned iff the list is empty; otherwise `path` is the entry at `SelectedIndex` |
| Spot.ListImagesUrl | als-microct-toolbox/data_management.py:318-320 | `list_images` succeeds iff a username is given; with `None`, the concatenation raises TypeError |
| Spot.TomoPyJobDataset | als-microct-toolbox/data_management.py:602-603 | the dataset sent to `run_TomoPy` neither starts nor ends with `/` |
| Spot.StripH5IsNotSuffixRemoval | als-microct-toolbox/data_management.py:192 | `"hello.h5".strip(".h5")` is `"ello"`: characters of the set go, not the `.h5` suffix |
| Spot.StripDropsLeadingH5Char | als-microct-toolbox/data_management.py:192 | one leading `.`, `h` or `5` in front of a stable string is all that `strip(".h5")` removes |
| Spot.TomoPyJobDatasetKeepsShieldedSuffix | als-microct-toolbox/data_management.py:602-603 | `name + ".h5/"` is sent as `name + ".h5"`: the trailing `/` shields the suffix from the first strip |
| Spot.SpotSession.constructor | als-microct-toolbox/data_management.py:44-50 | the fixed authentication URL and account `alvarorh`; `spot_username` is `alvarorh` for `'default'` and the given name otherwise |
| Spot.SpotSession.FormatPath | als-microct-toolbox/data_management.py:236-251 | the dataset is stripped first. A `'default'`/`None` username gives `(dataset, spot_username)` with no split. Otherwise, with a `/` in the dataset, the result is (last piece, second-to-last piece); without one, it is the dataset and the username unchanged |
| Spot.SpotSession.FormatPathFromPieces | als-microct-toolbox/data_management.py:242-246 | with an explicit username, a stripped dataset ending in pieces `u` and `f` resolves to `(f, u)`, whatever username was given |
| Spot.SpotSession.FormatPathUserSlashFile | als-microct-toolbox/data_management.py:242-246 | `"u/f"` with an explicit username resolves to `(f, u)` when stripping leaves it alone; `u` may be empty, so `"/f"` gives username `""` |
| Spot.SpotSession.FormatPathStripInvariant | als-microct-toolbox/data_management.py:236 | resolving an already stripped dataset gives the same pair |
| Spot.SpotSession.FormatPathDropsLeadingChar | als-microct-toolbox/data_management.py:236-246 | a user piece starting with `.`, `h` or `5` loses that character before the split |
| Spot.SpotSession.FormatPathHmwood | als-microct-toolbox/data_management.py:236-246 | `hmwood/f` with an explicit username resolves to the account `mwood` |
| Spot.SpotSession.EndpointsShareDatasetPath | als-microct-toolbox/data_management.py:275-279 | the attributes, stage and download URLs are their fixed bases followed by one common `u/f/raw/f.h5`, for the resolved `(f, u)` |
| Spot.SpotSession.ListImagesMatchesAttributes | als-microct-toolbox/data_management.py:318-320 | for an explicit username and a dataset with no `/` once stripped: `list_images` uses the stripped dataset and the username as given, and its URL has the same tail as `attributes` |
| Spot.SpotSession.ExplicitUserUrls | als-microct-toolbox/data_management.py:357-359 | for `"u/f"` with an explicit username, each of the three URLs is its base followed by `u/f/raw/f.h5` |
| Spot.SpotSession.Download | als-microct-toolbox/data_management.py:400-418 | `download` fails (IndexError) iff the directory is empty; the URL is the download URL of the resolved pair; the file ends in `.h5` |
| Spot.SpotSession.DownloadDefaults | als-microct-toolbox/data_management.py:405-418 | with both defaults, the file is `./` + the resolved filename + `.h5` |
| Spot.SpotSession.DownloadLocation | als-microct-toolbox/data_management.py:401-418 | the file is the fixed-up directory, then the stripped name (or the resolved filename when the stripped name is `'default'`), then `.h5` |
| Spot.SpotSession.DownloadNameSentinelAfterStrip | als-microct-toolbox/data_management.py:401-409 | the name `default.h5` strips to the sentinel, so it also selects the resolved filename |
| Spot.SpotSession.DownloadImage | als-microct-toolbox/data_management.py:471-499 | errors come in source order: bad image index, then empty directory, then unassigned `path`. On success, the request and the file `dir + name + ".tif"` are tied to `FormatPath`, `SelectedIndex`, `PyIndex` and `DestinationDir` |
| Spot.SpotSession.DownloadUrls | als-microct-toolbox/data_management.py:549-566 | the same lookup against the `image` endpoint: bad index, then unassigned `path`, otherwise the full request |
| Spot.SpotSession.ImageLookupRestripsFilename | als-microct-toolbox/data_management.py:471-475 | the resolved filename is stripped again before the derived-dataset query, so `u/5scan` is looked up as `scan` |
| Nersc.CleanLine | als-microct-toolbox/data_management.py:646-647 | a cleaned line is no longer than the line, and neither of its ends is a newline |
| Nersc.CleanLineIsSlice | als-microct-toolbox/data_management.py:646-647 | cleaning keeps one contiguous slice of the line, and removes only spaces and newlines, from the two ends |
| Nersc.KeepLines | als-microct-toolbox/data_management.py:648-649 | the decision on cleaned lines succeeds iff no cleaned line is empty (`[0]` raises IndexError); it keeps at most all lines |
| Nersc.FilterLines | als-microct-toolbox/data_management.py:645-650 | the whole filter succeeds iff every line is non-empty once cleaned, and otherwise fails with IndexError |
| Nersc.KeepLinesAppend | als-microct-toolbox/data_management.py:645-650 | the filter keeps file order: the result for `a + b` is the result for `a`, then for `b` |
| Nersc.KeepLinesSound | als-microct-toolbox/data_management.py:648-649 | everything kept is a non-empty cleaned line whose first character, taken as a one-character string, differs from `comment` (so a comment of two or more characters drops nothing) |
| Nersc.KeepLinesComplete | als-microct-toolbox/data_management.py:648-649 | every cleaned line whose first character, taken as a one-character string, differs from `comment` is kept |
| Nersc.CleanLinesAt | als-microct-toolbox/data_management.py:646-647 | the cleaned line at `i` is what the two in-place strips of the loop leave in `data[i]` |
| Nersc.KeepLinesStep | als-microct-toolbox/data_management.py:645-649 | one iteration: an empty line fails, a non-comment line is appended, a comment line is skipped |
| Nersc.KeepLinesPrefixErr | als-microct-toolbox/data_management.py:648 | a failing line in a prefix makes the whole filter fail |
| Nersc.ListFromTxt | als-microct-toolbox/data_management.py:639-650 | a path containing `.py` yields `None` (the script runs instead). Otherwise the loop, which updates `data[i]` in place, returns exactly `FilterLines` of the lines, or its IndexError |
| Nersc.FilterLinesSample | als-microct-toolbox/data_management.py:645-650 | lines `x`, `#y`, ` z` give `[x, z]`, and a trailing space of `z` survives (`"a\n#b\n c \n"` gives `["a", "c "]`) |
| Nersc.CleanSampleLines | als-microct-toolbox/data_management.py:646-647 | the sample lines `x`, `#y`, ` z` clean to `x`, `#y` and `z` (the trailing space of `z` kept) |
| Nersc.CleanLineDropsNewline | als-microct-toolbox/data_management.py:646-647 | a line whose text has no outer spaces loses only its newline |
| Nersc.CleanLineDropsSpaceNewline | als-microct-toolbox/data_management.py:646-647 | a leading space goes; a space before the newline stays |
| Nersc.KeepLinesSample | als-microct-toolbox/data_management.py:648-649 | of three non-empty lines where only the middle one starts with `#`, the first and last are kept |
| Nersc.FilterLinesBlankLineFails | als-microct-toolbox/data_management.py:648 | any blank (or all-space) line makes the call fail with IndexError |
| Nersc.H5SearchPattern | als-microct-toolbox/data_management.py:659-662 | the glob pattern is the directory, at most one `/`, then `*.h5`: it keeps the directory as a prefix, ends in `/*.h5`, and is exactly `dir + "*.h5"` for a directory already ending in `/`; an empty directory is an IndexError |
| Nersc.AsList | als-microct-toolbox/data_management.py:677-678 | a single name becomes a one-element list; a list is kept |
| Nersc.ArchivePath | als-microct-toolbox/data_management.py:671-686 | one entry per name, same order, entry i is `archivepath + useraccount + "/" + name[i] + "/raw/"` |
| Nersc.RetrieveDataAsWritten | als-microct-toolbox/data_management.py:743-745 | as written, the call raises NameError iff the name list is non-empty |
| Nersc.RetrieveDataAsWrittenFails | als-microct-toolbox/data_management.py:744 | even a single name fails |
| Nersc.RetrievePaths | als-microct-toolbox/data_management.py:737-755 | with the account taken from `username`: one archive file, one destination file and one `cp` command per name, in order |
| Nersc.ArchiveFileMatchesDownloadLayout | als-microct-toolbox/data_management.py:745 | an archive directory plus `f.h5` is the SPOT raw-file layout, the same tail as the download URL |

## Left out

- HTTP traffic through `requests.Session` is not modelled:
  - the constructor's handshake;
  - `check_authentication`, `authentication` (which replaces the `session` field), `close` and `search`;
  - every GET and its JSON decoding.
  Service answers are parameters, so `SpotSession` has no `session` field and no method changes state.
- The constructor's `password` argument and the `getpass`/`input` prompts are console I/O.
- A `None` username passed to the constructor is not modelled; the constructor takes a string.
- The `self.URL_*` and `self.PARAMS_*` attributes that the methods set on each call hold only constants or request parameters, so they are not kept as state.
- `print`, `logging` and the chunked file writes are output only. The models return the location a file would be written to.
- The excluded call in `list_from_txt`, the reading of the lines and their newlines:
  - `execfile` is the excluded call; such paths yield `None`. This assumes Python 2, where `execfile` is a built-in; under Python 3 the name is undefined and the branch at line 640 raises NameError instead;
  - reading the file is I/O, so its lines (newlines included, as `readlines` gives them) are a parameter.
- `glob.glob` in `list_h5_files` is filesystem I/O; the model stops at the pattern it would be given.
- `os.system("cp ...")` in `NERSC_RetreiveData` is process I/O; the model returns the commands.
- `NERSC_StageData` is left out. It prompts for credentials, talks to the network, and reads the undefined names `useraccount` and `command_string`.
- Two parts of a derived-dataset answer are not modelled:
  - its `'path'` key is assumed present, so a missing key (KeyError) is not modelled;
  - the answer is given as the list of paths.
- A `filename` argument of a type other than a string or a list is not modelled.
- `Spot.ListImagesUrl` states success and failure only. Its URL is stated in two places only. `Spot.SpotSession.ListImagesMatchesAttributes` states it for an explicit username and a dataset with no `/` once stripped. The `DownloadImage`/`DownloadUrls` contracts state it for the resolved pair those methods pass.
- `Nersc.FilterLines` states success and failure only. What it returns is stated by the `KeepLines` lemmas; `FilterLines` is `KeepLines` applied to `CleanLines`.

## Findings

| source | as written | input that shows it | evidently intended | confidence | as-written member | corrected member |
|---|---|---|---|---|---|---|
| als-microct-toolbox/data_management.py:744-745 | `NERSC_RetreiveData` builds the archive path from `useraccount`, which is neither a parameter nor a global, so the first loop iteration raises NameError | `NERSC_RetreiveData("scan", "hsbarnard", "/tmp/")` | build the archive path from the `username` parameter | not executed | Nersc.RetrieveDataAsWritten | Nersc.RetrievePaths |
