/**
 The module-level helpers for working on NERSC: turning a text file of
 dataset names into a list, the search pattern of `list_h5_files`, and the
 archive paths of `NERSC_ArchivePath` and `NERSC_RetreiveData`. Reading the
 file, globbing and copying are not modelled; the lines already read are a
 parameter.
 */
module Nersc {
  import opened Py
  import opened Paths
  import Spot

  const NerscDefaultPath := "/global/project/projectdirs/als/spade/warehouse/als/bl832/"
  const UserDefault := "hsbarnard"

  // ---------------------------------------------------------------------------
  // list_from_txt

  /** One line after `strip(" ")` and then `strip("\n")`. */
  function CleanLine(line: string): (r: string)
    ensures |r| <= |line|
    ensures r != [] ==> r[0] != '\n' && r[|r| - 1] != '\n'
  {
    Strip(Strip(line, " "), "\n")
  }

  /** Cleaning keeps one contiguous slice of the line and removes only spaces and newlines around it. */
  lemma CleanLineIsSlice(line: string)
    ensures exists i, j :: IsTwoStripWindow(line, " ", "\n", i, j) && CleanLine(line) == line[i..j]
  {
    StripTwiceIsSlice(line, " ", "\n");
  }

  /** Every line of `lines`, cleaned. */
  function CleanLines(lines: seq<string>): (r: seq<string>)
    ensures |r| == |lines|
    ensures forall j :: 0 <= j < |lines| ==> r[j] == CleanLine(lines[j])
  {
    seq(|lines|, j requires 0 <= j < |lines| => CleanLine(lines[j]))
  }

  /**
   The decision `list_from_txt` takes on each cleaned line, from the first
   line on: keep it unless its first character is `comment`. Taking the first
   character of an empty line raises IndexError.
   */
  function KeepLines(cleaned: seq<string>, comment: string): (r: Result<seq<string>>)
    ensures r.Ok? <==> forall j :: 0 <= j < |cleaned| ==> cleaned[j] != []
    ensures r.Err? ==> r.error == IndexError
    ensures r.Ok? ==> |r.value| <= |cleaned|
  {
    if cleaned == [] then Ok([])
    else
      var init := cleaned[..|cleaned| - 1];
      var c := cleaned[|cleaned| - 1];
      assert forall j :: 0 <= j < |init| ==> init[j] == cleaned[j];
      match KeepLines(init, comment)
      case Err(e) => Err(e)
      case Ok(kept) =>
        if c == [] then Err(IndexError)
        else if [c[0]] != comment then Ok(kept + [c])
        else Ok(kept)
  }

  /** What the loop of `list_from_txt` keeps of the lines the file holds. */
  function FilterLines(lines: seq<string>, comment: string): (r: Result<seq<string>>)
    ensures r.Ok? <==> forall j :: 0 <= j < |lines| ==> CleanLine(lines[j]) != []
    ensures r.Err? ==> r.error == IndexError
    ensures r.Ok? ==> |r.value| <= |lines|
  {
    KeepLines(CleanLines(lines), comment)
  }

  /** Deciding on `a + b` is deciding on `a`, then on `b`. */
  lemma {:induction false} KeepLinesAppend(a: seq<string>, b: seq<string>, comment: string)
    requires KeepLines(a, comment).Ok? && KeepLines(b, comment).Ok?
    ensures KeepLines(a + b, comment) == Ok(KeepLines(a, comment).value + KeepLines(b, comment).value)
  {
    if b == [] {
      assert a + b == a;
      assert KeepLines(a, comment).value + KeepLines(b, comment).value == KeepLines(a, comment).value;
    } else {
      var b' := b[..|b| - 1];
      assert (a + b)[..|a + b| - 1] == a + b';
      assert (a + b)[|a + b| - 1] == b[|b| - 1];
      assert forall j :: 0 <= j < |b'| ==> b'[j] == b[j];
      KeepLinesAppend(a, b', comment);
      var c := b[|b| - 1];
      assert c != [];
      var kb' := KeepLines(b', comment).value;
      var ka := KeepLines(a, comment).value;
      if [c[0]] != comment {
        assert KeepLines(b, comment).value == kb' + [c];
        assert (ka + kb') + [c] == ka + (kb' + [c]);
      } else {
        assert KeepLines(b, comment).value == kb';
      }
    }
  }

  /**
   Everything kept is a non-empty cleaned line whose first character, as a
   one-character string, differs from `comment`.
   */
  lemma {:induction false} KeepLinesSound(cleaned: seq<string>, comment: string)
    requires KeepLines(cleaned, comment).Ok?
    ensures forall x :: x in KeepLines(cleaned, comment).value ==> x in cleaned && x != [] && [x[0]] != comment
  {
    if cleaned != [] {
      var init := cleaned[..|cleaned| - 1];
      assert forall j :: 0 <= j < |init| ==> init[j] == cleaned[j];
      KeepLinesSound(init, comment);
      forall x | x in init ensures x in cleaned {
        var j :| 0 <= j < |init| && init[j] == x;
        assert cleaned[j] == x;
      }
    }
  }

  /** Every cleaned line whose first character, as a one-character string, differs from `comment` is kept. */
  lemma {:induction false} KeepLinesComplete(cleaned: seq<string>, comment: string)
    requires KeepLines(cleaned, comment).Ok?
    ensures forall j :: 0 <= j < |cleaned| && [cleaned[j][0]] != comment ==> cleaned[j] in KeepLines(cleaned, comment).value
  {
    if cleaned != [] {
      var init := cleaned[..|cleaned| - 1];
      assert forall j :: 0 <= j < |init| ==> init[j] == cleaned[j];
      KeepLinesComplete(init, comment);
    }
  }

  /** The cleaned line at `i`, written as the two strips the loop applies in place. */
  lemma CleanLinesAt(lines: seq<string>, i: nat)
    requires i < |lines|
    ensures CleanLines(lines)[i] == Strip(Strip(lines[i], " "), "\n")
  {
  }

  /** One more line of the loop of `list_from_txt`. */
  lemma KeepLinesStep(cleaned: seq<string>, i: nat, comment: string, kept: seq<string>)
    requires i < |cleaned| && KeepLines(cleaned[..i], comment) == Ok(kept)
    ensures KeepLines(cleaned[..i + 1], comment) ==
            if cleaned[i] == [] then Err(IndexError)
            else if [cleaned[i][0]] != comment then Ok(kept + [cleaned[i]])
            else Ok(kept)
  {
    assert cleaned[..i + 1][..i] == cleaned[..i];
  }

  /** A line that fails in a prefix makes the whole list fail. */
  lemma KeepLinesPrefixErr(cleaned: seq<string>, n: nat, comment: string)
    requires n <= |cleaned| && KeepLines(cleaned[..n], comment).Err?
    ensures KeepLines(cleaned, comment) == Err(IndexError)
  {
    var j :| 0 <= j < n && cleaned[..n][j] == [];
    assert cleaned[j] == [];
  }

  /**
   `list_from_txt(path, comment)` on the lines the file holds. A path
   containing `.py` is executed instead of read, which yields `None` here.
   */
  method ListFromTxt(textFilePath: string, lines: seq<string>, comment: string)
    returns (r: Result<Option<seq<string>>>)
    ensures Contains(textFilePath, ".py") ==> r == Ok(None)
    ensures !Contains(textFilePath, ".py") && FilterLines(lines, comment).Ok? ==>
              r == Ok(Some(FilterLines(lines, comment).value))
    ensures !Contains(textFilePath, ".py") && FilterLines(lines, comment).Err? ==>
              r == Err(FilterLines(lines, comment).error)
  {
    if Contains(textFilePath, ".py") {
      return Ok(None);
    }
    var data := lines;
    ghost var cleaned := CleanLines(lines);
    var fileList: seq<string> := [];
    var i := 0;
    while i < |data|
      invariant |data| == |lines| && 0 <= i <= |lines|
      invariant forall j :: i <= j < |data| ==> data[j] == lines[j]
      invariant KeepLines(cleaned[..i], comment) == Ok(fileList)
    {
      data := data[i := Strip(data[i], " ")];
      data := data[i := Strip(data[i], "\n")];
      CleanLinesAt(lines, i);
      KeepLinesStep(cleaned, i, comment, fileList);
      var first := PyIndex(data[i], 0);
      if first.Err? {
        KeepLinesPrefixErr(cleaned, i + 1, comment);
        return Err(first.error);
      }
      if [first.value] != comment {
        fileList := fileList + [data[i]];
      }
      i := i + 1;
    }
    assert cleaned[..i] == cleaned;
    r := Ok(Some(fileList));
  }

  /**
   Three lines `x`, `#y`, ` z` (each ending in a newline) give `[x, z]`: the
   comment goes, and of ` z` only the leading space goes; a trailing space
   of `z` stays, because `strip(" ")` runs while the newline still shields it.
   With `x = "a"`, `y = "b"`, `z = "c "` that is `["a", "c "]`.
   */
  lemma FilterLinesSample(x: string, y: string, z: string)
    requires x != [] && x[0] !in " \n#" && x[|x| - 1] !in " \n"
    requires y != [] ==> y[|y| - 1] !in " \n"
    requires z != [] && z[0] !in " \n#" && z[|z| - 1] == ' '
    ensures FilterLines([x + "\n", "#" + y + "\n", " " + z + "\n"], "#") == Ok([x, z])
  {
    var cleaned := CleanLines([x + "\n", "#" + y + "\n", " " + z + "\n"]);
    CleanSampleLines(x, "#" + y, z);
    KeepLinesSample(cleaned);
  }

  /** The three sample lines, cleaned one by one. */
  lemma CleanSampleLines(x: string, hy: string, z: string)
    requires x != [] && x[0] !in " \n#" && x[|x| - 1] !in " \n"
    requires hy != [] && hy[0] == '#' && hy[|hy| - 1] !in " \n"
    requires z != [] && z[0] !in " \n#" && z[|z| - 1] == ' '
    ensures var c := CleanLines([x + "\n", hy + "\n", " " + z + "\n"]);
            |c| == 3 && c[0] == x && c[1] == hy && c[2] == z
  {
    var lines := [x + "\n", hy + "\n", " " + z + "\n"];
    CleanLineDropsNewline(x);
    CleanLineDropsNewline(hy);
    CleanLineDropsSpaceNewline(z);
    assert CleanLine(lines[0]) == x && CleanLine(lines[1]) == hy && CleanLine(lines[2]) == z;
  }

  /** A line whose text neither starts nor ends with a space loses only its newline. */
  lemma CleanLineDropsNewline(text: string)
    requires text != [] && text[0] !in " \n" && text[|text| - 1] !in " \n"
    ensures CleanLine(text + "\n") == text
  {
    var line := text + "\n";
    assert line[0] == text[0] && line[|line| - 1] == '\n';
    StripStable(line, " ");
    assert [] + text + "\n" == line;
    StripPadded([], text, "\n", "\n");
  }

  /** A leading space goes with `strip(" ")`; a space before the newline is shielded by it and stays. */
  lemma CleanLineDropsSpaceNewline(text: string)
    requires text != [] && text[0] !in " \n" && text[|text| - 1] == ' '
    ensures CleanLine(" " + text + "\n") == text
  {
    var mid := text + "\n";
    assert mid[0] == text[0] && mid[|mid| - 1] == '\n';
    assert " " + mid + [] == " " + text + "\n";
    StripPadded(" ", mid, [], " ");
    assert [] + text + "\n" == mid;
    StripPadded([], text, "\n", "\n");
  }

  lemma KeepLinesSample(cleaned: seq<string>)
    requires |cleaned| == 3 && cleaned[0] != [] && cleaned[1] != [] && cleaned[2] != []
    requires cleaned[0][0] != '#' && cleaned[1][0] == '#' && cleaned[2][0] != '#'
    ensures KeepLines(cleaned, "#") == Ok([cleaned[0], cleaned[2]])
  {
    assert cleaned[..0] == [];
    KeepLinesStep(cleaned, 0, "#", []);
    assert [] + [cleaned[0]] == [cleaned[0]];
    assert [cleaned[1][0]] == "#";
    KeepLinesStep(cleaned, 1, "#", [cleaned[0]]);
    assert [cleaned[2][0]] != "#";
    KeepLinesStep(cleaned, 2, "#", [cleaned[0]]);
    assert [cleaned[0]] + [cleaned[2]] == [cleaned[0], cleaned[2]];
    assert cleaned[..3] == cleaned;
  }

  /** A blank line (or one holding only spaces before its newline) makes the whole call fail. */
  lemma FilterLinesBlankLineFails(lines: seq<string>, comment: string, j: nat)
    requires j < |lines| && CleanLine(lines[j]) == []
    ensures FilterLines(lines, comment) == Err(IndexError)
  {
  }

  // ---------------------------------------------------------------------------
  // list_h5_files

  /** The pattern `list_h5_files(searchDir)` hands to `glob`, after the slash fix-up. */
  function H5SearchPattern(searchDir: string): (r: Result<string>)
    ensures r.Ok? <==> searchDir != []
    ensures r.Err? ==> r.error == IndexError
    ensures r.Ok? ==> |searchDir| + 4 <= |r.value| <= |searchDir| + 5 && r.value[..|searchDir|] == searchDir
    ensures r.Ok? && searchDir[|searchDir| - 1] == '/' ==> r.value == searchDir + "*.h5"
    ensures r.Ok? ==> r.value[|r.value| - 5..] == "/*.h5"
  {
    match EnsureTrailingSlash(searchDir)
    case Err(e) => Err(e)
    case Ok(dir) =>
      var pattern := dir + "*.h5";
      assert pattern[|pattern| - 5..] == "/*.h5" by {
        assert pattern[|pattern| - 5] == dir[|dir| - 1];
      }
      Ok(pattern)
  }

  // ---------------------------------------------------------------------------
  // NERSC_ArchivePath and NERSC_RetreiveData

  /** A `filename` argument: one name, or a list of names. */
  datatype FileNames = Single(name: string) | Many(names: seq<string>)

  /** `if type(filename) != list: filename = [filename]`. */
  function AsList(filename: FileNames): (r: seq<string>)
    ensures filename.Single? ==> r == [filename.name]
    ensures filename.Many? ==> r == filename.names
  {
    match filename
    case Single(n) => [n]
    case Many(ns) => ns
  }

  /** `archivepath + useraccount + "/" + f + "/raw/"`: a dataset's raw directory in the archive. */
  function ArchiveDir(archivepath: string, useraccount: string, f: string): string
  {
    archivepath + useraccount + "/" + f + "/raw/"
  }

  /** `NERSC_ArchivePath(filename, useraccount, archivepath)`: one raw directory per name, in order. */
  method ArchivePath(filename: FileNames, useraccount: string, archivepath: string)
    returns (pathOut: seq<string>)
    ensures |pathOut| == |AsList(filename)|
    ensures forall i :: 0 <= i < |pathOut| ==> pathOut[i] == ArchiveDir(archivepath, useraccount, AsList(filename)[i])
  {
    var names := AsList(filename);
    pathOut := [];
    for i := 0 to |names|
      invariant |pathOut| == i
      invariant forall j :: 0 <= j < i ==> pathOut[j] == ArchiveDir(archivepath, useraccount, names[j])
    {
      pathOut := pathOut + [archivepath + useraccount + "/" + names[i] + "/raw/"];
    }
  }

  /**
   `NERSC_RetreiveData` as written: the first iteration of its path loop reads
   the undefined global `useraccount`, so any non-empty list raises NameError.
   */
  function RetrieveDataAsWritten(filename: FileNames, username: string, destinationpath: string, archivepath: string)
    : (r: Result<(seq<string>, seq<string>)>)
    ensures r.Err? <==> |AsList(filename)| > 0
    ensures r.Err? ==> r.error == NameError
  {
    if |AsList(filename)| == 0 then Ok(([], [])) else Err(NameError)
  }

  /** Even a single name fails as the function is written. */
  lemma RetrieveDataAsWrittenFails(f: string, username: string, destinationpath: string)
    ensures RetrieveDataAsWritten(Single(f), username, destinationpath, NerscDefaultPath) == Err(NameError)
  {
  }

  /** The shell command the copy loop runs for one file. */
  function CopyCommand(source: string, destination: string): string
  {
    "cp " + source + " " + destination
  }

  /**
   `NERSC_RetreiveData` with the account taken from its `username` parameter:
   the archive file, the destination file and the copy command of each name.
   */
  method RetrievePaths(filename: FileNames, username: string, destinationpath: string, archivepath: string)
    returns (filePathIn: seq<string>, filePathOut: seq<string>, commands: seq<string>)
    ensures |filePathIn| == |filePathOut| == |commands| == |AsList(filename)|
    ensures forall i :: 0 <= i < |filePathIn| ==>
              filePathIn[i] == ArchiveDir(archivepath, username, AsList(filename)[i]) + AsList(filename)[i] + ".h5"
    ensures forall i :: 0 <= i < |filePathOut| ==> filePathOut[i] == destinationpath + AsList(filename)[i] + ".h5"
    ensures forall i :: 0 <= i < |commands| ==> commands[i] == CopyCommand(filePathIn[i], filePathOut[i])
  {
    var names := AsList(filename);
    filePathIn, filePathOut := [], [];
    for i := 0 to |names|
      invariant |filePathIn| == |filePathOut| == i
      invariant forall j :: 0 <= j < i ==>
                  filePathIn[j] == ArchiveDir(archivepath, username, names[j]) + names[j] + ".h5"
      invariant forall j :: 0 <= j < i ==> filePathOut[j] == destinationpath + names[j] + ".h5"
    {
      filePathIn := filePathIn + [archivepath + username + "/" + names[i] + "/raw/" + names[i] + ".h5"];
      filePathOut := filePathOut + [destinationpath + names[i] + ".h5"];
    }
    commands := [];
    for i := 0 to |names|
      invariant |commands| == i
      invariant forall j :: 0 <= j < i ==> commands[j] == CopyCommand(filePathIn[j], filePathOut[j])
    {
      commands := commands + [CopyCommand(filePathIn[i], filePathOut[i])];
    }
  }

  /**
   An archive directory plus `f.h5` is the file the archive holds, laid out
   exactly as the SPOT download URL lays it out under its own endpoint.
   */
  lemma ArchiveFileMatchesDownloadLayout(archivepath: string, account: string, f: string)
    ensures ArchiveDir(archivepath, account, f) + f + ".h5" == Spot.RawFilePath(archivepath, account, f)
    ensures Spot.RawFilePath(archivepath, account, f)[|archivepath|..] ==
            Spot.RawFilePath(Spot.DownloadBase, account, f)[|Spot.DownloadBase|..]
  {
    Spot.RawFilePathAtBase(archivepath, account, f);
    Spot.RawFilePathAtBase(Spot.DownloadBase, account, f);
  }
}
