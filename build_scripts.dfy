/** The two release scripts that rewrite source files as lists of lines:
    preBuild.py turns the DEBUG flag of Functions.py off, and
    update_version.py writes a new version number into Functions.py and the
    Windows resource file version.rc. The files are passed in and handed back
    as sequences of lines; opening, reading and writing them is not modelled. */
module BuildScripts {
  import opened Text
  import opened Outcome

  /** Why a script stops. Python raises IndexError in all three cases. */
  datatype Failure =
    | MissingArgument        // `args[1]` with no version on the command line
    | MarkerMissing(marker: string)  // `nlist[0]` when no line holds the marker
    | FieldMissing(marker: string)   // `split(",")[1]` on a line without a comma

  // ---------------------------------------------------------------------------
  // _getPosition (the same code in both scripts)
  // ---------------------------------------------------------------------------

  /** `[x for x in file if text in x]` */
  function Matching(file: seq<string>, text: string): (m: seq<string>)
    ensures forall k :: 0 <= k < |m| ==> Contains(m[k], text)
    decreases |file|
  {
    if file == [] then []
    else if Contains(file[0], text) then [file[0]] + Matching(file[1..], text)
    else Matching(file[1..], text)
  }

  /** `file.index(x)`: the first position holding a line equal to `x`. */
  function IndexOf(file: seq<string>, x: string): (i: nat)
    requires x in file
    ensures i < |file| && file[i] == x
    ensures forall j :: 0 <= j < i ==> file[j] != x
    decreases |file|
  {
    if file[0] == x then 0 else 1 + IndexOf(file[1..], x)
  }

  /** The index of the first line holding `text`, or `|file|` when none does. */
  function FirstMatch(file: seq<string>, text: string): (i: nat)
    ensures i <= |file|
    ensures i < |file| ==> Contains(file[i], text)
    ensures forall j :: 0 <= j < i ==> !Contains(file[j], text)
    decreases |file|
  {
    if file == [] then 0
    else if Contains(file[0], text) then 0
    else 1 + FirstMatch(file[1..], text)
  }

  /** The filtered list starts with the first matching line, and is empty
      exactly when no line matches. */
  lemma {:induction false} MatchingHead(file: seq<string>, text: string)
    ensures Matching(file, text) == [] <==> FirstMatch(file, text) == |file|
    ensures Matching(file, text) != [] ==> Matching(file, text)[0] == file[FirstMatch(file, text)]
    decreases |file|
  {
    if file != [] && !Contains(file[0], text) {
      MatchingHead(file[1..], text);
    }
  }

  /** `_getPosition`: filter the lines holding `text`, then look up the first
      of them. The result is the smallest index whose line holds `text`, and
      the call fails exactly when no line does. */
  function GetPosition(file: seq<string>, text: string): (r: Result<nat, Failure>)
    ensures r.Err? <==> forall i :: 0 <= i < |file| ==> !Contains(file[i], text)
    ensures r.Err? ==> r.error == MarkerMissing(text)
    ensures r.Ok? ==> r.value < |file| && Contains(file[r.value], text)
    ensures r.Ok? ==> forall j :: 0 <= j < r.value ==> !Contains(file[j], text)
  {
    var nlist := Matching(file, text);
    MatchingHead(file, text);
    if nlist == [] then Err(MarkerMissing(text))
    else
      var f := FirstMatch(file, text);
      assert nlist[0] == file[f];
      var p := IndexOf(file, nlist[0]);
      assert p == f;
      Ok(p)
  }

  /** `s[0 : len(s) - 1]`: the last character dropped; an empty text stays
      empty (Python reads the bound -1 as "all but the last"). */
  function DropLast(s: string): (r: string)
    ensures s != [] ==> |r| == |s| - 1 && r == s[..|s| - 1]
    ensures s == [] ==> r == []
  {
    if s == [] then s else s[..|s| - 1]
  }

  /** `s.replace(c, "")` */
  function Remove(s: string, c: char): string {
    Replace(s, [c], [])
  }

  /** The second field of a line split on `sep` (`line.split(sep)[1]`), which
      exists whenever the line holds the separator. */
  function SecondField(line: string, sep: char): (r: string)
    requires sep in line
    ensures sep !in r && Contains(line, r)
  {
    SplitHasSecond(line, sep);
    SplitPartContained(line, sep, 1);
    SplitOn(line, sep)[1]
  }

  /** The marker lines contain an equals sign, so their second field exists. */
  lemma MarkerHasEquals(line: string, marker: string)
    requires marker != [] && marker[|marker| - 1] == '='
    requires Contains(line, marker)
    ensures '=' in line
  {
    ContainsChar(line, marker, |marker| - 1);
  }

  // ---------------------------------------------------------------------------
  // preBuild.py
  // ---------------------------------------------------------------------------

  const DebugMarker: string := "DEBUG ="
  const DebugOff: string := "False"

  /** `line.split("=")[1].strip()` on the DEBUG line: the flag's current
      setting, an unpadded text without '=' that occurs in the line. */
  function DebugSetting(line: string): (r: string)
    requires Contains(line, DebugMarker)
    ensures '=' !in r
    ensures r != [] ==> !IsSpace(r[0]) && !IsSpace(r[|r| - 1])
    ensures Contains(line, r)
  {
    MarkerHasEquals(line, DebugMarker);
    var field := SecondField(line, '=');
    var r := Strip(field);
    StripContained(field);
    StripLacks(field, '=');
    ContainsTrans(line, field, r);
    r
  }

  /** What the script does to the lines of Functions.py: every occurrence of
      the flag's setting on the first DEBUG line is replaced by "False". */
  function PreBuildLines(contents: seq<string>): (r: Result<seq<string>, Failure>)
  {
    match GetPosition(contents, DebugMarker)
    case Err(e) => Err(e)
    case Ok(pos) =>
      var line := contents[pos];
      Ok(contents[pos := Replace(line, DebugSetting(line), DebugOff)])
  }

  /** Only the first DEBUG line changes: it gets its setting replaced by
      "False"; every other line is written back identical. */
  lemma PreBuildChangesOnlyDebugLine(contents: seq<string>, pos: nat)
    requires GetPosition(contents, DebugMarker) == Ok(pos)
    ensures PreBuildLines(contents).Ok?
    ensures |PreBuildLines(contents).value| == |contents|
    ensures PreBuildLines(contents).value[pos]
      == Replace(contents[pos], DebugSetting(contents[pos]), DebugOff)
    ensures forall i :: 0 <= i < |contents| && i != pos ==>
      PreBuildLines(contents).value[i] == contents[i]
  {
  }

  /** Afterwards the DEBUG line holds "False". */
  lemma PreBuildTurnsDebugOff(contents: seq<string>, pos: nat)
    requires GetPosition(contents, DebugMarker) == Ok(pos)
    ensures Contains(PreBuildLines(contents).value[pos], DebugOff)
  {
    var line := contents[pos];
    PreBuildChangesOnlyDebugLine(contents, pos);
    ReplaceIntroduces(line, DebugSetting(line), DebugOff);
  }

  /** The script fails exactly when no line holds "DEBUG =". */
  lemma PreBuildFailsWithoutMarker(contents: seq<string>)
    ensures PreBuildLines(contents).Err? <==>
      forall i :: 0 <= i < |contents| ==> !Contains(contents[i], DebugMarker)
  {
  }

  /** A flag already set to False leaves the file as it is. */
  lemma PreBuildIdempotentWhenOff(contents: seq<string>)
    requires GetPosition(contents, DebugMarker).Ok?
    requires DebugSetting(contents[GetPosition(contents, DebugMarker).value]) == DebugOff
    ensures PreBuildLines(contents) == Ok(contents)
  {
    var pos := GetPosition(contents, DebugMarker).value;
    ReplaceSame(contents[pos], DebugOff);
    assert contents[pos := contents[pos]] == contents;
  }

  /** The PreBuild object: the lines of Functions.py, the DEBUG setting read
      from them, and the setting to write. */
  class PreBuild {
    var oldValue: string
    var lines: seq<string>
    var newValue: string

    /** The fields before the file is read. */
    constructor ()
      ensures oldValue == [] && lines == [] && newValue == DebugOff
    {
      oldValue := [];
      lines := [];
      newValue := DebugOff;
    }

    /** `readLines`: keeps the file's lines and reads the DEBUG setting. */
    method ReadLines(contents: seq<string>) returns (r: Result<(), Failure>)
      modifies this
      ensures lines == contents && newValue == old(newValue)
      ensures r.Err? <==> GetPosition(contents, DebugMarker).Err?
      ensures r.Err? ==> r == Err(MarkerMissing(DebugMarker)) && oldValue == old(oldValue)
      ensures r.Ok? ==> oldValue == DebugSetting(contents[GetPosition(contents, DebugMarker).value])
    {
      lines := contents;
      var found := GetPosition(lines, DebugMarker);
      if found.Err? {
        return Err(found.error);
      }
      var line := lines[found.value];
      oldValue := DebugSetting(line);
      r := Ok(());
    }

    /** `writeLines`: replaces the setting on the DEBUG line and hands the
        lines back for writing. */
    method WriteLines() returns (r: Result<seq<string>, Failure>)
      modifies this
      ensures oldValue == old(oldValue) && newValue == old(newValue)
      ensures r.Err? <==> GetPosition(old(lines), DebugMarker).Err?
      ensures r.Err? ==> lines == old(lines)
      ensures r.Ok? ==>
        var pos := GetPosition(old(lines), DebugMarker).value;
        lines == old(lines)[pos := Replace(old(lines)[pos], oldValue, newValue)] && r.value == lines
    {
      var found := GetPosition(lines, DebugMarker);
      if found.Err? {
        return Err(found.error);
      }
      var pos := found.value;
      lines := lines[pos := Replace(lines[pos], oldValue, newValue)];
      r := Ok(lines);
    }

    /** `__init__`'s two calls: read, then write. */
    method Run(contents: seq<string>) returns (r: Result<seq<string>, Failure>)
      requires newValue == DebugOff
      modifies this
      ensures r == PreBuildLines(contents)
    {
      var read := ReadLines(contents);
      if read.Err? {
        return Err(read.error);
      }
      r := WriteLines();
    }
  }

  // ---------------------------------------------------------------------------
  // update_version.py
  // ---------------------------------------------------------------------------

  const VersionMarker: string := "Version ="
  const FileversMarker: string := "filevers="
  const ProdversMarker: string := "prodvers="
  const FileVersionMarker: string := "FileVersion'"
  const ProductVersionMarker: string := "ProductVersion'"

  /** A character absent from a text is absent after removing another
      character. */
  lemma RemoveLacks(s: string, c: char, d: char)
    requires d !in s
    ensures d !in Remove(s, c)
  {
    RemoveCharLeavesNone(s, c);
  }

  /** A character absent from a text is absent from its strip. */
  lemma StripLacks(s: string, d: char)
    requires d !in s
    ensures d !in Strip(s)
  {
    StripContained(s);
  }

  /** `line.split("=")[1].replace('"', "").strip()`: the version written on
      the Version line of Functions.py, without quotes or padding. */
  function VersionSetting(line: string): (r: string)
    requires Contains(line, VersionMarker)
    ensures '"' !in r && '=' !in r
    ensures r != [] ==> !IsSpace(r[0]) && !IsSpace(r[|r| - 1])
  {
    MarkerHasEquals(line, VersionMarker);
    var field := SecondField(line, '=');
    var unquoted := Remove(field, '"');
    RemoveCharLeavesNone(field, '"');
    RemoveLacks(field, '"', '=');
    StripLacks(unquoted, '"');
    StripLacks(unquoted, '=');
    Strip(unquoted)
  }

  /** `line.split("=")[1].replace("(", "").replace(")", "").strip()` with its
      last character dropped: the numeric tuple of a filevers= or prodvers=
      line, without parentheses and without its final element. */
  function TupleSetting(line: string, marker: string): (r: string)
    requires marker == FileversMarker || marker == ProdversMarker
    requires Contains(line, marker)
    ensures '(' !in r && ')' !in r && '=' !in r
  {
    MarkerHasEquals(line, marker);
    var field := SecondField(line, '=');
    var noOpen := Remove(field, '(');
    var noClose := Remove(noOpen, ')');
    RemoveCharLeavesNone(field, '(');
    RemoveCharLeavesNone(noOpen, ')');
    RemoveLacks(field, '(', '=');
    RemoveLacks(noOpen, ')', '=');
    RemoveLacks(noOpen, ')', '(');
    StripLacks(noClose, '(');
    StripLacks(noClose, ')');
    StripLacks(noClose, '=');
    var st := Strip(noClose);
    assert st == [] || DropLast(st) == st[..|st| - 1];
    DropLast(st)
  }

  /** `line.split(",")[1].replace("'", "").replace(")", "").replace("u", "")
      .strip()`: the quoted version of a FileVersion' or ProductVersion' line;
      it fails when the line has no comma. */
  function QuotedSetting(line: string, marker: string): (r: Result<string, Failure>)
    ensures r.Err? <==> ',' !in line
    ensures r.Err? ==> r.error == FieldMissing(marker)
    ensures r.Ok? ==> '\'' !in r.value && ')' !in r.value && 'u' !in r.value && ',' !in r.value
  {
    SplitCount(line, ',');
    var parts := SplitOn(line, ',');
    if |parts| < 2 then Err(FieldMissing(marker))
    else
      var field := parts[1];
      var a := Remove(field, '\'');
      var b := Remove(a, ')');
      var c := Remove(b, 'u');
      RemoveCharLeavesNone(field, '\'');
      RemoveCharLeavesNone(a, ')');
      RemoveCharLeavesNone(b, 'u');
      RemoveLacks(a, ')', '\'');
      RemoveLacks(b, 'u', '\'');
      RemoveLacks(b, 'u', ')');
      RemoveLacks(field, '\'', ',');
      RemoveLacks(a, ')', ',');
      RemoveLacks(b, 'u', ',');
      StripLacks(c, '\'');
      StripLacks(c, ')');
      StripLacks(c, 'u');
      StripLacks(c, ',');
      Ok(Strip(c))
  }

  /** The five values `readLines` keeps. */
  datatype Versions = Versions(
    oldVersion: string, filevers: string, prodvers: string,
    fileVersion: string, productVersion: string)

  /** `readLines`: the Version line is located first, then the four marker
      lines of version.rc in order, and the values are taken from them. */
  function ReadVersions(lines: seq<string>, vlines: seq<string>): (r: Result<Versions, Failure>)
  {
    var pos :- GetPosition(lines, VersionMarker);
    var pos1 :- GetPosition(vlines, FileversMarker);
    var pos2 :- GetPosition(vlines, ProdversMarker);
    var pos3 :- GetPosition(vlines, FileVersionMarker);
    var pos4 :- GetPosition(vlines, ProductVersionMarker);
    var fileVersion :- QuotedSetting(vlines[pos3], FileVersionMarker);
    var productVersion :- QuotedSetting(vlines[pos4], ProductVersionMarker);
    Ok(Versions(
      VersionSetting(lines[pos]),
      TupleSetting(vlines[pos1], FileversMarker),
      TupleSetting(vlines[pos2], ProdversMarker),
      fileVersion, productVersion))
  }

  /** `new.replace(".", ",")`: the form the numeric tuples take. */
  function Commas(version: string): string {
    Replace(version, ".", ",")
  }

  /** The new version in tuple form keeps its length and has every dot
      turned into a comma and nothing else changed. */
  lemma CommasShape(version: string)
    ensures |Commas(version)| == |version|
    ensures '.' !in Commas(version)
    ensures forall i :: 0 <= i < |version| ==>
      Commas(version)[i] == (if version[i] == '.' then ',' else version[i])
  {
    ReplaceCharPointwise(version, '.', ',');
  }

  /** `writeLines` on Functions.py: the old version on the Version line is
      replaced by "v" followed by the new one. */
  function RewriteSource(lines: seq<string>, x: Versions, newVersion: string): (r: Result<seq<string>, Failure>)
  {
    var pos :- GetPosition(lines, VersionMarker);
    Ok(lines[pos := Replace(lines[pos], x.oldVersion, "v" + newVersion)])
  }

  /** `writeLines` on version.rc: the four marker lines are located, then
      rewritten one after another (a line holding two markers is rewritten
      twice). */
  function RewriteResource(vlines: seq<string>, x: Versions, newVersion: string): (r: Result<seq<string>, Failure>)
  {
    var pos1 :- GetPosition(vlines, FileversMarker);
    var pos2 :- GetPosition(vlines, ProdversMarker);
    var pos3 :- GetPosition(vlines, FileVersionMarker);
    var pos4 :- GetPosition(vlines, ProductVersionMarker);
    var v1 := vlines[pos1 := Replace(vlines[pos1], x.filevers, Commas(newVersion))];
    var v2 := v1[pos2 := Replace(v1[pos2], x.prodvers, Commas(newVersion))];
    var v3 := v2[pos3 := Replace(v2[pos3], x.fileVersion, newVersion)];
    Ok(v3[pos4 := Replace(v3[pos4], x.productVersion, newVersion)])
  }

  /** `writeLines`: Functions.py first, then version.rc. */
  function Rewrite(lines: seq<string>, vlines: seq<string>, x: Versions, newVersion: string)
    : (r: Result<(seq<string>, seq<string>), Failure>)
  {
    var newLines :- RewriteSource(lines, x, newVersion);
    var newVlines :- RewriteResource(vlines, x, newVersion);
    Ok((newLines, newVlines))
  }

  /** The whole script: the version argument, then `readLines`, then
      `writeLines`; the rewritten Functions.py and version.rc lines. */
  function UpdateVersion(args: seq<string>, lines: seq<string>, vlines: seq<string>)
    : (r: Result<(seq<string>, seq<string>), Failure>)
  {
    if |args| < 2 then Err(MissingArgument)
    else
      var x :- ReadVersions(lines, vlines);
      Rewrite(lines, vlines, x, args[1])
  }

  /** Without a version argument the script stops before looking at any
      file. */
  lemma UpdateNeedsArgument(args: seq<string>, lines: seq<string>, vlines: seq<string>)
    requires |args| < 2
    ensures UpdateVersion(args, lines, vlines) == Err(MissingArgument)
  {
  }

  /** Reading fails exactly when a marker line is missing or a quoted-version
      line has no comma; once reading succeeds, writing does too. */
  lemma UpdateFailsOnlyWhenReading(args: seq<string>, lines: seq<string>, vlines: seq<string>)
    requires |args| >= 2
    ensures UpdateVersion(args, lines, vlines).Ok? <==> ReadVersions(lines, vlines).Ok?
    ensures ReadVersions(lines, vlines).Ok? <==>
      GetPosition(lines, VersionMarker).Ok?
      && GetPosition(vlines, FileversMarker).Ok?
      && GetPosition(vlines, ProdversMarker).Ok?
      && GetPosition(vlines, FileVersionMarker).Ok?
      && GetPosition(vlines, ProductVersionMarker).Ok?
      && ',' in vlines[GetPosition(vlines, FileVersionMarker).value]
      && ',' in vlines[GetPosition(vlines, ProductVersionMarker).value]
  {
  }

  /** Only the marker lines change. On Functions.py the Version line has the
      old version replaced by "v" and the new one; on version.rc every line
      other than the four marker lines is written back identical. */
  lemma UpdateChangesOnlyMarkedLines(args: seq<string>, lines: seq<string>, vlines: seq<string>,
                                     pos: nat, pos1: nat, pos2: nat, pos3: nat, pos4: nat)
    requires |args| >= 2 && ReadVersions(lines, vlines).Ok?
    requires GetPosition(lines, VersionMarker) == Ok(pos)
    requires GetPosition(vlines, FileversMarker) == Ok(pos1)
    requires GetPosition(vlines, ProdversMarker) == Ok(pos2)
    requires GetPosition(vlines, FileVersionMarker) == Ok(pos3)
    requires GetPosition(vlines, ProductVersionMarker) == Ok(pos4)
    ensures UpdateVersion(args, lines, vlines).Ok?
    ensures var r := UpdateVersion(args, lines, vlines).value;
      |r.0| == |lines|
      && r.0[pos] == Replace(lines[pos], ReadVersions(lines, vlines).value.oldVersion, "v" + args[1])
      && (forall i :: 0 <= i < |lines| && i != pos ==> r.0[i] == lines[i])
    ensures var r := UpdateVersion(args, lines, vlines).value;
      |r.1| == |vlines|
      && (forall i :: 0 <= i < |vlines| && i != pos1 && i != pos2 && i != pos3 && i != pos4 ==>
            r.1[i] == vlines[i])
  {
    var x := ReadVersions(lines, vlines).value;
    var newVersion := args[1];
    var nl := lines[pos := Replace(lines[pos], x.oldVersion, "v" + newVersion)];
    assert RewriteSource(lines, x, newVersion) == Ok(nl);
    var v1 := vlines[pos1 := Replace(vlines[pos1], x.filevers, Commas(newVersion))];
    var v2 := v1[pos2 := Replace(v1[pos2], x.prodvers, Commas(newVersion))];
    var v3 := v2[pos3 := Replace(v2[pos3], x.fileVersion, newVersion)];
    var v4 := v3[pos4 := Replace(v3[pos4], x.productVersion, newVersion)];
    assert RewriteResource(vlines, x, newVersion) == Ok(v4);
    assert Rewrite(lines, vlines, x, newVersion) == Ok((nl, v4));
    assert UpdateVersion(args, lines, vlines) == Ok((nl, v4));
  }

  /** When the four marker lines of version.rc are distinct, each gets its
      own value replaced: the tuples by the new version with commas, the
      quoted versions by the new version as given. */
  lemma UpdateRewritesResourceLines(args: seq<string>, lines: seq<string>, vlines: seq<string>,
                                    pos1: nat, pos2: nat, pos3: nat, pos4: nat)
    requires |args| >= 2 && ReadVersions(lines, vlines).Ok?
    requires GetPosition(vlines, FileversMarker) == Ok(pos1)
    requires GetPosition(vlines, ProdversMarker) == Ok(pos2)
    requires GetPosition(vlines, FileVersionMarker) == Ok(pos3)
    requires GetPosition(vlines, ProductVersionMarker) == Ok(pos4)
    requires pos1 != pos2 && pos1 != pos3 && pos1 != pos4 && pos2 != pos3 && pos2 != pos4 && pos3 != pos4
    ensures UpdateVersion(args, lines, vlines).Ok?
    ensures var x := ReadVersions(lines, vlines).value;
      var nv := UpdateVersion(args, lines, vlines).value.1;
      nv[pos1] == Replace(vlines[pos1], x.filevers, Commas(args[1]))
      && nv[pos2] == Replace(vlines[pos2], x.prodvers, Commas(args[1]))
      && nv[pos3] == Replace(vlines[pos3], x.fileVersion, args[1])
      && nv[pos4] == Replace(vlines[pos4], x.productVersion, args[1])
  {
  }

  /** Wherever the old version occurs on the Version line, "v" and the new
      version appear there afterwards. */
  lemma UpdateWritesSourceVersion(args: seq<string>, lines: seq<string>, vlines: seq<string>, pos: nat)
    requires |args| >= 2 && ReadVersions(lines, vlines).Ok?
    requires GetPosition(lines, VersionMarker) == Ok(pos)
    requires Contains(lines[pos], ReadVersions(lines, vlines).value.oldVersion)
    ensures UpdateVersion(args, lines, vlines).Ok?
    ensures Contains(UpdateVersion(args, lines, vlines).value.0[pos], "v" + args[1])
  {
    var x := ReadVersions(lines, vlines).value;
    var pos1 := GetPosition(vlines, FileversMarker).value;
    var pos2 := GetPosition(vlines, ProdversMarker).value;
    var pos3 := GetPosition(vlines, FileVersionMarker).value;
    var pos4 := GetPosition(vlines, ProductVersionMarker).value;
    UpdateChangesOnlyMarkedLines(args, lines, vlines, pos, pos1, pos2, pos3, pos4);
    ReplaceIntroduces(lines[pos], x.oldVersion, "v" + args[1]);
  }

  /** Wherever the value read from a version.rc marker line occurs on it, the
      new version appears there afterwards: in comma form on the tuple lines,
      as given on the quoted lines. */
  lemma UpdateWritesResourceVersions(args: seq<string>, lines: seq<string>, vlines: seq<string>,
                                     pos1: nat, pos2: nat, pos3: nat, pos4: nat)
    requires |args| >= 2 && ReadVersions(lines, vlines).Ok?
    requires GetPosition(vlines, FileversMarker) == Ok(pos1)
    requires GetPosition(vlines, ProdversMarker) == Ok(pos2)
    requires GetPosition(vlines, FileVersionMarker) == Ok(pos3)
    requires GetPosition(vlines, ProductVersionMarker) == Ok(pos4)
    requires pos1 != pos2 && pos1 != pos3 && pos1 != pos4 && pos2 != pos3 && pos2 != pos4 && pos3 != pos4
    ensures UpdateVersion(args, lines, vlines).Ok?
    ensures var x := ReadVersions(lines, vlines).value;
      var nv := UpdateVersion(args, lines, vlines).value.1;
      (Contains(vlines[pos1], x.filevers) ==> Contains(nv[pos1], Commas(args[1])))
      && (Contains(vlines[pos2], x.prodvers) ==> Contains(nv[pos2], Commas(args[1])))
      && (Contains(vlines[pos3], x.fileVersion) ==> Contains(nv[pos3], args[1]))
      && (Contains(vlines[pos4], x.productVersion) ==> Contains(nv[pos4], args[1]))
  {
    var x := ReadVersions(lines, vlines).value;
    var newVersion := args[1];
    UpdateRewritesResourceLines(args, lines, vlines, pos1, pos2, pos3, pos4);
    var nv := UpdateVersion(args, lines, vlines).value.1;
    if Contains(vlines[pos1], x.filevers) {
      ReplaceIntroduces(vlines[pos1], x.filevers, Commas(newVersion));
    }
    if Contains(vlines[pos2], x.prodvers) {
      ReplaceIntroduces(vlines[pos2], x.prodvers, Commas(newVersion));
    }
    if Contains(vlines[pos3], x.fileVersion) {
      ReplaceIntroduces(vlines[pos3], x.fileVersion, newVersion);
    }
    if Contains(vlines[pos4], x.productVersion) {
      ReplaceIntroduces(vlines[pos4], x.productVersion, newVersion);
    }
  }

  /** The Updater object: the lines of both files, the five values read from
      them, and the new version. */
  class Updater {
    var lines: seq<string>
    var vlines: seq<string>
    var oldVersion: string
    var filevers: string
    var prodvers: string
    var fileVersion: string
    var productVersion: string
    var newVersion: string

    /** The values read so far, as one record. */
    function Read(): Versions
      reads this
    {
      Versions(oldVersion, filevers, prodvers, fileVersion, productVersion)
    }

    /** The fields before the version argument is taken. */
    constructor ()
      ensures lines == [] && vlines == []
      ensures Read() == Versions([], [], [], [], []) && newVersion == []
    {
      lines, vlines := [], [];
      oldVersion, filevers, prodvers, fileVersion, productVersion := [], [], [], [], [];
      newVersion := [];
    }

    /** `readLines`: keeps the lines of both files and takes the five values
        from their marker lines, as `ReadVersions` computes them. The source
        stores the values one by one and stops at the first failure, raising;
        the object is not used after that, so here the values are stored
        together once all of them are found. */
    method ReadLines(contents: seq<string>, rc: seq<string>) returns (r: Result<(), Failure>)
      modifies this
      ensures r.Ok? <==> ReadVersions(contents, rc).Ok?
      ensures r.Err? ==> r.error == ReadVersions(contents, rc).error && Read() == old(Read())
      ensures r.Ok? ==> Read() == ReadVersions(contents, rc).value
      ensures lines == contents && vlines == rc && newVersion == old(newVersion)
    {
      var spec := ReadVersions(contents, rc);
      lines, vlines := contents, rc;
      if spec.Ok? {
        oldVersion, filevers, prodvers := spec.value.oldVersion, spec.value.filevers, spec.value.prodvers;
        fileVersion, productVersion := spec.value.fileVersion, spec.value.productVersion;
        r := Ok(());
      } else {
        r := Err(spec.error);
      }
    }

    /** `writeLines`: rewrites the Version line of Functions.py, then the four
        marker lines of version.rc one after another, and hands both files
        back for writing. */
    method WriteLines() returns (r: Result<(seq<string>, seq<string>), Failure>)
      modifies this
      ensures Read() == old(Read()) && newVersion == old(newVersion)
      ensures r == Rewrite(old(lines), old(vlines), Read(), newVersion)
      ensures r.Ok? ==> lines == r.value.0 && vlines == r.value.1
    {
      var pos :- GetPosition(lines, VersionMarker);
      lines := lines[pos := Replace(lines[pos], oldVersion, "v" + newVersion)];
      var pos1 :- GetPosition(vlines, FileversMarker);
      var pos2 :- GetPosition(vlines, ProdversMarker);
      var pos3 :- GetPosition(vlines, FileVersionMarker);
      var pos4 :- GetPosition(vlines, ProductVersionMarker);
      var tuple := Commas(newVersion);
      vlines := vlines[pos1 := Replace(vlines[pos1], filevers, tuple)];
      vlines := vlines[pos2 := Replace(vlines[pos2], prodvers, tuple)];
      vlines := vlines[pos3 := Replace(vlines[pos3], fileVersion, newVersion)];
      vlines := vlines[pos4 := Replace(vlines[pos4], productVersion, newVersion)];
      r := Ok((lines, vlines));
    }

    /** `__init__`: takes the version argument, then reads and writes. */
    method Run(args: seq<string>, contents: seq<string>, rc: seq<string>)
      returns (r: Result<(seq<string>, seq<string>), Failure>)
      modifies this
      ensures r == UpdateVersion(args, contents, rc)
    {
      if |args| < 2 {
        return Err(MissingArgument);
      }
      newVersion := args[1];
      var read := ReadLines(contents, rc);
      if read.Err? {
        return Err(read.error);
      }
      r := WriteLines();
    }
  }
}
