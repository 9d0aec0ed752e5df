/**
 * Workspace opening and creation (QArcGISLib/QWorkspace.cs): the
 * classification of a database path by its extension and the guards and
 * factory routing of OpenWorkSpace and CreateWorkSpace.
 *
 * The workspace factories are engine objects: the model returns the factory
 * call an operation would make rather than the workspace the engine would
 * hand back. The System.IO.Path helpers the source relies on are modelled
 * below for Windows separators.
 */
module QWorkspace {
  import opened QEnum

  // ---------------------------------------------------------------------------
  // System.IO.Path, as far as the source relies on it
  // ---------------------------------------------------------------------------

  /** Directory separator, alternative separator and volume separator. */
  predicate IsSeparator(c: char) {
    c == '\\' || c == '/' || c == ':'
  }

  /**
   * Path.GetExtension: scanning back from the end, the text from the last '.'
   * that comes after the last separator; "" when there is none or when that
   * '.' is the last character.
   */
  function GetExtension(path: string): (e: string)
    ensures e == "" || (|e| >= 2 && e[0] == '.' && |e| <= |path| && path[|path| - |e|..] == e)
  {
    ExtensionFrom(path, |path|)
  }

  function ExtensionFrom(path: string, i: nat): (e: string)
    requires i <= |path|
    ensures e == "" || (|e| >= 2 && e[0] == '.' && |e| <= |path| && path[|path| - |e|..] == e)
  {
    if i == 0 then ""
    else if path[i - 1] == '.' then
      if i - 1 != |path| - 1 then path[i - 1..] else ""
    else if IsSeparator(path[i - 1]) then ""
    else ExtensionFrom(path, i - 1)
  }

  /** The part of a path after its last separator. */
  function GetFileName(path: string): (name: string)
    ensures |name| <= |path| && path[|path| - |name|..] == name
    ensures forall k :: 0 <= k < |name| ==> !IsSeparator(name[k])
  {
    if path == [] then ""
    else if IsSeparator(path[|path| - 1]) then ""
    else GetFileName(path[..|path| - 1]) + [path[|path| - 1]]
  }

  /** The part of a path before its last separator; "" when it has none. */
  function GetDirectoryName(path: string): (dir: string)
    ensures |dir| < |path| || path == []
    ensures dir <= path
  {
    if path == [] then ""
    else if IsSeparator(path[|path| - 1]) then path[..|path| - 1]
    else GetDirectoryName(path[..|path| - 1])
  }

  /**
   * A path built from a directory, a separator and a file name splits back
   * into that directory and that file name.
   */
  lemma {:induction false} PathSplitsIntoDirectoryAndName(dir: string, sep: char, name: string)
    requires IsSeparator(sep)
    requires forall k :: 0 <= k < |name| ==> !IsSeparator(name[k])
    ensures GetDirectoryName(dir + [sep] + name) == dir
    ensures GetFileName(dir + [sep] + name) == name
  {
    if name == [] {
      assert dir + [sep] + name == dir + [sep];
      assert (dir + [sep])[..|dir + [sep]| - 1] == dir;
    } else {
      var shorter := name[..|name| - 1];
      assert (dir + [sep] + name)[..|dir + [sep] + name| - 1] == dir + [sep] + shorter;
      PathSplitsIntoDirectoryAndName(dir, sep, shorter);
      assert name == shorter + [name[|name| - 1]];
    }
  }

  /**
   * A file name ending in "." followed by a non-empty run of characters that
   * are neither dots nor separators has exactly that extension, whatever
   * precedes it.
   */
  lemma {:induction false} ExtensionOfSuffix(path: string, ext: string, i: nat)
    requires |ext| >= 2 && ext[0] == '.'
    requires forall k :: 1 <= k < |ext| ==> ext[k] != '.' && !IsSeparator(ext[k])
    requires |path| - |ext| < i <= |path| && |ext| <= |path| && path[|path| - |ext|..] == ext
    ensures ExtensionFrom(path, i) == ext
  {
    var start := |path| - |ext|;
    if i - 1 == start {
      assert path[i - 1] == ext[0];
      assert path[i - 1..] == ext;
    } else {
      assert path[i - 1] == ext[i - 1 - start];
      ExtensionOfSuffix(path, ext, i - 1);
    }
  }

  lemma ExtensionOfAppended(stem: string, ext: string)
    requires |ext| >= 2 && ext[0] == '.'
    requires forall k :: 1 <= k < |ext| ==> ext[k] != '.' && !IsSeparator(ext[k])
    ensures GetExtension(stem + ext) == ext
  {
    var path := stem + ext;
    assert path[|path| - |ext|..] == ext;
    ExtensionOfSuffix(path, ext, |path|);
  }

  // ---------------------------------------------------------------------------
  // Ordinal, case-insensitive comparison
  // ---------------------------------------------------------------------------

  /** Case folding of ASCII letters, which is all the extensions compared here need. */
  function ToLowerAscii(c: char): (l: char)
    ensures 'A' <= c <= 'Z' ==> l as int == c as int + 32
    ensures !('A' <= c <= 'Z') ==> l == c
  {
    if 'A' <= c <= 'Z' then (c as int + 32) as char else c
  }

  /** String.Equals(a, b, StringComparison.OrdinalIgnoreCase) for ASCII text. */
  predicate EqualsIgnoreCase(a: string, b: string) {
    |a| == |b| && forall k :: 0 <= k < |a| ==> ToLowerAscii(a[k]) == ToLowerAscii(b[k])
  }

  lemma EqualsIgnoreCaseIsEquivalence(a: string, b: string, c: string)
    ensures EqualsIgnoreCase(a, a)
    ensures EqualsIgnoreCase(a, b) ==> EqualsIgnoreCase(b, a)
    ensures EqualsIgnoreCase(a, b) && EqualsIgnoreCase(b, c) ==> EqualsIgnoreCase(a, c)
  {
  }

  // ---------------------------------------------------------------------------
  // GetDatabaseType: both overloads
  // ---------------------------------------------------------------------------

  predicate IsGdb(ext: string) { EqualsIgnoreCase(ext, ".gdb") }
  predicate IsMdb(ext: string) { EqualsIgnoreCase(ext, ".mdb") }
  predicate IsShp(ext: string) { EqualsIgnoreCase(ext, ".shp") }

  /** True when the extension of the path is one of the three the library supports. */
  predicate Supported(path: string) {
    var e := GetExtension(path);
    IsGdb(e) || IsMdb(e) || IsShp(e)
  }

  /**
   * The private overload: (found, new value of the ref `type`). The codes are
   * 0 for .gdb, 1 for .mdb and 2 for .shp; an unsupported extension returns
   * false and the code passed in.
   */
  function GetDatabaseTypeCode(filepath: string, code: int): (r: (bool, int))
    ensures r.0 <==> Supported(filepath)
    ensures !r.0 ==> r.1 == code
    ensures r.0 ==> 0 <= r.1 <= 2
  {
    var sExt := GetExtension(filepath);
    if IsGdb(sExt) then (true, 0)
    else if IsMdb(sExt) then (true, 1)
    else if IsShp(sExt) then (true, 2)
    else (false, code)
  }

  /**
   * The public overload: (found, new value of the ref `type`). .gdb is a file
   * geodatabase, .mdb a personal geodatabase and .shp a shapefile; an
   * unsupported extension returns false and the type passed in.
   */
  function GetDatabaseType(filepath: string, gdbType: EGdbType): (r: (bool, EGdbType))
    ensures r.0 <==> Supported(filepath)
    ensures !r.0 ==> r.1 == gdbType
  {
    var sExt := GetExtension(filepath);
    if IsGdb(sExt) then (true, FileGeodatabase)
    else if IsMdb(sExt) then (true, PersonGeodatabase)
    else if IsShp(sExt) then (true, Shapefile)
    else (false, gdbType)
  }

  /** The private code of a type: not the numeric value of the enumeration for .gdb and .mdb. */
  function PrivateCode(t: EGdbType): int {
    match t
    case FileGeodatabase => 0
    case PersonGeodatabase => 1
    case Shapefile => 2
  }

  /**
   * The two overloads accept exactly the same paths and agree on the type;
   * the private code differs from the enumeration's numeric value for .gdb
   * and .mdb, which is harmless because each code is read only by its own
   * overload's caller.
   */
  lemma OverloadsAgree(filepath: string, code: int, gdbType: EGdbType)
    ensures GetDatabaseTypeCode(filepath, code).0 == GetDatabaseType(filepath, gdbType).0
    ensures GetDatabaseType(filepath, gdbType).0 ==>
      GetDatabaseTypeCode(filepath, code).1 == PrivateCode(GetDatabaseType(filepath, gdbType).1)
    ensures PrivateCode(FileGeodatabase) != GdbTypeCode(FileGeodatabase)
    ensures PrivateCode(PersonGeodatabase) != GdbTypeCode(PersonGeodatabase)
  {
  }

  /**
   * The classification is case-insensitive: paths whose extensions differ
   * only in letter case get the same answer.
   */
  lemma ClassificationIgnoresCase(p1: string, p2: string, gdbType: EGdbType)
    requires EqualsIgnoreCase(GetExtension(p1), GetExtension(p2))
    ensures GetDatabaseType(p1, gdbType) == GetDatabaseType(p2, gdbType)
  {
    var e1, e2 := GetExtension(p1), GetExtension(p2);
    EqualsIgnoreCaseIsEquivalence(e1, e2, ".gdb");
    EqualsIgnoreCaseIsEquivalence(e2, e1, ".gdb");
    EqualsIgnoreCaseIsEquivalence(e1, e2, ".mdb");
    EqualsIgnoreCaseIsEquivalence(e2, e1, ".mdb");
    EqualsIgnoreCaseIsEquivalence(e1, e2, ".shp");
    EqualsIgnoreCaseIsEquivalence(e2, e1, ".shp");
  }

  /** How the three supported extensions compare with each other, ignoring case (a helper for the lemmas below). */
  lemma LiteralExtensions()
    ensures IsGdb(".gdb") && !IsMdb(".gdb") && !IsShp(".gdb")
    ensures IsGdb(".GDB")
    ensures !IsGdb(".mdb") && IsMdb(".mdb") && !IsShp(".mdb")
    ensures !IsGdb(".shp") && !IsMdb(".shp") && IsShp(".shp")
    ensures !IsGdb(".Shp") && !IsMdb(".Shp") && IsShp(".Shp")
  {
    assert ToLowerAscii(".gdb"[1]) != ToLowerAscii(".mdb"[1]);
    assert ToLowerAscii(".gdb"[1]) != ToLowerAscii(".shp"[1]);
    assert ToLowerAscii(".mdb"[1]) != ToLowerAscii(".shp"[1]);
    assert ToLowerAscii(".Shp"[1]) != ToLowerAscii(".gdb"[1]);
    assert ToLowerAscii(".Shp"[1]) != ToLowerAscii(".mdb"[1]);
    assert forall k :: 0 <= k < 4 ==> ToLowerAscii(".GDB"[k]) == ToLowerAscii(".gdb"[k]);
    assert forall k :: 0 <= k < 4 ==> ToLowerAscii(".Shp"[k]) == ToLowerAscii(".shp"[k]);
  }

  /** The type of a path with an appended extension is decided by that extension alone. */
  lemma DatabaseTypeOfAppended(stem: string, ext: string, gdbType: EGdbType)
    requires |ext| >= 2 && ext[0] == '.'
    requires forall k :: 1 <= k < |ext| ==> ext[k] != '.' && !IsSeparator(ext[k])
    ensures GetDatabaseType(stem + ext, gdbType)
         == if IsGdb(ext) then (true, FileGeodatabase)
            else if IsMdb(ext) then (true, PersonGeodatabase)
            else if IsShp(ext) then (true, Shapefile)
            else (false, gdbType)
  {
    ExtensionOfAppended(stem, ext);
  }

  /** Appending .gdb, in any letter case, makes a file-geodatabase path. */
  lemma AppendedGdbClassifies(stem: string, gdbType: EGdbType)
    ensures GetDatabaseType(stem + ".gdb", gdbType) == (true, FileGeodatabase)
    ensures GetDatabaseType(stem + ".GDB", gdbType) == (true, FileGeodatabase)
  {
    DatabaseTypeOfAppended(stem, ".gdb", gdbType);
    DatabaseTypeOfAppended(stem, ".GDB", gdbType);
    assert IsGdb(".gdb") && IsGdb(".GDB") by { LiteralExtensions(); }
  }

  /** Appending .mdb makes a personal-geodatabase path. */
  lemma AppendedMdbClassifies(stem: string, gdbType: EGdbType)
    ensures GetDatabaseType(stem + ".mdb", gdbType) == (true, PersonGeodatabase)
  {
    DatabaseTypeOfAppended(stem, ".mdb", gdbType);
    assert !IsGdb(".mdb") && IsMdb(".mdb") by { LiteralExtensions(); }
  }

  /** Appending .shp, in any letter case, makes a shapefile path. */
  lemma AppendedShpClassifies(stem: string, gdbType: EGdbType)
    ensures GetDatabaseType(stem + ".shp", gdbType) == (true, Shapefile)
    ensures GetDatabaseType(stem + ".Shp", gdbType) == (true, Shapefile)
  {
    DatabaseTypeOfAppended(stem, ".shp", gdbType);
    DatabaseTypeOfAppended(stem, ".Shp", gdbType);
    assert !IsGdb(".shp") && !IsMdb(".shp") && IsShp(".shp") by { LiteralExtensions(); }
    assert !IsGdb(".Shp") && !IsMdb(".Shp") && IsShp(".Shp") by { LiteralExtensions(); }
  }

  // ---------------------------------------------------------------------------
  // OpenWorkSpace and CreateWorkSpace: guards and routing
  // ---------------------------------------------------------------------------

  /** The three workspace factories. */
  datatype Factory = FileGDBWorkspaceFactory | AccessWorkspaceFactory | ShapefileWorkspaceFactory

  /** The factory call an operation makes. */
  datatype FactoryCall =
    | OpenFromFile(factory: Factory, path: string)
    | CreateThenOpen(factory: Factory, dir: string, name: string)

  /** An operation either reaches a factory call or returns null with an error message. */
  datatype WorkspaceRequest = Call(call: FactoryCall) | Error(message: string)

  const MSG_PATH_EMPTY: string := "文件路径为空！"
  const MSG_TYPE_NOT_SUPPORTED: string := "数据类型暂不支持！"

  /** The factory each database type is opened and created with. */
  function FactoryFor(t: EGdbType): Factory {
    match t
    case FileGeodatabase => FileGDBWorkspaceFactory
    case PersonGeodatabase => AccessWorkspaceFactory
    case Shapefile => ShapefileWorkspaceFactory
  }

  /**
   * OpenWorkSpace(path, type): the factory of the type opens the path, except
   * that a shapefile opens the directory that contains it.
   */
  function OpenWorkSpaceTyped(dbPath: string, dbType: EGdbType): (r: FactoryCall)
    ensures r.OpenFromFile? && r.factory == FactoryFor(dbType)
    ensures r.path == if dbType == Shapefile then GetDirectoryName(dbPath) else dbPath
  {
    if dbType == FileGeodatabase then OpenFromFile(FileGDBWorkspaceFactory, dbPath)
    else if dbType == PersonGeodatabase then OpenFromFile(AccessWorkspaceFactory, dbPath)
    else OpenFromFile(ShapefileWorkspaceFactory, GetDirectoryName(dbPath))
  }

  /**
   * OpenWorkSpace(path): an empty path and an unsupported extension are
   * rejected, in that order, before any factory is used; otherwise the typed
   * overload runs with the classified type.
   */
  function OpenWorkSpace(dbPath: string): (r: WorkspaceRequest)
    ensures dbPath == "" ==> r == Error(MSG_PATH_EMPTY)
    ensures dbPath != "" && !Supported(dbPath) ==> r == Error(MSG_TYPE_NOT_SUPPORTED)
    ensures r.Call? <==> dbPath != "" && Supported(dbPath)
  {
    if dbPath == "" then Error(MSG_PATH_EMPTY)
    else
      var (found, t) := GetDatabaseType(dbPath, FileGeodatabase);
      if !found then Error(MSG_TYPE_NOT_SUPPORTED)
      else Call(OpenWorkSpaceTyped(dbPath, t))
  }

  /**
   * CreateWorkSpace: the same two guards; then .gdb and .mdb create the
   * database named by the file name in the containing directory, and .shp
   * opens the containing directory.
   */
  function CreateWorkSpace(gdbPath: string): (r: WorkspaceRequest)
    ensures gdbPath == "" ==> r == Error(MSG_PATH_EMPTY)
    ensures gdbPath != "" && !Supported(gdbPath) ==> r == Error(MSG_TYPE_NOT_SUPPORTED)
    ensures r.Call? <==> gdbPath != "" && Supported(gdbPath)
  {
    if gdbPath == "" then Error(MSG_PATH_EMPTY)
    else
      var fileName := GetFileName(gdbPath);
      var filePath := GetDirectoryName(gdbPath);
      var (found, code) := GetDatabaseTypeCode(gdbPath, -1);
      if !found then Error(MSG_TYPE_NOT_SUPPORTED)
      else if code == 0 then Call(CreateThenOpen(FileGDBWorkspaceFactory, filePath, fileName))
      else if code == 1 then Call(CreateThenOpen(AccessWorkspaceFactory, filePath, fileName))
      else Call(OpenFromFile(ShapefileWorkspaceFactory, filePath))
  }

  /** The factory a call goes to. */
  function CallFactory(c: FactoryCall): Factory {
    c.factory
  }

  /**
   * CreateWorkSpace routes every path exactly as OpenWorkSpace does: the same
   * errors for the same paths, and otherwise the same factory. A shapefile
   * is opened, never created, and both operations open its directory.
   */
  lemma CreateRoutesLikeOpen(path: string)
    ensures OpenWorkSpace(path).Error? <==> CreateWorkSpace(path).Error?
    ensures OpenWorkSpace(path).Error? ==> OpenWorkSpace(path) == CreateWorkSpace(path)
    ensures OpenWorkSpace(path).Call? ==>
      CallFactory(OpenWorkSpace(path).call) == CallFactory(CreateWorkSpace(path).call)
    ensures OpenWorkSpace(path).Call? && OpenWorkSpace(path).call.factory == ShapefileWorkspaceFactory ==>
      CreateWorkSpace(path) == OpenWorkSpace(path) == Call(OpenFromFile(ShapefileWorkspaceFactory, GetDirectoryName(path)))
  {
    OverloadsAgree(path, -1, FileGeodatabase);
  }

  /** A file name with the shapefile extension appended has no separator if its stem has none. */
  lemma ShapefileNameHasNoSeparator(stem: string)
    requires forall k :: 0 <= k < |stem| ==> !IsSeparator(stem[k])
    ensures forall k :: 0 <= k < |stem + ".shp"| ==> !IsSeparator((stem + ".shp")[k])
  {
    var name := stem + ".shp";
    forall k | 0 <= k < |name|
      ensures !IsSeparator(name[k])
    {
      if k >= |stem| {
        assert name[k] == ".shp"[k - |stem|];
      }
    }
  }

  /** A shapefile given as directory + separator + file name opens that directory. */
  lemma ShapefileOpensItsDirectory(dir: string, sep: char, stem: string)
    requires IsSeparator(sep)
    requires forall k :: 0 <= k < |stem| ==> !IsSeparator(stem[k])
    ensures OpenWorkSpace(dir + [sep] + stem + ".shp") == Call(OpenFromFile(ShapefileWorkspaceFactory, dir))
    ensures CreateWorkSpace(dir + [sep] + stem + ".shp") == Call(OpenFromFile(ShapefileWorkspaceFactory, dir))
  {
    var path := dir + [sep] + stem + ".shp";
    var name := stem + ".shp";
    assert path == dir + [sep] + name;
    ShapefileNameHasNoSeparator(stem);
    PathSplitsIntoDirectoryAndName(dir, sep, name);
    assert GetDirectoryName(path) == dir;
    AppendedShpClassifies(dir + [sep] + stem, FileGeodatabase);
    assert GetDatabaseType(path, FileGeodatabase) == (true, Shapefile);
    CreateRoutesLikeOpen(path);
  }
}
