/** The slash paths of the live preview (frontend/src/components/PreviewPanel.js):
    folder and file paths built by walking parent links, the key a path is
    stored under, and the resolution of relative import specifiers. */
module PreviewPaths {
  import opened Strings
  import opened FileModel

  // ---------------------------------------------------------------------
  // Folder paths

  /** `getFolderPath(id)`: "" for an id that is no folder, "/name" for a
      folder at the root, and otherwise the parent's path, "/" and the
      name; a parent that is no folder contributes "". `visited` holds the
      folders whose paths are being computed around this call: meeting one
      again means the parent links loop and the recursion overflows the
      stack, which is `None`. */
  function FolderPathFrom(folders: map<Id, FileRecord>, id: Id, visited: set<Id>): (r: Option<string>)
    ensures id !in folders ==> r == Some("")
    ensures r.Some? && id in folders ==> |r.value| > 0 && r.value[0] == '/'
    decreases folders.Keys - visited
  {
    if id !in folders then Some("")
    else if id in visited then None
    else
      var folder := folders[id];
      if folder.parentId.None? then Some("/" + folder.name)
      else
        var parentPath := FolderPathFrom(folders, folder.parentId.value, visited + {id});
        if parentPath.None? then None else Some(parentPath.value + "/" + folder.name)
  }

  function FolderPath(folders: map<Id, FileRecord>, id: Id): Option<string> {
    FolderPathFrom(folders, id, {})
  }

  /** `rank` puts the parent of every folder whose parent is a folder
      strictly below it: the folder links have no cycle. */
  predicate RankedFolders(folders: map<Id, FileRecord>, rank: Id -> nat) {
    forall x | x in folders && folders[x].parentId.Some? && folders[x].parentId.value in folders ::
      rank(folders[x].parentId.value) < rank(x)
  }

  /** Without cycles, the folders being walked around a call do not change
      its path. */
  lemma {:induction false} FolderPathVisited(folders: map<Id, FileRecord>, rank: Id -> nat, id: Id, visited: set<Id>)
    requires RankedFolders(folders, rank)
    requires forall v | v in visited :: rank(id) < rank(v)
    ensures FolderPathFrom(folders, id, visited).Some?
    ensures FolderPathFrom(folders, id, visited) == FolderPath(folders, id)
    decreases rank(id)
  {
    assert id !in visited;
    assert {} + {id} == {id};
    if id in folders && folders[id].parentId.Some? && folders[id].parentId.value in folders {
      var p := folders[id].parentId.value;
      FolderPathVisited(folders, rank, p, visited + {id});
      FolderPathVisited(folders, rank, p, {id});
    }
  }

  /** Without cycles every folder has a path: "/name" at the root or under
      a parent that is no folder, the parent's path, "/" and the name below
      a folder. */
  lemma FolderPathCases(folders: map<Id, FileRecord>, rank: Id -> nat, id: Id)
    requires RankedFolders(folders, rank) && id in folders
    ensures FolderPath(folders, id).Some?
    ensures folders[id].parentId.None? ==> FolderPath(folders, id) == Some("/" + folders[id].name)
    ensures folders[id].parentId.Some? && folders[id].parentId.value !in folders ==>
      FolderPath(folders, id) == Some("/" + folders[id].name)
    ensures folders[id].parentId.Some? && folders[id].parentId.value in folders ==>
      FolderPath(folders, folders[id].parentId.value).Some?
      && FolderPath(folders, id).value == FolderPath(folders, folders[id].parentId.value).value + "/" + folders[id].name
  {
    FolderPathVisited(folders, rank, id, {});
    var name := folders[id].name;
    if folders[id].parentId.Some? {
      var p := folders[id].parentId.value;
      assert {} + {id} == {id};
      if p in folders {
        FolderPathVisited(folders, rank, p, {id});
      } else {
        assert FolderPathFrom(folders, p, {id}) == Some("");
        assert "" + "/" + name == "/" + name;
      }
    }
  }

  /** A folder that is its own parent sends `getFolderPath` into endless
      recursion. */
  lemma SelfParentOverflows(folders: map<Id, FileRecord>, id: Id)
    requires id in folders && folders[id].parentId == Some(id)
    ensures FolderPath(folders, id).None?
  {
    assert {} + {id} == {id};
    assert FolderPathFrom(folders, id, {id}).None?;
  }

  /** `folderPathMap`: the path of every folder, `None` when one of them
      overflows. */
  function FolderPaths(folders: map<Id, FileRecord>): (r: Option<map<Id, string>>)
    ensures r.Some? <==> forall id | id in folders :: FolderPath(folders, id).Some?
    ensures r.Some? ==> r.value.Keys == folders.Keys
    ensures r.Some? ==> forall id | id in folders :: Some(r.value[id]) == FolderPath(folders, id)
  {
    if forall id | id in folders :: FolderPath(folders, id).Some? then
      Some(map id | id in folders :: FolderPath(folders, id).value)
    else None
  }

  /** Without cycles no folder overflows. */
  lemma RankedFoldersHavePaths(folders: map<Id, FileRecord>, rank: Id -> nat)
    requires RankedFolders(folders, rank)
    ensures FolderPaths(folders).Some?
  {
    forall id | id in folders
      ensures FolderPath(folders, id).Some?
    {
      FolderPathCases(folders, rank, id);
    }
  }

  // ---------------------------------------------------------------------
  // File paths

  /** Folder paths as `getFolderPath` produces them: each starts with '/'. */
  predicate Rooted(folderPaths: map<Id, string>) {
    forall id | id in folderPaths :: |folderPaths[id]| > 0 && folderPaths[id][0] == '/'
  }

  /** The path `filePathMap` records for a file: its folder's path, or ""
      at the root and under an id that is no folder, then "/" and the name. */
  function FilePathOf(file: FileRecord, folderPaths: map<Id, string>): (r: string)
    ensures EndsWith(r, "/" + file.name)
    ensures Rooted(folderPaths) ==> StartsWith(r, "/")
  {
    var dir := if file.parentId.Some? && file.parentId.value in folderPaths then folderPaths[file.parentId.value] else "";
    var path := if file.parentId.None? then "/" + file.name else dir + "/" + file.name;
    assert path == (if file.parentId.None? then "" else dir) + ("/" + file.name);
    assert path[|path| - |"/" + file.name|..] == "/" + file.name;
    assert |path| > 0 && path[0] == (if file.parentId.None? || dir == "" then '/' else dir[0]);
    path
  }

  /** The directory an import is resolved against, `filePath.substring(0,
      filePath.lastIndexOf('/'))`, is the folder's path the file path was
      built from. */
  lemma DirectoryOfFilePath(file: FileRecord, folderPaths: map<Id, string>)
    requires Free(file.name, '/')
    ensures file.parentId.None? ==> BeforeLast(FilePathOf(file, folderPaths), '/') == ""
    ensures file.parentId.Some? && file.parentId.value in folderPaths ==>
      BeforeLast(FilePathOf(file, folderPaths), '/') == folderPaths[file.parentId.value]
  {
    if file.parentId.None? {
      BeforeLastOfJoined("", file.name, '/');
      assert "" + "/" + file.name == "/" + file.name;
    } else if file.parentId.value in folderPaths {
      BeforeLastOfJoined(folderPaths[file.parentId.value], file.name, '/');
    }
  }

  /** `filePathMap`: for every id of a file (not a folder), the path of the
      last file listed with it. */
  function FilePaths(fs: seq<FileRecord>, folderPaths: map<Id, string>): (r: map<Id, string>)
    ensures forall id :: id in r <==> exists i | 0 <= i < |fs| :: fs[i].id == id && fs[i].kind == File
  {
    if |fs| == 0 then map[]
    else
      var init := fs[..|fs| - 1];
      assert forall i | 0 <= i < |init| :: init[i] == fs[i];
      var m := FilePaths(init, folderPaths);
      var f := fs[|fs| - 1];
      if f.kind == File then m[f.id := FilePathOf(f, folderPaths)] else m
  }

  /** Every recorded path is the path of a file listed with that id. */
  lemma {:induction false} FilePathsFromFiles(fs: seq<FileRecord>, folderPaths: map<Id, string>)
    ensures forall id | id in FilePaths(fs, folderPaths) ::
      exists i | 0 <= i < |fs| :: fs[i].id == id && fs[i].kind == File && FilePaths(fs, folderPaths)[id] == FilePathOf(fs[i], folderPaths)
  {
    if |fs| > 0 {
      var init := fs[..|fs| - 1];
      assert forall i | 0 <= i < |init| :: init[i] == fs[i];
      FilePathsFromFiles(init, folderPaths);
    }
  }

  /** The last file listed with an id decides its path. */
  lemma {:induction false} FilePathsLastWins(fs: seq<FileRecord>, folderPaths: map<Id, string>, i: nat)
    requires i < |fs| && fs[i].kind == File
    requires forall j | i < j < |fs| :: fs[j].id != fs[i].id
    ensures FilePaths(fs, folderPaths)[fs[i].id] == FilePathOf(fs[i], folderPaths)
  {
    if i < |fs| - 1 {
      var init := fs[..|fs| - 1];
      FilePathsLastWins(init, folderPaths, i);
    }
  }

  /** Under rooted folder paths every file path starts with '/'. */
  lemma FilePathsRooted(fs: seq<FileRecord>, folderPaths: map<Id, string>)
    requires Rooted(folderPaths)
    ensures forall id | id in FilePaths(fs, folderPaths) :: StartsWith(FilePaths(fs, folderPaths)[id], "/")
  {
    FilePathsFromFiles(fs, folderPaths);
  }

  lemma FolderPathsRooted(folders: map<Id, FileRecord>)
    requires FolderPaths(folders).Some?
    ensures Rooted(FolderPaths(folders).value)
  {
    forall id | id in folders
      ensures |FolderPaths(folders).value[id]| > 0 && FolderPaths(folders).value[id][0] == '/'
    {
      assert Some(FolderPaths(folders).value[id]) == FolderPath(folders, id);
    }
  }

  /** The key a path is stored under in the module map: the path without
      its leading '/'. */
  function Normalize(path: string): (r: string)
    ensures StartsWith(path, "/") ==> "/" + r == path
    ensures !StartsWith(path, "/") ==> r == path
  {
    if StartsWith(path, "/") then path[1..] else path
  }

  // ---------------------------------------------------------------------
  // Relative imports

  /** Only specifiers starting "./" or "../" are resolved. */
  predicate IsRelative(spec: string) {
    StartsWith(spec, "./") || StartsWith(spec, "../")
  }

  /** One turn of `resolveRelativePath`'s loop: "." is skipped, ".." pops
      (an empty stack stays empty), any other part is pushed. */
  function Step(stack: seq<string>, part: string): seq<string> {
    if part == "." then stack
    else if part == ".." then (if |stack| == 0 then stack else stack[..|stack| - 1])
    else stack + [part]
  }

  function Walk(stack: seq<string>, parts: seq<string>): seq<string>
    decreases |parts|
  {
    if |parts| == 0 then stack else Walk(Step(stack, parts[0]), parts[1..])
  }

  /** `stack.pop()`, which leaves an empty stack empty. */
  function Pop(stack: seq<string>): seq<string> {
    if |stack| == 0 then stack else stack[..|stack| - 1]
  }

  /** `resolveRelativePath(base, relative)` as written: the last segment
      of `base` is popped before the walk, although callers pass a
      directory, and '/' is put before a join whose first segment is
      already the empty one in front of base's leading '/'. */
  function ResolvedAsWritten(base: string, relative: string): string {
    "/" + Join(Walk(Pop(Split(base, '/')), Split(relative, '/')), '/')
  }

  /** The stack walk of `resolveRelativePath`. */
  method ResolveRelativePath(base: string, relative: string) returns (r: string)
    ensures r == ResolvedAsWritten(base, relative)
  {
    var stack := Split(base, '/');
    if |stack| > 0 {
      stack := stack[..|stack| - 1];
    }
    var parts := Split(relative, '/');
    ghost var start := stack;
    for i := 0 to |parts|
      invariant Walk(stack, parts[i..]) == Walk(start, parts)
    {
      assert parts[i..][1..] == parts[i + 1..];
      if parts[i] == "." {
        continue;
      }
      if parts[i] == ".." {
        if |stack| > 0 {
          stack := stack[..|stack| - 1];
        }
      } else {
        stack := stack + [parts[i]];
      }
    }
    assert parts[|parts|..] == [];
    r := "/" + Join(stack, '/');
  }

  lemma SplitTwo(a: string, b: string)
    requires Free(a, '/') && Free(b, '/')
    ensures Split(a + "/" + b, '/') == [a, b]
  {
    SplitPrefix(a, b, '/');
    SplitFree(b, '/');
  }

  /** Importing "./n" from a file in the top-level folder "/d" resolves to
      "//n" rather than "/d/n": the folder is popped and the slash doubled. */
  lemma {:induction false} AsWrittenDropsFolder(d: string, n: string)
    requires Free(d, '/') && Free(n, '/') && n != "." && n != ".."
    ensures ResolvedAsWritten("/" + d, "./" + n) == "//" + n
  {
    var base := "/" + d;
    var relative := "./" + n;
    assert Split(base, '/') == ["", d] by {
      assert "" + "/" + d == base;
      SplitTwo("", d);
    }
    assert Split(relative, '/') == [".", n] by {
      assert "." + "/" + n == relative;
      SplitTwo(".", n);
    }
    var start := Pop(["", d]);
    assert start == [""];
    var walked := Walk(start, [".", n]);
    assert walked == ["", n] by {
      assert [".", n][1..] == [n] && [n][1..] == [];
      assert Step([""], ".") == [""];
      assert Walk([""], [".", n]) == Walk([""], [n]);
      assert Step([""], n) == ["", n];
      assert Walk([""], [n]) == Walk(["", n], []);
    }
    assert Join(["", n], '/') == "/" + n by {
      assert ["", n][1..] == [n];
      assert "" + "/" + n == "/" + n;
    }
    assert ResolvedAsWritten(base, relative) == "/" + Join(walked, '/');
  }

  /** The case behind the finding: `./Header` imported from /src/App.js
      resolves to "//Header" instead of "/src/Header". */
  lemma AsWrittenHeaderExample()
    ensures ResolvedAsWritten("/src", "./Header") == "//Header"
  {
    assert "/" + "src" == "/src";
    assert "./" + "Header" == "./Header";
    assert "//" + "Header" == "//Header";
    AsWrittenDropsFolder("src", "Header");
  }

  lemma CorrectedHeaderExample()
    ensures ResolveRelative("/src", "./Header") == "/src/Header"
  {
    assert Directory(["src"]) == "/src";
    assert "./" + "Header" == "./Header";
    assert "/src" + "/" + "Header" == "/src/Header";
    ResolveRelativeSibling(["src"], "Header");
  }

  /** The directory a list of folder names denotes: "" at the root. */
  function Directory(segments: seq<string>): string {
    if |segments| == 0 then "" else "/" + Join(segments, '/')
  }

  /** The evident intent: `dir` is already the importing file's directory
      ("" or starting with '/'), so the walk starts from all its folder
      names and the leading '/' is written once. */
  function ResolveRelative(dir: string, relative: string): string {
    var segments := if dir == "" then [] else Split(dir, '/')[1..];
    "/" + Join(Walk(segments, Split(relative, '/')), '/')
  }

  lemma {:induction false} JoinAppend(parts: seq<string>, x: string, c: char)
    requires |parts| > 0
    ensures Join(parts + [x], c) == Join(parts, c) + [c] + x
  {
    if |parts| > 1 {
      JoinAppend(parts[1..], x, c);
      assert (parts + [x])[1..] == parts[1..] + [x];
    } else {
      assert (parts + [x])[1..] == [x];
    }
  }

  lemma SplitDirectory(segments: seq<string>)
    requires |segments| > 0 && forall k | 0 <= k < |segments| :: Free(segments[k], '/')
    ensures Split(Directory(segments), '/')[1..] == segments
  {
    SplitJoin(segments, '/');
    SplitPrefix("", Join(segments, '/'), '/');
    assert "" + "/" + Join(segments, '/') == Directory(segments);
  }

  /** The corrected resolver puts "./n" in the importing file's folder. */
  lemma ResolveRelativeSibling(segments: seq<string>, n: string)
    requires forall k | 0 <= k < |segments| :: Free(segments[k], '/')
    requires Free(n, '/') && n != "." && n != ".."
    ensures ResolveRelative(Directory(segments), "./" + n) == Directory(segments) + "/" + n
  {
    var dir := Directory(segments);
    assert Split("./" + n, '/') == [".", n] by {
      assert "." + "/" + n == "./" + n;
      SplitTwo(".", n);
    }
    assert Walk(segments, [".", n]) == segments + [n] by {
      assert [".", n][1..] == [n] && [n][1..] == [];
      assert Walk(segments, [".", n]) == Walk(segments, [n]);
      assert Walk(segments, [n]) == Walk(segments + [n], []);
    }
    if |segments| == 0 {
      assert dir == "";
      assert [] + [n] == [n];
      assert Join([n], '/') == n;
      assert "" + "/" + n == "/" + n;
    } else {
      assert Split(dir, '/')[1..] == segments by { SplitDirectory(segments); }
      assert Join(segments + [n], '/') == Join(segments, '/') + "/" + n by { JoinAppend(segments, n, '/'); }
    }
  }

  /** ... and "../n" in the folder above it. */
  lemma ResolveRelativeParent(segments: seq<string>, n: string)
    requires |segments| > 0 && forall k | 0 <= k < |segments| :: Free(segments[k], '/')
    requires Free(n, '/') && n != "." && n != ".."
    ensures ResolveRelative(Directory(segments), "../" + n) == Directory(segments[..|segments| - 1]) + "/" + n
  {
    var dir := Directory(segments);
    var up := segments[..|segments| - 1];
    assert Split("../" + n, '/') == ["..", n] by {
      assert ".." + "/" + n == "../" + n;
      SplitTwo("..", n);
    }
    assert Split(dir, '/')[1..] == segments by { SplitDirectory(segments); }
    assert Walk(segments, ["..", n]) == up + [n] by {
      assert ["..", n][1..] == [n] && [n][1..] == [];
      assert Walk(segments, ["..", n]) == Walk(up, [n]);
      assert Walk(up, [n]) == Walk(up + [n], []);
    }
    assert ResolveRelative(dir, "../" + n) == "/" + Join(up + [n], '/');
    if |up| > 0 {
      assert Join(up + [n], '/') == Join(up, '/') + "/" + n by { JoinAppend(up, n, '/'); }
    } else {
      assert up + [n] == [n];
      assert "" + "/" + n == "/" + n;
    }
  }

  /** `absoluteImportPath += '.js'` unless it ends in ".js" or ".jsx". */
  function WithJsExtension(path: string): (r: string)
    ensures EndsWith(r, ".js") || EndsWith(r, ".jsx")
    ensures EndsWith(path, ".js") || EndsWith(path, ".jsx") ==> r == path
    ensures |path| <= |r| <= |path| + 3 && r[..|path|] == path
  {
    if EndsWith(path, ".js") || EndsWith(path, ".jsx") then path
    else
      assert (path + ".js")[|path + ".js"| - 3..] == ".js";
      path + ".js"
  }

  /** Completing an extension twice adds nothing more. */
  lemma WithJsExtensionIdempotent(path: string)
    ensures WithJsExtension(WithJsExtension(path)) == WithJsExtension(path)
  { }
}
