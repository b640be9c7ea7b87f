/** `formatFilesForSandpack` and the fallback of `PreviewPanel`
    (frontend/src/components/PreviewPanel.js): the module map handed to the
    in-browser bundler, keyed by path without the leading '/'. Extracting
    import specifiers with the regular expression is a given function
    `importsOf` from source text to specifiers. */
module Preview {
  import opened Strings
  import opened FileModel
  import opened PreviewPaths
  import Organize

  datatype SandpackFile = SandpackFile(code: string, active: bool)

  type Modules = map<string, SandpackFile>

  const IndexHtmlTemplate: string :=
    "<!DOCTYPE html>\n"
    + "<html lang=\"en\">\n"
    + "  <head>\n"
    + "    <meta charset=\"utf-8\" />\n"
    + "    <meta name=\"viewport\" content=\"width=device-width, initial-scale=1\" />\n"
    + "    <title>CipherSchools React App</title>\n"
    + "  </head>\n"
    + "  <body>\n"
    + "    <div id=\"root\"></div>\n"
    + "  </body>\n"
    + "</html>"

  const IndexJsTemplate: string :=
    "import React from 'react';\n"
    + "import ReactDOM from 'react-dom/client';\n"
    + "import App from './App';\n"
    + "\n"
    + "const root = ReactDOM.createRoot(document.getElementById('root'));\n"
    + "root.render(\n"
    + "  <React.StrictMode>\n"
    + "    <App />\n"
    + "  </React.StrictMode>\n"
    + ");"

  const AppJsTemplate: string :=
    "import React from 'react';\n"
    + "\n"
    + "function App() {\n"
    + "  return (\n"
    + "    <div className=\"App\">\n"
    + "      <h1>Welcome to CipherSchools</h1>\n"
    + "      <p>Start editing to see some magic happen!</p>\n"
    + "    </div>\n"
    + "  );\n"
    + "}\n"
    + "\n"
    + "export default App;"

  const ErrorAppText: string :=
    "export default function App() {\n"
    + "  return (\n"
    + "    <div style={{ padding: 20 }}>\n"
    + "      <h1 style={{ color: \"red\" }}>Preview Error</h1>\n"
    + "      <p>There was an error preparing files for preview.</p>\n"
    + "      <p>Try refreshing the preview or check your file structure.</p>\n"
    + "    </div>\n"
    + "  );\n"
    + "}"

  const ErrorIndexText: string :=
    "import React from \"react\";\n"
    + "import ReactDOM from \"react-dom\";\n"
    + "import App from \"./App\";\n"
    + "\n"
    + "ReactDOM.render(<App />, document.getElementById(\"root\"));"

  // ---------------------------------------------------------------------
  // The lookup maps

  /** The folders of the list, in order. */
  function FoldersOf(fs: seq<FileRecord>): (r: seq<FileRecord>)
    ensures forall f | f in r :: f in fs && f.kind == Folder
    ensures forall f | f in fs && f.kind == Folder :: f in r
  {
    if |fs| == 0 then []
    else
      var init := fs[..|fs| - 1];
      assert forall f | f in init :: f in fs;
      assert forall f | f in fs :: f in init || f == fs[|fs| - 1];
      FoldersOf(init) + (if fs[|fs| - 1].kind == Folder then [fs[|fs| - 1]] else [])
  }

  /** `folderMap`: the last folder listed with each id. */
  function FolderMapOf(fs: seq<FileRecord>): map<Id, FileRecord> {
    Organize.ById(FoldersOf(fs))
  }

  /** The first loop: `fileMap` and `folderMap`, each id to the last record
      (folder) listed with it. */
  method MapRecords(files: seq<FileRecord>) returns (fileMap: map<Id, FileRecord>, folderMap: map<Id, FileRecord>)
    ensures fileMap == Organize.ById(files)
    ensures folderMap == FolderMapOf(files)
  {
    fileMap, folderMap := map[], map[];
    for i := 0 to |files|
      invariant fileMap == Organize.ById(files[..i])
      invariant folderMap == Organize.ById(FoldersOf(files[..i]))
    {
      var file := files[i];
      MapRecordsStep(files, i);
      fileMap := fileMap[file.id := file];
      if file.kind == Folder {
        folderMap := folderMap[file.id := file];
      }
    }
    assert files[..|files|] == files;
  }

  /** One more record of the first loop: both maps gain it under its id,
      the folder map only when it is a folder. */
  lemma MapRecordsStep(files: seq<FileRecord>, i: nat)
    requires i < |files|
    ensures Organize.ById(files[..i + 1]) == Organize.ById(files[..i])[files[i].id := files[i]]
    ensures Organize.ById(FoldersOf(files[..i + 1]))
      == if files[i].kind == Folder then Organize.ById(FoldersOf(files[..i]))[files[i].id := files[i]]
         else Organize.ById(FoldersOf(files[..i]))
  {
    var prefix := files[..i + 1];
    assert prefix[..i] == files[..i] && prefix[i] == files[i];
    var folders := FoldersOf(files[..i]);
    if files[i].kind == Folder {
      assert FoldersOf(prefix) == folders + [files[i]];
      assert (folders + [files[i]])[..|folders|] == folders;
    } else {
      assert FoldersOf(prefix) == folders;
    }
  }

  /** The `folderPathMap` loop over the folder ids; `None` when
      `getFolderPath` overflows on one of them. */
  method MapFolderPaths(folderMap: map<Id, FileRecord>) returns (folderPaths: Option<map<Id, string>>)
    ensures folderPaths == FolderPaths(folderMap)
  {
    var paths: map<Id, string> := map[];
    var rest := folderMap.Keys;
    while rest != {}
      invariant rest <= folderMap.Keys
      invariant paths.Keys == folderMap.Keys - rest
      invariant forall id | id in paths :: Some(paths[id]) == FolderPath(folderMap, id)
      decreases rest
    {
      var id :| id in rest;
      var path := FolderPath(folderMap, id);
      if path.None? {
        return None;
      }
      paths := paths[id := path.value];
      rest := rest - {id};
    }
    folderPaths := Some(paths);
    assert paths == FolderPaths(folderMap).value;
  }

  /** The `filePathMap` loop. */
  method MapFilePaths(files: seq<FileRecord>, folderPaths: map<Id, string>) returns (filePaths: map<Id, string>)
    ensures filePaths == FilePaths(files, folderPaths)
  {
    filePaths := map[];
    for i := 0 to |files|
      invariant filePaths == FilePaths(files[..i], folderPaths)
    {
      var file := files[i];
      FilePathsStep(files, folderPaths, i);
      if file.kind == File {
        var path;
        if file.parentId.None? {
          path := "/" + file.name;
        } else {
          var parentPath := if file.parentId.value in folderPaths then folderPaths[file.parentId.value] else "";
          path := parentPath + "/" + file.name;
        }
        assert path == FilePathOf(file, folderPaths);
        filePaths := filePaths[file.id := path];
      }
    }
    assert files[..|files|] == files;
  }

  lemma FilePathsStep(fs: seq<FileRecord>, folderPaths: map<Id, string>, i: nat)
    requires i < |fs|
    ensures FilePaths(fs[..i + 1], folderPaths)
      == if fs[i].kind == File then FilePaths(fs[..i], folderPaths)[fs[i].id := FilePathOf(fs[i], folderPaths)]
         else FilePaths(fs[..i], folderPaths)
  {
    assert fs[..i + 1][..i] == fs[..i];
  }

  // ---------------------------------------------------------------------
  // The entry file

  /** A file named exactly "App.js" whose recorded path contains "/src/". */
  predicate IsEntry(f: FileRecord, filePaths: map<Id, string>) {
    f.name == "App.js" && f.kind == File
    && Contains(if f.id in filePaths then filePaths[f.id] else "", "/src/")
  }

  /** `appJsId`: the id of the first entry candidate in list order. */
  function EntryOf(fs: seq<FileRecord>, filePaths: map<Id, string>): (r: Option<Id>)
    ensures r.None? <==> forall i | 0 <= i < |fs| :: !IsEntry(fs[i], filePaths)
    ensures r.Some? ==> exists i | 0 <= i < |fs| ::
      IsEntry(fs[i], filePaths) && fs[i].id == r.value && forall j | 0 <= j < i :: !IsEntry(fs[j], filePaths)
  {
    if |fs| == 0 then None
    else if IsEntry(fs[0], filePaths) then Some(fs[0].id)
    else
      var r := EntryOf(fs[1..], filePaths);
      assert forall i | 1 <= i < |fs| :: fs[1..][i - 1] == fs[i];
      r
  }

  /** The loop that looks for `App.js`, leaving at the first candidate. */
  method FindEntry(files: seq<FileRecord>, filePaths: map<Id, string>) returns (appJsId: Option<Id>)
    ensures appJsId == EntryOf(files, filePaths)
  {
    var i := 0;
    while i < |files|
      invariant 0 <= i <= |files|
      invariant EntryOf(files[i..], filePaths) == EntryOf(files, filePaths)
    {
      if files[i].name == "App.js" && files[i].kind == File {
        var path := if files[i].id in filePaths then filePaths[files[i].id] else "";
        if Contains(path, "/src/") {
          return Some(files[i].id);
        }
      }
      assert files[i..][1..] == files[i + 1..];
      i := i + 1;
    }
    return None;
  }

  // ---------------------------------------------------------------------
  // The module map

  /** A record that gets an entry: a file whose recorded path is non-empty. */
  predicate Contributes(f: FileRecord, filePaths: map<Id, string>) {
    f.kind == File && f.id in filePaths && filePaths[f.id] != ""
  }

  /** The entry of a file: its content, active when it is the entry file. */
  function ModuleOf(f: FileRecord, entry: Option<Id>): SandpackFile {
    SandpackFile(f.content, entry == Some(f.id))
  }

  /** The key whose assignment on a plain object replaces the object's
      prototype instead of adding an entry. */
  const ProtoKey: string := "__proto__"

  /** `sandpackFiles[key] = v` on the plain object `{}`: an entry is added
      or replaced, except under `ProtoKey`, which adds none. */
  function Assigned(m: Modules, key: string, v: SandpackFile): Modules {
    if key == ProtoKey then m else m[key := v]
  }

  /** The map after the loop over the files: every contributing file under
      its normalised path; a later file with the same key replaces an
      earlier one. A root file named "__proto__" gets no entry. */
  function SandpackOf(fs: seq<FileRecord>, filePaths: map<Id, string>, entry: Option<Id>): (r: Modules)
    ensures forall i | 0 <= i < |fs| && Contributes(fs[i], filePaths) && Normalize(filePaths[fs[i].id]) != ProtoKey ::
      Normalize(filePaths[fs[i].id]) in r
    ensures ProtoKey !in r
  {
    if |fs| == 0 then map[]
    else
      var init := fs[..|fs| - 1];
      assert forall i | 0 <= i < |init| :: init[i] == fs[i];
      var m := SandpackOf(init, filePaths, entry);
      var f := fs[|fs| - 1];
      if Contributes(f, filePaths) then Assigned(m, Normalize(filePaths[f.id]), ModuleOf(f, entry)) else m
  }

  /** Every entry comes from a contributing file with that key. */
  lemma {:induction false} SandpackFromFiles(fs: seq<FileRecord>, filePaths: map<Id, string>, entry: Option<Id>)
    ensures forall k | k in SandpackOf(fs, filePaths, entry) :: exists i | 0 <= i < |fs| ::
      Contributes(fs[i], filePaths) && Normalize(filePaths[fs[i].id]) == k && SandpackOf(fs, filePaths, entry)[k] == ModuleOf(fs[i], entry)
  {
    if |fs| > 0 {
      var init := fs[..|fs| - 1];
      assert forall i | 0 <= i < |init| :: init[i] == fs[i];
      SandpackFromFiles(init, filePaths, entry);
    }
  }

  /** The last contributing file with a key decides its entry. */
  lemma {:induction false} SandpackLastWins(fs: seq<FileRecord>, filePaths: map<Id, string>, entry: Option<Id>, i: nat)
    requires i < |fs| && Contributes(fs[i], filePaths)
    requires forall j | i < j < |fs| && Contributes(fs[j], filePaths) :: Normalize(filePaths[fs[j].id]) != Normalize(filePaths[fs[i].id])
    ensures Normalize(filePaths[fs[i].id]) != ProtoKey ==>
      SandpackOf(fs, filePaths, entry)[Normalize(filePaths[fs[i].id])] == ModuleOf(fs[i], entry)
  {
    if i < |fs| - 1 {
      var init := fs[..|fs| - 1];
      assert forall j | 0 <= j < |init| :: init[j] == fs[j];
      SandpackLastWins(init, filePaths, entry, i);
    }
  }

  /** Only the entry file's key can be active. */
  lemma ActiveIsEntry(fs: seq<FileRecord>, filePaths: map<Id, string>, entry: Option<Id>)
    ensures forall k | k in SandpackOf(fs, filePaths, entry) && SandpackOf(fs, filePaths, entry)[k].active ::
      entry.Some? && entry.value in filePaths && k == Normalize(filePaths[entry.value])
  {
    SandpackFromFiles(fs, filePaths, entry);
  }

  /** The loop over the files, setting the two flags as it goes. */
  method AddFiles(files: seq<FileRecord>, filePaths: map<Id, string>, appJsId: Option<Id>)
    returns (sandpack: Modules, hasIndexHtml: bool, hasIndexJs: bool)
    ensures sandpack == SandpackOf(files, filePaths, appJsId)
    ensures hasIndexHtml <==> "index.html" in sandpack
    ensures hasIndexJs <==> "src/index.js" in sandpack
  {
    sandpack, hasIndexHtml, hasIndexJs := map[], false, false;
    for i := 0 to |files|
      invariant sandpack == SandpackOf(files[..i], filePaths, appJsId)
      invariant hasIndexHtml <==> "index.html" in sandpack
      invariant hasIndexJs <==> "src/index.js" in sandpack
    {
      var file := files[i];
      assert files[..i + 1][..i] == files[..i];
      if file.kind == File && file.id in filePaths {
        var path := filePaths[file.id];
        if path != "" {
          var normalizedPath := if StartsWith(path, "/") then path[1..] else path;
          if normalizedPath == "index.html" {
            hasIndexHtml := true;
          }
          if normalizedPath == "src/index.js" {
            hasIndexJs := true;
          }
          sandpack := Assigned(sandpack, normalizedPath, SandpackFile(file.content, Some(file.id) == appJsId));
        }
      }
    }
    assert files[..|files|] == files;
  }

  /** The three scaffolds: index.html and src/index.js where no file has
      those keys, an active src/App.js when no entry was found and no file
      has that key. */
  function Scaffolded(m: Modules, entry: Option<Id>): (r: Modules)
    ensures r.Keys == m.Keys + {"index.html", "src/index.js"} + (if entry.None? then {"src/App.js"} else {})
    ensures forall k | k in m :: r[k] == m[k]
    ensures "index.html" !in m ==> r["index.html"] == SandpackFile(IndexHtmlTemplate, false)
    ensures "src/index.js" !in m ==> r["src/index.js"] == SandpackFile(IndexJsTemplate, false)
    ensures "src/App.js" !in m && entry.None? ==> r["src/App.js"] == SandpackFile(AppJsTemplate, true)
  {
    var withHtml := if "index.html" in m then m else m["index.html" := SandpackFile(IndexHtmlTemplate, false)];
    var withJs := if "src/index.js" in withHtml then withHtml else withHtml["src/index.js" := SandpackFile(IndexJsTemplate, false)];
    if entry.None? && "src/App.js" !in withJs then withJs["src/App.js" := SandpackFile(AppJsTemplate, true)] else withJs
  }

  /** What `formatFilesForSandpack` returns for a list; `None` is the stack
      overflow of `getFolderPath` on a folder cycle. */
  function SandpackFiles(fs: seq<FileRecord>): (r: Option<Modules>)
    ensures r.None? <==> FolderPaths(FolderMapOf(fs)).None?
    ensures r.Some? ==> "index.html" in r.value
  {
    var folderPaths := FolderPaths(FolderMapOf(fs));
    if folderPaths.None? then None
    else
      var filePaths := FilePaths(fs, folderPaths.value);
      var entry := EntryOf(fs, filePaths);
      Some(Scaffolded(SandpackOf(fs, filePaths, entry), entry))
  }

  /** The module map always has index.html and src/index.js, so it is never
      empty. */
  lemma IndexFilesPresent(fs: seq<FileRecord>)
    requires SandpackFiles(fs).Some?
    ensures "index.html" in SandpackFiles(fs).value && "src/index.js" in SandpackFiles(fs).value
    ensures |SandpackFiles(fs).value| > 0
  {
    var filePaths := FilePaths(fs, FolderPaths(FolderMapOf(fs)).value);
    var entry := EntryOf(fs, filePaths);
    var m := SandpackFiles(fs).value;
    assert m == Scaffolded(SandpackOf(fs, filePaths, entry), entry);
    assert "index.html" in m.Keys;
  }

  /** A file whose path is "/__proto__" never appears in the formatted map:
      its assignment replaced the map's prototype, and no scaffold has
      that key. */
  lemma ProtoFileDropped(fs: seq<FileRecord>)
    requires SandpackFiles(fs).Some?
    ensures ProtoKey !in SandpackFiles(fs).value
  {
    SandpackFilesValue(fs);
  }

  /** The scaffolds add an active entry only when there is no entry file. */
  lemma ScaffoldedActive(m: Modules, entry: Option<Id>, key: string)
    requires forall k | k in m && m[k].active :: entry.Some? && k == key
    ensures forall k | k in Scaffolded(m, entry) && Scaffolded(m, entry)[k].active ::
      if entry.Some? then k == key else k == "src/App.js"
  {
    var r := Scaffolded(m, entry);
    forall k | k in r && r[k].active
      ensures if entry.Some? then k == key else k == "src/App.js"
    {
      if k !in m {
        assert k in {"index.html", "src/index.js", "src/App.js"};
      }
    }
  }

  /** At most one entry of the module map is active: the entry file's, or
      the placeholder src/App.js when there is no entry file. */
  lemma AtMostOneActive(fs: seq<FileRecord>)
    requires SandpackFiles(fs).Some?
    ensures forall k1, k2 | k1 in SandpackFiles(fs).value && k2 in SandpackFiles(fs).value
      && SandpackFiles(fs).value[k1].active && SandpackFiles(fs).value[k2].active :: k1 == k2
  {
    var filePaths := FilePaths(fs, FolderPaths(FolderMapOf(fs)).value);
    var entry := EntryOf(fs, filePaths);
    var files := SandpackOf(fs, filePaths, entry);
    ActiveIsEntry(fs, filePaths, entry);
    var key := if entry.Some? && entry.value in filePaths then Normalize(filePaths[entry.value]) else "";
    ScaffoldedActive(files, entry, key);
  }

  /** A scaffold appears exactly where no file has its key; where one does,
      that file's entry stays. */
  lemma ScaffoldsFillGaps(fs: seq<FileRecord>, key: string)
    requires SandpackFiles(fs).Some? && key in {"index.html", "src/index.js"}
    ensures var filePaths := FilePaths(fs, FolderPaths(FolderMapOf(fs)).value);
      var files := SandpackOf(fs, filePaths, EntryOf(fs, filePaths));
      (key in files <==> exists i | 0 <= i < |fs| :: Contributes(fs[i], filePaths) && Normalize(filePaths[fs[i].id]) == key)
      && (key in files ==> SandpackFiles(fs).value[key] == files[key])
      && (key !in files ==> SandpackFiles(fs).value[key]
                              == SandpackFile(if key == "index.html" then IndexHtmlTemplate else IndexJsTemplate, false))
  {
    var filePaths := FilePaths(fs, FolderPaths(FolderMapOf(fs)).value);
    var entry := EntryOf(fs, filePaths);
    SandpackFilesValue(fs);
    SandpackFromFiles(fs, filePaths, entry);
  }

  /** The formatted map is the scaffolded module map of the file paths. */
  lemma SandpackFilesValue(fs: seq<FileRecord>)
    requires SandpackFiles(fs).Some?
    ensures var filePaths := FilePaths(fs, FolderPaths(FolderMapOf(fs)).value);
      var entry := EntryOf(fs, filePaths);
      SandpackFiles(fs).value == Scaffolded(SandpackOf(fs, filePaths, entry), entry)
  {
  }

  // ---------------------------------------------------------------------
  // `processImports`

  /** `m` is `m0` with nothing replaced or removed, plus entries, none
      active, for file paths whose file has content; no added key is
      `ProtoKey`, since an added key ends in ".js" or ".jsx". */
  ghost predicate AddsImportsOnly(m0: Modules, m: Modules, filePaths: map<Id, string>, fileMap: map<Id, FileRecord>) {
    (forall k | k in m0 :: k in m && m[k] == m0[k])
    && forall k | k in m && k !in m0 :: k != ProtoKey && exists id | id in filePaths && id in fileMap ::
         k == Normalize(filePaths[id]) && fileMap[id].content != "" && m[k] == SandpackFile(fileMap[id].content, false)
  }

  lemma AddsImportsTransitive(m0: Modules, m1: Modules, m2: Modules, filePaths: map<Id, string>, fileMap: map<Id, FileRecord>)
    requires AddsImportsOnly(m0, m1, filePaths, fileMap) && AddsImportsOnly(m1, m2, filePaths, fileMap)
    ensures AddsImportsOnly(m0, m2, filePaths, fileMap)
  {
    forall k | k in m2 && k !in m0
      ensures k != ProtoKey && exists id | id in filePaths && id in fileMap ::
        k == Normalize(filePaths[id]) && fileMap[id].content != "" && m2[k] == SandpackFile(fileMap[id].content, false)
    {
      if k in m1 {
        var id :| id in filePaths && id in fileMap && k == Normalize(filePaths[id]) && fileMap[id].content != ""
          && m1[k] == SandpackFile(fileMap[id].content, false);
        assert m2[k] == m1[k];
      }
    }
  }

  /** The file-path keys not yet in the map: what `processImports` could
      still add. */
  ghost function Pending(filePaths: map<Id, string>, m: Modules): set<string> {
    (set id | id in filePaths :: Normalize(filePaths[id])) - m.Keys
  }

  /** Adding the module of one more imported file keeps the additions
      imports-only and leaves fewer file paths to add. */
  lemma ImportAdded(m0: Modules, m: Modules, filePaths: map<Id, string>, fileMap: map<Id, FileRecord>, id: Id)
    requires AddsImportsOnly(m0, m, filePaths, fileMap)
    requires id in filePaths && id in fileMap && fileMap[id].content != ""
    requires Normalize(filePaths[id]) !in m && Normalize(filePaths[id]) != ProtoKey
    ensures AddsImportsOnly(m0, m[Normalize(filePaths[id]) := SandpackFile(fileMap[id].content, false)], filePaths, fileMap)
    ensures Pending(filePaths, m[Normalize(filePaths[id]) := SandpackFile(fileMap[id].content, false)]) < Pending(filePaths, m0)
  {
    var key := Normalize(filePaths[id]);
    var m' := m[key := SandpackFile(fileMap[id].content, false)];
    assert key in Pending(filePaths, m0) && key !in Pending(filePaths, m');
    assert Pending(filePaths, m') <= Pending(filePaths, m0);
  }

  /** `processImports(content, filePath)`: for each relative specifier,
      the file whose path is the resolved specifier (with ".js" completed)
      is added when its key is absent and its content non-empty, and its
      own imports are processed in turn. The specifier is resolved against
      the importing file's directory as intended (`ResolveRelative`), not
      with the extra pop of `resolveRelativePath` as written. */
  method ProcessImports(content: string, filePath: string, importsOf: string -> seq<string>,
                        filePaths: map<Id, string>, fileMap: map<Id, FileRecord>, sandpack0: Modules)
    returns (sandpack: Modules)
    requires forall id | id in filePaths :: StartsWith(filePaths[id], "/")
    ensures AddsImportsOnly(sandpack0, sandpack, filePaths, fileMap)
    decreases Pending(filePaths, sandpack0)
  {
    sandpack := sandpack0;
    var specs := importsOf(content);
    for i := 0 to |specs|
      invariant AddsImportsOnly(sandpack0, sandpack, filePaths, fileMap)
    {
      var importPath := specs[i];
      if IsRelative(importPath) {
        var currentDir := BeforeLast(filePath, '/');
        var resolved := ResolveRelative(currentDir, importPath);
        var absoluteImportPath := WithJsExtension(resolved);
        if importedFileId :| importedFileId in filePaths && filePaths[importedFileId] == absoluteImportPath {
          if absoluteImportPath[1..] !in sandpack && importedFileId in fileMap && fileMap[importedFileId].content != "" {
            var importedFile := fileMap[importedFileId];
            var normalizedPath := if StartsWith(absoluteImportPath, "/") then absoluteImportPath[1..] else absoluteImportPath;
            assert normalizedPath != ProtoKey by {
              var n := |absoluteImportPath|;
              assert absoluteImportPath[n - 1] == 's' || absoluteImportPath[n - 1] == 'x';
              assert normalizedPath[|normalizedPath| - 1] == absoluteImportPath[n - 1];
            }
            ImportAdded(sandpack0, sandpack, filePaths, fileMap, importedFileId);
            sandpack := Assigned(sandpack, normalizedPath, SandpackFile(importedFile.content, false));
            var after := ProcessImports(importedFile.content, absoluteImportPath, importsOf, filePaths, fileMap, sandpack);
            AddsImportsTransitive(sandpack0, sandpack, after, filePaths, fileMap);
            sandpack := after;
          }
        }
      }
    }
  }

  /** The loop running `processImports` over the keys the map had when it
      started. */
  method ProcessAllImports(sandpack0: Modules, importsOf: string -> seq<string>,
                           filePaths: map<Id, string>, fileMap: map<Id, FileRecord>)
    returns (sandpack: Modules)
    requires forall id | id in filePaths :: StartsWith(filePaths[id], "/")
    ensures AddsImportsOnly(sandpack0, sandpack, filePaths, fileMap)
  {
    sandpack := sandpack0;
    var keys := sandpack0.Keys;
    while keys != {}
      invariant keys <= sandpack0.Keys
      invariant AddsImportsOnly(sandpack0, sandpack, filePaths, fileMap)
      decreases keys
    {
      var path :| path in keys;
      keys := keys - {path};
      var fullPath := if StartsWith(path, "/") then path else "/" + path;
      var after := ProcessImports(sandpack[path].code, fullPath, importsOf, filePaths, fileMap, sandpack);
      AddsImportsTransitive(sandpack0, sandpack, after, filePaths, fileMap);
      sandpack := after;
    }
  }

  /** When every file path already has its key, or is the one path that
      gets none, `processImports` adds nothing, so the map is unchanged. */
  lemma NothingToImport(m0: Modules, m: Modules, filePaths: map<Id, string>, fileMap: map<Id, FileRecord>)
    requires AddsImportsOnly(m0, m, filePaths, fileMap)
    requires forall id | id in filePaths :: Normalize(filePaths[id]) in m0 || Normalize(filePaths[id]) == ProtoKey
    ensures m == m0
  {
    assert m.Keys == m0.Keys;
  }

  /** After the loop over the files every file path has its key, except
      "/__proto__", which never does. */
  lemma {:induction false} FilePathsKeyed(fs: seq<FileRecord>, folderPaths: map<Id, string>, entry: Option<Id>)
    requires Rooted(folderPaths)
    ensures forall id | id in FilePaths(fs, folderPaths) ::
      Normalize(FilePaths(fs, folderPaths)[id]) in SandpackOf(fs, FilePaths(fs, folderPaths), entry)
      <==> Normalize(FilePaths(fs, folderPaths)[id]) != ProtoKey
  {
    var filePaths := FilePaths(fs, folderPaths);
    FilePathsRooted(fs, folderPaths);
    forall id | id in filePaths
      ensures Normalize(filePaths[id]) in SandpackOf(fs, filePaths, entry) <==> Normalize(filePaths[id]) != ProtoKey
    {
      var i :| 0 <= i < |fs| && fs[i].id == id && fs[i].kind == File;
      assert Contributes(fs[i], filePaths);
    }
  }

  /** `formatFilesForSandpack(files)`. */
  method FormatFilesForSandpack(files: seq<FileRecord>, importsOf: string -> seq<string>) returns (r: Option<Modules>)
    ensures r == SandpackFiles(files)
  {
    var fileMap, folderMap := MapRecords(files);
    var folderPaths := MapFolderPaths(folderMap);
    if folderPaths.None? {
      return None;
    }
    var filePaths := MapFilePaths(files, folderPaths.value);
    var appJsId := FindEntry(files, filePaths);
    var sandpack, hasIndexHtml, hasIndexJs := AddFiles(files, filePaths, appJsId);
    FolderPathsRooted(folderMap);
    FilePathsRooted(files, folderPaths.value);
    FilePathsKeyed(files, folderPaths.value, appJsId);
    var imported := ProcessAllImports(sandpack, importsOf, filePaths, fileMap);
    NothingToImport(sandpack, imported, filePaths, fileMap);
    sandpack := AddScaffolds(imported, hasIndexHtml, hasIndexJs, appJsId);
    r := Some(sandpack);
  }

  /** The three `if`s that add the missing scaffolds. */
  method AddScaffolds(sandpack0: Modules, hasIndexHtml: bool, hasIndexJs: bool, appJsId: Option<Id>) returns (sandpack: Modules)
    requires hasIndexHtml <==> "index.html" in sandpack0
    requires hasIndexJs <==> "src/index.js" in sandpack0
    ensures sandpack == Scaffolded(sandpack0, appJsId)
  {
    sandpack := sandpack0;
    if !hasIndexHtml {
      sandpack := sandpack["index.html" := SandpackFile(IndexHtmlTemplate, false)];
    }
    if !hasIndexJs {
      sandpack := sandpack["src/index.js" := SandpackFile(IndexJsTemplate, false)];
    }
    if appJsId.None? && "src/App.js" !in sandpack {
      sandpack := sandpack["src/App.js" := SandpackFile(AppJsTemplate, true)];
    }
  }

  // ---------------------------------------------------------------------
  // `PreviewPanel`

  /** The two entries shown when formatting fails. */
  const FallbackFiles: Modules :=
    map["/App.js" := SandpackFile(ErrorAppText, true), "/index.js" := SandpackFile(ErrorIndexText, false)]

  /** The value `PreviewPanel` computes for `sandpackFiles`: the formatted
      map, or the fixed error map when formatting throws or yields an empty
      map. */
  function PreviewFiles(fs: seq<FileRecord>): (r: Modules)
    ensures SandpackFiles(fs).Some? ==> r == SandpackFiles(fs).value
    ensures SandpackFiles(fs).None? ==> r == FallbackFiles
    ensures SandpackFiles(fs).None? ==>
      r.Keys == {"/App.js", "/index.js"} && r["/App.js"].active && !r["/index.js"].active
  {
    var formatted := SandpackFiles(fs);
    if formatted.None? || |formatted.value| == 0 then FallbackFiles else formatted.value
  }

  /** Without folder cycles the preview never falls back. */
  lemma AcyclicFoldersPreviewed(fs: seq<FileRecord>, rank: Id -> nat)
    requires RankedFolders(FolderMapOf(fs), rank)
    ensures SandpackFiles(fs).Some? && PreviewFiles(fs) == SandpackFiles(fs).value
  {
    RankedFoldersHavePaths(FolderMapOf(fs), rank);
  }
}
