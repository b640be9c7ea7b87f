# CipherSchools IDE: file tree, store and live preview

CipherSchools is a browser IDE for small React projects. A user owns
projects. Each project holds a tree of files and folders, stored as flat
records that point to their parent folder. This Dafny project models the
core of that tree:

- **The backend store** (`Backend`, `StoreSpec`, `Hierarchy`, `FileModel`).
  It covers the files and projects controllers:
  - every request's status and the state change it makes;
  - the recursive deletion of a folder;
  - the six starter records of a new project.

  The `Backend.Store` class holds the two collections and the id counters.
  Its handler methods are proved against the specification functions in
  `StoreSpec`. The store invariant `StoreInv` is proved to be kept by every
  successful request:
  - each record sits under its own id;
  - a parent's id is below its child's id;
  - stored parents are folders;
  - sibling names are distinct within one project;
  - names are trimmed and 1 to 100 UTF-16 code units long;
  - every record belongs to an existing project.
- **The client's file cache** (`FileCache`): how the cached list and the
  open file change after a create, update or delete.
- **The explorer tree** (`Organize`): `organizeFiles` builds a sorted forest
  from the flat list. It is proved that:
  - every record appears exactly once;
  - the top level holds exactly the root records;
  - every child names its parent;
  - every sibling list is sorted, folders first and then by name;
  - with unique ids the assembly always terminates, while a repeated id
    can make it recurse without end.
- **The live preview** (`PreviewPaths`, `Preview`):
  - the folder and file paths;
  - the choice of the entry file;
  - the module map handed to the in-browser bundler and its scaffolds;
  - the resolution of relative imports;
  - the error fallback.
- **The forms**:
  - the creation dialogs (`Dialogs`);
  - the editor's language choice (`EditorLanguage`);
  - the validation of the login and registration forms (`AuthForms`).

Conventions:

- **Ids** are natural numbers. The store hands them out in increasing
  order.
- **Clock readings** (`now`) and the caller's user id are parameters.
- **Server answers** seen by the client are parameters: an `Option`, `None`
  for a failed request.
- **Name comparison** (`localeCompare`) is code-point lexicographic order.
- **Lower-casing** covers ASCII only.
- **Extracting imports** with the regular expression is the function
  parameter `importsOf`.
- **String lengths** are JavaScript's `.length`: UTF-16 code units, two for
  a character outside the Basic Multilingual Plane (`Strings.Utf16Length`).
- **Unbounded recursion.** A recursion that the JavaScript would run until
  the stack overflows is `None`: `getFolderPath` on cyclic folder links, and
  `sortFiles` when a repeated id puts a node among its own children. Only
  `getFolderPath`'s overflow is caught, by the `try` in `PreviewPanel`.
  `organizeFiles` runs in an effect of the IDE page without a `try`, so the
  `RangeError` of `sortFiles` escapes the effect.
- **Plain objects as maps.** A lookup in an object literal also finds the
  members it inherits from `Object.prototype`, and assigning the key
  "__proto__" replaces the object's prototype instead of adding an entry.
  Both matter where a key comes from a file name: the editor's language
  table (`EditorLanguage.LanguageOf`) and the preview's module map
  (`Preview.SandpackOf`).

## Model

| member | source | states |
|---|---|---|
| FileModel.KindOf | backend/models/File.js:10-14 | only "file" and "folder" are accepted types, each mapped to its kind |
| Strings.Utf16Length | frontend/src/pages/Register.js:70 | a string's `.length` lies between its character count and twice it |
| Strings.Utf16LengthOfPlain | frontend/src/pages/Register.js:70 | without astral characters `.length` is the character count |
| Strings.Utf16LengthOfAstral | frontend/src/pages/Register.js:70 | when every character is astral `.length` is twice the character count |
| FileModel.Materialize | backend/models/File.js:4-36 | a draft is stored iff its trimmed name has 1..100 UTF-16 code units and its type is valid; the stored name is trimmed, content defaults to "", both timestamps are the creation time |
| FileModel.MaterializedNameOk | backend/models/File.js:4-9 | every stored name is non-empty, at most 100 UTF-16 code units, with no surrounding whitespace |
| FileModel.AstralNameRefused | backend/models/File.js:8 | a name of more than 50 astral characters (emoji) exceeds the 100-unit limit and the draft is refused |
| FileModel.NameOkTrimmed | backend/models/File.js:4-9 | trimming a stored name leaves it unchanged |
| FileModel.MaterializeStored | backend/controllers/projects.js:132-262 | a draft with a stored-form name and a valid type is stored exactly as given (the starter records) |
| StoreSpec.ProjectAccess | backend/controllers/files.js:12-19 | 404 iff the project is missing, 200 iff the caller owns it, otherwise 401 |
| StoreSpec.GetFileStatus | backend/controllers/files.js:71-92 | 200 iff the record exists and its project is the caller's; 404 iff the record is missing; 401 iff its project is somebody else's; 500 iff its project is missing (reading its owner throws) |
| StoreSpec.DraftOf | backend/controllers/files.js:134-140 | content is passed on only for a "file"; name, parent and project go through unchanged |
| StoreSpec.CreateGuard | backend/controllers/files.js:101-131 | the checks in their order: 404 iff the project is missing or, for the owner, a given parent is missing; 401 iff the project is somebody else's; 400 iff, for the owner with an existing parent, that parent is no folder or a sibling has the trimmed name; Ok iff all pass |
| StoreSpec.CreateStatus | backend/controllers/files.js:97-152 | a failing guard's status is answered; 500 iff the guard passes and the schema refuses the draft; 201 iff both pass |
| StoreSpec.CreateKeepsInv | backend/controllers/files.js:134-143 | a successful create keeps the store invariant |
| StoreSpec.CreateTwiceRejected | backend/controllers/files.js:122-131 | repeating a successful create is rejected with 400 |
| StoreSpec.UpdateStatus | backend/controllers/files.js:157-203 | one of 200, 404, 401, 400 and 500; 404 iff the record is missing; 401 iff it is not the caller's; 400 iff a real rename collides with a sibling; 500 iff otherwise the new trimmed name fails the schema's length rules; a 200 always has a valid new name |
| StoreSpec.Patched | backend/controllers/files.js:184-191 | an update changes only name (trimmed) and content and stamps the modification time |
| StoreSpec.RenameToSameName | backend/controllers/files.js:172 | renaming a record to its own name is never a collision |
| StoreSpec.UpdateKeepsInv | backend/controllers/files.js:157-203 | a successful update keeps the store invariant |
| StoreSpec.DeleteStatus | backend/controllers/files.js:208-220 | 200 iff the record exists and is the caller's, 404 iff it is missing, otherwise 401 |
| StoreSpec.FileHasNoDescendants | backend/controllers/files.js:222-228 | deleting a plain file removes only that record |
| StoreSpec.DeleteKeepsInv | backend/controllers/files.js:208-240 | removing a record's whole subtree keeps the store invariant |
| StoreSpec.InsertedByRecency | backend/controllers/projects.js:9 | placing a project between newer and older ones keeps the list newest first |
| StoreSpec.InsertedOnce | backend/controllers/projects.js:9 | that placement adds exactly the project and keeps the list duplicate-free |
| StoreSpec.PatchedProject | backend/controllers/projects.js:85-91 | the body's user, name and description replace the stored ones when given, the others are kept, and the handler's stamp replaces lastModified |
| StoreSpec.UpdateTransfersOwnership | backend/controllers/projects.js:85-91 | a body naming another user hands the project over and its former owner is refused from then on; a body without a user keeps the owner |
| StoreSpec.FilesOutside | backend/controllers/projects.js:118 | exactly the records of other projects survive a project deletion |
| StoreSpec.DeleteProjectKeepsInv | backend/controllers/projects.js:104-129 | deleting a project and its records keeps the store invariant |
| StoreSpec.DefaultRecord | backend/controllers/projects.js:132-262 | the k-th starter record has id base+k, the new project and the creation time |
| StoreSpec.DefaultFiles | backend/controllers/projects.js:132-262 | the starter tree is exactly six records with ids base..base+5 |
| StoreSpec.DefaultFilesStoredInTurn | backend/controllers/projects.js:132-262 | storing the six starter records one after another adds exactly the starter tree |
| StoreSpec.DefaultRecordPlaced | backend/controllers/projects.js:135-257 | which starter records are folders, where each sits, and their names |
| StoreSpec.DefaultTreeWellFormed | backend/controllers/projects.js:132-262 | public, src and package.json at the root, index.html in public, App.js and index.js in src; every parent is a folder of the tree; names are valid and distinct among siblings |
| StoreSpec.CreateProjectKeepsInv | backend/controllers/projects.js:49-66 | creating a project with its starter tree keeps the store invariant |
| StoreSpec.JoinKeepsInv | backend/controllers/projects.js:54-57 | adding a well-formed tree for a fresh project with fresh ids keeps the store invariant |
| Hierarchy.SiblingsDisjoint | backend/controllers/files.js:243-259 | two different children of one folder have disjoint subtrees, so the deletion never visits a record twice |
| Hierarchy.DescendantsByChildren | backend/controllers/files.js:243-259 | the records below a folder are exactly its children and the records below them |
| Hierarchy.BranchesOfAllChildren | backend/controllers/files.js:246-254 | the subtrees of all children of a folder together are everything below it |
| Hierarchy.DeletionStep | backend/controllers/files.js:249-254 | removing one more child's subtree, then the child, leaves exactly the remaining siblings' subtrees and keeps the removal order a post-order |
| Hierarchy.ChildlessHasNoDescendants | backend/controllers/files.js:246 | a folder no record names as parent has nothing below it |
| Backend.Store.constructor | backend/controllers/projects.js:132-262 | an empty store with ids starting at 0 and the React starter texts |
| Backend.Store.Find | backend/controllers/files.js:22 | returns exactly the stored records the filter accepts, each unchanged, once, in id order |
| Backend.Store.FindChildren | backend/controllers/files.js:246 | returns exactly the stored records whose parent is the folder, each unchanged, once, in id order |
| Backend.Store.FindOne | backend/controllers/files.js:123-127 | true iff a record with the name exists under that parent in that project |
| Backend.Store.Insert | backend/controllers/files.js:134-140 | stores the record the schema makes of the draft under the next id, or changes nothing when validation fails |
| Backend.Store.GetProjectFiles | backend/controllers/files.js:7-32 | status is the access guard; on 200 the records returned are exactly the project's, each unchanged and once, in id order |
| Backend.Store.GetFilesByParent | backend/controllers/files.js:37-66 | status is the access guard; on 200 the records returned are exactly the project's records under that parent (None for the root), each unchanged and once, in id order |
| Backend.Store.GetFile | backend/controllers/files.js:71-92 | answers GetFileStatus and returns the record only on 200 |
| Backend.Store.CreateFile | backend/controllers/files.js:97-152 | answers CreateStatus; on 201 stores the materialised record under the next id and stamps the project; otherwise nothing changes; the store stays valid |
| Backend.Store.CheckCreate | backend/controllers/files.js:101-131 | the guard's status, computed by lookups |
| Backend.Store.UpdateFile | backend/controllers/files.js:157-203 | answers UpdateStatus; on 200 the record is replaced by its patched form and the project stamped; otherwise nothing changes; the store stays valid |
| Backend.Store.CheckUpdate | backend/controllers/files.js:159-191 | the update's status, computed by lookups |
| Backend.Store.DeleteFile | backend/controllers/files.js:208-240 | answers DeleteStatus; on 200 removes exactly the record's subtree and stamps the project; otherwise nothing changes |
| Backend.Store.DeleteFolder | backend/controllers/files.js:243-259 | removes exactly the records below the folder, children after their own contents (post-order), and nothing else |
| Backend.Store.DeleteRecord | backend/controllers/files.js:249-253 | removes a child and everything below it, in post-order |
| Backend.Store.GetProjects | backend/controllers/projects.js:7-19 | returns exactly the caller's projects, each once, newest modification first |
| Backend.Store.PlaceByRecency | backend/controllers/projects.js:9 | inserting one project keeps the list newest first and adds exactly that project |
| Backend.Store.GetProject | backend/controllers/projects.js:24-44 | status is the access guard; the project is returned only on 200 |
| Backend.Store.CreateProject | backend/controllers/projects.js:49-66 | 201 with the next project id; adds the project and its six starter records; the store stays valid |
| Backend.Store.CreateDefaultProjectStructure | backend/controllers/projects.js:132-262 | stores the six starter records under six consecutive new ids |
| Backend.Store.InsertStored | backend/controllers/projects.js:135-257 | stores a record whose name is already valid exactly as given under the next id |
| Backend.Store.UpdateProject | backend/controllers/projects.js:71-99 | status is the access guard; on 200 only that project changes, to PatchedProject of the body; otherwise nothing changes |
| Backend.Store.DeleteProject | backend/controllers/projects.js:104-129 | status is the access guard; on 200 the project and exactly its records are removed |
| FileCache.Replaced | frontend/src/context/FileContext.js:87 | every entry with the id is replaced by the update and every other entry is kept in place |
| FileCache.Without | frontend/src/context/FileContext.js:102 | only entries of other ids remain |
| FileCache.WithoutCounts | frontend/src/context/FileContext.js:102 | every entry of another id keeps its multiplicity and entries with the id are gone |
| FileCache.WithoutConcat | frontend/src/context/FileContext.js:102 | filtering distributes over concatenation |
| FileCache.WithoutAbsent | frontend/src/context/FileContext.js:102 | filtering out an id that is absent changes nothing |
| FileCache.Stamped | frontend/src/context/FileContext.js:82-85 | the answer's record with a stamp, keeping the server's own stamp when it has one |
| FileCache.FileList.constructor | frontend/src/context/FileContext.js:62 | an empty list, no open file, no error |
| FileCache.FileList.CreateFile | frontend/src/context/FileContext.js:59-68 | success iff the server answered; the new record is appended; a failure only records the error |
| FileCache.FileList.UpdateFile | frontend/src/context/FileContext.js:71-96 | the stamped answer replaces every cached entry with the id and the open file if it has the id; a failure only records the error |
| FileCache.FileList.DeleteFile | frontend/src/context/FileContext.js:99-111 | on success exactly the entries with the id are removed and an open file with the id is closed; a failure only records the error |
| Organize.Insert | frontend/src/context/FileContext.js:138-142 | insertion adds exactly one node and keeps a sorted list sorted |
| Organize.Sort | frontend/src/context/FileContext.js:139-142 | the result is a permutation of the siblings in comparator order |
| Organize.InsertTies | frontend/src/context/FileContext.js:139-142 | an inserted node goes in front of every node the comparator ties with it |
| Organize.SortStable | frontend/src/context/FileContext.js:139-142 | the sort is stable: nodes the comparator ties keep their relative order |
| Organize.ById | frontend/src/context/FileContext.js:121-126 | the map has exactly the listed ids, each mapped to a record with that id |
| Organize.Build | frontend/src/context/FileContext.js:143-151 | a built node carries its record, children built from the ids pushed onto it, sorted at every depth |
| Organize.BuildEach | frontend/src/context/FileContext.js:143-151 | building a list of ids yields nodes with exactly those ids in order |
| Organize.SortKeepsBuilt | frontend/src/context/FileContext.js:139-151 | sorting built nodes keeps them built and makes the forest sorted |
| Organize.InsertKeepsTopIds | frontend/src/context/FileContext.js:139-142 | insertion adds the node's id to the ids of the list |
| Organize.SortKeepsTopIds | frontend/src/context/FileContext.js:139-142 | sorting keeps the multiset of top-level ids |
| Organize.InsertKeepsFlatIds | frontend/src/context/FileContext.js:139-142 | insertion keeps every id of every depth |
| Organize.SortKeepsFlatIds | frontend/src/context/FileContext.js:139-151 | sorting keeps the multiset of ids at every depth |
| Organize.Organized | frontend/src/context/FileContext.js:114-155 | the empty list gives the empty forest; a result is sorted at every depth and built from the records |
| Organize.OrganizeFiles | frontend/src/context/FileContext.js:114-155 | the two passes and the sort compute Organized |
| Organize.MapById | frontend/src/context/FileContext.js:121-126 | the first pass maps every id to its last record with no children |
| Organize.LinkNodes | frontend/src/context/FileContext.js:129-135 | the second pass collects the root ids in list order, and for each node the ids of the records naming it, in list order; orphans are skipped |
| Organize.NoOverflowWithUniqueIds | frontend/src/context/FileContext.js:129-154 | with unique ids the tree is always built, whatever the parent links: a cycle has no root and is never reached |
| Organize.BuildOffChain | frontend/src/context/FileContext.js:143-151 | below a parentless record, building never meets an id it is inside |
| Organize.DuplicateIdOverflows | frontend/src/context/FileContext.js:121-151 | a root and a record naming it that share one id make the build recurse without end |
| Organize.ExactlyOnce | frontend/src/context/FileContext.js:114-155 | with unique ids, acyclic links and no dangling parent, every listed record appears exactly once in the forest and nothing else appears |
| Organize.TopLevelAreRoots | frontend/src/context/FileContext.js:130-131 | the top level holds exactly the records without parent |
| Organize.ChildrenAreNamingRecords | frontend/src/context/FileContext.js:132-133 | every child node at every depth is a listed record naming its parent |
| Organize.OrphanDropped | frontend/src/context/FileContext.js:132 | a record whose parent is not listed appears nowhere in the forest |
| Organize.BuildTerminates | frontend/src/context/FileContext.js:143-151 | with ranked links the recursive build never meets a node it is inside |
| Organize.BuildCount | frontend/src/context/FileContext.js:143-151 | a built subtree holds each record below its root exactly once |
| PreviewPaths.FolderPathFrom | frontend/src/components/PreviewPanel.js:26-36 | "" for an id that is no folder; a folder's path starts with "/" |
| PreviewPaths.FolderPathCases | frontend/src/components/PreviewPanel.js:26-36 | without cycles, a root folder's path is "/name", and a nested one's is the parent's path, "/" and the name |
| PreviewPaths.SelfParentOverflows | frontend/src/components/PreviewPanel.js:33 | a folder that is its own parent has no path (the recursion overflows) |
| PreviewPaths.FolderPaths | frontend/src/components/PreviewPanel.js:39-42 | the map exists iff every folder has a path, and then maps each folder to exactly its path |
| PreviewPaths.RankedFoldersHavePaths | frontend/src/components/PreviewPanel.js:39-42 | with acyclic folder links every folder path exists |
| PreviewPaths.FilePathOf | frontend/src/components/PreviewPanel.js:47-55 | a file path ends in "/" and the name, and starts with "/" |
| PreviewPaths.DirectoryOfFilePath | frontend/src/components/PreviewPanel.js:48-55 | the directory part of a file path is "" at the root and the parent folder's path otherwise |
| PreviewPaths.FilePaths | frontend/src/components/PreviewPanel.js:45-57 | keys are exactly the ids of the listed files |
| PreviewPaths.FilePathsFromFiles | frontend/src/components/PreviewPanel.js:45-57 | every entry is the path of a listed file with that id |
| PreviewPaths.FilePathsLastWins | frontend/src/components/PreviewPanel.js:46-56 | of two files with one id the later one's path is kept |
| PreviewPaths.FilePathsRooted | frontend/src/components/PreviewPanel.js:45-57 | every file path starts with "/" |
| PreviewPaths.Normalize | frontend/src/components/PreviewPanel.js:155 | a leading "/" is dropped and nothing else changes |
| PreviewPaths.ResolveRelativePath | frontend/src/components/PreviewPanel.js:135-147 | the stack walk computes ResolvedAsWritten |
| PreviewPaths.AsWrittenDropsFolder | frontend/src/components/PreviewPanel.js:99-147 | as written, "./n" imported from any top-level folder "/d" resolves to "//n" |
| PreviewPaths.AsWrittenHeaderExample | frontend/src/components/PreviewPanel.js:135-147 | "./Header" from "/src" resolves to "//Header" |
| PreviewPaths.CorrectedHeaderExample | frontend/src/components/PreviewPanel.js:135-147 | the corrected resolution gives "/src/Header" |
| PreviewPaths.ResolveRelativeSibling | frontend/src/components/PreviewPanel.js:99-147 | corrected: "./n" resolves to the directory, "/" and n |
| PreviewPaths.ResolveRelativeParent | frontend/src/components/PreviewPanel.js:99-147 | corrected: "../n" resolves to the parent directory, "/" and n |
| PreviewPaths.WithJsExtension | frontend/src/components/PreviewPanel.js:103-105 | the path is extended by at most ".js" and then ends in ".js" or ".jsx"; such paths are unchanged |
| PreviewPaths.WithJsExtensionIdempotent | frontend/src/components/PreviewPanel.js:103-105 | completing twice is completing once |
| Preview.FoldersOf | frontend/src/components/PreviewPanel.js:20-22 | exactly the folders of the list |
| Preview.MapRecords | frontend/src/components/PreviewPanel.js:14-23 | fileMap maps every id to its last record, folderMap does the same for the folders only |
| Preview.MapFolderPaths | frontend/src/components/PreviewPanel.js:39-42 | computes FolderPaths by the loop over the folders |
| Preview.MapFilePaths | frontend/src/components/PreviewPanel.js:45-57 | computes FilePaths by the loop over the list |
| Preview.EntryOf | frontend/src/components/PreviewPanel.js:69-79 | None iff no file is App.js with "/src/" in its path; otherwise the id of the first such file |
| Preview.FindEntry | frontend/src/components/PreviewPanel.js:69-79 | the loop with `break` computes EntryOf |
| Preview.SandpackOf | frontend/src/components/PreviewPanel.js:150-168 | every file with a non-empty path has its normalised key, except that "__proto__" is never a key: assigning it replaces the prototype |
| Preview.SandpackFromFiles | frontend/src/components/PreviewPanel.js:150-168 | every key comes from a listed file and holds that file's content, active iff it is the entry |
| Preview.SandpackLastWins | frontend/src/components/PreviewPanel.js:162-165 | the last file with a key other than "__proto__" decides its entry |
| Preview.ActiveIsEntry | frontend/src/components/PreviewPanel.js:164 | only the entry file's key can be active |
| Preview.AddFiles | frontend/src/components/PreviewPanel.js:150-168 | builds SandpackOf and sets the two flags iff index.html and src/index.js are keys |
| Preview.Scaffolded | frontend/src/components/PreviewPanel.js:176-228 | adds index.html and src/index.js when missing, and an active src/App.js when there is no entry and no such key; keeps every existing entry |
| Preview.AddScaffolds | frontend/src/components/PreviewPanel.js:176-228 | the three `if`s compute Scaffolded |
| Preview.SandpackFiles | frontend/src/components/PreviewPanel.js:10-232 | fails iff some folder path does not exist; a result always has index.html |
| Preview.IndexFilesPresent | frontend/src/components/PreviewPanel.js:176-209 | a formatted map always has index.html and src/index.js and is never empty |
| Preview.AtMostOneActive | frontend/src/components/PreviewPanel.js:150-228 | at most one module is active |
| Preview.ScaffoldsFillGaps | frontend/src/components/PreviewPanel.js:150-209 | index.html and src/index.js are the project's own file when one has that path, otherwise the starter text |
| Preview.ProcessImports | frontend/src/components/PreviewPanel.js:86-132 | only adds modules, each the non-empty content of a file under its own path, never changing an existing entry |
| Preview.ProcessAllImports | frontend/src/components/PreviewPanel.js:171-174 | the loop over the keys only adds modules of files |
| Preview.NothingToImport | frontend/src/components/PreviewPanel.js:113 | when every file path already has its key or is "/__proto__", import processing leaves the map unchanged: an import's key ends in ".js" or ".jsx" |
| Preview.FilePathsKeyed | frontend/src/components/PreviewPanel.js:150-168 | after the first loop a file path has its key iff it is not "/__proto__" |
| Preview.ProtoFileDropped | frontend/src/components/PreviewPanel.js:155-165 | a root file named "__proto__" never appears in the formatted map |
| Preview.FormatFilesForSandpack | frontend/src/components/PreviewPanel.js:10-232 | the whole function computes SandpackFiles |
| Preview.PreviewFiles | frontend/src/components/PreviewPanel.js:286-319 | the value computed for `sandpackFiles`: the formatted map, or the two fixed error modules with App.js active when formatting fails |
| Preview.AcyclicFoldersPreviewed | frontend/src/components/PreviewPanel.js:286-291 | without folder cycles the preview never falls back |
| EditorLanguage.LanguageOf | frontend/src/components/CodeEditor.js:211-226 | each language iff the extension is one listed for it; the inherited member iff the extension is "constructor" or "__proto__"; JavaScript for every other extension |
| EditorLanguage.InheritedExtension | frontend/src/components/CodeEditor.js:214-225 | a name whose extension is a lower-case inherited key gets that inherited member, which is truthy, so the JavaScript fallback does not apply |
| EditorLanguage.ConstructorExtension | frontend/src/components/CodeEditor.js:214-225 | a name ending in ".constructor" gets the inherited function `Object` |
| EditorLanguage.ProtoExtension | frontend/src/components/CodeEditor.js:214-225 | a name ending in ".__proto__" gets the inherited `Object.prototype` |
| EditorLanguage.ExtensionAfterLastDot | frontend/src/components/CodeEditor.js:212 | the extension is the lower-cased text after the last dot, the whole name when there is none |
| EditorLanguage.LanguageIgnoresCase | frontend/src/components/CodeEditor.js:212 | lower-casing a name changes neither its extension nor its language |
| Dialogs.SubmittedName | frontend/src/components/FileDialog.js:46-53 | a file name without a dot gets ".js"; anything else is passed unchanged |
| Dialogs.SubmittedFileNameDotted | frontend/src/components/FileDialog.js:46-53 | a submitted file name has a dot, completing it again changes nothing, and a completed name is edited as JavaScript |
| Dialogs.FileDialog.constructor | frontend/src/components/FileDialog.js:25-27 | starts from the initial name, type "file" when none is given, no error |
| Dialogs.FileDialog.NameChange | frontend/src/components/FileDialog.js:29-32 | the name is replaced and the error cleared |
| Dialogs.FileDialog.TypeChange | frontend/src/components/FileDialog.js:34-36 | only the type changes |
| Dialogs.FileDialog.Submit | frontend/src/components/FileDialog.js:38-58 | a blank name only sets the error; otherwise the completed name and type are submitted and the form is reset |
| Dialogs.FileDialog.Close | frontend/src/components/FileDialog.js:60-64 | restores the initial name and clears the error |
| Dialogs.ProjectSubmitted | frontend/src/components/ProjectDialog.js:25-35 | nothing is submitted iff the name is blank; otherwise the submission is the trimmed name and the trimmed description, the name non-empty |
| Dialogs.ProjectDialog.constructor | frontend/src/components/ProjectDialog.js:12-14 | starts from the initial name and description, no error |
| Dialogs.ProjectDialog.NameChange | frontend/src/components/ProjectDialog.js:16-19 | the name is replaced and the error cleared |
| Dialogs.ProjectDialog.DescriptionChange | frontend/src/components/ProjectDialog.js:21-23 | only the description changes |
| Dialogs.ProjectDialog.Submit | frontend/src/components/ProjectDialog.js:25-41 | submits ProjectSubmitted; a blank name only sets the error, a submission resets the form |
| Dialogs.ProjectDialog.Close | frontend/src/components/ProjectDialog.js:43-48 | restores both initial values and clears the error |
| AuthForms.EmailLikeUnanchored | frontend/src/pages/Register.js:65 | the unanchored pattern also accepts any text containing an address |
| AuthForms.EmailExamples | frontend/src/pages/Register.js:65 | "a@b.c" passes, "@b.c" and "a@b" fail |
| AuthForms.EmailError | frontend/src/pages/Register.js:63-67 | no error iff the address matches; "required" iff it is empty; "invalid" otherwise |
| AuthForms.RegisterErrors | frontend/src/pages/Register.js:58-76 | each field has an error iff its rule fails, with the rule's message; the password's length is counted in UTF-16 code units; no error iff every rule holds |
| AuthForms.AstralPasswordLongEnough | frontend/src/pages/Register.js:70 | a password of three emoji is six code units long and meets the length rule |
| AuthForms.ValidateRegister | frontend/src/pages/Register.js:58-78 | the errors built rule by rule are RegisterErrors; valid iff there is no error |
| AuthForms.LoginErrors | frontend/src/pages/Login.js:57-67 | errors only for email and password, each iff its rule fails, with the rule's message; none iff the address matches and the password is non-empty |
| AuthForms.ValidateLogin | frontend/src/pages/Login.js:57-69 | the errors built rule by rule are LoginErrors; valid iff there is no error |
| AuthForms.ClearedError | frontend/src/pages/Register.js:49-55 | the typed field's error becomes "" and every other error is kept |
| AuthForms.RegisterPage.constructor | frontend/src/pages/Register.js:18-24 | empty fields and no errors |
| AuthForms.RegisterPage.HandleChange | frontend/src/pages/Register.js:44-56 | the typed field is replaced and its error cleared |
| AuthForms.RegisterPage.HandleSubmit | frontend/src/pages/Register.js:80-96 | the shown errors become RegisterErrors of the form; a request is made iff there is none, with name, email and password |
| AuthForms.LoginPage.constructor | frontend/src/pages/Login.js:19-23 | empty fields and no errors |
| AuthForms.LoginPage.HandleChange | frontend/src/pages/Login.js:43-55 | the typed field is replaced and its error cleared |
| AuthForms.LoginPage.HandleSubmit | frontend/src/pages/Login.js:71-83 | the shown errors become LoginErrors of the form; a request is made iff there is none, with email and password |

## Left out

- backend/models/Project.js is not part of this model. The
  validation of project names and descriptions is not modelled.
  `createProject` always succeeds, with status 201.
- createFile does not check that a given parent folder belongs to the same
  project. The model follows the code. So the store invariant cannot say
  that a parent always exists: deleting one project can leave records of
  another project pointing at a removed folder.
- Backend.Store.UpdateFile: a patch carries only a new name and new
  content. Other fields that a request body may set are not modelled:
  `type`, `parentId`, `projectId`.
- A failure of the database between two writes is not modelled:
  - a 500 after a partial recursive deletion;
  - the store's own error reporting.

  A status of 500 is modelled only where the schema's validators or a
  missing project make the handler throw.
- Authentication, the HTTP layer, the network and the server's clock are
  not modelled. The caller's id and the time are parameters. The client's
  requests are modelled by their answers.
- Several requests interleaving (concurrency) is not modelled.
- Preview.ProcessImports: the contract states that import processing only
  adds modules of existing files under their own path. It does not state
  which imports are added. With every file path already keyed, nothing is
  added at all (Preview.NothingToImport).
- Preview.ProcessImports: when several files share a path, the choice of
  `Object.keys(...).find` is modelled as an arbitrary one of them.
- Preview.ProcessImports: it resolves specifiers with the corrected
  `ResolveRelative`, per the finding below. Because of
  Preview.NothingToImport, the resulting module map is the same as with
  the resolution as written.
- The regular expression that extracts import specifiers is not modelled.
  It is the parameter `importsOf`.
- The order of keys in JavaScript objects is not modelled. Maps are
  unordered here.
- The following do not affect the map and are not modelled:
  - the unused `srcFolderId` search (PreviewPanel.js lines 60-66);
  - the console logging;
  - the returned `modifiedContent`.
- The rendering of the preview is not modelled: the "No files to preview"
  screen, the error banner and its message.
- Preview.PreviewFiles: the fallback map is the value `PreviewPanel`
  computes, not necessarily what Sandpack receives. The `catch` calls
  `setError` while rendering, so React renders the component again, the
  formatting throws again, and React's limit on re-renders makes the error
  path throw instead of showing the fallback.
- Organize.Organized and PreviewPaths.FolderPathFrom: the JavaScript
  recurses until the stack overflows when `getFolderPath` meets cyclic
  folder links, or when a repeated id puts a node among the children of a
  node around it in `sortFiles`. This is modelled as the result `None`,
  not as the exception.
- StoreSpec.PatchedProject and Backend.Store.UpdateProject: a body carries
  only `user`, `name` and `description`. Other Project schema fields a body
  may set, and the schema's validators on them, are not modelled, because
  backend/models/Project.js is not part of this model.
- `localeCompare` is modelled as code-point order, without the
  locale's collation. `toLowerCase` is modelled on ASCII letters only.
- Checks that distinguish `null` from `undefined`, or falsy ids, are not
  modelled. A missing parent is `None`.
- The React rendering and effects of the pages and dialogs are not
  modelled: navigation, alerts and `clearError`. Only their state fields
  and handlers are.

## Findings

| source | as written | input that shows it | evidently intended | confidence | as-written member | corrected member |
|---|---|---|---|---|---|---|
| frontend/src/components/PreviewPanel.js:99-147 | `processImports` passes the importing file's directory to `resolveRelativePath`. That function pops a "file name" off it again, and then puts "/" before a join that already starts with the empty segment | "./Header" imported from "/src/App.js" resolves to "//Header", so the file "/src/Header.js" is never found; the preview shows no effect, because every file path is already a key before imports are processed (Preview.NothingToImport) | resolve against the directory itself: "/src/Header" | not executed | PreviewPaths.AsWrittenDropsFolder | PreviewPaths.ResolveRelativeSibling |
