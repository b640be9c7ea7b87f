/** The rules of the files and projects controllers, stated on values: the
    outcome of each request, the state it leaves behind, and the invariant
    every successful request keeps (backend/controllers/files.js,
    backend/controllers/projects.js). */
module StoreSpec {
  import opened Strings
  import opened FileModel
  import opened Hierarchy

  type UserId = nat

  /** A project document: its owner (`user`), name, description and the
      `lastModified` stamp the controllers refresh. */
  datatype Project = Project(owner: UserId, name: string, description: string, lastModified: nat)

  type Projects = map<Id, Project>

  /** The HTTP status a handler answers with. */
  datatype Status = Ok | Created | BadRequest | Unauthorized | NotFound | ServerError {
    function Code(): nat {
      match this
      case Ok => 200
      case Created => 201
      case BadRequest => 400
      case Unauthorized => 401
      case NotFound => 404
      case ServerError => 500
    }
  }

  // ----- the store invariant -----

  /** Each record is stored under its own id, and ids below the next one to
      hand out. */
  ghost predicate KeysMatch(files: Records, nextFileId: Id) {
    forall x | x in files :: files[x].id == x && x < nextFileId
  }

  /** A parent that is still stored is a folder. */
  ghost predicate ParentsAreFolders(files: Records) {
    forall x | x in files && files[x].parentId.Some? && files[x].parentId.value in files ::
      files[files[x].parentId.value].kind == Folder
  }

  /** No two records of one project share a name under the same parent. */
  ghost predicate SiblingNamesDistinct(files: Records) {
    forall x, y | x in files && y in files && x != y
      && files[x].parentId == files[y].parentId && files[x].projectId == files[y].projectId ::
      files[x].name != files[y].name
  }

  ghost predicate NamesStored(files: Records) {
    forall x {:trigger NameOk(files[x].name)} | x in files :: NameOk(files[x].name)
  }

  ghost predicate OwnedByProjects(files: Records, projects: Projects) {
    forall x | x in files :: files[x].projectId in projects
  }

  ghost predicate StoreInv(files: Records, projects: Projects, nextFileId: Id, nextProjectId: Id) {
    KeysMatch(files, nextFileId)
    && ParentsPrecede(files)
    && ParentsAreFolders(files)
    && SiblingNamesDistinct(files)
    && NamesStored(files)
    && OwnedByProjects(files, projects)
    && (forall p | p in projects :: p < nextProjectId)
  }

  // ----- queries and access -----

  /** `File.findOne({name, parentId, projectId})` finds a record. */
  predicate NameTaken(files: Records, name: string, parentId: Option<Id>, projectId: Id) {
    exists x | x in files :: files[x].name == name && files[x].parentId == parentId && files[x].projectId == projectId
  }

  predicate Owns(projects: Projects, user: UserId, projectId: Id) {
    projectId in projects && projects[projectId].owner == user
  }

  /** The guard every project-scoped handler runs first: 404 for a missing
      project, then 401 for somebody else's. */
  function ProjectAccess(projects: Projects, user: UserId, projectId: Id): (s: Status)
    ensures s == Ok <==> Owns(projects, user, projectId)
    ensures s == NotFound <==> projectId !in projects
    ensures s == Ok || s == NotFound || s == Unauthorized
  {
    if projectId !in projects then NotFound
    else if projects[projectId].owner != user then Unauthorized
    else Ok
  }

  /** `getFile`: a missing project makes `project.user` throw, hence 500. */
  function GetFileStatus(files: Records, projects: Projects, user: UserId, id: Id): (s: Status)
    ensures s == Ok <==> id in files && Owns(projects, user, files[id].projectId)
    ensures s == NotFound <==> id !in files
    ensures s == Unauthorized <==>
      id in files && files[id].projectId in projects && projects[files[id].projectId].owner != user
    ensures s == ServerError <==> id in files && files[id].projectId !in projects
  {
    if id !in files then NotFound
    else if files[id].projectId !in projects then ServerError
    else if projects[files[id].projectId].owner != user then Unauthorized
    else Ok
  }

  // ----- createFile -----

  /** The body of a create request; `None` stands for a missing or falsy field. */
  datatype CreateRequest = CreateRequest(
    name: string,
    kind: string,
    content: Option<string>,
    parentId: Option<Id>,
    projectId: Id)

  /** The fields handed to `File.create`: content only for a file. */
  function DraftOf(req: CreateRequest): (d: Draft)
    ensures d.content.Some? ==> req.kind == "file"
    ensures d.name == req.name && d.parentId == req.parentId && d.projectId == req.projectId
  {
    Draft(req.name, req.kind, if req.kind == "file" then req.content else None, req.parentId, req.projectId)
  }

  /** The checks `createFile` makes before calling `File.create`, in the
      order it makes them; `Ok` means all of them pass. */
  function CreateGuard(files: Records, projects: Projects, user: UserId, req: CreateRequest): (s: Status)
    ensures s == Ok <==>
      Owns(projects, user, req.projectId)
      && (req.parentId.Some? ==> req.parentId.value in files && files[req.parentId.value].kind == Folder)
      && !NameTaken(files, Trim(req.name), req.parentId, req.projectId)
    ensures s == NotFound <==>
      req.projectId !in projects
      || (Owns(projects, user, req.projectId) && req.parentId.Some? && req.parentId.value !in files)
    ensures s == Unauthorized <==> req.projectId in projects && projects[req.projectId].owner != user
    ensures s == BadRequest <==>
      Owns(projects, user, req.projectId)
      && (req.parentId.Some? ==> req.parentId.value in files)
      && ((req.parentId.Some? && files[req.parentId.value].kind != Folder)
          || NameTaken(files, Trim(req.name), req.parentId, req.projectId))
    ensures s in {Ok, NotFound, Unauthorized, BadRequest}
  {
    var access := ProjectAccess(projects, user, req.projectId);
    if access != Ok then access
    else if req.parentId.Some? && req.parentId.value !in files then NotFound
    else if req.parentId.Some? && files[req.parentId.value].kind != Folder then BadRequest
    else if NameTaken(files, Trim(req.name), req.parentId, req.projectId) then BadRequest
    else Ok
  }

  /** The outcome of `createFile`: the checks, then a schema failure inside
      `File.create` is a 500. */
  function CreateStatus(files: Records, projects: Projects, user: UserId, req: CreateRequest): (s: Status)
    ensures s == Created <==>
      Owns(projects, user, req.projectId)
      && (req.parentId.Some? ==> req.parentId.value in files && files[req.parentId.value].kind == Folder)
      && !NameTaken(files, Trim(req.name), req.parentId, req.projectId)
      && Accepted(DraftOf(req))
    ensures CreateGuard(files, projects, user, req) != Ok ==> s == CreateGuard(files, projects, user, req)
    ensures s == ServerError <==> CreateGuard(files, projects, user, req) == Ok && !Accepted(DraftOf(req))
  {
    var guard := CreateGuard(files, projects, user, req);
    if guard != Ok then guard
    else if !Accepted(DraftOf(req)) then ServerError
    else Created
  }

  function Stamp(projects: Projects, projectId: Id, now: nat): Projects
    requires projectId in projects
  {
    projects[projectId := projects[projectId].(lastModified := now)]
  }

  /** A successful create keeps the store invariant. */
  lemma CreateKeepsInv(files: Records, projects: Projects, nf: Id, np: Id, user: UserId, req: CreateRequest, now: nat)
    requires StoreInv(files, projects, nf, np)
    requires CreateStatus(files, projects, user, req) == Created
    ensures Materialize(nf, DraftOf(req), now).Some?
    ensures StoreInv(files[nf := Materialize(nf, DraftOf(req), now).value], Stamp(projects, req.projectId, now), nf + 1, np)
  {
    var r := Materialize(nf, DraftOf(req), now).value;
    var files' := files[nf := r];
    MaterializedNameOk(nf, DraftOf(req), now);
    assert nf !in files;
    forall y | y in files && files[y].parentId == r.parentId && files[y].projectId == r.projectId
      ensures files[y].name != r.name
    {
      NameFree(files, Trim(req.name), req.parentId, req.projectId, y);
    }
    assert SiblingNamesDistinct(files');
  }

  /** What the absence of a `findOne` match says about one record. */
  lemma NameFree(files: Records, name: string, parentId: Option<Id>, projectId: Id, y: Id)
    requires !NameTaken(files, name, parentId, projectId)
    requires y in files && files[y].parentId == parentId && files[y].projectId == projectId
    ensures files[y].name != name
  {
  }

  /** Two successive identical creates: the second one is refused with 400. */
  lemma CreateTwiceRejected(files: Records, projects: Projects, nf: Id, np: Id, user: UserId, req: CreateRequest, now: nat)
    requires StoreInv(files, projects, nf, np)
    requires CreateStatus(files, projects, user, req) == Created
    ensures Materialize(nf, DraftOf(req), now).Some?
    ensures CreateStatus(files[nf := Materialize(nf, DraftOf(req), now).value], Stamp(projects, req.projectId, now), user, req) == BadRequest
  {
    var r := Materialize(nf, DraftOf(req), now).value;
    var files' := files[nf := r];
    var projects' := Stamp(projects, req.projectId, now);
    assert files'[nf] == r;
    assert NameTaken(files', Trim(req.name), req.parentId, req.projectId);
    assert Owns(projects', user, req.projectId);
    assert req.parentId.Some? ==> req.parentId.value in files' && files'[req.parentId.value] == files[req.parentId.value];
    assert CreateGuard(files', projects', user, req) == BadRequest;
  }

  // ----- updateFile -----

  /** The fields of an update body this model carries. */
  datatype Patch = Patch(name: Option<string>, content: Option<string>)

  /** `req.body.name && req.body.name !== file.name`: the only case that runs
      the duplicate check. */
  predicate Renames(f: FileRecord, p: Patch) {
    p.name.Some? && p.name.value != "" && p.name.value != f.name
  }

  /** The outcome of `updateFile`; the validators that `runValidators` runs on
      a new name answer 500. */
  function UpdateStatus(files: Records, projects: Projects, user: UserId, id: Id, p: Patch): (s: Status)
    ensures s in {Ok, NotFound, Unauthorized, BadRequest, ServerError}
    ensures s == NotFound <==> id !in files
    ensures s == Unauthorized <==> id in files && !Owns(projects, user, files[id].projectId)
    ensures s == BadRequest <==>
      (id in files && Owns(projects, user, files[id].projectId)
       && Renames(files[id], p) && NameTaken(files, Trim(p.name.value), files[id].parentId, files[id].projectId))
    ensures s == ServerError <==>
      (id in files && Owns(projects, user, files[id].projectId)
       && !(Renames(files[id], p) && NameTaken(files, Trim(p.name.value), files[id].parentId, files[id].projectId))
       && p.name.Some? && !NameLengthOk(Trim(p.name.value)))
    ensures s == Ok ==> p.name.Some? ==> NameLengthOk(Trim(p.name.value))
  {
    if id !in files then NotFound
    else if !Owns(projects, user, files[id].projectId) then Unauthorized
    else if Renames(files[id], p) && NameTaken(files, Trim(p.name.value), files[id].parentId, files[id].projectId) then BadRequest
    else if p.name.Some? && !NameLengthOk(Trim(p.name.value)) then ServerError
    else Ok
  }

  /** The record `findByIdAndUpdate` stores: the trim setter on a new name,
      the new content, and the stamp. */
  function Patched(f: FileRecord, p: Patch, now: nat): (g: FileRecord)
    ensures g.id == f.id && g.kind == f.kind && g.parentId == f.parentId && g.projectId == f.projectId
    ensures g.createdAt == f.createdAt && g.lastModified == now
    ensures g.name == (if p.name.Some? then Trim(p.name.value) else f.name)
    ensures g.content == p.content.GetOr(f.content)
  {
    f.(name := if p.name.Some? then Trim(p.name.value) else f.name,
       content := p.content.GetOr(f.content),
       lastModified := now)
  }

  /** Renaming a record to the name it already has never meets the duplicate
      check, so it cannot be refused with 400. */
  lemma RenameToSameName(files: Records, projects: Projects, user: UserId, id: Id, content: Option<string>)
    requires id in files
    ensures UpdateStatus(files, projects, user, id, Patch(Some(files[id].name), content)) != BadRequest
  {
    assert !Renames(files[id], Patch(Some(files[id].name), content));
  }

  /** A successful update keeps the store invariant. */
  lemma UpdateKeepsInv(files: Records, projects: Projects, nf: Id, np: Id, user: UserId, id: Id, p: Patch, now: nat)
    requires StoreInv(files, projects, nf, np)
    requires UpdateStatus(files, projects, user, id, p) == Ok
    ensures StoreInv(files[id := Patched(files[id], p, now)], Stamp(projects, files[id].projectId, now), nf, np)
  {
    var f := files[id];
    var g := Patched(f, p, now);
    var files' := files[id := g];
    if p.name.Some? {
      TrimMargins(p.name.value);
      if !Renames(f, p) {
        NameOkTrimmed(f.name);
      }
    }
    assert NameOk(g.name);
    assert g.name != f.name ==> Renames(f, p);
    forall y | y in files && y != id && files[y].parentId == f.parentId && files[y].projectId == f.projectId
      ensures files[y].name != g.name
    {
      if g.name != f.name {
        NameFree(files, Trim(p.name.value), f.parentId, f.projectId, y);
      }
    }
    assert SiblingNamesDistinct(files');
    assert NamesStored(files');
    assert ParentsAreFolders(files');
  }

  // ----- deleteFile -----

  function DeleteStatus(files: Records, projects: Projects, user: UserId, id: Id): (s: Status)
    ensures s == Ok <==> id in files && Owns(projects, user, files[id].projectId)
    ensures s == NotFound <==> id !in files
    ensures s == Ok || s == NotFound || s == Unauthorized
  {
    if id !in files then NotFound
    else if !Owns(projects, user, files[id].projectId) then Unauthorized
    else Ok
  }

  /** Removing records keeps every part of the invariant, as long as no
      remaining record belongs to a removed project. */
  lemma RemovalKeepsInv(files': Records, files: Records, projects': Projects, projects: Projects, nf: Id, np: Id)
    requires StoreInv(files, projects, nf, np)
    requires Submap(files', files) && projects'.Keys <= projects.Keys
    requires OwnedByProjects(files', projects')
    ensures StoreInv(files', projects', nf, np)
  {
    forall x | x in files' && files'[x].parentId.Some? && files'[x].parentId.value in files'
      ensures files'[files'[x].parentId.value].kind == Folder
    {
      assert files'[x] == files[x];
      assert files'[files'[x].parentId.value] == files[files[x].parentId.value];
    }
  }

  /** A file, as opposed to a folder, never has records below it: a stored
      parent is always a folder. */
  lemma FileHasNoDescendants(files: Records, projects: Projects, nf: Id, np: Id, id: Id)
    requires StoreInv(files, projects, nf, np)
    requires id in files && files[id].kind == File
    ensures Descendants(files, id) == {}
    ensures Subtree(files, id) == {id}
  {
    ChildlessHasNoDescendants(files, id);
  }

  /** A successful delete removes the record's subtree and keeps the
      invariant. */
  lemma DeleteKeepsInv(files: Records, projects: Projects, nf: Id, np: Id, user: UserId, id: Id, now: nat)
    requires StoreInv(files, projects, nf, np)
    requires DeleteStatus(files, projects, user, id) == Ok
    ensures StoreInv(files - Subtree(files, id), Stamp(projects, files[id].projectId, now), nf, np)
  {
    RemovalKeepsInv(files - Subtree(files, id), files, Stamp(projects, files[id].projectId, now), projects, nf, np);
  }

  // ----- projects -----

  /** `sort({lastModified: -1})`: listed projects, most recently modified first. */
  ghost predicate ByRecency(projects: Projects, ids: seq<Id>) {
    (forall i | 0 <= i < |ids| :: ids[i] in projects)
    && forall i, j | 0 <= i < j < |ids| :: projects[ids[i]].lastModified >= projects[ids[j]].lastModified
  }

  /** Inserting `p` after the listed projects modified no earlier than it
      and before the first one modified earlier keeps the order. */
  lemma InsertedByRecency(projects: Projects, ids: seq<Id>, p: Id, k: nat)
    requires p in projects && ByRecency(projects, ids) && k <= |ids|
    requires forall i | 0 <= i < k :: projects[ids[i]].lastModified >= projects[p].lastModified
    requires k < |ids| ==> projects[ids[k]].lastModified < projects[p].lastModified
    ensures ByRecency(projects, ids[..k] + [p] + ids[k..])
  {
    var r := ids[..k] + [p] + ids[k..];
    assert forall i | 0 <= i < |r| :: r[i] == if i < k then ids[i] else if i == k then p else ids[i - 1];
    forall i, j | 0 <= i < j < |r| ensures projects[r[i]].lastModified >= projects[r[j]].lastModified {
      if i == k && j > k {
        assert projects[ids[k]].lastModified >= projects[ids[j - 1]].lastModified;
      }
    }
  }

  /** The same insertion adds `p` to the members, and adds it once when it
      was not listed. */
  lemma InsertedOnce(ids: seq<Id>, p: Id, k: nat)
    requires k <= |ids|
    ensures var r := ids[..k] + [p] + ids[k..];
      |r| == |ids| + 1
      && (forall q :: q in r <==> q in ids || q == p)
      && ((p !in ids && forall i, j | 0 <= i < j < |ids| :: ids[i] != ids[j]) ==>
          forall i, j | 0 <= i < j < |r| :: r[i] != r[j])
  {
    var r := ids[..k] + [p] + ids[k..];
    assert forall i | 0 <= i < |r| :: r[i] == if i < k then ids[i] else if i == k then p else ids[i - 1];
    assert ids == ids[..k] + ids[k..];
  }

  /** The fields of a project body this model carries: `user`, `name` and
      `description`, each `None` when the body leaves it out. */
  datatype ProjectPatch = ProjectPatch(owner: Option<UserId>, name: Option<string>, description: Option<string>)

  /** What `findByIdAndUpdate(id, req.body)` stores: every field the body
      carries, the owner included, and the handler's own `lastModified`,
      which overrides any stamp in the body. */
  function PatchedProject(p: Project, patch: ProjectPatch, now: nat): (q: Project)
    ensures q.owner == patch.owner.GetOr(p.owner) && q.lastModified == now
    ensures q.name == patch.name.GetOr(p.name) && q.description == patch.description.GetOr(p.description)
  {
    Project(patch.owner.GetOr(p.owner), patch.name.GetOr(p.name), patch.description.GetOr(p.description), now)
  }

  /** The body is applied wholesale: an owner's update that names another
      `user` hands the project over, and its former owner is refused from
      then on, while a body without `user` keeps the owner. */
  lemma UpdateTransfersOwnership(projects: Projects, user: UserId, projectId: Id, patch: ProjectPatch, now: nat)
    requires ProjectAccess(projects, user, projectId) == Ok
    ensures var projects' := projects[projectId := PatchedProject(projects[projectId], patch, now)];
      (patch.owner.Some? && patch.owner.value != user ==>
        ProjectAccess(projects', user, projectId) == Unauthorized
        && ProjectAccess(projects', patch.owner.value, projectId) == Ok)
      && (patch.owner.None? ==> ProjectAccess(projects', user, projectId) == Ok)
  {
  }

  /** The files that survive `File.deleteMany({projectId})`. */
  function FilesOutside(files: Records, projectId: Id): (r: Records)
    ensures forall x :: x in r <==> x in files && files[x].projectId != projectId
    ensures Submap(r, files)
  {
    map x | x in files && files[x].projectId != projectId :: files[x]
  }

  /** Deleting a project with its files keeps the invariant. */
  lemma DeleteProjectKeepsInv(files: Records, projects: Projects, nf: Id, np: Id, projectId: Id)
    requires StoreInv(files, projects, nf, np)
    ensures StoreInv(FilesOutside(files, projectId), projects - {projectId}, nf, np)
  {
    RemovalKeepsInv(FilesOutside(files, projectId), files, projects - {projectId}, projects, nf, np);
  }

  // ----- the default tree of a new project -----

  const IndexHtmlText: string :=
    "<!DOCTYPE html>\n"
    + "<html lang=\"en\">\n"
    + "  <head>\n"
    + "    <meta charset=\"utf-8\" />\n"
    + "    <meta name=\"viewport\" content=\"width=device-width, initial-scale=1\" />\n"
    + "    <meta name=\"theme-color\" content=\"#000000\" />\n"
    + "    <meta\n"
    + "      name=\"description\"\n"
    + "      content=\"Web site created using CipherStudio\"\n"
    + "    />\n"
    + "    <title>React App</title>\n"
    + "  </head>\n"
    + "  <body>\n"
    + "    <noscript>You need to enable JavaScript to run this app.</noscript>\n"
    + "    <div id=\"root\"></div>\n"
    + "  </body>\n"
    + "</html>"

  const AppJsText: string :=
    "import React from 'react';\n"
    + "\n"
    + "function App() {\n"
    + "  return (\n"
    + "    <div className=\"App\">\n"
    + "      <header className=\"App-header\">\n"
    + "        <h1>Welcome to CipherStudio</h1>\n"
    + "        <p>\n"
    + "          Edit <code>src/App.js</code> and save to reload.\n"
    + "        </p>\n"
    + "        <button onClick={() => alert('Hello, CipherStudio!')}>Click Me</button>\n"
    + "      </header>\n"
    + "    </div>\n"
    + "  );\n"
    + "}\n"
    + "\n"
    + "export default App;"

  const IndexJsText: string :=
    "import React from 'react';\n"
    + "import ReactDOM from 'react-dom/client';\n"
    + "import App from './App';\n"
    + "\n"
    + "const root = ReactDOM.createRoot(document.getElementById('root'));\n"
    + "root.render(\n"
    + "  <React.StrictMode>\n"
    + "    <App />\n"
    + "  </React.StrictMode>\n"
    + ");"

  const PackageJsonText: string :=
    "{\n"
    + "  \"name\": \"react-app\",\n"
    + "  \"version\": \"0.1.0\",\n"
    + "  \"private\": true,\n"
    + "  \"dependencies\": {\n"
    + "    \"react\": \"^18.2.0\",\n"
    + "    \"react-dom\": \"^18.2.0\",\n"
    + "    \"react-scripts\": \"5.0.1\"\n"
    + "  },\n"
    + "  \"scripts\": {\n"
    + "    \"start\": \"react-scripts start\",\n"
    + "    \"build\": \"react-scripts build\",\n"
    + "    \"test\": \"react-scripts test\",\n"
    + "    \"eject\": \"react-scripts eject\"\n"
    + "  },\n"
    + "  \"eslintConfig\": {\n"
    + "    \"extends\": [\n"
    + "      \"react-app\"\n"
    + "    ]\n"
    + "  },\n"
    + "  \"browserslist\": {\n"
    + "    \"production\": [\n"
    + "      \">0.2%\",\n"
    + "      \"not dead\",\n"
    + "      \"not op_mini all\"\n"
    + "    ],\n"
    + "    \"development\": [\n"
    + "      \"last 1 chrome version\",\n"
    + "      \"last 1 firefox version\",\n"
    + "      \"last 1 safari version\"\n"
    + "    ]\n"
    + "  }\n"
    + "}"

  /** The contents of the four seeded files. */
  datatype Scaffold = Scaffold(indexHtml: string, appJs: string, indexJs: string, packageJson: string)

  /** The React starter that `createDefaultProjectStructure` writes. */
  const ReactScaffold: Scaffold := Scaffold(IndexHtmlText, AppJsText, IndexJsText, PackageJsonText)

  /** The record the `k`-th seeding call stores when ids are handed out from
      `base` on: folders get the default empty content. */
  function DefaultRecord(texts: Scaffold, projectId: Id, base: Id, now: nat, k: nat): (r: FileRecord)
    requires k < 6
    ensures r.id == base + k && r.projectId == projectId && r.createdAt == now && r.lastModified == now
  {
    if k == 0 then FileRecord(base, "public", Folder, "", None, projectId, now, now)
    else if k == 1 then FileRecord(base + 1, "index.html", File, texts.indexHtml, Some(base), projectId, now, now)
    else if k == 2 then FileRecord(base + 2, "src", Folder, "", None, projectId, now, now)
    else if k == 3 then FileRecord(base + 3, "App.js", File, texts.appJs, Some(base + 2), projectId, now, now)
    else if k == 4 then FileRecord(base + 4, "index.js", File, texts.indexJs, Some(base + 2), projectId, now, now)
    else FileRecord(base + 5, "package.json", File, texts.packageJson, None, projectId, now, now)
  }

  /** The six seeded records, keyed by id. */
  function DefaultFiles(texts: Scaffold, projectId: Id, base: Id, now: nat): (t: Records)
    ensures t.Keys == {base, base + 1, base + 2, base + 3, base + 4, base + 5}
    ensures forall x | x in t :: base <= x < base + 6 && t[x] == DefaultRecord(texts, projectId, base, now, x - base)
  {
    map[base := DefaultRecord(texts, projectId, base, now, 0),
        base + 1 := DefaultRecord(texts, projectId, base, now, 1),
        base + 2 := DefaultRecord(texts, projectId, base, now, 2),
        base + 3 := DefaultRecord(texts, projectId, base, now, 3),
        base + 4 := DefaultRecord(texts, projectId, base, now, 4),
        base + 5 := DefaultRecord(texts, projectId, base, now, 5)]
  }

  /** Storing the six records one after the other gives the old records plus
      the default tree. */
  lemma DefaultFilesStoredInTurn(files: Records, files': Records, texts: Scaffold, projectId: Id, base: Id, now: nat)
    requires files' == files[base := DefaultRecord(texts, projectId, base, now, 0)]
      [base + 1 := DefaultRecord(texts, projectId, base, now, 1)]
      [base + 2 := DefaultRecord(texts, projectId, base, now, 2)]
      [base + 3 := DefaultRecord(texts, projectId, base, now, 3)]
      [base + 4 := DefaultRecord(texts, projectId, base, now, 4)]
      [base + 5 := DefaultRecord(texts, projectId, base, now, 5)]
    ensures files' == files + DefaultFiles(texts, projectId, base, now)
  {
  }

  /** The default tree: `public`, `src` and `package.json` at the root,
      `index.html` in `public`, `App.js` and `index.js` in `src`; every parent
      is a folder of the tree, sibling names are distinct and every name is
      one the schema stores. */
  lemma DefaultTreeWellFormed(t: Records, texts: Scaffold, projectId: Id, base: Id, now: nat)
    requires t == DefaultFiles(texts, projectId, base, now)
    ensures forall x | x in t && t[x].parentId == None :: t[x].name in {"public", "src", "package.json"}
    ensures forall x | x in t && t[x].parentId == Some(base) :: t[x].name == "index.html"
    ensures forall x | x in t && t[x].parentId == Some(base + 2) :: t[x].name in {"App.js", "index.js"}
    ensures forall x | x in t && t[x].parentId.Some? :: t[x].parentId.value in t && t[t[x].parentId.value].kind == Folder
    ensures forall x | x in t :: t[x].projectId == projectId
    ensures KeysMatch(t, base + 6) && ParentsPrecede(t) && SiblingNamesDistinct(t) && NamesStored(t)
  {
    forall x | x in t
      ensures t[x].parentId == None ==> t[x].name in {"public", "src", "package.json"}
      ensures t[x].parentId == Some(base) ==> t[x].name == "index.html"
      ensures t[x].parentId == Some(base + 2) ==> t[x].name in {"App.js", "index.js"}
      ensures t[x].parentId.Some? ==> t[x].parentId.value in t && t[t[x].parentId.value].kind == Folder
      ensures t[x].parentId.Some? ==> t[x].parentId.value < x
      ensures NameOk(t[x].name)
    {
      DefaultRecordPlaced(texts, projectId, base, now, x - base);
      DefaultRecordPlaced(texts, projectId, base, now, 0);
      DefaultRecordPlaced(texts, projectId, base, now, 2);
    }
    forall x, y | x in t && y in t && x != y && t[x].parentId == t[y].parentId
      ensures t[x].name != t[y].name
    {
      DefaultRecordPlaced(texts, projectId, base, now, x - base);
      DefaultRecordPlaced(texts, projectId, base, now, y - base);
    }
  }

  /** Where each seeded record sits and what it is called. */
  lemma DefaultRecordPlaced(texts: Scaffold, projectId: Id, base: Id, now: nat, k: nat)
    requires k < 6
    ensures var r := DefaultRecord(texts, projectId, base, now, k);
      NameOk(r.name)
      && (r.parentId == None <==> k in {0, 2, 5})
      && (r.parentId == Some(base) <==> k == 1)
      && (r.parentId == Some(base + 2) <==> k in {3, 4})
      && (r.kind == Folder <==> k in {0, 2})
      && (r.parentId == None ==> r.name in {"public", "src", "package.json"})
      && (r.parentId == Some(base) ==> r.name == "index.html")
      && (r.parentId == Some(base + 2) ==> r.name in {"App.js", "index.js"})
  {
    ShortNameLengthOk(DefaultRecord(texts, projectId, base, now, k).name);
  }

  /** Seeding a new project's tree next to the existing records keeps the
      invariant: the new records share no project with the old ones. */
  lemma CreateProjectKeepsInv(files: Records, projects: Projects, nf: Id, np: Id, user: UserId, name: string, description: string, now: nat, texts: Scaffold)
    requires StoreInv(files, projects, nf, np)
    ensures StoreInv(files + DefaultFiles(texts, np, nf, now), projects[np := Project(user, name, description, now)], nf + 6, np + 1)
  {
    var t := DefaultFiles(texts, np, nf, now);
    DefaultTreeWellFormed(t, texts, np, nf, now);
    JoinKeepsInv(files, t, projects, nf, np, nf + 6, Project(user, name, description, now));
  }

  /** Adding a well-formed tree of a fresh project, with ids above the old
      ones, keeps the invariant. */
  lemma JoinKeepsInv(files: Records, t: Records, projects: Projects, nf: Id, np: Id, nf': Id, project: Project)
    requires StoreInv(files, projects, nf, np)
    requires nf <= nf' && KeysMatch(t, nf') && ParentsPrecede(t) && SiblingNamesDistinct(t) && NamesStored(t)
    requires forall x | x in t :: nf <= x && t[x].projectId == np
    requires forall x | x in t && t[x].parentId.Some? :: t[x].parentId.value in t && t[t[x].parentId.value].kind == Folder
    ensures StoreInv(files + t, projects[np := project], nf', np + 1)
  {
    assert np !in projects;
    JoinKeepsRecords(files, t, nf, nf');
    JoinKeepsFolders(files, t, nf);
    JoinKeepsSiblings(files, t, projects, np);
    JoinKeepsOwners(files, t, projects, np, project);
  }

  lemma JoinKeepsRecords(files: Records, t: Records, nf: Id, nf': Id)
    requires KeysMatch(files, nf) && ParentsPrecede(files) && NamesStored(files)
    requires nf <= nf' && KeysMatch(t, nf') && ParentsPrecede(t) && NamesStored(t)
    ensures KeysMatch(files + t, nf') && ParentsPrecede(files + t) && NamesStored(files + t)
  {
    var files' := files + t;
    forall x | x in files'
      ensures files'[x] == if x in t then t[x] else files[x]
    {
    }
  }

  lemma JoinKeepsOwners(files: Records, t: Records, projects: Projects, np: Id, project: Project)
    requires OwnedByProjects(files, projects) && forall p | p in projects :: p < np
    requires forall x | x in t :: t[x].projectId == np
    ensures OwnedByProjects(files + t, projects[np := project])
  {
    var files' := files + t;
    forall x | x in files'
      ensures files'[x] == if x in t then t[x] else files[x]
    {
    }
  }

  lemma JoinKeepsFolders(files: Records, t: Records, nf: Id)
    requires KeysMatch(files, nf) && ParentsPrecede(files) && ParentsAreFolders(files)
    requires forall x | x in t :: nf <= x
    requires forall x | x in t && t[x].parentId.Some? :: t[x].parentId.value in t && t[t[x].parentId.value].kind == Folder
    ensures ParentsAreFolders(files + t)
  {
    var files' := files + t;
    forall x | x in files' && files'[x].parentId.Some? && files'[x].parentId.value in files'
      ensures files'[files'[x].parentId.value].kind == Folder
    {
      if x in t {
        assert files'[x] == t[x];
      } else {
        assert files'[x] == files[x];
        assert files'[x].parentId.value < x;
        assert files'[x].parentId.value !in t;
      }
    }
  }

  /** Old records belong to old projects, so no new record is their sibling. */
  lemma JoinKeepsSiblings(files: Records, t: Records, projects: Projects, np: Id)
    requires SiblingNamesDistinct(files) && SiblingNamesDistinct(t)
    requires OwnedByProjects(files, projects) && forall p | p in projects :: p < np
    requires forall x | x in t :: t[x].projectId == np
    ensures SiblingNamesDistinct(files + t)
  {
    var files' := files + t;
    forall x, y | x in files' && y in files' && x != y
      && files'[x].parentId == files'[y].parentId && files'[x].projectId == files'[y].projectId
      ensures files'[x].name != files'[y].name
    {
      if x in t && y in t {
        assert files'[x] == t[x] && files'[y] == t[y];
      } else if x !in t && y !in t {
        assert files'[x] == files[x] && files'[y] == files[y];
      }
    }
  }
}
