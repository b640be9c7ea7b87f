/** The backend's two collections and the request handlers over them
    (backend/controllers/files.js, backend/controllers/projects.js). Each
    handler answers with a status and changes the store only when it
    succeeds; the caller's id and the clock reading are parameters. */
module Backend {
  import opened Strings
  import opened FileModel
  import opened Hierarchy
  import opened StoreSpec

  /** The ids of a list of records, in order. */
  function IdsOf(rs: seq<FileRecord>): (ids: seq<Id>)
    ensures |ids| == |rs|
    ensures forall i | 0 <= i < |rs| :: ids[i] == rs[i].id
  {
    seq(|rs|, i requires 0 <= i < |rs| => rs[i].id)
  }

  class Store {
    var files: Records
    var projects: Projects
    var nextFileId: Id
    var nextProjectId: Id
    /** The starter files `createDefaultProjectStructure` writes into every
        new project. */
    const scaffold: Scaffold

    ghost predicate Valid()
      reads this
    {
      StoreInv(files, projects, nextFileId, nextProjectId)
    }

    constructor ()
      ensures Valid()
      ensures files == map[] && projects == map[] && nextFileId == 0 && nextProjectId == 0
      ensures scaffold == ReactScaffold
    {
      scaffold := ReactScaffold;
      files := map[];
      projects := map[];
      nextFileId := 0;
      nextProjectId := 0;
    }

    /** `File.find(filter)`: every stored record the filter accepts, each
        once, in creation order. */
    method Find(filter: FileRecord -> bool) returns (rs: seq<FileRecord>)
      requires Valid()
      ensures forall x :: x in IdsOf(rs) <==> x in files && filter(files[x])
      ensures forall i | 0 <= i < |rs| :: rs[i].id in files && files[rs[i].id] == rs[i]
      ensures forall i, j | 0 <= i < j < |rs| :: rs[i].id < rs[j].id
    {
      rs := [];
      var x := 0;
      while x < nextFileId
        invariant x <= nextFileId
        invariant forall y :: y in IdsOf(rs) <==> y < x && y in files && filter(files[y])
        invariant forall i | 0 <= i < |rs| :: rs[i].id in files && files[rs[i].id] == rs[i] && rs[i].id < x
        invariant forall i, j | 0 <= i < j < |rs| :: rs[i].id < rs[j].id
      {
        if x in files && filter(files[x]) {
          assert IdsOf(rs + [files[x]]) == IdsOf(rs) + [x];
          rs := rs + [files[x]];
        }
        assert forall y :: y in IdsOf(rs) <==> y < x + 1 && y in files && filter(files[y]);
        x := x + 1;
      }
    }

    /** `File.find({ parentId })`: the records directly inside a folder. */
    method FindChildren(folder: Id) returns (children: seq<FileRecord>)
      requires Valid()
      ensures forall x :: x in IdsOf(children) <==> x in files && files[x].parentId == Some(folder)
      ensures forall i | 0 <= i < |children| :: children[i].id in files && files[children[i].id] == children[i]
      ensures forall i, j | 0 <= i < j < |children| :: children[i].id < children[j].id
    {
      children := Find((r: FileRecord) => r.parentId == Some(folder));
    }

    /** `File.findOne({name, parentId, projectId})` returns a record. */
    method FindOne(name: string, parentId: Option<Id>, projectId: Id) returns (found: bool)
      requires Valid()
      ensures found == NameTaken(files, name, parentId, projectId)
    {
      var rs := Find((r: FileRecord) => r.name == name && r.parentId == parentId && r.projectId == projectId);
      found := |rs| > 0;
      if found {
        assert rs[0].id in IdsOf(rs);
      }
    }

    /** `File.create`: the next id, the schema's setters, defaults and
        validators; nothing is stored when validation fails. */
    method Insert(d: Draft, now: nat) returns (r: Option<FileRecord>)
      modifies this
      ensures r == Materialize(old(nextFileId), d, now)
      ensures r.Some? ==> files == old(files)[old(nextFileId) := r.value] && nextFileId == old(nextFileId) + 1
      ensures r.None? ==> files == old(files) && nextFileId == old(nextFileId)
      ensures projects == old(projects) && nextProjectId == old(nextProjectId)
    {
      r := Materialize(nextFileId, d, now);
      if r.Some? {
        files := files[nextFileId := r.value];
        nextFileId := nextFileId + 1;
      }
    }

    // ----- files -----

    /** `getProjectFiles`: exactly the project's records, each once. */
    method GetProjectFiles(user: UserId, projectId: Id) returns (status: Status, data: seq<FileRecord>)
      requires Valid()
      ensures status == ProjectAccess(projects, user, projectId)
      ensures status == Ok ==> forall x :: x in IdsOf(data) <==> x in files && files[x].projectId == projectId
      ensures status != Ok ==> data == []
      ensures forall i | 0 <= i < |data| :: data[i].id in files && files[data[i].id] == data[i]
      ensures forall i, j | 0 <= i < j < |data| :: data[i].id < data[j].id
    {
      if projectId !in projects {
        return NotFound, [];
      }
      if projects[projectId].owner != user {
        return Unauthorized, [];
      }
      data := Find((r: FileRecord) => r.projectId == projectId);
      status := Ok;
    }

    /** `getFilesByParent`: `parentId == None` is the route's `"root"`. */
    method GetFilesByParent(user: UserId, projectId: Id, parentId: Option<Id>) returns (status: Status, data: seq<FileRecord>)
      requires Valid()
      ensures status == ProjectAccess(projects, user, projectId)
      ensures status == Ok ==> forall x :: x in IdsOf(data) <==>
        x in files && files[x].projectId == projectId && files[x].parentId == parentId
      ensures status != Ok ==> data == []
      ensures forall i | 0 <= i < |data| :: data[i].id in files && files[data[i].id] == data[i]
      ensures forall i, j | 0 <= i < j < |data| :: data[i].id < data[j].id
    {
      if projectId !in projects {
        return NotFound, [];
      }
      if projects[projectId].owner != user {
        return Unauthorized, [];
      }
      data := Find((r: FileRecord) => r.projectId == projectId && r.parentId == parentId);
      status := Ok;
    }

    /** `getFile` */
    method GetFile(user: UserId, id: Id) returns (status: Status, data: Option<FileRecord>)
      requires Valid()
      ensures status == GetFileStatus(files, projects, user, id)
      ensures data == if status == Ok then Some(files[id]) else None
    {
      if id !in files {
        return NotFound, None;
      }
      var file := files[id];
      if file.projectId !in projects {
        return ServerError, None;
      }
      if projects[file.projectId].owner != user {
        return Unauthorized, None;
      }
      return Ok, Some(file);
    }

    /** `createFile` */
    method CreateFile(user: UserId, req: CreateRequest, now: nat) returns (status: Status, created: Option<FileRecord>)
      requires Valid()
      modifies this
      ensures Valid()
      ensures status == CreateStatus(old(files), old(projects), user, req)
      ensures status == Created ==>
        created == Materialize(old(nextFileId), DraftOf(req), now) && created.Some?
        && files == old(files)[old(nextFileId) := created.value]
        && projects == Stamp(old(projects), req.projectId, now)
        && nextFileId == old(nextFileId) + 1
      ensures status != Created ==>
        created == None && files == old(files) && projects == old(projects) && nextFileId == old(nextFileId)
      ensures nextProjectId == old(nextProjectId)
    {
      status := CheckCreate(user, req);
      if status != Ok {
        return status, None;
      }
      ghost var files0, projects0 := files, projects;
      created := Insert(DraftOf(req), now);
      if created.None? {
        return ServerError, None;
      }
      CreateKeepsInv(files0, projects0, nextFileId - 1, nextProjectId, user, req, now);
      projects := Stamp(projects, req.projectId, now);
      status := Created;
    }

    /** The checks of `createFile` before `File.create`: project, owner,
        parent, parent kind, then a sibling with the (trimmed) name. */
    method CheckCreate(user: UserId, req: CreateRequest) returns (status: Status)
      requires Valid()
      ensures status == CreateGuard(files, projects, user, req)
    {
      if req.projectId !in projects {
        return NotFound;
      }
      if projects[req.projectId].owner != user {
        return Unauthorized;
      }
      if req.parentId.Some? {
        if req.parentId.value !in files {
          return NotFound;
        }
        if files[req.parentId.value].kind != Folder {
          return BadRequest;
        }
      }
      var existing := FindOne(Trim(req.name), req.parentId, req.projectId);
      if existing {
        return BadRequest;
      }
      return Ok;
    }

    /** `updateFile`, with the body's `name` and `content` */
    method UpdateFile(user: UserId, id: Id, p: Patch, now: nat) returns (status: Status, updated: Option<FileRecord>)
      requires Valid()
      modifies this
      ensures Valid()
      ensures status == UpdateStatus(old(files), old(projects), user, id, p)
      ensures status == Ok ==>
        updated == Some(Patched(old(files)[id], p, now))
        && files == old(files)[id := updated.value]
        && projects == Stamp(old(projects), old(files)[id].projectId, now)
      ensures status != Ok ==> updated == None && files == old(files) && projects == old(projects)
      ensures nextFileId == old(nextFileId) && nextProjectId == old(nextProjectId)
    {
      status := CheckUpdate(user, id, p);
      if status != Ok {
        return status, None;
      }
      var file := files[id];
      UpdateKeepsInv(files, projects, nextFileId, nextProjectId, user, id, p, now);
      var g := Patched(file, p, now);
      files := files[id := g];
      projects := Stamp(projects, file.projectId, now);
      updated := Some(g);
    }

    /** The checks of `updateFile`, and the validators `findByIdAndUpdate`
        runs on a new name. */
    method CheckUpdate(user: UserId, id: Id, p: Patch) returns (status: Status)
      requires Valid()
      ensures status == UpdateStatus(files, projects, user, id, p)
    {
      if id !in files {
        return NotFound;
      }
      var file := files[id];
      if file.projectId !in projects || projects[file.projectId].owner != user {
        return Unauthorized;
      }
      if p.name.Some? && p.name.value != "" && p.name.value != file.name {
        var existing := FindOne(Trim(p.name.value), file.parentId, file.projectId);
        if existing {
          return BadRequest;
        }
      }
      if p.name.Some? && !NameLengthOk(Trim(p.name.value)) {
        return ServerError;
      }
      return Ok;
    }

    /** `deleteFile`: a folder's contents go first, then the record itself. */
    method DeleteFile(user: UserId, id: Id, now: nat) returns (status: Status)
      requires Valid()
      modifies this
      ensures Valid()
      ensures status == DeleteStatus(old(files), old(projects), user, id)
      ensures status == Ok ==>
        files == old(files) - Subtree(old(files), id)
        && projects == Stamp(old(projects), old(files)[id].projectId, now)
      ensures status != Ok ==> files == old(files) && projects == old(projects)
      ensures nextFileId == old(nextFileId) && nextProjectId == old(nextProjectId)
    {
      if id !in files {
        return NotFound;
      }
      var file := files[id];
      if file.projectId !in projects || projects[file.projectId].owner != user {
        return Unauthorized;
      }
      ghost var files0 := files;
      ghost var order := DeleteRecord(file);
      DeleteKeepsInv(files0, projects, nextFileId, nextProjectId, user, id, now);
      projects := Stamp(projects, file.projectId, now);
      status := Ok;
    }

    /** `deleteFolder`: removes everything below `folder`, recursing into each
        child folder before removing that child. `order` is the sequence of
        removals; it is a post-order, so a run cut short at any point leaves
        no stored record whose parent has been removed. */
    method DeleteFolder(folder: Id) returns (ghost order: seq<Id>)
      requires Valid()
      modifies this
      decreases nextFileId - folder, 0
      ensures Valid()
      ensures files == old(files) - Descendants(old(files), folder)
      ensures forall x :: x in order <==> x in Descendants(old(files), folder)
      ensures PostOrder(old(files), order)
      ensures projects == old(projects) && nextFileId == old(nextFileId) && nextProjectId == old(nextProjectId)
    {
      var children := FindChildren(folder);
      ghost var s0 := files;
      ghost var cs := IdsOf(children);
      forall k | 0 <= k < |cs| ensures cs[k] in s0 && s0[cs[k]].parentId == Some(folder) && folder < cs[k] {
        assert cs[k] in IdsOf(children);
      }
      order := [];
      var i := 0;
      while i < |children|
        invariant i <= |children|
        invariant Valid()
        invariant projects == old(projects) && nextFileId == old(nextFileId) && nextProjectId == old(nextProjectId)
        invariant files == s0 - Branches(s0, cs[..i])
        invariant forall x :: x in order <==> x in Branches(s0, cs[..i])
        invariant PostOrder(s0, order)
      {
        var child := children[i];
        ghost var cur := files;
        BranchStep(s0, folder, cs, i, cur);
        assert child.id == cs[i] && child.id in cur;
        var sub := DeleteRecord(child);
        DeletionStep(s0, folder, cs, i, cur, order, sub);
        order := order + sub + [child.id];
        i := i + 1;
      }
      assert cs[..i] == cs;
      BranchesOfAllChildren(s0, folder, cs);
    }

    /** The body of `deleteFolder`'s loop, and of `deleteFile` after its
        checks: a folder's contents are deleted first, then `deleteOne`
        removes the record itself. `sub` is the order in which the records
        below it were removed. */
    method DeleteRecord(rec: FileRecord) returns (ghost sub: seq<Id>)
      requires Valid() && rec.id in files && files[rec.id] == rec
      modifies this
      decreases nextFileId - rec.id, 1
      ensures Valid()
      ensures files == old(files) - Subtree(old(files), rec.id)
      ensures PostOrder(old(files), sub)
      ensures forall x :: x in sub <==> x in Descendants(old(files), rec.id)
      ensures projects == old(projects) && nextFileId == old(nextFileId) && nextProjectId == old(nextProjectId)
    {
      ghost var files0 := files;
      sub := [];
      if rec.kind == Folder {
        sub := DeleteFolder(rec.id);
      } else {
        FileHasNoDescendants(files, projects, nextFileId, nextProjectId, rec.id);
      }
      assert Subtree(files0, rec.id) == Descendants(files0, rec.id) + {rec.id};
      files := files - {rec.id};
      RemovalKeepsInv(files, files0, projects, projects, nextFileId, nextProjectId);
    }

    // ----- projects -----

    /** `getProjects`: the caller's projects, most recently modified first. */
    method GetProjects(user: UserId) returns (ids: seq<Id>)
      requires Valid()
      ensures forall p: Id :: p in ids <==> Owns(projects, user, p)
      ensures ByRecency(projects, ids)
      ensures forall i, j | 0 <= i < j < |ids| :: ids[i] != ids[j]
    {
      ids := [];
      var p := 0;
      while p < nextProjectId
        invariant p <= nextProjectId
        invariant forall q: Id :: q in ids <==> q < p && Owns(projects, user, q)
        invariant ByRecency(projects, ids)
        invariant forall q | q in ids :: q < p
        invariant forall i, j | 0 <= i < j < |ids| :: ids[i] != ids[j]
      {
        if p in projects && projects[p].owner == user {
          ids := PlaceByRecency(ids, p);
        }
        p := p + 1;
      }
    }

    /** Inserts `p` after every listed project modified no earlier than it. */
    method PlaceByRecency(ids: seq<Id>, p: Id) returns (r: seq<Id>)
      requires p in projects && ByRecency(projects, ids)
      ensures ByRecency(projects, r)
      ensures |r| == |ids| + 1
      ensures forall q :: q in r <==> q in ids || q == p
      ensures (p !in ids && forall i, j | 0 <= i < j < |ids| :: ids[i] != ids[j]) ==>
        forall i, j | 0 <= i < j < |r| :: r[i] != r[j]
    {
      var stamp := projects[p].lastModified;
      var k := 0;
      while k < |ids| && projects[ids[k]].lastModified >= stamp
        invariant k <= |ids|
        invariant forall i | 0 <= i < k :: projects[ids[i]].lastModified >= stamp
      {
        k := k + 1;
      }
      r := ids[..k] + [p] + ids[k..];
      InsertedByRecency(projects, ids, p, k);
      InsertedOnce(ids, p, k);
    }

    /** `getProject` */
    method GetProject(user: UserId, projectId: Id) returns (status: Status, data: Option<Project>)
      requires Valid()
      ensures status == ProjectAccess(projects, user, projectId)
      ensures data == if status == Ok then Some(projects[projectId]) else None
    {
      if projectId !in projects {
        return NotFound, None;
      }
      var project := projects[projectId];
      if project.owner != user {
        return Unauthorized, None;
      }
      return Ok, Some(project);
    }

    /** `createProject`: the caller becomes the owner whatever the body says,
        then the six default records are seeded. */
    method CreateProject(user: UserId, name: string, description: string, now: nat) returns (status: Status, projectId: Id)
      requires Valid()
      modifies this
      ensures Valid()
      ensures status == Created && projectId == old(nextProjectId)
      ensures projects == old(projects)[projectId := Project(user, name, description, now)]
      ensures files == old(files) + DefaultFiles(scaffold, projectId, old(nextFileId), now)
      ensures nextFileId == old(nextFileId) + 6 && nextProjectId == old(nextProjectId) + 1
    {
      projectId := nextProjectId;
      CreateProjectKeepsInv(files, projects, nextFileId, nextProjectId, user, name, description, now, scaffold);
      projects := projects[projectId := Project(user, name, description, now)];
      nextProjectId := nextProjectId + 1;
      ghost var files0, base := files, nextFileId;
      CreateDefaultProjectStructure(projectId, now, scaffold);
      DefaultFilesStoredInTurn(files0, files, scaffold, projectId, base, now);
      status := Created;
    }

    /** `createDefaultProjectStructure`: the six `File.create` calls, each
        on fields the schema accepts and stores as given. */
    method CreateDefaultProjectStructure(projectId: Id, now: nat, texts: Scaffold)
      modifies this
      ensures var base := old(nextFileId);
        files == old(files)[base := DefaultRecord(texts, projectId, base, now, 0)]
          [base + 1 := DefaultRecord(texts, projectId, base, now, 1)]
          [base + 2 := DefaultRecord(texts, projectId, base, now, 2)]
          [base + 3 := DefaultRecord(texts, projectId, base, now, 3)]
          [base + 4 := DefaultRecord(texts, projectId, base, now, 4)]
          [base + 5 := DefaultRecord(texts, projectId, base, now, 5)]
      ensures nextFileId == old(nextFileId) + 6
      ensures projects == old(projects) && nextProjectId == old(nextProjectId)
    {
      ghost var base := nextFileId;
      ShortNameLengthOk("public");
      var publicFolder := InsertStored(Draft("public", "folder", None, None, projectId), now, Folder);
      assert publicFolder == DefaultRecord(texts, projectId, base, now, 0);
      ShortNameLengthOk("index.html");
      var indexHtml := InsertStored(Draft("index.html", "file", Some(texts.indexHtml), Some(publicFolder.id), projectId), now, File);
      assert indexHtml == DefaultRecord(texts, projectId, base, now, 1);
      ShortNameLengthOk("src");
      var srcFolder := InsertStored(Draft("src", "folder", None, None, projectId), now, Folder);
      assert srcFolder == DefaultRecord(texts, projectId, base, now, 2);
      ShortNameLengthOk("App.js");
      var appJs := InsertStored(Draft("App.js", "file", Some(texts.appJs), Some(srcFolder.id), projectId), now, File);
      assert appJs == DefaultRecord(texts, projectId, base, now, 3);
      ShortNameLengthOk("index.js");
      var indexJs := InsertStored(Draft("index.js", "file", Some(texts.indexJs), Some(srcFolder.id), projectId), now, File);
      assert indexJs == DefaultRecord(texts, projectId, base, now, 4);
      ShortNameLengthOk("package.json");
      var packageJson := InsertStored(Draft("package.json", "file", Some(texts.packageJson), None, projectId), now, File);
      assert packageJson == DefaultRecord(texts, projectId, base, now, 5);
    }

    /** `File.create` on fields already in stored form: a name the trim
        setter keeps and a valid type, so the record is stored as given. */
    method InsertStored(d: Draft, now: nat, ghost k: Kind) returns (r: FileRecord)
      requires NameOk(d.name) && KindOf(d.kind) == Some(k)
      modifies this
      ensures r == FileRecord(old(nextFileId), d.name, k, d.content.GetOr(""), d.parentId, d.projectId, now, now)
      ensures files == old(files)[old(nextFileId) := r] && nextFileId == old(nextFileId) + 1
      ensures projects == old(projects) && nextProjectId == old(nextProjectId)
    {
      MaterializeStored(nextFileId, d, now, k);
      var created := Insert(d, now);
      r := created.value;
    }

    /** `updateProject`: the body's fields and a fresh `lastModified`. */
    method UpdateProject(user: UserId, projectId: Id, patch: ProjectPatch, now: nat) returns (status: Status, data: Option<Project>)
      requires Valid()
      modifies this
      ensures Valid()
      ensures status == ProjectAccess(old(projects), user, projectId)
      ensures status == Ok ==>
        data == Some(PatchedProject(old(projects)[projectId], patch, now))
        && projects == old(projects)[projectId := data.value]
      ensures status != Ok ==> data == None && projects == old(projects)
      ensures files == old(files) && nextFileId == old(nextFileId) && nextProjectId == old(nextProjectId)
    {
      if projectId !in projects {
        return NotFound, None;
      }
      var project := projects[projectId];
      if project.owner != user {
        return Unauthorized, None;
      }
      var q := PatchedProject(project, patch, now);
      projects := projects[projectId := q];
      return Ok, Some(q);
    }

    /** `deleteProject`: the project's records, then the project. */
    method DeleteProject(user: UserId, projectId: Id) returns (status: Status)
      requires Valid()
      modifies this
      ensures Valid()
      ensures status == ProjectAccess(old(projects), user, projectId)
      ensures status == Ok ==> files == FilesOutside(old(files), projectId) && projects == old(projects) - {projectId}
      ensures status != Ok ==> files == old(files) && projects == old(projects)
      ensures nextFileId == old(nextFileId) && nextProjectId == old(nextProjectId)
    {
      if projectId !in projects {
        return NotFound;
      }
      if projects[projectId].owner != user {
        return Unauthorized;
      }
      DeleteProjectKeepsInv(files, projects, nextFileId, nextProjectId, projectId);
      files := FilesOutside(files, projectId);
      projects := projects - {projectId};
      return Ok;
    }
  }
}
