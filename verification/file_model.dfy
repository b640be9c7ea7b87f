/** The record shape of the files collection (backend/models/File.js) and
    what the schema does to the fields handed to `File.create`. */
module FileModel {
  import opened Strings

  datatype Option<T> = None | Some(value: T) {
    function GetOr(default: T): T {
      if Some? then value else default
    }
  }

  /** Document ids. The store hands them out in increasing order. */
  type Id = nat

  datatype Kind = File | Folder

  /** A stored file or folder. `parentId == None` is the root level of its
      project. Timestamps are the clock readings the operations are given. */
  datatype FileRecord = FileRecord(
    id: Id,
    name: string,
    kind: Kind,
    content: string,
    parentId: Option<Id>,
    projectId: Id,
    createdAt: nat,
    lastModified: nat)

  const MaxNameLength: nat := 100

  /** `required` and `maxlength: 100` on a name: present, and at most 100
      UTF-16 code units long, as JavaScript's `.length` counts them. */
  predicate NameLengthOk(n: string) {
    0 < |n| && Utf16Length(n) <= MaxNameLength
  }

  /** A name of at most 50 characters is within the limit whatever its
      characters are. */
  lemma ShortNameLengthOk(n: string)
    requires 0 < |n| <= MaxNameLength / 2
    ensures NameLengthOk(n)
  {
  }

  /** A name as the schema stores it: of a valid length, and with no
      whitespace at either end, so trimming leaves it unchanged. */
  predicate NameOk(n: string) {
    NameLengthOk(n) && !IsSpace(n[0]) && !IsSpace(n[|n| - 1])
  }

  /** The `type` enum: only 'file' and 'folder' are accepted. */
  function KindOf(t: string): (k: Option<Kind>)
    ensures k == Some(File) <==> t == "file"
    ensures k == Some(Folder) <==> t == "folder"
  {
    if t == "file" then Some(File) else if t == "folder" then Some(Folder) else None
  }

  /** The fields given to `File.create`; `content == None` is `undefined`,
      `parentId == None` is `null`. */
  datatype Draft = Draft(
    name: string,
    kind: string,
    content: Option<string>,
    parentId: Option<Id>,
    projectId: Id)

  /** The schema's validators: the trimmed name has a valid length and the
      type is one of the enum values. */
  predicate Accepted(d: Draft) {
    NameLengthOk(Trim(d.name)) && KindOf(d.kind).Some?
  }

  /** What `File.create` stores for a draft: the trim setter, the defaults
      and the validators; `None` is the ValidationError it throws. */
  function Materialize(id: Id, d: Draft, now: nat): (r: Option<FileRecord>)
    ensures r.Some? <==> Accepted(d)
    ensures r.Some? ==> r.value.name == Trim(d.name)
    ensures r.Some? ==> r.value.id == id && r.value.parentId == d.parentId && r.value.projectId == d.projectId
    ensures r.Some? ==> Some(r.value.kind) == KindOf(d.kind)
    ensures r.Some? ==> r.value.content == d.content.GetOr("")
    ensures r.Some? ==> r.value.createdAt == now && r.value.lastModified == now
  {
    var name := Trim(d.name);
    var k := KindOf(d.kind);
    if k.Some? && NameLengthOk(name) then
      Some(FileRecord(id, name, k.value, d.content.GetOr(""), d.parentId, d.projectId, now, now))
    else None
  }

  /** Every record the schema accepts has a name it would store unchanged. */
  lemma MaterializedNameOk(id: Id, d: Draft, now: nat)
    requires Materialize(id, d, now).Some?
    ensures NameOk(Materialize(id, d, now).value.name)
  {
    TrimMargins(d.name);
  }

  /** A stored name is a fixed point of the trim setter. */
  lemma NameOkTrimmed(n: string)
    requires NameOk(n)
    ensures Trim(n) == n
  {
    TrimStartOfUnspaced(n);
    TrimEndOfUnspaced(n);
  }

  /** Names are measured in UTF-16 code units: more than 50 astral
      characters (emoji, say) exceed the 100-unit limit, and the draft is
      refused however few characters it has. */
  lemma AstralNameRefused(id: Id, d: Draft, now: nat)
    requires 2 * |d.name| > MaxNameLength && forall i | 0 <= i < |d.name| :: Astral(d.name[i])
    ensures Materialize(id, d, now).None?
  {
    TrimStartOfUnspaced(d.name);
    TrimEndOfUnspaced(d.name);
    Utf16LengthOfAstral(d.name);
  }

  /** A draft whose name is already in stored form and whose type is valid
      is stored as given, with `content` defaulting to the empty string. */
  lemma MaterializeStored(id: Id, d: Draft, now: nat, k: Kind)
    requires NameOk(d.name) && KindOf(d.kind) == Some(k)
    ensures Materialize(id, d, now)
      == Some(FileRecord(id, d.name, k, d.content.GetOr(""), d.parentId, d.projectId, now, now))
  {
    NameOkTrimmed(d.name);
  }
}
