/** The client's cached file list and open file (the `files` and
    `currentFile` state of frontend/src/context/FileContext.js) and how
    `createFile`, `updateFile` and `deleteFile` rewrite them once the
    server has answered. A request that fails only records an error. */
module FileCache {
  import opened FileModel

  /** A record as the client holds it: the server's fields plus the
      `updatedAt` stamp the client adds after an update. */
  datatype CachedFile = CachedFile(rec: FileRecord, updatedAt: Option<nat>)

  /** `files.map(file => file._id === id ? updated : file)` */
  function Replaced(files: seq<CachedFile>, id: Id, updated: CachedFile): (r: seq<CachedFile>)
    ensures |r| == |files|
    ensures forall i | 0 <= i < |files| :: r[i] == if files[i].rec.id == id then updated else files[i]
  {
    if |files| == 0 then []
    else [if files[0].rec.id == id then updated else files[0]] + Replaced(files[1..], id, updated)
  }

  /** `files.filter(file => file._id !== id)` */
  function Without(files: seq<CachedFile>, id: Id): (r: seq<CachedFile>)
    ensures forall f | f in r :: f in files && f.rec.id != id
  {
    if |files| == 0 then []
    else (if files[0].rec.id == id then [] else [files[0]]) + Without(files[1..], id)
  }

  /** Filtering removes every entry with the id and keeps every other entry
      as often as it was there. */
  lemma {:induction false} WithoutCounts(files: seq<CachedFile>, id: Id)
    ensures forall f :: multiset(Without(files, id))[f] == if f.rec.id == id then 0 else multiset(files)[f]
  {
    if |files| > 0 {
      WithoutCounts(files[1..], id);
      assert files == [files[0]] + files[1..];
    }
  }

  /** Filtering keeps the relative order: it distributes over concatenation. */
  lemma {:induction false} WithoutConcat(a: seq<CachedFile>, b: seq<CachedFile>, id: Id)
    ensures Without(a + b, id) == Without(a, id) + Without(b, id)
  {
    if |a| > 0 {
      var ab := a + b;
      assert ab[0] == a[0] && ab[1..] == a[1..] + b;
      var head := if a[0].rec.id == id then [] else [a[0]];
      assert Without(ab, id) == head + Without(a[1..] + b, id);
      WithoutConcat(a[1..], b, id);
      assert Without(a, id) == head + Without(a[1..], id);
    } else {
      assert a + b == b;
    }
  }

  /** A list without the id is left as it is. */
  lemma {:induction false} WithoutAbsent(files: seq<CachedFile>, id: Id)
    requires forall f | f in files :: f.rec.id != id
    ensures Without(files, id) == files
  {
    if |files| > 0 {
      WithoutAbsent(files[1..], id);
      assert files == [files[0]] + files[1..];
    }
  }

  /** `{...res.data.data, updatedAt: res.data.data.updatedAt || now}` */
  function Stamped(response: CachedFile, now: nat): (r: CachedFile)
    ensures r.rec == response.rec && r.updatedAt.Some?
    ensures response.updatedAt.Some? ==> r == response
  {
    response.(updatedAt := Some(response.updatedAt.GetOr(now)))
  }

  class FileList {
    var files: seq<CachedFile>
    var currentFile: Option<CachedFile>
    var error: Option<string>

    constructor ()
      ensures files == [] && currentFile == None && error == None
    {
      files := [];
      currentFile := None;
      error := None;
    }

    /** `createFile`: the created record goes at the end of the list.
        `response` is the server's record, `None` when the request failed. */
    method CreateFile(response: Option<CachedFile>) returns (success: bool)
      modifies this
      ensures success <==> response.Some?
      ensures response.Some? ==> files == old(files) + [response.value] && error == old(error)
      ensures response.None? ==> files == old(files) && error == Some("Error creating file")
      ensures currentFile == old(currentFile)
    {
      if response.None? {
        error := Some("Error creating file");
        return false;
      }
      files := files + [response.value];
      success := true;
    }

    /** `updateFile`: every entry with the id, and the open file if it has
        the id, becomes the stamped server record; nothing else changes. */
    method UpdateFile(id: Id, response: Option<CachedFile>, now: nat) returns (updated: Option<CachedFile>)
      modifies this
      ensures updated.Some? <==> response.Some?
      ensures response.None? ==> files == old(files) && currentFile == old(currentFile) && error == Some("Error updating file")
      ensures response.Some? ==>
        updated == Some(Stamped(response.value, now))
        && files == Replaced(old(files), id, updated.value)
        && currentFile == (if old(currentFile).Some? && old(currentFile).value.rec.id == id then updated else old(currentFile))
        && error == old(error)
    {
      if response.None? {
        error := Some("Error updating file");
        return None;
      }
      var g := Stamped(response.value, now);
      files := Replaced(files, id, g);
      if currentFile.Some? && currentFile.value.rec.id == id {
        currentFile := Some(g);
      }
      updated := Some(g);
    }

    /** `deleteFile`: once the server confirmed, the entries with the id
        leave the list and the open file is closed if it had the id. */
    method DeleteFile(id: Id, confirmed: bool) returns (success: bool)
      modifies this
      ensures success == confirmed
      ensures !confirmed ==> files == old(files) && currentFile == old(currentFile) && error == Some("Error deleting file")
      ensures confirmed ==>
        files == Without(old(files), id)
        && currentFile == (if old(currentFile).Some? && old(currentFile).value.rec.id == id then None else old(currentFile))
        && error == old(error)
    {
      if !confirmed {
        error := Some("Error deleting file");
        return false;
      }
      files := Without(files, id);
      if currentFile.Some? && currentFile.value.rec.id == id {
        currentFile := None;
      }
      success := true;
    }
  }
}
