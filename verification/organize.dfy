/** `organizeFiles` in frontend/src/context/FileContext.js: the explorer's
    forest, built from the flat list of a project's records. A first pass
    maps each id to a node (the last record with an id wins), a second pass
    pushes every record's node onto the root list or onto its parent's
    children, and `sortFiles` then sorts every sibling list, folders first
    and then by name. Node identity is the id, so the pushed nodes are
    modelled by ids and the sorted tree by values. */
module Organize {
  import opened FileModel

  /** A record with its sorted children (`{...file, children}`). */
  datatype Node = Node(rec: FileRecord, children: seq<Node>)

  // ---------------------------------------------------------------------
  // The comparator of `sortFiles`

  /** `a.localeCompare(b) <= 0`, read as code-point order. */
  predicate NameLe(a: string, b: string) {
    |a| == 0 || (|b| > 0 && (a[0] < b[0] || (a[0] == b[0] && NameLe(a[1..], b[1..]))))
  }

  lemma {:induction false} NameLeTotal(a: string, b: string)
    ensures NameLe(a, b) || NameLe(b, a)
  {
    if |a| > 0 && |b| > 0 && a[0] == b[0] {
      NameLeTotal(a[1..], b[1..]);
    }
  }

  lemma {:induction false} NameLeTransitive(a: string, b: string, c: string)
    requires NameLe(a, b) && NameLe(b, c)
    ensures NameLe(a, c)
  {
    if |a| > 0 && |b| > 0 && |c| > 0 && a[0] == b[0] && b[0] == c[0] {
      NameLeTransitive(a[1..], b[1..], c[1..]);
    }
  }

  /** The comparator answers at most 0: a folder goes before a file, and
      two records of the same kind go by name. */
  predicate Le(a: Node, b: Node) {
    if a.rec.kind != b.rec.kind then a.rec.kind == Folder else NameLe(a.rec.name, b.rec.name)
  }

  lemma LeTotal(a: Node, b: Node)
    ensures Le(a, b) || Le(b, a)
  {
    NameLeTotal(a.rec.name, b.rec.name);
  }

  lemma LeTransitive(a: Node, b: Node, c: Node)
    requires Le(a, b) && Le(b, c)
    ensures Le(a, c)
  {
    if a.rec.kind == b.rec.kind == c.rec.kind {
      NameLeTransitive(a.rec.name, b.rec.name, c.rec.name);
    }
  }

  predicate Sorted(s: seq<Node>) {
    forall i, j | 0 <= i < j < |s| :: Le(s[i], s[j])
  }

  /** Every sibling list, at every depth, is in comparator order. */
  predicate SortedForest(s: seq<Node>) {
    Sorted(s) && forall i | 0 <= i < |s| :: SortedForest(s[i].children)
  }

  // ---------------------------------------------------------------------
  // `Array.prototype.sort`, a stable sort, as insertion sort

  function Insert(x: Node, s: seq<Node>): (r: seq<Node>)
    ensures multiset(r) == multiset(s) + multiset{x}
    ensures Sorted(s) ==> Sorted(r)
  {
    if |s| == 0 then [x]
    else if Le(x, s[0]) then
      InsertedFirst(x, s);
      [x] + s
    else
      LeTotal(x, s[0]);
      var r := [s[0]] + Insert(x, s[1..]);
      assert multiset(s) == multiset{s[0]} + multiset(s[1..]) by { assert s == [s[0]] + s[1..]; }
      InsertedLater(x, s, Insert(x, s[1..]));
      r
  }

  lemma InsertedFirst(x: Node, s: seq<Node>)
    requires |s| > 0 && Le(x, s[0])
    ensures Sorted(s) ==> Sorted([x] + s)
  {
    if Sorted(s) {
      forall j | 0 <= j < |s|
        ensures Le(x, s[j])
      {
        if j > 0 {
          LeTransitive(x, s[0], s[j]);
        }
      }
    }
  }

  lemma InsertedLater(x: Node, s: seq<Node>, t: seq<Node>)
    requires |s| > 0 && Le(s[0], x)
    requires multiset(t) == multiset(s[1..]) + multiset{x}
    requires Sorted(s[1..]) ==> Sorted(t)
    ensures Sorted(s) ==> Sorted([s[0]] + t)
  {
    if Sorted(s) {
      assert Sorted(s[1..]);
      forall j | 0 <= j < |t|
        ensures Le(s[0], t[j])
      {
        assert t[j] in multiset(t);
        if t[j] != x {
          assert t[j] in s[1..];
        }
      }
    }
  }

  /** The sibling order: a sorted permutation. */
  function Sort(s: seq<Node>): (r: seq<Node>)
    ensures multiset(r) == multiset(s)
    ensures Sorted(r)
  {
    if |s| == 0 then []
    else
      assert s == [s[0]] + s[1..];
      Insert(s[0], Sort(s[1..]))
  }

  /** The nodes of `s` the comparator ties with `k` (it answers 0 both
      ways), in their order in `s`. */
  function Ties(s: seq<Node>, k: Node): seq<Node> {
    if |s| == 0 then [] else (if Le(s[0], k) && Le(k, s[0]) then [s[0]] else []) + Ties(s[1..], k)
  }

  /** Insertion goes before the first node the new one does not follow, so
      it lands in front of every node it ties with. */
  lemma {:induction false} InsertTies(x: Node, s: seq<Node>, k: Node)
    ensures Ties(Insert(x, s), k) == (if Le(x, k) && Le(k, x) then [x] else []) + Ties(s, k)
  {
    if |s| == 0 {
      assert Insert(x, s) == [x];
      assert [x][1..] == [];
    } else if Le(x, s[0]) {
      var r := [x] + s;
      assert Insert(x, s) == r;
      assert r[0] == x && r[1..] == s;
    } else {
      var u := Insert(x, s[1..]);
      var r := [s[0]] + u;
      assert Insert(x, s) == r;
      assert r[0] == s[0] && r[1..] == u;
      InsertTies(x, s[1..], k);
      var tx: seq<Node> := if Le(x, k) && Le(k, x) then [x] else [];
      var t0: seq<Node> := if Le(s[0], k) && Le(k, s[0]) then [s[0]] else [];
      var rest := Ties(s[1..], k);
      assert Ties(r, k) == t0 + (tx + rest);
      assert Ties(s, k) == t0 + rest;
      assert tx == [] || t0 == [] by {
        if Le(x, k) && Le(k, s[0]) {
          LeTransitive(x, k, s[0]);
        }
      }
      if tx == [] {
        assert tx + rest == rest && tx + (t0 + rest) == t0 + rest;
      } else {
        assert t0 + (tx + rest) == tx + rest && t0 + rest == rest;
      }
    }
  }

  /** `Array.prototype.sort` is stable: nodes the comparator ties keep
      their relative order. */
  lemma {:induction false} SortStable(s: seq<Node>, k: Node)
    ensures Ties(Sort(s), k) == Ties(s, k)
  {
    if |s| > 0 {
      SortStable(s[1..], k);
      InsertTies(s[0], Sort(s[1..]), k);
    }
  }

  // ---------------------------------------------------------------------
  // The two passes

  /** The first pass's map: each listed id to the last record with it. */
  function ById(fs: seq<FileRecord>): (m: map<Id, FileRecord>)
    ensures forall k :: k in m <==> exists i | 0 <= i < |fs| :: fs[i].id == k
    ensures forall k | k in m :: m[k].id == k && m[k] in fs
  {
    if |fs| == 0 then map[]
    else
      var m := ById(fs[..|fs| - 1]);
      assert forall i | 0 <= i < |fs| - 1 :: fs[..|fs| - 1][i] == fs[i];
      m[fs[|fs| - 1].id := fs[|fs| - 1]]
  }

  /** The root list: the ids of the records whose `parentId` is null, in
      list order. */
  function RootsOf(fs: seq<FileRecord>): seq<Id> {
    if |fs| == 0 then []
    else RootsOf(fs[..|fs| - 1]) + (if fs[|fs| - 1].parentId.None? then [fs[|fs| - 1].id] else [])
  }

  /** The children pushed onto the node of `p`: the ids of the records
      whose `parentId` is `p`, in list order. */
  function ChildrenOf(fs: seq<FileRecord>, p: Id): seq<Id> {
    if |fs| == 0 then []
    else ChildrenOf(fs[..|fs| - 1], p) + (if fs[|fs| - 1].parentId == Some(p) then [fs[|fs| - 1].id] else [])
  }

  /** The children arrays after the second pass, for every listed id. */
  function KidsOf(fs: seq<FileRecord>): map<Id, seq<Id>> {
    map k | k in ById(fs) :: ChildrenOf(fs, k)
  }

  lemma {:induction false} ChildrenListed(fs: seq<FileRecord>, p: Id)
    ensures forall c | c in ChildrenOf(fs, p) :: exists i | 0 <= i < |fs| :: fs[i].id == c && fs[i].parentId == Some(p)
  {
    if |fs| > 0 {
      var init := fs[..|fs| - 1];
      ChildrenListed(init, p);
      assert forall i | 0 <= i < |init| :: init[i] == fs[i];
    }
  }

  /** The first pass's map keys each record by its id, and every pushed
      child is a listed id. */
  predicate Linked(byId: map<Id, FileRecord>, kids: map<Id, seq<Id>>) {
    kids.Keys == byId.Keys
    && (forall k | k in byId :: byId[k].id == k)
    && forall p, c | p in kids && c in kids[p] :: c in byId
  }

  lemma KidsLinked(fs: seq<FileRecord>)
    ensures Linked(ById(fs), KidsOf(fs))
  {
    forall p, c | p in KidsOf(fs) && c in KidsOf(fs)[p]
      ensures c in ById(fs)
    {
      ChildrenListed(fs, p);
    }
  }

  // ---------------------------------------------------------------------
  // `sortFiles`, recursively

  /** The ids of a sibling list, in order. */
  function TopIds(s: seq<Node>): seq<Id> {
    if |s| == 0 then [] else [s[0].rec.id] + TopIds(s[1..])
  }

  /** Every node, at every depth, carries the record its id maps to, and
      its children are the nodes of the ids pushed onto it. */
  predicate Built(s: seq<Node>, byId: map<Id, FileRecord>, kids: map<Id, seq<Id>>) {
    forall i | 0 <= i < |s| ::
      s[i].rec.id in byId && s[i].rec.id in kids && byId[s[i].rec.id] == s[i].rec
      && multiset(TopIds(s[i].children)) == multiset(kids[s[i].rec.id])
      && Built(s[i].children, byId, kids)
  }

  /** The node of `id` with its children built and sorted. `path` holds the
      ids whose nodes are being built around this one: meeting one again
      means the children links loop, and `sortFiles` recurses until the
      stack overflows, which is `None`. */
  function Build(byId: map<Id, FileRecord>, kids: map<Id, seq<Id>>, id: Id, path: set<Id>): (r: Option<Node>)
    requires Linked(byId, kids) && id in byId
    ensures r.Some? ==> r.value.rec == byId[id] && Built([r.value], byId, kids)
    ensures r.Some? ==> SortedForest(r.value.children)
    decreases byId.Keys - path, 0
  {
    if id in path then None
    else
      assert byId.Keys - (path + {id}) < byId.Keys - path;
      var built := BuildEach(byId, kids, kids[id], path + {id});
      if built.None? then None
      else
        var node := Node(byId[id], Sort(built.value));
        SortKeepsTopIds(built.value);
        SortKeepsBuilt(built.value, byId, kids);
        BuiltNode(node, byId, kids);
        Some(node)
  }

  /** Sorting a list of built nodes gives built nodes, sorted at every
      depth. */
  lemma SortKeepsBuilt(s: seq<Node>, byId: map<Id, FileRecord>, kids: map<Id, seq<Id>>)
    requires Built(s, byId, kids) && forall i | 0 <= i < |s| :: SortedForest(s[i].children)
    ensures Built(Sort(s), byId, kids) && SortedForest(Sort(s))
  {
    var t := Sort(s);
    forall i | 0 <= i < |t|
      ensures t[i] in s
    {
      assert t[i] in multiset(s);
    }
  }

  lemma BuiltNode(node: Node, byId: map<Id, FileRecord>, kids: map<Id, seq<Id>>)
    requires node.rec.id in byId && node.rec.id in kids && byId[node.rec.id] == node.rec
    requires multiset(TopIds(node.children)) == multiset(kids[node.rec.id])
    requires Built(node.children, byId, kids)
    ensures Built([node], byId, kids)
  {
  }

  /** The nodes of a list of ids, in list order; `None` if any overflows. */
  function BuildEach(byId: map<Id, FileRecord>, kids: map<Id, seq<Id>>, ids: seq<Id>, path: set<Id>): (r: Option<seq<Node>>)
    requires Linked(byId, kids) && forall c | c in ids :: c in byId
    ensures r.Some? ==> TopIds(r.value) == ids && Built(r.value, byId, kids)
    ensures r.Some? ==> forall i | 0 <= i < |r.value| :: SortedForest(r.value[i].children)
    decreases byId.Keys - path, 1, |ids|
  {
    if |ids| == 0 then Some([])
    else
      var first := Build(byId, kids, ids[0], path);
      var tail := ids[1..];
      assert forall c | c in tail :: c in byId by {
        forall c | c in tail ensures c in byId { assert c in ids; }
      }
      var rest := BuildEach(byId, kids, tail, path);
      if first.None? || rest.None? then None
      else
        var r := [first.value] + rest.value;
        BuiltCons(first.value, rest.value, byId, kids);
        Some(r)
  }

  lemma BuiltCons(x: Node, s: seq<Node>, byId: map<Id, FileRecord>, kids: map<Id, seq<Id>>)
    requires Built([x], byId, kids) && Built(s, byId, kids)
    requires SortedForest(x.children) && forall i | 0 <= i < |s| :: SortedForest(s[i].children)
    ensures Built([x] + s, byId, kids) && TopIds([x] + s) == [x.rec.id] + TopIds(s)
    ensures forall i | 0 <= i < |[x] + s| :: SortedForest(([x] + s)[i].children)
  {
    var r := [x] + s;
    assert r[0] == x && r[1..] == s;
    forall i | 1 <= i < |r|
      ensures r[i] == s[i - 1]
    {
    }
  }

  lemma {:induction false} InsertKeepsTopIds(x: Node, s: seq<Node>)
    ensures multiset(TopIds(Insert(x, s))) == multiset(TopIds(s)) + multiset{x.rec.id}
  {
    if |s| == 0 {
      assert Insert(x, s) == [x];
    } else if Le(x, s[0]) {
      assert Insert(x, s) == [x] + s;
      TopIdsCons(x, s);
    } else {
      InsertKeepsTopIds(x, s[1..]);
      InsertedLaterTopIds(x, s);
    }
  }

  /** Inserting past the first node adds the id behind it. */
  lemma InsertedLaterTopIds(x: Node, s: seq<Node>)
    requires |s| > 0 && !Le(x, s[0])
    requires multiset(TopIds(Insert(x, s[1..]))) == multiset(TopIds(s[1..])) + multiset{x.rec.id}
    ensures multiset(TopIds(Insert(x, s))) == multiset(TopIds(s)) + multiset{x.rec.id}
  {
    var t := s[1..];
    var u := Insert(x, t);
    assert Insert(x, s) == [s[0]] + u;
    ConsKeepsTopIds(s[0], u, t, x.rec.id);
    assert TopIds(s) == [s[0].rec.id] + TopIds(t);
  }

  /** Putting one node in front of two lists keeps the difference of their
      ids. */
  lemma ConsKeepsTopIds(a: Node, u: seq<Node>, t: seq<Node>, id: Id)
    requires multiset(TopIds(u)) == multiset(TopIds(t)) + multiset{id}
    ensures multiset(TopIds([a] + u)) == multiset([a.rec.id] + TopIds(t)) + multiset{id}
  {
    TopIdsCons(a, u);
  }

  lemma TopIdsCons(x: Node, s: seq<Node>)
    ensures TopIds([x] + s) == [x.rec.id] + TopIds(s)
  {
    assert ([x] + s)[0] == x && ([x] + s)[1..] == s;
  }

  lemma {:induction false} SortKeepsTopIds(s: seq<Node>)
    ensures multiset(TopIds(Sort(s))) == multiset(TopIds(s))
  {
    if |s| > 0 {
      SortKeepsTopIds(s[1..]);
      InsertKeepsTopIds(s[0], Sort(s[1..]));
    }
  }

  /** What `organizeFiles` returns for a list; `None` is a stack overflow. */
  function Organized(fs: seq<FileRecord>): (r: Option<seq<Node>>)
    ensures |fs| == 0 ==> r == Some([])
    ensures r.Some? ==> SortedForest(r.value) && Built(r.value, ById(fs), KidsOf(fs))
  {
    if |fs| == 0 then Some([])
    else
      KidsLinked(fs);
      var roots := RootsOf(fs);
      assert forall c | c in roots :: c in ById(fs) by { RootsListed(fs); }
      var built := BuildEach(ById(fs), KidsOf(fs), roots, {});
      if built.None? then None
      else
        SortKeepsBuilt(built.value, ById(fs), KidsOf(fs));
        Some(Sort(built.value))
  }

  lemma {:induction false} RootsListed(fs: seq<FileRecord>)
    ensures forall c | c in RootsOf(fs) :: exists i | 0 <= i < |fs| :: fs[i].id == c && fs[i].parentId.None?
  {
    if |fs| > 0 {
      var init := fs[..|fs| - 1];
      RootsListed(init);
      assert forall i | 0 <= i < |init| :: init[i] == fs[i];
    }
  }

  /** `organizeFiles(fileList)`: the two passes over the list, then
      `sortFiles` on the roots. */
  method OrganizeFiles(fileList: seq<FileRecord>) returns (forest: Option<seq<Node>>)
    ensures forest == Organized(fileList)
  {
    if |fileList| == 0 {
      return Some([]);
    }
    var byId, kids := MapById(fileList);
    var roots;
    roots, kids := LinkNodes(fileList, byId, kids);
    KidsLinked(fileList);
    RootsListed(fileList);
    var built := BuildEach(byId, kids, roots, {});
    if built.None? {
      return None;
    }
    forest := Some(Sort(built.value));
  }

  /** The first pass: a node with no children for every id, the last
      record with an id winning. */
  method MapById(fileList: seq<FileRecord>) returns (byId: map<Id, FileRecord>, kids: map<Id, seq<Id>>)
    ensures byId == ById(fileList)
    ensures kids.Keys == byId.Keys && forall k | k in kids :: kids[k] == []
  {
    byId := map[];
    kids := map[];
    var i := 0;
    while i < |fileList|
      invariant i <= |fileList|
      invariant byId == ById(fileList[..i])
      invariant kids.Keys == byId.Keys && forall k | k in kids :: kids[k] == []
    {
      var file := fileList[i];
      assert fileList[..i + 1][..i] == fileList[..i];
      byId := byId[file.id := file];
      kids := kids[file.id := []];
      i := i + 1;
    }
    assert fileList[..i] == fileList;
  }

  /** The second pass: a record with a null `parentId` joins the roots, one
      whose parent is listed joins that node's children, and any other
      record is left out. */
  method LinkNodes(fileList: seq<FileRecord>, byId: map<Id, FileRecord>, kids0: map<Id, seq<Id>>)
    returns (roots: seq<Id>, kids: map<Id, seq<Id>>)
    requires byId == ById(fileList)
    requires kids0.Keys == byId.Keys && forall k | k in kids0 :: kids0[k] == []
    ensures roots == RootsOf(fileList)
    ensures kids == KidsOf(fileList)
  {
    roots := [];
    kids := kids0;
    var i := 0;
    assert fileList[..0] == [];
    while i < |fileList|
      invariant i <= |fileList|
      invariant LinkedUpTo(fileList[..i], roots, kids, byId.Keys)
    {
      var file := fileList[i];
      if file.parentId.None? {
        RootJoins(fileList, i, roots, kids, byId.Keys);
        roots := roots + [file.id];
      } else if file.parentId.value in byId {
        var p := file.parentId.value;
        ChildJoins(fileList, i, roots, kids, byId.Keys);
        kids := kids[p := kids[p] + [file.id]];
      } else {
        OrphanSkipped(fileList, i, roots, kids, byId.Keys);
      }
      i := i + 1;
    }
    assert fileList[..i] == fileList;
    PushedAll(kids, fileList);
  }

  /** The root list and children arrays after the first records of the
      second pass. */
  predicate LinkedUpTo(done: seq<FileRecord>, roots: seq<Id>, kids: map<Id, seq<Id>>, keys: set<Id>) {
    roots == RootsOf(done) && Pushed(kids, done, keys)
  }

  predicate Pushed(kids: map<Id, seq<Id>>, done: seq<FileRecord>, keys: set<Id>) {
    kids.Keys == keys && forall k | k in kids :: kids[k] == ChildrenOf(done, k)
  }

  lemma RootJoins(fs: seq<FileRecord>, i: nat, roots: seq<Id>, kids: map<Id, seq<Id>>, keys: set<Id>)
    requires i < |fs| && LinkedUpTo(fs[..i], roots, kids, keys) && fs[i].parentId.None?
    ensures LinkedUpTo(fs[..i + 1], roots + [fs[i].id], kids, keys)
  {
    RootsStep(fs, i);
    ChildrenStep(fs, i);
  }

  lemma ChildJoins(fs: seq<FileRecord>, i: nat, roots: seq<Id>, kids: map<Id, seq<Id>>, keys: set<Id>)
    requires i < |fs| && LinkedUpTo(fs[..i], roots, kids, keys)
    requires fs[i].parentId.Some? && fs[i].parentId.value in keys
    ensures LinkedUpTo(fs[..i + 1], roots, kids[fs[i].parentId.value := kids[fs[i].parentId.value] + [fs[i].id]], keys)
  {
    RootsStep(fs, i);
    ChildrenStep(fs, i);
  }

  lemma OrphanSkipped(fs: seq<FileRecord>, i: nat, roots: seq<Id>, kids: map<Id, seq<Id>>, keys: set<Id>)
    requires i < |fs| && LinkedUpTo(fs[..i], roots, kids, keys)
    requires fs[i].parentId.Some? && fs[i].parentId.value !in keys
    ensures LinkedUpTo(fs[..i + 1], roots, kids, keys)
  {
    RootsStep(fs, i);
    ChildrenStep(fs, i);
  }

  lemma PushedAll(kids: map<Id, seq<Id>>, fs: seq<FileRecord>)
    requires Pushed(kids, fs, ById(fs).Keys)
    ensures kids == KidsOf(fs)
  {
  }

  /** One more record of the second pass extends the root list when it
      names no parent, and the children of the parent it names. */
  lemma RootsStep(fs: seq<FileRecord>, i: nat)
    requires i < |fs|
    ensures RootsOf(fs[..i + 1]) == RootsOf(fs[..i]) + (if fs[i].parentId.None? then [fs[i].id] else [])
  {
    assert fs[..i + 1][..i] == fs[..i];
  }

  lemma ChildrenStep(fs: seq<FileRecord>, i: nat)
    requires i < |fs|
    ensures forall k: Id :: ChildrenOf(fs[..i + 1], k) == ChildrenOf(fs[..i], k) + (if fs[i].parentId == Some(k) then [fs[i].id] else [])
  {
    assert fs[..i + 1][..i] == fs[..i];
  }

  // ---------------------------------------------------------------------
  // Which records the forest holds

  /** The ids of a forest in pre-order. */
  function FlatIds(s: seq<Node>): seq<Id> {
    if |s| == 0 then [] else [s[0].rec.id] + FlatIds(s[0].children) + FlatIds(s[1..])
  }

  lemma {:induction false} FlatIdsConcat(a: seq<Node>, b: seq<Node>)
    ensures FlatIds(a + b) == FlatIds(a) + FlatIds(b)
  {
    if |a| == 0 {
      assert a + b == b;
    } else {
      var ab := a + b;
      assert ab[0] == a[0] && ab[1..] == a[1..] + b;
      var top := [a[0].rec.id] + FlatIds(a[0].children);
      assert FlatIds(ab) == top + FlatIds(a[1..] + b);
      FlatIdsConcat(a[1..], b);
      assert FlatIds(a) == top + FlatIds(a[1..]);
    }
  }

  /** The ids of a non-empty forest: those of its first tree, then the rest. */
  lemma FlatIdsCons(s: seq<Node>)
    requires |s| > 0
    ensures multiset(FlatIds(s)) == multiset(FlatIds([s[0]])) + multiset(FlatIds(s[1..]))
  {
    FlatIdsConcat([s[0]], s[1..]);
    assert [s[0]] + s[1..] == s;
  }

  lemma {:induction false} InsertKeepsFlatIds(x: Node, s: seq<Node>)
    ensures multiset(FlatIds(Insert(x, s))) == multiset(FlatIds(s)) + multiset(FlatIds([x]))
  {
    if |s| == 0 || Le(x, s[0]) {
      assert Insert(x, s) == [x] + s;
      FlatIdsConcat([x], s);
    } else {
      var t := s[1..];
      var u := Insert(x, t);
      assert Insert(x, s) == [s[0]] + u;
      var head := multiset(FlatIds([s[0]]));
      assert multiset(FlatIds(u)) == multiset(FlatIds(t)) + multiset(FlatIds([x])) by {
        InsertKeepsFlatIds(x, t);
      }
      assert multiset(FlatIds([s[0]] + u)) == head + multiset(FlatIds(u)) by {
        FlatIdsConcat([s[0]], u);
      }
      assert multiset(FlatIds(s)) == head + multiset(FlatIds(t)) by {
        FlatIdsCons(s);
      }
    }
  }

  lemma {:induction false} SortKeepsFlatIds(s: seq<Node>)
    ensures multiset(FlatIds(Sort(s))) == multiset(FlatIds(s))
  {
    if |s| > 0 {
      var t := Sort(s[1..]);
      assert Sort(s) == Insert(s[0], t);
      assert multiset(FlatIds(t)) == multiset(FlatIds(s[1..])) by {
        SortKeepsFlatIds(s[1..]);
      }
      assert multiset(FlatIds(Insert(s[0], t))) == multiset(FlatIds(t)) + multiset(FlatIds([s[0]])) by {
        InsertKeepsFlatIds(s[0], t);
      }
      FlatIdsCons(s);
    }
  }

  predicate Distinct(s: seq<Id>) {
    forall i, j | 0 <= i < j < |s| :: s[i] != s[j]
  }

  /** Every pushed child names the node it was pushed onto. */
  predicate KidsNameParent(byId: map<Id, FileRecord>, kids: map<Id, seq<Id>>) {
    forall a, c | a in kids && c in kids[a] :: c in byId && byId[c].parentId == Some(a)
  }

  /** The children arrays hold each record naming the node exactly once. */
  predicate KidsExact(byId: map<Id, FileRecord>, kids: map<Id, seq<Id>>) {
    KidsNameParent(byId, kids)
    && forall a | a in kids :: Distinct(kids[a]) && forall c | c in byId && byId[c].parentId == Some(a) :: c in kids[a]
  }

  /** A rank below which every listed parent lies: the links are acyclic. */
  predicate RankedLinks(byId: map<Id, FileRecord>, rank: Id -> nat) {
    forall x | x in byId && byId[x].parentId.Some? && byId[x].parentId.value in byId ::
      rank(byId[x].parentId.value) < rank(x)
  }

  /** `x` is `a`, or lies below `a` along listed parent links. */
  predicate Under(byId: map<Id, FileRecord>, rank: Id -> nat, x: Id, a: Id)
    decreases rank(x)
  {
    x in byId
    && (x == a
        || (byId[x].parentId.Some? && byId[x].parentId.value in byId
            && rank(byId[x].parentId.value) < rank(x) && Under(byId, rank, byId[x].parentId.value, a)))
  }

  /** How many of `cs` lie above-or-at `x`. */
  function CountUnder(byId: map<Id, FileRecord>, rank: Id -> nat, x: Id, cs: seq<Id>): nat {
    if |cs| == 0 then 0 else (if Under(byId, rank, x, cs[0]) then 1 else 0) + CountUnder(byId, rank, x, cs[1..])
  }

  lemma {:induction false} UnderRank(byId: map<Id, FileRecord>, rank: Id -> nat, x: Id, a: Id)
    requires Under(byId, rank, x, a)
    ensures rank(a) <= rank(x)
    decreases rank(x)
  {
    if x != a {
      UnderRank(byId, rank, byId[x].parentId.value, a);
    }
  }

  lemma {:induction false} UnderTransitive(byId: map<Id, FileRecord>, rank: Id -> nat, x: Id, y: Id, a: Id)
    requires Under(byId, rank, x, y) && Under(byId, rank, y, a)
    ensures Under(byId, rank, x, a)
    decreases rank(x)
  {
    if x != y {
      UnderTransitive(byId, rank, byId[x].parentId.value, y, a);
    }
  }

  /** Below a node, a record lies under exactly one of the node's children. */
  lemma {:induction false} ChildBelow(byId: map<Id, FileRecord>, rank: Id -> nat, x: Id, a: Id) returns (w: Id)
    requires Under(byId, rank, x, a) && x != a
    ensures w in byId && byId[w].parentId == Some(a) && Under(byId, rank, x, w)
    decreases rank(x)
  {
    var p := byId[x].parentId.value;
    if p == a {
      w := x;
    } else {
      w := ChildBelow(byId, rank, p, a);
    }
  }

  lemma {:induction false} SameLevel(byId: map<Id, FileRecord>, rank: Id -> nat, x: Id, c1: Id, c2: Id, a: Id)
    requires RankedLinks(byId, rank) && a in byId
    requires Under(byId, rank, x, c1) && Under(byId, rank, x, c2)
    requires c1 in byId && byId[c1].parentId == Some(a) && c2 in byId && byId[c2].parentId == Some(a)
    ensures c1 == c2
    decreases rank(x)
  {
    if x == c1 {
      if c1 != c2 {
        UnderRank(byId, rank, a, c2);
      }
    } else if x == c2 {
      UnderRank(byId, rank, a, c1);
    } else {
      SameLevel(byId, rank, byId[x].parentId.value, c1, c2, a);
    }
  }

  lemma {:induction false} CountOne(byId: map<Id, FileRecord>, rank: Id -> nat, x: Id, cs: seq<Id>, w: Id)
    requires Distinct(cs)
    requires forall c | c in cs && Under(byId, rank, x, c) :: c == w
    ensures CountUnder(byId, rank, x, cs) == if w in cs && Under(byId, rank, x, w) then 1 else 0
  {
    if |cs| > 0 {
      assert Distinct(cs[1..]);
      CountOne(byId, rank, x, cs[1..], w);
      assert cs == [cs[0]] + cs[1..];
    }
  }

  /** Among a node's children, exactly one lies above a record strictly
      below the node, and none above any other record. */
  lemma ChildCount(byId: map<Id, FileRecord>, kids: map<Id, seq<Id>>, rank: Id -> nat, x: Id, a: Id)
    requires Linked(byId, kids) && KidsExact(byId, kids) && RankedLinks(byId, rank) && a in kids
    ensures CountUnder(byId, rank, x, kids[a]) == if x != a && Under(byId, rank, x, a) then 1 else 0
  {
    if x != a && Under(byId, rank, x, a) {
      ChildCountBelow(byId, kids, rank, x, a);
    } else {
      ChildCountNone(byId, kids, rank, x, a);
    }
  }

  /** Below `a`, exactly one child of `a` lies above `x`. */
  lemma ChildCountBelow(byId: map<Id, FileRecord>, kids: map<Id, seq<Id>>, rank: Id -> nat, x: Id, a: Id)
    requires Linked(byId, kids) && KidsExact(byId, kids) && RankedLinks(byId, rank) && a in kids
    requires x != a && Under(byId, rank, x, a)
    ensures CountUnder(byId, rank, x, kids[a]) == 1
  {
    var w := ChildBelow(byId, rank, x, a);
    forall c | c in kids[a] && Under(byId, rank, x, c)
      ensures c == w
    {
      SameLevel(byId, rank, x, c, w, a);
    }
    CountOne(byId, rank, x, kids[a], w);
  }

  /** Away from `a`, or at `a` itself, no child of `a` lies above `x`. */
  lemma ChildCountNone(byId: map<Id, FileRecord>, kids: map<Id, seq<Id>>, rank: Id -> nat, x: Id, a: Id)
    requires Linked(byId, kids) && KidsExact(byId, kids) && RankedLinks(byId, rank) && a in kids
    requires x == a || !Under(byId, rank, x, a)
    ensures CountUnder(byId, rank, x, kids[a]) == 0
  {
    forall c | c in kids[a]
      ensures !Under(byId, rank, x, c)
    {
      if Under(byId, rank, x, c) {
        assert Under(byId, rank, c, a);
        UnderTransitive(byId, rank, x, c, a);
        if x == a {
          UnderRank(byId, rank, a, c);
        }
      }
    }
    CountOne(byId, rank, x, kids[a], x);
  }

  /** With acyclic links, building never meets an id twice. */
  lemma {:induction false} BuildTerminates(byId: map<Id, FileRecord>, kids: map<Id, seq<Id>>, rank: Id -> nat, id: Id, path: set<Id>)
    requires Linked(byId, kids) && KidsNameParent(byId, kids) && RankedLinks(byId, rank) && id in byId
    requires forall y | y in path :: rank(y) < rank(id)
    ensures Build(byId, kids, id, path).Some?
    decreases byId.Keys - path, 0
  {
    assert id !in path;
    assert byId.Keys - (path + {id}) < byId.Keys - path;
    forall c | c in kids[id]
      ensures c in byId && forall y | y in path + {id} :: rank(y) < rank(c)
    {
      assert byId[c].parentId == Some(id);
    }
    BuildEachTerminates(byId, kids, rank, kids[id], path + {id});
  }

  lemma {:induction false} BuildEachTerminates(byId: map<Id, FileRecord>, kids: map<Id, seq<Id>>, rank: Id -> nat, ids: seq<Id>, path: set<Id>)
    requires Linked(byId, kids) && KidsNameParent(byId, kids) && RankedLinks(byId, rank)
    requires forall c | c in ids :: c in byId && forall y | y in path :: rank(y) < rank(c)
    ensures BuildEach(byId, kids, ids, path).Some?
    decreases byId.Keys - path, 1, |ids|
  {
    if |ids| > 0 {
      BuildTerminates(byId, kids, rank, ids[0], path);
      BuildEachTerminates(byId, kids, rank, ids[1..], path);
    }
  }

  /** A built node holds every record below it once, and nothing else. */
  lemma {:induction false} BuildCount(byId: map<Id, FileRecord>, kids: map<Id, seq<Id>>, rank: Id -> nat, id: Id, path: set<Id>, x: Id)
    requires Linked(byId, kids) && KidsExact(byId, kids) && RankedLinks(byId, rank) && id in byId
    requires Build(byId, kids, id, path).Some?
    ensures multiset(FlatIds([Build(byId, kids, id, path).value]))[x] == if Under(byId, rank, x, id) then 1 else 0
    decreases byId.Keys - path, 0
  {
    assert id !in path;
    assert byId.Keys - (path + {id}) < byId.Keys - path;
    var ns := BuildEach(byId, kids, kids[id], path + {id}).value;
    var node := Build(byId, kids, id, path).value;
    assert node == Node(byId[id], Sort(ns));
    assert FlatIds([node]) == [id] + FlatIds(Sort(ns)) + FlatIds([node][1..]);
    assert [node][1..] == [];
    SortKeepsFlatIds(ns);
    BuildEachCount(byId, kids, rank, kids[id], path + {id}, x);
    ChildCount(byId, kids, rank, x, id);
  }

  lemma {:induction false} BuildEachCount(byId: map<Id, FileRecord>, kids: map<Id, seq<Id>>, rank: Id -> nat, ids: seq<Id>, path: set<Id>, x: Id)
    requires Linked(byId, kids) && KidsExact(byId, kids) && RankedLinks(byId, rank)
    requires forall c | c in ids :: c in byId
    requires BuildEach(byId, kids, ids, path).Some?
    ensures multiset(FlatIds(BuildEach(byId, kids, ids, path).value))[x] == CountUnder(byId, rank, x, ids)
    decreases byId.Keys - path, 1, |ids|
  {
    if |ids| > 0 {
      var first := Build(byId, kids, ids[0], path).value;
      var rest := BuildEach(byId, kids, ids[1..], path).value;
      BuildCount(byId, kids, rank, ids[0], path, x);
      BuildEachCount(byId, kids, rank, ids[1..], path, x);
      FlatIdsConcat([first], rest);
    }
  }

  /** No listed record names a parent that is not listed. */
  predicate NoDanglingLinks(byId: map<Id, FileRecord>) {
    forall x | x in byId && byId[x].parentId.Some? :: byId[x].parentId.value in byId
  }

  /** Parent links from a listed record end at a parentless one. */
  lemma {:induction false} TopAncestor(byId: map<Id, FileRecord>, rank: Id -> nat, x: Id) returns (r: Id)
    requires RankedLinks(byId, rank) && NoDanglingLinks(byId) && x in byId
    ensures r in byId && byId[r].parentId.None? && Under(byId, rank, x, r)
    decreases rank(x)
  {
    if byId[x].parentId.None? {
      r := x;
    } else {
      r := TopAncestor(byId, rank, byId[x].parentId.value);
    }
  }

  lemma {:induction false} RootUnique(byId: map<Id, FileRecord>, rank: Id -> nat, x: Id, r1: Id, r2: Id)
    requires Under(byId, rank, x, r1) && Under(byId, rank, x, r2) && r1 in byId && r2 in byId
    requires byId[r1].parentId.None? && byId[r2].parentId.None?
    ensures r1 == r2
    decreases rank(x)
  {
    if x != r1 && x != r2 {
      RootUnique(byId, rank, byId[x].parentId.value, r1, r2);
    }
  }

  /** Built from a list of exactly the parentless records, the forest
      holds every listed record once and nothing else. */
  lemma ForestCount(byId: map<Id, FileRecord>, kids: map<Id, seq<Id>>, rank: Id -> nat, roots: seq<Id>, x: Id)
    requires Linked(byId, kids) && KidsExact(byId, kids) && RankedLinks(byId, rank) && NoDanglingLinks(byId)
    requires Distinct(roots) && forall r :: r in roots <==> r in byId && byId[r].parentId.None?
    requires BuildEach(byId, kids, roots, {}).Some?
    ensures multiset(FlatIds(BuildEach(byId, kids, roots, {}).value))[x] == if x in byId then 1 else 0
  {
    BuildEachCount(byId, kids, rank, roots, {}, x);
    if x in byId {
      var r := TopAncestor(byId, rank, x);
      forall c | c in roots && Under(byId, rank, x, c)
        ensures c == r
      {
        RootUnique(byId, rank, x, c, r);
      }
      CountOne(byId, rank, x, roots, r);
    } else {
      CountOne(byId, rank, x, roots, x);
    }
  }

  // ---------------------------------------------------------------------
  // From the list to the forest

  predicate UniqueIds(fs: seq<FileRecord>) {
    forall i, j | 0 <= i < j < |fs| :: fs[i].id != fs[j].id
  }

  /** Every parent a record names is a listed id. */
  predicate NoDangling(fs: seq<FileRecord>) {
    forall i | 0 <= i < |fs| && fs[i].parentId.Some? :: exists j | 0 <= j < |fs| :: fs[j].id == fs[i].parentId.value
  }

  /** `rank` puts every listed parent strictly below its child, so parent
      links never lead back to a record. */
  predicate Acyclic(fs: seq<FileRecord>, rank: Id -> nat) {
    forall i, j | 0 <= i < |fs| && 0 <= j < |fs| && fs[i].parentId == Some(fs[j].id) :: rank(fs[j].id) < rank(fs[i].id)
  }

  /** With unique ids the first pass's map holds every record under its id. */
  lemma {:induction false} ByIdUnique(fs: seq<FileRecord>)
    requires UniqueIds(fs)
    ensures forall i | 0 <= i < |fs| :: fs[i].id in ById(fs) && ById(fs)[fs[i].id] == fs[i]
  {
    if |fs| > 0 {
      var init := fs[..|fs| - 1];
      assert forall i | 0 <= i < |init| :: init[i] == fs[i];
      ByIdUnique(init);
    }
  }

  lemma DistinctAppend(s: seq<Id>, y: Id)
    requires Distinct(s) && y !in s
    ensures Distinct(s + [y])
  { }

  /** With unique ids a node's children are each record naming it, once. */
  lemma {:induction false} ChildrenExact(fs: seq<FileRecord>, p: Id)
    requires UniqueIds(fs)
    ensures Distinct(ChildrenOf(fs, p))
    ensures forall i | 0 <= i < |fs| && fs[i].parentId == Some(p) :: fs[i].id in ChildrenOf(fs, p)
  {
    if |fs| > 0 {
      var init := fs[..|fs| - 1];
      assert forall i | 0 <= i < |init| :: init[i] == fs[i];
      ChildrenExact(init, p);
      ChildrenListed(init, p);
      DistinctAppend(ChildrenOf(init, p), fs[|fs| - 1].id);
    }
  }

  /** With unique ids the root list holds each parentless record, once. */
  lemma {:induction false} RootsExact(fs: seq<FileRecord>)
    requires UniqueIds(fs)
    ensures Distinct(RootsOf(fs))
    ensures forall i | 0 <= i < |fs| && fs[i].parentId.None? :: fs[i].id in RootsOf(fs)
  {
    if |fs| > 0 {
      var init := fs[..|fs| - 1];
      assert forall i | 0 <= i < |init| :: init[i] == fs[i];
      RootsExact(init);
      RootsListed(init);
      DistinctAppend(RootsOf(init), fs[|fs| - 1].id);
    }
  }

  lemma KidsOfExact(fs: seq<FileRecord>)
    requires UniqueIds(fs)
    ensures KidsExact(ById(fs), KidsOf(fs))
  {
    var byId, kids := ById(fs), KidsOf(fs);
    ByIdUnique(fs);
    forall a, c | a in kids && c in kids[a]
      ensures c in byId && byId[c].parentId == Some(a)
    {
      ChildrenListed(fs, a);
    }
    forall a | a in kids
      ensures Distinct(kids[a]) && forall c | c in byId && byId[c].parentId == Some(a) :: c in kids[a]
    {
      ChildrenExact(fs, a);
    }
  }

  lemma RootsOfExact(fs: seq<FileRecord>)
    requires UniqueIds(fs)
    ensures Distinct(RootsOf(fs))
    ensures forall r :: r in RootsOf(fs) <==> r in ById(fs) && ById(fs)[r].parentId.None?
  {
    ByIdUnique(fs);
    RootsExact(fs);
    RootsListed(fs);
  }

  lemma AcyclicRanked(fs: seq<FileRecord>, rank: Id -> nat)
    requires Acyclic(fs, rank)
    ensures RankedLinks(ById(fs), rank)
  { }

  lemma NoDanglingListed(fs: seq<FileRecord>)
    requires NoDangling(fs)
    ensures NoDanglingLinks(ById(fs))
  { }

  /** `chain` runs down parent links from a parentless record, each id
      once: the nodes `sortFiles` is inside when it reaches the last one. */
  predicate RootedChain(byId: map<Id, FileRecord>, chain: seq<Id>) {
    |chain| > 0
    && (forall k | 0 <= k < |chain| :: chain[k] in byId)
    && byId[chain[0]].parentId.None?
    && (forall k | 0 < k < |chain| :: byId[chain[k]].parentId == Some(chain[k - 1]))
    && Distinct(chain)
  }

  /** The ids of a chain, as the set `Build` carries. */
  function Members(chain: seq<Id>): (r: set<Id>)
    ensures forall k :: k in r <==> k in chain
  {
    set k | k in chain
  }

  /** A record naming the last id of a rooted chain as its parent is not on
      the chain: the chain's first record has no parent, and any later one
      names the id before it, which differs from the last. */
  lemma ChildOffChain(byId: map<Id, FileRecord>, chain: seq<Id>, c: Id)
    requires RootedChain(byId, chain) && c in byId && byId[c].parentId == Some(chain[|chain| - 1])
    ensures c !in chain && RootedChain(byId, chain + [c])
  {
    forall j | 0 < j < |chain|
      ensures chain[j] != c
    {
      assert chain[j - 1] != chain[|chain| - 1];
    }
    var ext := chain + [c];
    assert forall k | 0 <= k < |chain| :: ext[k] == chain[k];
  }

  /** Building the last node of a rooted chain never meets an id twice:
      the ids around it are exactly the rest of the chain. */
  lemma {:induction false} BuildOffChain(byId: map<Id, FileRecord>, kids: map<Id, seq<Id>>, chain: seq<Id>)
    requires Linked(byId, kids) && KidsNameParent(byId, kids) && RootedChain(byId, chain)
    ensures Build(byId, kids, chain[|chain| - 1], Members(chain[..|chain| - 1])).Some?
    decreases byId.Keys - Members(chain[..|chain| - 1]), 0
  {
    var id := chain[|chain| - 1];
    var above := chain[..|chain| - 1];
    var path := Members(above);
    assert chain == above + [id];
    assert id !in path by {
      forall k | k in above ensures k != id {
        var j :| 0 <= j < |above| && above[j] == k;
        assert chain[j] == k;
      }
    }
    assert path + {id} == Members(chain);
    assert byId.Keys - (path + {id}) < byId.Keys - path;
    BuildEachOffChain(byId, kids, chain, kids[id]);
  }

  lemma {:induction false} BuildEachOffChain(byId: map<Id, FileRecord>, kids: map<Id, seq<Id>>, chain: seq<Id>, ids: seq<Id>)
    requires Linked(byId, kids) && KidsNameParent(byId, kids) && RootedChain(byId, chain)
    requires forall c | c in ids :: c in byId && byId[c].parentId == Some(chain[|chain| - 1])
    ensures BuildEach(byId, kids, ids, Members(chain)).Some?
    decreases byId.Keys - Members(chain), 1, |ids|
  {
    if |ids| > 0 {
      var c := ids[0];
      ChildOffChain(byId, chain, c);
      var ext := chain + [c];
      assert ext[..|ext| - 1] == chain;
      BuildOffChain(byId, kids, ext);
      BuildEachOffChain(byId, kids, chain, ids[1..]);
    }
  }

  /** With unique ids `organizeFiles` never overflows the stack, whatever
      the parent links: `sortFiles` walks down from the roots only, and a
      cycle of unique ids has no root and no link into it, so it is never
      reached. */
  lemma NoOverflowWithUniqueIds(fs: seq<FileRecord>)
    requires UniqueIds(fs)
    ensures Organized(fs).Some?
  {
    if |fs| > 0 {
      var byId, kids := ById(fs), KidsOf(fs);
      KidsLinked(fs);
      KidsOfExact(fs);
      RootsOfExact(fs);
      RootsListed(fs);
      RootsBuilt(byId, kids, RootsOf(fs));
    }
  }

  /** Every parentless record is the start of a rooted chain. */
  lemma {:induction false} RootsBuilt(byId: map<Id, FileRecord>, kids: map<Id, seq<Id>>, roots: seq<Id>)
    requires Linked(byId, kids) && KidsNameParent(byId, kids)
    requires forall r | r in roots :: r in byId && byId[r].parentId.None?
    ensures BuildEach(byId, kids, roots, {}).Some?
    decreases |roots|
  {
    if |roots| > 0 {
      assert RootedChain(byId, [roots[0]]);
      assert [roots[0]][..0] == [];
      assert Members([roots[0]][..0]) == {};
      BuildOffChain(byId, kids, [roots[0]]);
      RootsBuilt(byId, kids, roots[1..]);
    }
  }

  /** A repeated id can overflow: when a root and a record naming it as
      parent share one id, the map keeps the later record under that id,
      and the root's children array holds that very node, so `sortFiles`
      recurses into it without end. */
  lemma DuplicateIdOverflows(fs: seq<FileRecord>)
    requires |fs| == 2 && fs[0].id == fs[1].id
    requires fs[0].parentId.None? && fs[1].parentId == Some(fs[0].id)
    ensures Organized(fs).None?
  {
    var id := fs[0].id;
    DuplicateIdPasses(fs);
    KidsLinked(fs);
    SelfChildOverflows(ById(fs), KidsOf(fs), id);
    assert [id][1..] == [];
  }

  /** The two passes over such a list: one map entry, the later record,
      one root, and that id pushed onto its own node. */
  lemma DuplicateIdPasses(fs: seq<FileRecord>)
    requires |fs| == 2 && fs[0].id == fs[1].id
    requires fs[0].parentId.None? && fs[1].parentId == Some(fs[0].id)
    ensures ById(fs) == map[fs[0].id := fs[1]]
    ensures RootsOf(fs) == [fs[0].id]
    ensures fs[0].id in KidsOf(fs) && KidsOf(fs)[fs[0].id] == [fs[0].id]
  {
    var id := fs[0].id;
    var first := fs[..1];
    assert first[..0] == [] && first == [fs[0]] && fs[..|fs| - 1] == first;
    assert RootsOf(first) == [id];
    assert ChildrenOf(first, id) == [];
  }

  /** A node whose children array holds its own id is rebuilt inside
      itself. */
  lemma SelfChildOverflows(byId: map<Id, FileRecord>, kids: map<Id, seq<Id>>, id: Id)
    requires Linked(byId, kids) && id in byId && kids[id] == [id]
    ensures Build(byId, kids, id, {}).None?
  {
    var around: set<Id> := {};
    assert around + {id} == {id};
    assert Build(byId, kids, id, {id}).None?;
    assert BuildEach(byId, kids, [id], {id}).None?;
  }

  /** With unique ids, acyclic parent links and no dangling parent, every
      listed record appears in the forest exactly once, and no other id
      does; `Built` carries each node's record. */
  lemma ExactlyOnce(fs: seq<FileRecord>, rank: Id -> nat)
    requires UniqueIds(fs) && Acyclic(fs, rank) && NoDangling(fs)
    ensures Organized(fs).Some?
    ensures forall x :: multiset(FlatIds(Organized(fs).value))[x] == if exists i | 0 <= i < |fs| :: fs[i].id == x then 1 else 0
  {
    NoOverflowWithUniqueIds(fs);
    var ids := multiset(FlatIds(Organized(fs).value));
    forall x
      ensures ids[x] == if x in ById(fs) then 1 else 0
    {
      if |fs| > 0 {
        ListedOnce(fs, rank, x);
      }
    }
  }

  /** One id at a time: the forest of a non-empty list holds `x` once when
      it is listed and not at all otherwise. */
  lemma ListedOnce(fs: seq<FileRecord>, rank: Id -> nat, x: Id)
    requires |fs| > 0 && UniqueIds(fs) && Acyclic(fs, rank) && NoDangling(fs)
    requires Organized(fs).Some?
    ensures multiset(FlatIds(Organized(fs).value))[x] == if x in ById(fs) then 1 else 0
  {
    var byId, kids, roots := ById(fs), KidsOf(fs), RootsOf(fs);
    KidsLinked(fs);
    KidsOfExact(fs);
    RootsOfExact(fs);
    AcyclicRanked(fs, rank);
    NoDanglingListed(fs);
    RootsListed(fs);
    var built := BuildEach(byId, kids, roots, {}).value;
    assert Organized(fs).value == Sort(built);
    SortKeepsFlatIds(built);
    ForestCount(byId, kids, rank, roots, x);
  }

  lemma {:induction false} TopIdsMember(s: seq<Node>)
    ensures forall n | n in s :: n.rec.id in TopIds(s)
  {
    if |s| > 0 {
      TopIdsMember(s[1..]);
      assert forall n | n in s :: n == s[0] || n in s[1..];
    }
  }

  /** The top level of the forest is the root list, reordered by the sort;
      with unique ids it holds exactly the parentless records. */
  lemma TopLevelAreRoots(fs: seq<FileRecord>)
    requires Organized(fs).Some?
    ensures multiset(TopIds(Organized(fs).value)) == multiset(RootsOf(fs))
    ensures UniqueIds(fs) ==> forall n | n in Organized(fs).value :: n.rec in fs && n.rec.parentId.None?
  {
    if |fs| > 0 {
      KidsLinked(fs);
      RootsListed(fs);
      var built := BuildEach(ById(fs), KidsOf(fs), RootsOf(fs), {}).value;
      assert Organized(fs).value == Sort(built);
      SortKeepsTopIds(built);
      if UniqueIds(fs) {
        RootsOfExact(fs);
        TopIdsMember(built);
        forall n | n in Organized(fs).value
          ensures n.rec in fs && n.rec.parentId.None?
        {
          assert n in multiset(Sort(built));
        }
      }
    }
  }

  /** At every depth, a node's record is listed and its children are the
      listed records that name it as their parent. */
  ghost predicate ChildrenNamed(s: seq<Node>, fs: seq<FileRecord>) {
    forall i | 0 <= i < |s| ::
      s[i].rec in fs
      && (forall c :: c in TopIds(s[i].children) <==>
            exists j | 0 <= j < |fs| :: fs[j].id == c && fs[j].parentId == Some(s[i].rec.id))
      && ChildrenNamed(s[i].children, fs)
  }

  lemma {:induction false} BuiltChildrenNamed(s: seq<Node>, fs: seq<FileRecord>)
    requires UniqueIds(fs) && Built(s, ById(fs), KidsOf(fs))
    ensures ChildrenNamed(s, fs)
    decreases s
  {
    forall i | 0 <= i < |s|
      ensures ChildrenNamed(s[i].children, fs)
    {
      BuiltChildrenNamed(s[i].children, fs);
    }
    forall i | 0 <= i < |s|
      ensures forall c :: c in TopIds(s[i].children) <==>
        exists j | 0 <= j < |fs| :: fs[j].id == c && fs[j].parentId == Some(s[i].rec.id)
    {
      var id := s[i].rec.id;
      ChildrenListed(fs, id);
      ChildrenExact(fs, id);
      forall c
        ensures c in TopIds(s[i].children) <==> c in ChildrenOf(fs, id)
      {
        assert c in TopIds(s[i].children) <==> c in multiset(TopIds(s[i].children));
      }
    }
  }

  /** With unique ids, each record whose parent is listed becomes that
      record's child, at every depth of the forest. */
  lemma ChildrenAreNamingRecords(fs: seq<FileRecord>)
    requires UniqueIds(fs) && Organized(fs).Some?
    ensures ChildrenNamed(Organized(fs).value, fs)
  {
    BuiltChildrenNamed(Organized(fs).value, fs);
  }

  /** `x` is listed, and so is its parent if it names one. */
  predicate Anchored(byId: map<Id, FileRecord>, x: Id) {
    x in byId && (byId[x].parentId.None? || byId[x].parentId.value in byId)
  }

  lemma {:induction false} BuildAnchored(byId: map<Id, FileRecord>, kids: map<Id, seq<Id>>, id: Id, path: set<Id>)
    requires Linked(byId, kids) && KidsNameParent(byId, kids) && Anchored(byId, id)
    requires Build(byId, kids, id, path).Some?
    ensures forall y | y in FlatIds([Build(byId, kids, id, path).value]) :: Anchored(byId, y)
    decreases byId.Keys - path, 0
  {
    assert id !in path;
    assert byId.Keys - (path + {id}) < byId.Keys - path;
    var ns := BuildEach(byId, kids, kids[id], path + {id}).value;
    var node := Build(byId, kids, id, path).value;
    assert node == Node(byId[id], Sort(ns));
    assert FlatIds([node]) == [id] + FlatIds(Sort(ns)) + FlatIds([node][1..]);
    assert [node][1..] == [];
    forall c | c in kids[id]
      ensures Anchored(byId, c)
    {
      assert byId[c].parentId == Some(id);
    }
    BuildEachAnchored(byId, kids, kids[id], path + {id});
    SortKeepsFlatIds(ns);
    forall y | y in FlatIds(Sort(ns))
      ensures Anchored(byId, y)
    {
      assert y in multiset(FlatIds(Sort(ns)));
    }
  }

  lemma {:induction false} BuildEachAnchored(byId: map<Id, FileRecord>, kids: map<Id, seq<Id>>, ids: seq<Id>, path: set<Id>)
    requires Linked(byId, kids) && KidsNameParent(byId, kids)
    requires forall c | c in ids :: c in byId && Anchored(byId, c)
    requires BuildEach(byId, kids, ids, path).Some?
    ensures forall y | y in FlatIds(BuildEach(byId, kids, ids, path).value) :: Anchored(byId, y)
    decreases byId.Keys - path, 1, |ids|
  {
    if |ids| > 0 {
      var first := Build(byId, kids, ids[0], path).value;
      var rest := BuildEach(byId, kids, ids[1..], path).value;
      BuildAnchored(byId, kids, ids[0], path);
      BuildEachAnchored(byId, kids, ids[1..], path);
      FlatIdsConcat([first], rest);
    }
  }

  /** With unique ids, a record whose parent is not listed appears nowhere
      in the forest: it is neither a root nor anyone's child. */
  lemma OrphanDropped(fs: seq<FileRecord>, i: nat)
    requires UniqueIds(fs) && i < |fs| && fs[i].parentId.Some?
    requires forall j | 0 <= j < |fs| :: fs[j].id != fs[i].parentId.value
    requires Organized(fs).Some?
    ensures fs[i].id !in FlatIds(Organized(fs).value)
  {
    var byId, kids, roots := ById(fs), KidsOf(fs), RootsOf(fs);
    KidsLinked(fs);
    KidsOfExact(fs);
    RootsOfExact(fs);
    ByIdUnique(fs);
    var built := BuildEach(byId, kids, roots, {}).value;
    assert Organized(fs).value == Sort(built);
    BuildEachAnchored(byId, kids, roots, {});
    SortKeepsFlatIds(built);
    forall y | y in FlatIds(Sort(built))
      ensures Anchored(byId, y)
    {
      assert y in multiset(FlatIds(Sort(built)));
    }
    assert !Anchored(byId, fs[i].id);
  }
}
