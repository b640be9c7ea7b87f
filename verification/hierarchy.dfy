/** The parent-pointer hierarchy over a set of records keyed by id: which
    records lie below a folder, and the facts about it that recursive
    deletion and tree assembly rely on. */
module Hierarchy {
  import opened FileModel

  type Records = map<Id, FileRecord>

  /** Every parent id is smaller than its child's id. The store allocates ids
      in increasing order and a parent must exist when its child is created,
      so this holds of every store; it is what makes the hierarchy acyclic. */
  ghost predicate ParentsPrecede(m: Records) {
    forall x | x in m && m[x].parentId.Some? :: m[x].parentId.value < x
  }

  /** `x` is `f` or lies below `f` when following `parentId` links. */
  ghost predicate Under(m: Records, x: Id, f: Id)
    decreases x
  {
    x == f
    || (x in m && m[x].parentId.Some? && m[x].parentId.value < x && Under(m, m[x].parentId.value, f))
  }

  /** The records a deletion of `f` removes: `f` and everything below it. */
  ghost function Subtree(m: Records, f: Id): set<Id> {
    set x | x in m && Under(m, x, f)
  }

  /** The records strictly below `f`. */
  ghost function Descendants(m: Records, f: Id): set<Id> {
    set x | x in m && x != f && Under(m, x, f)
  }

  /** `m'` is `m` with some records removed and none changed. */
  ghost predicate Submap(m': Records, m: Records) {
    forall x | x in m' :: x in m && m'[x] == m[x]
  }

  lemma {:induction false} UnderAbove(m: Records, x: Id, f: Id)
    requires Under(m, x, f)
    ensures f <= x
  {
    if x != f {
      UnderAbove(m, m[x].parentId.value, f);
    }
  }

  lemma {:induction false} UnderTransitive(m: Records, x: Id, y: Id, f: Id)
    requires Under(m, x, y) && Under(m, y, f)
    ensures Under(m, x, f)
  {
    if x != y {
      UnderTransitive(m, m[x].parentId.value, y, f);
    }
  }

  /** The ancestors of a record form a chain: two of them are comparable. */
  lemma {:induction false} UnderLinear(m: Records, x: Id, a: Id, b: Id)
    requires Under(m, x, a) && Under(m, x, b)
    ensures Under(m, a, b) || Under(m, b, a)
  {
    if x != a && x != b {
      UnderLinear(m, m[x].parentId.value, a, b);
    }
  }

  /** Two distinct children of one folder have disjoint subtrees. */
  lemma SiblingsDisjoint(m: Records, c1: Id, c2: Id, f: Id, x: Id)
    requires c1 != c2 && c1 in m && c2 in m
    requires m[c1].parentId == Some(f) && m[c2].parentId == Some(f)
    requires f < c1 && f < c2
    ensures !(Under(m, x, c1) && Under(m, x, c2))
  {
    if Under(m, x, c1) && Under(m, x, c2) {
      UnderLinear(m, x, c1, c2);
      if Under(m, c1, c2) {
        UnderAbove(m, f, c2);
      } else {
        UnderAbove(m, f, c1);
      }
    }
  }

  /** A record strictly below `f` lies in the subtree of one child of `f`. */
  lemma {:induction false} BranchOf(m: Records, x: Id, f: Id) returns (c: Id)
    requires x != f && Under(m, x, f)
    ensures c in m && m[c].parentId == Some(f) && f < c && Under(m, x, c)
  {
    var p := m[x].parentId.value;
    if p == f {
      c := x;
    } else {
      c := BranchOf(m, p, f);
    }
  }

  /** Removing records never creates a path that was not there. */
  lemma {:induction false} UnderOfSubmap(m': Records, m: Records, x: Id, f: Id)
    requires Submap(m', m) && Under(m', x, f)
    ensures Under(m, x, f)
  {
    if x != f {
      UnderOfSubmap(m', m, m'[x].parentId.value, f);
    }
  }

  /** A path below `f` survives the removal of records outside `f`'s subtree. */
  lemma {:induction false} UnderKept(m': Records, m: Records, x: Id, f: Id)
    requires Submap(m', m) && Under(m, x, f)
    requires forall y | y in m && Under(m, y, f) :: y in m'
    ensures Under(m', x, f)
  {
    if x != f {
      UnderKept(m', m, m[x].parentId.value, f);
    }
  }

  /** So the subtree of `f` is the same in both maps. */
  lemma SubtreeKept(m': Records, m: Records, f: Id)
    requires Submap(m', m)
    requires forall y | y in m && Under(m, y, f) :: y in m'
    ensures Subtree(m', f) == Subtree(m, f)
    ensures Descendants(m', f) == Descendants(m, f)
  {
    forall x | x in m' && Under(m', x, f) ensures Under(m, x, f) {
      UnderOfSubmap(m', m, x, f);
    }
    forall x | x in m && Under(m, x, f) ensures x in m' && Under(m', x, f) {
      UnderKept(m', m, x, f);
    }
  }

  /** A record that no record names as parent has no descendants. */
  lemma ChildlessHasNoDescendants(m: Records, f: Id)
    requires forall x | x in m :: m[x].parentId != Some(f)
    ensures Descendants(m, f) == {}
  {
    if x :| x in Descendants(m, f) {
      var c := BranchOf(m, x, f);
    }
  }

  /** The strict descendants of `f` are the union of the subtrees of its
      children. */
  lemma DescendantsByChildren(m: Records, f: Id, x: Id)
    requires ParentsPrecede(m)
    ensures x in Descendants(m, f) <==>
      exists c :: c in m && m[c].parentId == Some(f) && x in Subtree(m, c)
  {
    if x in Descendants(m, f) {
      var c := BranchOf(m, x, f);
      assert x in Subtree(m, c);
    }
    if c :| c in m && m[c].parentId == Some(f) && x in Subtree(m, c) {
      assert Under(m, c, f);
      UnderTransitive(m, x, c, f);
      UnderAbove(m, x, c);
    }
  }

  /** The records in the subtrees of the listed records. */
  ghost function Branches(m: Records, cs: seq<Id>): set<Id> {
    if |cs| == 0 then {} else Branches(m, cs[..|cs| - 1]) + Subtree(m, cs[|cs| - 1])
  }

  lemma {:induction false} BranchesMembers(m: Records, cs: seq<Id>, x: Id)
    ensures x in Branches(m, cs) <==> exists k | 0 <= k < |cs| :: x in Subtree(m, cs[k])
  {
    if |cs| > 0 {
      var init := cs[..|cs| - 1];
      BranchesMembers(m, init, x);
      if x in Branches(m, init) {
        var k :| 0 <= k < |init| && x in Subtree(m, init[k]);
        assert cs[k] == init[k];
      }
      if k :| 0 <= k < |cs| && x in Subtree(m, cs[k]) {
        if k < |cs| - 1 {
          assert init[k] == cs[k];
        }
      }
    }
  }

  /** The listed children of one folder, in increasing order: the subtree of
      the `i`-th is disjoint from the subtrees of the ones before it. */
  lemma BranchDisjoint(m: Records, f: Id, cs: seq<Id>, i: nat)
    requires forall k | 0 <= k < |cs| :: cs[k] in m && m[cs[k]].parentId == Some(f) && f < cs[k]
    requires forall k, l | 0 <= k < l < |cs| :: cs[k] < cs[l]
    requires i < |cs|
    ensures Subtree(m, cs[i]) !! Branches(m, cs[..i])
  {
    forall x | x in Subtree(m, cs[i]) && x in Branches(m, cs[..i]) ensures false {
      BranchesMembers(m, cs[..i], x);
      var k :| 0 <= k < i && x in Subtree(m, cs[..i][k]);
      SiblingsDisjoint(m, cs[k], cs[i], f, x);
    }
  }

  /** No record appears after a record above it: everything below a record
      is removed before the record itself. */
  ghost predicate PostOrder(m: Records, order: seq<Id>) {
    forall i, j | 0 <= i < j < |order| :: !Under(m, order[j], order[i])
  }

  /** Removing the `i`-th child's subtree from what is left after removing
      the subtrees of the children before it: the child's subtree is still
      all there, and afterwards exactly the first `i + 1` subtrees are gone. */
  lemma BranchStep(m: Records, f: Id, cs: seq<Id>, i: nat, cur: Records)
    requires forall k | 0 <= k < |cs| :: cs[k] in m && m[cs[k]].parentId == Some(f) && f < cs[k]
    requires forall k, l | 0 <= k < l < |cs| :: cs[k] < cs[l]
    requires i < |cs| && cur == m - Branches(m, cs[..i])
    ensures forall y | y in m && Under(m, y, cs[i]) :: y in cur
    ensures cur - Descendants(m, cs[i]) - {cs[i]} == m - Branches(m, cs[..i + 1])
  {
    BranchDisjoint(m, f, cs, i);
    forall y | y in m && Under(m, y, cs[i]) ensures y in cur {
      assert y in Subtree(m, cs[i]);
    }
    assert cs[..i + 1][..i] == cs[..i];
    assert Subtree(m, cs[i]) == Descendants(m, cs[i]) + {cs[i]};
  }

  /** A removal order of `f`'s descendants computed on a map that agrees with
      a larger one on `f`'s subtree is one for the larger map too. */
  lemma PostOrderKept(m': Records, m: Records, f: Id, order: seq<Id>)
    requires Submap(m', m) && PostOrder(m', order)
    requires forall y | y in m && Under(m, y, f) :: y in m'
    requires forall x :: x in order <==> x in Descendants(m', f)
    ensures PostOrder(m, order)
    ensures forall x :: x in order <==> x in Descendants(m, f)
  {
    SubtreeKept(m', m, f);
    forall i, j | 0 <= i < j < |order| ensures !Under(m, order[j], order[i]) {
      if Under(m, order[j], order[i]) {
        assert order[i] in Descendants(m, f);
        forall y | y in m && Under(m, y, order[i]) ensures y in m' {
          UnderTransitive(m, y, order[i], f);
        }
        UnderKept(m', m, order[j], order[i]);
      }
    }
  }

  /** Appending a child's removal order, then the child, to the removal order
      of its earlier siblings' subtrees stays a post-order. */
  lemma PostOrderStep(m: Records, f: Id, cs: seq<Id>, i: nat, done: seq<Id>, sub: seq<Id>)
    requires forall k | 0 <= k < |cs| :: cs[k] in m && m[cs[k]].parentId == Some(f) && f < cs[k]
    requires forall k, l | 0 <= k < l < |cs| :: cs[k] < cs[l]
    requires i < |cs|
    requires PostOrder(m, done) && forall x :: x in done <==> x in Branches(m, cs[..i])
    requires PostOrder(m, sub) && forall x :: x in sub <==> x in Descendants(m, cs[i])
    ensures PostOrder(m, done + sub + [cs[i]])
    ensures forall x :: x in done + sub + [cs[i]] <==> x in Branches(m, cs[..i + 1])
  {
    var c := cs[i];
    var all := done + sub + [c];
    assert cs[..i + 1][..i] == cs[..i];
    BranchDisjoint(m, f, cs, i);
    forall a, b | 0 <= a < b < |all| ensures !Under(m, all[b], all[a]) {
      if a < |done| && b >= |done| {
        var x := all[b];
        var e := all[a];
        if b < |done| + |sub| {
          assert x == sub[b - |done|];
          assert x in Descendants(m, c);
        } else {
          assert x == c && c == cs[i] && c in m;
          assert Under(m, c, c);
        }
        assert x in Subtree(m, c);
        if Under(m, x, e) {
          BranchesMembers(m, cs[..i], e);
          var k :| 0 <= k < i && e in Subtree(m, cs[..i][k]);
          UnderTransitive(m, x, e, cs[k]);
          SiblingsDisjoint(m, cs[k], c, f, x);
        }
      } else if a >= |done| && b == |all| - 1 {
        var s := all[a];
        assert s in Descendants(m, c);
        UnderAbove(m, s, c);
        if Under(m, c, s) {
          UnderAbove(m, c, s);
        }
      } else if a >= |done| {
        assert all[a] == sub[a - |done|] && all[b] == sub[b - |done|];
      }
    }
  }

  /** One pass of a folder deletion over its children `cs`, listed in
      increasing id order: after the subtrees of the first `i` children are
      gone, removing the `i`-th child's subtree, in a post-order computed on
      what is left, removes exactly one more subtree and keeps the whole
      sequence of removals a post-order of the original records. */
  lemma DeletionStep(m: Records, f: Id, cs: seq<Id>, i: nat, cur: Records, done: seq<Id>, sub: seq<Id>)
    requires forall k | 0 <= k < |cs| :: cs[k] in m && m[cs[k]].parentId == Some(f) && f < cs[k]
    requires forall k, l | 0 <= k < l < |cs| :: cs[k] < cs[l]
    requires i < |cs| && cur == m - Branches(m, cs[..i])
    requires PostOrder(m, done) && forall x :: x in done <==> x in Branches(m, cs[..i])
    requires PostOrder(cur, sub) && forall x :: x in sub <==> x in Descendants(cur, cs[i])
    ensures cur - Subtree(cur, cs[i]) == m - Branches(m, cs[..i + 1])
    ensures PostOrder(m, done + sub + [cs[i]])
    ensures forall x :: x in done + sub + [cs[i]] <==> x in Branches(m, cs[..i + 1])
  {
    BranchStep(m, f, cs, i, cur);
    SubtreeKept(cur, m, cs[i]);
    PostOrderKept(cur, m, cs[i], sub);
    PostOrderStep(m, f, cs, i, done, sub);
    assert Subtree(m, cs[i]) == Descendants(m, cs[i]) + {cs[i]};
  }

  /** The subtrees of all children of `f` together are what lies below `f`. */
  lemma BranchesOfAllChildren(m: Records, f: Id, cs: seq<Id>)
    requires ParentsPrecede(m)
    requires forall x :: x in cs <==> x in m && m[x].parentId == Some(f)
    ensures Branches(m, cs) == Descendants(m, f)
  {
    forall x ensures x in Branches(m, cs) <==> x in Descendants(m, f) {
      BranchesMembers(m, cs, x);
      DescendantsByChildren(m, f, x);
      if c :| c in m && m[c].parentId == Some(f) && x in Subtree(m, c) {
        var k :| 0 <= k < |cs| && cs[k] == c;
      }
    }
  }
}
