/**
 * The category table as a forest of parent links and the recursive expansion of a category
 * into itself and all of its descendants (`getAllChildCategoryIds`).
 *
 * Acyclicity, which the service assumes and never checks, is witnessed by a ghost `rank`:
 * every child ranks strictly below its parent.
 */
module Categories {
  import opened Wrappers
  import Seqs

  datatype Category = Category(id: int, name: string, parentId: Option<int>)

  /** Category ids are the table's primary key. */
  predicate UniqueIds(t: seq<Category>) {
    forall i, j :: 0 <= i < |t| && 0 <= j < |t| && t[i].id == t[j].id ==> i == j
  }

  /** Category names are unique, so a lookup by name finds at most one row. */
  predicate UniqueNames(t: seq<Category>) {
    forall i, j :: 0 <= i < |t| && 0 <= j < |t| && t[i].name == t[j].name ==> i == j
  }

  /** `rank` witnesses that following parent links always ends: a child ranks below its parent. */
  ghost predicate Ranked(t: seq<Category>, rank: map<int, nat>) {
    forall c :: c in t ==>
      c.id in rank && (c.parentId.Some? ==> c.parentId.value in rank && rank[c.id] < rank[c.parentId.value])
  }

  ghost predicate Forest(t: seq<Category>, rank: map<int, nat>) {
    UniqueIds(t) && Ranked(t, rank)
  }

  lemma SameIdSameRow(t: seq<Category>, c1: Category, c2: Category)
    requires UniqueIds(t) && c1 in t && c2 in t && c1.id == c2.id
    ensures c1 == c2
  {
    var i :| 0 <= i < |t| && t[i] == c1;
    var j :| 0 <= j < |t| && t[j] == c2;
  }

  /** `category.findMany({ where: { parentId } })`: the child rows, in table order. */
  function ChildrenOf(t: seq<Category>, id: int): (r: seq<Category>)
    ensures forall c :: c in r <==> c in t && c.parentId == Some(id)
    ensures UniqueIds(t) ==> UniqueIds(r)
  {
    if t == [] then []
    else
      var rest := ChildrenOf(t[1..], id);
      assert UniqueIds(t) ==> UniqueIds(t[1..]) && forall c :: c in rest ==> c.id != t[0].id by {
        if UniqueIds(t) {
          forall c | c in rest ensures c.id != t[0].id {
            var j :| 0 <= j < |t[1..]| && t[1..][j] == c;
            assert t[j + 1] == c;
          }
          forall i, j | 0 <= i < |t[1..]| && 0 <= j < |t[1..]| && t[1..][i].id == t[1..][j].id
            ensures i == j
          {
            assert t[i + 1].id == t[j + 1].id;
          }
        }
      }
      assert forall c :: c in t <==> c == t[0] || c in t[1..];
      if t[0].parentId == Some(id) then [t[0]] + rest else rest
  }

  /** `findUnique({ where: { name } })`. */
  function FindByName(t: seq<Category>, name: string): (r: Option<Category>)
    ensures r.Some? ==> r.value in t && r.value.name == name
    ensures r.None? ==> forall c :: c in t ==> c.name != name
  {
    if t == [] then None
    else if t[0].name == name then Some(t[0])
    else
      assert forall c :: c in t ==> c == t[0] || c in t[1..];
      FindByName(t[1..], name)
  }

  /** With unique names the lookup finds the one row carrying the name. */
  lemma {:induction false} FindByNameUnique(t: seq<Category>, c: Category)
    requires UniqueNames(t) && c in t
    ensures FindByName(t, c.name) == Some(c)
  {
    if t[0] != c {
      assert c in t[1..] by {
        assert forall x :: x in t ==> x == t[0] || x in t[1..];
      }
      var j :| 0 <= j < |t| && t[j] == c;
      assert t[0].name != c.name;
      assert UniqueNames(t[1..]) by {
        forall i, k | 0 <= i < |t[1..]| && 0 <= k < |t[1..]| && t[1..][i].name == t[1..][k].name
          ensures i == k
        {
          assert t[i + 1].name == t[k + 1].name;
        }
      }
      FindByNameUnique(t[1..], c);
    }
  }

  /** The name a URL slug stands for: the lower-cased slug with every '-' turned into a space. */
  function NormalizeName(slug: string, lower: string -> string): (r: string)
    ensures |r| == |lower(slug)|
    ensures forall i :: 0 <= i < |r| ==> r[i] == (if lower(slug)[i] == '-' then ' ' else lower(slug)[i])
    ensures '-' !in r
  {
    ReplaceDashes(lower(slug))
  }

  function ReplaceDashes(s: string): (r: string)
    ensures |r| == |s|
    ensures forall i :: 0 <= i < |r| ==> r[i] == (if s[i] == '-' then ' ' else s[i])
  {
    if s == [] then []
    else [if s[0] == '-' then ' ' else s[0]] + ReplaceDashes(s[1..])
  }

  // ---------------------------------------------------------------------------
  // Descendant expansion
  // ---------------------------------------------------------------------------

  /** The specification: the category, then the pre-order expansion of each child in row order. */
  ghost function Expand(t: seq<Category>, rank: map<int, nat>, id: int): seq<int>
    requires Ranked(t, rank) && id in rank
    decreases rank[id] + 1, 0
  {
    [id] + ExpandAll(t, rank, ChildrenOf(t, id), rank[id])
  }

  ghost function ExpandAll(t: seq<Category>, rank: map<int, nat>, cs: seq<Category>, bound: nat): seq<int>
    requires Ranked(t, rank)
    requires forall c :: c in cs ==> c in t && rank[c.id] < bound
    decreases bound, |cs|
  {
    if cs == [] then []
    else
      assert forall c :: c in cs[..|cs| - 1] ==> c in cs;
      ExpandAll(t, rank, cs[..|cs| - 1], bound) + Expand(t, rank, cs[|cs| - 1].id)
  }

  /** A category is a descendant of `id` when it is a child of `id` or a descendant of one. */
  ghost predicate Descendant(t: seq<Category>, rank: map<int, nat>, x: int, id: int)
    requires Ranked(t, rank) && id in rank
    decreases rank[id]
  {
    exists c :: c in t && c.parentId == Some(id) && (c.id == x || Descendant(t, rank, x, c.id))
  }

  /** `getAllChildCategoryIds`: the recursive query that pushes each child's expansion in turn. */
  method GetAllChildCategoryIds(t: seq<Category>, ghost rank: map<int, nat>, id: int) returns (ids: seq<int>)
    requires Ranked(t, rank) && id in rank
    ensures ids == Expand(t, rank, id)
    decreases rank[id]
  {
    var children := ChildrenOf(t, id);
    ids := [id];
    for i := 0 to |children|
      invariant ids == [id] + ExpandAll(t, rank, children[..i], rank[id])
    {
      var descendants := GetAllChildCategoryIds(t, rank, children[i].id);
      assert children[..i + 1][..i] == children[..i];
      ids := ids + descendants;
    }
    assert children[..|children|] == children;
  }

  lemma {:induction false} ExpandAllMembers(t: seq<Category>, rank: map<int, nat>, cs: seq<Category>, bound: nat, x: int)
    requires Ranked(t, rank)
    requires forall c :: c in cs ==> c in t && rank[c.id] < bound
    ensures x in ExpandAll(t, rank, cs, bound) <==> exists k :: 0 <= k < |cs| && x in Expand(t, rank, cs[k].id)
    decreases |cs|
  {
    if cs != [] {
      var init := cs[..|cs| - 1];
      assert forall c :: c in init ==> c in cs;
      ExpandAllMembers(t, rank, init, bound, x);
      if x in ExpandAll(t, rank, cs, bound) {
        if x in ExpandAll(t, rank, init, bound) {
          var k :| 0 <= k < |init| && x in Expand(t, rank, init[k].id);
          assert cs[k] == init[k];
        } else {
          assert x in Expand(t, rank, cs[|cs| - 1].id);
        }
      }
      if exists k :: 0 <= k < |cs| && x in Expand(t, rank, cs[k].id) {
        var k :| 0 <= k < |cs| && x in Expand(t, rank, cs[k].id);
        if k < |cs| - 1 {
          assert init[k] == cs[k];
        }
      }
    }
  }

  /** The expansion of a child is part of the expansion of its parent. */
  lemma ExpandChild(t: seq<Category>, rank: map<int, nat>, z: int, ch: Category, y: int)
    requires Ranked(t, rank) && z in rank
    requires ch in t && ch.parentId == Some(z) && y in Expand(t, rank, ch.id)
    ensures y in Expand(t, rank, z)
  {
    var cs := ChildrenOf(t, z);
    var k :| 0 <= k < |cs| && cs[k] == ch;
    ExpandAllMembers(t, rank, cs, rank[z], y);
  }

  /**
   * Every id in an expansion ranks no higher than its root, and every id other than the root
   * is a table row whose parent is also in the expansion.
   */
  lemma {:induction false} ExpandBelow(t: seq<Category>, rank: map<int, nat>, id: int, x: int)
    requires Ranked(t, rank) && id in rank
    requires x in Expand(t, rank, id)
    ensures x in rank && rank[x] <= rank[id]
    ensures x != id ==>
              exists c :: c in t && c.id == x && c.parentId.Some? && c.parentId.value in Expand(t, rank, id)
    decreases rank[id]
  {
    if x != id {
      var cs := ChildrenOf(t, id);
      assert x in ExpandAll(t, rank, cs, rank[id]);
      ExpandAllMembers(t, rank, cs, rank[id], x);
      var k :| 0 <= k < |cs| && x in Expand(t, rank, cs[k].id);
      var ch := cs[k];
      ExpandBelow(t, rank, ch.id, x);
      if x == ch.id {
        assert ch.parentId.value in Expand(t, rank, id);
      } else {
        var c :| c in t && c.id == x && c.parentId.Some? && c.parentId.value in Expand(t, rank, ch.id);
        ExpandChild(t, rank, id, ch, c.parentId.value);
      }
    }
  }

  /** In a forest two expansions that share an id are nested: one root lies in the other's expansion. */
  lemma {:induction false} ExpandNested(t: seq<Category>, rank: map<int, nat>, a: int, b: int, x: int)
    requires Forest(t, rank) && a in rank && b in rank
    requires x in Expand(t, rank, a) && x in Expand(t, rank, b)
    ensures a in Expand(t, rank, b) || b in Expand(t, rank, a)
    decreases rank[a] + rank[b]
  {
    if x == a || x == b {
      return;
    }
    var ca := ChildOnPath(t, rank, a, x);
    var cb := ChildOnPath(t, rank, b, x);
    ExpandNested(t, rank, ca.id, cb.id, x);
    if ca.id in Expand(t, rank, cb.id) {
      ParentInside(t, rank, ca, cb, a, b);
    } else {
      ParentInside(t, rank, cb, ca, b, a);
    }
  }

  /** The child of `z` whose expansion holds `x`, for any `x` in `z`'s expansion other than `z`. */
  lemma ChildOnPath(t: seq<Category>, rank: map<int, nat>, z: int, x: int) returns (ch: Category)
    requires Ranked(t, rank) && z in rank
    requires x in Expand(t, rank, z) && x != z
    ensures ch in t && ch.parentId == Some(z) && x in Expand(t, rank, ch.id)
  {
    var cs := ChildrenOf(t, z);
    ExpandAllMembers(t, rank, cs, rank[z], x);
    var k :| 0 <= k < |cs| && x in Expand(t, rank, cs[k].id);
    ch := cs[k];
  }

  /** If child `ca` of `a` lies in the expansion of child `cb` of `b`, then `a` lies in `b`'s expansion. */
  lemma ParentInside(t: seq<Category>, rank: map<int, nat>, ca: Category, cb: Category, a: int, b: int)
    requires Forest(t, rank) && a in rank && b in rank
    requires ca in t && ca.parentId == Some(a) && cb in t && cb.parentId == Some(b)
    requires ca.id in Expand(t, rank, cb.id)
    ensures a in Expand(t, rank, b)
  {
    if ca.id == cb.id {
      SameIdSameRow(t, ca, cb);
    } else {
      ExpandBelow(t, rank, cb.id, ca.id);
      var c :| c in t && c.id == ca.id && c.parentId.Some? && c.parentId.value in Expand(t, rank, cb.id);
      SameIdSameRow(t, c, ca);
      ExpandChild(t, rank, b, cb, a);
    }
  }

  /** The expansion of sibling categories with distinct ids repeats no id. */
  lemma {:induction false} ExpandAllNoDup(t: seq<Category>, rank: map<int, nat>, z: int, cs: seq<Category>)
    requires Forest(t, rank) && z in rank
    requires forall c :: c in cs ==> c in t && c.parentId == Some(z)
    requires forall i, j :: 0 <= i < |cs| && 0 <= j < |cs| && cs[i].id == cs[j].id ==> i == j
    ensures Seqs.NoDup(ExpandAll(t, rank, cs, rank[z]))
    decreases rank[z] + 1, 0, |cs|
  {
    if cs != [] {
      var init := cs[..|cs| - 1];
      var last := cs[|cs| - 1];
      assert forall c :: c in init ==> c in cs;
      ExpandAllNoDup(t, rank, z, init);
      ExpandNoDup(t, rank, last.id);
      var a := ExpandAll(t, rank, init, rank[z]);
      var b := Expand(t, rank, last.id);
      forall i, j | 0 <= i < |a| && 0 <= j < |b| ensures a[i] != b[j] {
        if a[i] == b[j] {
          var y := a[i];
          ExpandAllMembers(t, rank, init, rank[z], y);
          var k :| 0 <= k < |init| && y in Expand(t, rank, init[k].id);
          var sib := init[k];
          assert sib == cs[k];
          ExpandNested(t, rank, sib.id, last.id, y);
          if sib.id in Expand(t, rank, last.id) {
            SiblingNotInside(t, rank, z, sib, last);
          } else {
            SiblingNotInside(t, rank, z, last, sib);
          }
        }
      }
      NoDupConcat(a, b);
    }
  }

  /** A sibling never lies in another sibling's expansion: its parent would rank below itself. */
  lemma SiblingNotInside(t: seq<Category>, rank: map<int, nat>, z: int, s1: Category, s2: Category)
    requires Forest(t, rank) && z in rank
    requires s1 in t && s2 in t && s1.parentId == Some(z) && s2.parentId == Some(z) && s1.id != s2.id
    ensures s1.id !in Expand(t, rank, s2.id)
  {
    if s1.id in Expand(t, rank, s2.id) {
      ExpandBelow(t, rank, s2.id, s1.id);
      var c :| c in t && c.id == s1.id && c.parentId.Some? && c.parentId.value in Expand(t, rank, s2.id);
      SameIdSameRow(t, c, s1);
      ExpandBelow(t, rank, s2.id, z);
      assert false;
    }
  }

  lemma NoDupConcat(a: seq<int>, b: seq<int>)
    requires Seqs.NoDup(a) && Seqs.NoDup(b)
    requires forall i, j :: 0 <= i < |a| && 0 <= j < |b| ==> a[i] != b[j]
    ensures Seqs.NoDup(a + b)
  {
  }

  /** The expansion of a category repeats no id. */
  lemma {:induction false} ExpandNoDup(t: seq<Category>, rank: map<int, nat>, id: int)
    requires Forest(t, rank) && id in rank
    ensures Seqs.NoDup(Expand(t, rank, id))
    decreases rank[id] + 1, 1, 0
  {
    var cs := ChildrenOf(t, id);
    forall i, j | 0 <= i < |cs| && 0 <= j < |cs| && cs[i].id == cs[j].id ensures i == j {
      assert UniqueIds(cs);
    }
    ExpandAllNoDup(t, rank, id, cs);
    var rest := ExpandAll(t, rank, cs, rank[id]);
    forall j | 0 <= j < |rest| ensures rest[j] != id {
      ExpandAllMembers(t, rank, cs, rank[id], rest[j]);
      var k :| 0 <= k < |cs| && rest[j] in Expand(t, rank, cs[k].id);
      ExpandBelow(t, rank, cs[k].id, rest[j]);
    }
    NoDupConcat([id], rest);
  }

  /** The expansion holds exactly the category itself and its transitive descendants. */
  lemma {:induction false} ExpandIsSelfAndDescendants(t: seq<Category>, rank: map<int, nat>, id: int, x: int)
    requires Ranked(t, rank) && id in rank
    ensures x in Expand(t, rank, id) <==> x == id || Descendant(t, rank, x, id)
    decreases rank[id]
  {
    if x in Expand(t, rank, id) && x != id {
      var ch := ChildOnPath(t, rank, id, x);
      ExpandIsSelfAndDescendants(t, rank, ch.id, x);
    }
    if Descendant(t, rank, x, id) {
      var c :| c in t && c.parentId == Some(id) && (c.id == x || Descendant(t, rank, x, c.id));
      ExpandIsSelfAndDescendants(t, rank, c.id, x);
      ExpandChild(t, rank, id, c, x);
    }
  }

  /** `getAllChildCategoryIds(id)` starts with `id`, repeats nothing, and is closed under children. */
  lemma ExpansionShape(t: seq<Category>, rank: map<int, nat>, id: int)
    requires Forest(t, rank) && id in rank
    ensures |Expand(t, rank, id)| >= 1 && Expand(t, rank, id)[0] == id
    ensures Seqs.NoDup(Expand(t, rank, id))
    ensures forall c :: c in t && c.parentId.Some? && c.parentId.value in Expand(t, rank, id) ==>
              c.id in Expand(t, rank, id)
  {
    ExpandNoDup(t, rank, id);
    forall c | c in t && c.parentId.Some? && c.parentId.value in Expand(t, rank, id)
      ensures c.id in Expand(t, rank, id)
    {
      var p := c.parentId.value;
      ExpandBelow(t, rank, id, p);
      ExpandIsSelfAndDescendants(t, rank, p, c.id);
      assert c.id in Expand(t, rank, p);
      NestedExpansion(t, rank, id, p, c.id);
    }
  }

  /** Expansion is transitive: an expansion contains the expansion of each of its members. */
  lemma {:induction false} NestedExpansion(t: seq<Category>, rank: map<int, nat>, id: int, p: int, y: int)
    requires Ranked(t, rank) && id in rank && p in rank
    requires p in Expand(t, rank, id) && y in Expand(t, rank, p)
    ensures y in Expand(t, rank, id)
    decreases rank[id]
  {
    if p != id {
      var ch := ChildOnPath(t, rank, id, p);
      NestedExpansion(t, rank, ch.id, p, y);
      ExpandChild(t, rank, id, ch, y);
    }
  }
}
