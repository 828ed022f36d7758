/**
 * Queries and updates on the `images` table, as the actions issue them: the max-sortOrder reduce,
 * the ordered per-project select, lookups by id, and the row updates and deletes.
 */
module AssetIndex {
  import opened Wrappers
  import opened Schema

  /** `img.sortOrder || 0`: a null (or zero) sort order counts as 0. */
  function SortValue(img: Image): int
  {
    if img.sortOrder.Some? then img.sortOrder.value else 0
  }

  function Max(a: int, b: int): int
  {
    if a >= b then a else b
  }

  /** `rows.reduce((max, img) => Math.max(max, img.sortOrder || 0), acc)`. */
  function MaxFrom(acc: int, rows: seq<Image>): (r: int)
    ensures r >= acc
    ensures forall i :: 0 <= i < |rows| ==> SortValue(rows[i]) <= r
    ensures r == acc || exists i :: 0 <= i < |rows| && SortValue(rows[i]) == r
    decreases |rows|
  {
    if rows == [] then acc
    else
      var r := MaxFrom(Max(acc, SortValue(rows[0])), rows[1..]);
      assert forall i :: 1 <= i < |rows| ==> rows[i] == rows[1..][i - 1];
      r
  }

  /** The largest sort order among `rows`, nulls counted as 0, and 0 for no rows. */
  function MaxSortOrder(rows: seq<Image>): (r: int)
    ensures r >= 0
    ensures forall i :: 0 <= i < |rows| && rows[i].sortOrder.Some? ==> rows[i].sortOrder.value <= r
    ensures r == 0 || exists i :: 0 <= i < |rows| && rows[i].sortOrder == Some(r)
  {
    MaxFrom(0, rows)
  }

  /** `select ... where projectId = p`, in table order. */
  function ProjectRows(images: seq<Image>, projectId: Uuid): (r: seq<Image>)
    ensures forall x :: x in r <==> x in images && x.projectId == projectId
    ensures |r| <= |images|
  {
    if images == [] then []
    else if images[0].projectId == projectId then [images[0]] + ProjectRows(images[1..], projectId)
    else ProjectRows(images[1..], projectId)
  }

  /** Postgres ascending order on a nullable column: NULL sorts after every value. */
  predicate NullsLastLe(a: Option<int>, b: Option<int>)
  {
    b.None? || (a.Some? && a.value <= b.value)
  }

  /** `orderBy(asc(sortOrder), asc(createdAt))`: x may come before y. */
  predicate OrderLe(x: Image, y: Image)
  {
    if x.sortOrder != y.sortOrder then NullsLastLe(x.sortOrder, y.sortOrder)
    else NullsLastLe(x.createdAt, y.createdAt)
  }

  predicate Sorted(s: seq<Image>)
  {
    forall i, j :: 0 <= i < j < |s| ==> OrderLe(s[i], s[j])
  }

  /** Insert one row into an ordered list. */
  function Insert(x: Image, s: seq<Image>): (r: seq<Image>)
    requires Sorted(s)
    ensures Sorted(r)
    ensures multiset(r) == multiset(s) + multiset{x}
  {
    if s == [] then [x]
    else if OrderLe(x, s[0]) then [x] + s
    else
      var rest := Insert(x, s[1..]);
      InsertStep(x, s, rest);
      [s[0]] + rest
  }

  /** The recursive case of Insert: the head of `s` goes in front of `x` inserted into the tail. */
  lemma InsertStep(x: Image, s: seq<Image>, rest: seq<Image>)
    requires Sorted(s) && s != [] && !OrderLe(x, s[0])
    requires Sorted(rest) && multiset(rest) == multiset(s[1..]) + multiset{x}
    ensures Sorted([s[0]] + rest)
    ensures multiset([s[0]] + rest) == multiset(s) + multiset{x}
  {
    assert s == [s[0]] + s[1..];
    forall k | 0 <= k < |rest| ensures OrderLe(s[0], rest[k]) {
      assert rest[k] in multiset(rest);
      if rest[k] != x {
        assert rest[k] in s[1..];
        var m :| 0 <= m < |s[1..]| && s[1..][m] == rest[k];
        assert s[m + 1] == rest[k];
      }
    }
    SortedCons(s[0], rest);
  }

  /** A row that may precede every row of a sorted list may be put in front of it. */
  lemma SortedCons(h: Image, rest: seq<Image>)
    requires Sorted(rest) && forall k :: 0 <= k < |rest| ==> OrderLe(h, rest[k])
    ensures Sorted([h] + rest)
  {
    forall i, j | 0 <= i < j < |[h] + rest| ensures OrderLe(([h] + rest)[i], ([h] + rest)[j]) {
      if i == 0 {
        assert ([h] + rest)[j] == rest[j - 1];
      } else {
        assert ([h] + rest)[i] == rest[i - 1] && ([h] + rest)[j] == rest[j - 1];
      }
    }
  }

  /** Sort rows by OrderLe (insertion sort; rows with equal keys keep table order). */
  function SortRows(s: seq<Image>): (r: seq<Image>)
    ensures Sorted(r)
    ensures multiset(r) == multiset(s)
  {
    if s == [] then []
    else
      assert s == [s[0]] + s[1..];
      Insert(s[0], SortRows(s[1..]))
  }

  /**
   * `getProjectImages`: exactly the rows of the project, each as often as it is stored, ordered by
   * sortOrder and then createdAt, ascending, NULLs last.
   */
  function ProjectImages(images: seq<Image>, projectId: Uuid): (r: seq<Image>)
    ensures Sorted(r)
    ensures multiset(r) == multiset(ProjectRows(images, projectId))
    ensures forall x :: x in r <==> x in images && x.projectId == projectId
  {
    var r := SortRows(ProjectRows(images, projectId));
    assert forall x :: x in r <==> x in multiset(r);
    r
  }

  /** `select ... where id = x limit 1`. */
  function FindImage(images: seq<Image>, id: Uuid): (r: Option<Image>)
    ensures r.Some? ==> r.value in images && r.value.id == id
    ensures r.None? <==> !HasImage(images, id)
  {
    if images == [] then None
    else if images[0].id == id then Some(images[0])
    else
      var r := FindImage(images[1..], id);
      assert forall x :: x in images <==> x == images[0] || x in images[1..];
      r
  }

  /** `delete from images where id = x`. */
  function WithoutImage(images: seq<Image>, id: Uuid): (r: seq<Image>)
    ensures forall x :: x in r <==> x in images && x.id != id
    ensures !HasImage(r, id)
    ensures |r| <= |images|
  {
    if images == [] then []
    else if images[0].id == id then WithoutImage(images[1..], id)
    else [images[0]] + WithoutImage(images[1..], id)
  }

  /** `delete from images where projectId = p`. */
  function WithoutProjectImages(images: seq<Image>, projectId: Uuid): (r: seq<Image>)
    ensures forall x :: x in r <==> x in images && x.projectId != projectId
  {
    if images == [] then []
    else if images[0].projectId == projectId then WithoutProjectImages(images[1..], projectId)
    else [images[0]] + WithoutProjectImages(images[1..], projectId)
  }

  /** `update images set sortOrder = v where id = x`. */
  function WithSortOrder(images: seq<Image>, id: Uuid, v: int): (r: seq<Image>)
    ensures |r| == |images|
    ensures forall k :: 0 <= k < |r| ==> r[k] == if images[k].id == id then images[k].(sortOrder := Some(v)) else images[k]
  {
    seq(|images|, k requires 0 <= k < |images| =>
      if images[k].id == id then images[k].(sortOrder := Some(v)) else images[k])
  }

  /** `update images set url = u where id = x`. */
  function WithUrl(images: seq<Image>, id: Uuid, url: string): (r: seq<Image>)
    ensures |r| == |images|
    ensures forall k :: 0 <= k < |r| ==> r[k] == if images[k].id == id then images[k].(url := url) else images[k]
  {
    seq(|images|, k requires 0 <= k < |images| =>
      if images[k].id == id then images[k].(url := url) else images[k])
  }

  /** The last position of x in ids. */
  function LastIndexOf(ids: seq<Uuid>, x: Uuid): (i: nat)
    requires x in ids
    ensures i < |ids| && ids[i] == x
    ensures forall j :: i < j < |ids| ==> ids[j] != x
  {
    if ids[|ids| - 1] == x then |ids| - 1
    else
      assert x in ids[..|ids| - 1] by {
        var j :| 0 <= j < |ids| && ids[j] == x;
        assert ids[..|ids| - 1][j] == x;
      }
      LastIndexOf(ids[..|ids| - 1], x)
  }

  /**
   * The sort order a row ends up with after `reorderImages(_, ids)`: a listed row gets its last
   * position in the list plus one; a row not listed keeps its sort order. Project membership is not
   * consulted.
   */
  function Reassigned(img: Image, ids: seq<Uuid>): (r: Image)
  {
    if img.id in ids then img.(sortOrder := Some(LastIndexOf(ids, img.id) + 1)) else img
  }

  /** The table after `reorderImages(_, ids)`. */
  function Reordered(images: seq<Image>, ids: seq<Uuid>): (r: seq<Image>)
    ensures |r| == |images|
  {
    seq(|images|, k requires 0 <= k < |images| => Reassigned(images[k], ids))
  }

  /** One more iteration of the loop: updating the next id extends the list the table reflects. */
  lemma ReorderedStep(images: seq<Image>, ids: seq<Uuid>, x: Uuid)
    ensures Reordered(images, ids + [x]) == WithSortOrder(Reordered(images, ids), x, |ids| + 1)
  {
    var ids' := ids + [x];
    forall k | 0 <= k < |images|
      ensures Reassigned(images[k], ids') == WithSortOrder(Reordered(images, ids), x, |ids| + 1)[k]
    {
      var img := images[k];
      if img.id == x {
        assert LastIndexOf(ids', x) == |ids|;
      } else if img.id in ids {
        assert img.id in ids';
        var i := LastIndexOf(ids', img.id);
        assert i < |ids|;
        assert ids'[..|ids'| - 1] == ids;
        assert LastIndexOf(ids, img.id) == i;
      } else {
        assert img.id !in ids';
      }
    }
  }

  /** After reordering by a list of distinct ids, the row with id `ids[i]` has sort order i + 1. */
  lemma {:induction false} ReorderedPositions(images: seq<Image>, ids: seq<Uuid>, i: nat, k: nat)
    requires forall a, b :: 0 <= a < b < |ids| ==> ids[a] != ids[b]
    requires i < |ids| && k < |images| && images[k].id == ids[i]
    ensures Reordered(images, ids)[k].sortOrder == Some(i + 1)
  {
    assert LastIndexOf(ids, ids[i]) == i;
  }

  /** Reordering leaves unlisted rows as they were, and changes nothing but `sortOrder` in listed ones. */
  lemma {:induction false} ReorderedFrame(images: seq<Image>, ids: seq<Uuid>, k: nat)
    requires k < |images|
    ensures images[k].id !in ids ==> Reordered(images, ids)[k] == images[k]
    ensures Reordered(images, ids)[k] == images[k].(sortOrder := Reordered(images, ids)[k].sortOrder)
  {
  }

  /** Applying the same list twice gives the same table as applying it once. */
  lemma {:induction false} ReorderedIdempotent(images: seq<Image>, ids: seq<Uuid>)
    ensures Reordered(Reordered(images, ids), ids) == Reordered(images, ids)
  {
    var once := Reordered(images, ids);
    forall k | 0 <= k < |images| ensures Reordered(once, ids)[k] == once[k] {
      assert once[k].id == images[k].id;
    }
  }

  /** The first row's id does not recur, and the rest is unique too. */
  lemma UniqueTail(images: seq<Image>)
    requires IdsUnique(images) && images != []
    ensures IdsUnique(images[1..])
    ensures forall x :: x in images[1..] ==> x.id != images[0].id
  {
    forall x | x in images[1..] ensures x.id != images[0].id {
      var k :| 0 <= k < |images[1..]| && images[1..][k] == x;
      assert images[k + 1] == x;
    }
  }

  lemma UniqueCons(x: Image, rest: seq<Image>)
    requires IdsUnique(rest)
    requires forall y :: y in rest ==> y.id != x.id
    ensures IdsUnique([x] + rest)
  {
    var s := [x] + rest;
    forall i, j | 0 <= i < j < |s| ensures s[i].id != s[j].id {
      if i == 0 {
        assert s[j] == rest[j - 1];
      } else {
        assert s[i] == rest[i - 1] && s[j] == rest[j - 1];
      }
    }
  }

  /** Deleting rows by id keeps ids unique. */
  lemma {:induction false} WithoutImageUnique(images: seq<Image>, id: Uuid)
    requires IdsUnique(images)
    ensures IdsUnique(WithoutImage(images, id))
  {
    if images != [] {
      UniqueTail(images);
      WithoutImageUnique(images[1..], id);
      if images[0].id != id {
        UniqueCons(images[0], WithoutImage(images[1..], id));
      }
    }
  }

  /** Deleting rows by project keeps ids unique. */
  lemma {:induction false} WithoutProjectImagesUnique(images: seq<Image>, projectId: Uuid)
    requires IdsUnique(images)
    ensures IdsUnique(WithoutProjectImages(images, projectId))
  {
    if images != [] {
      UniqueTail(images);
      WithoutProjectImagesUnique(images[1..], projectId);
      if images[0].projectId != projectId {
        UniqueCons(images[0], WithoutProjectImages(images[1..], projectId));
      }
    }
  }

  /** Inserting a row with a fresh id keeps ids unique. */
  lemma AppendUnique(images: seq<Image>, row: Image)
    requires IdsUnique(images) && !HasImage(images, row.id)
    ensures IdsUnique(images + [row])
  {
    var s := images + [row];
    forall i, j | 0 <= i < j < |s| ensures s[i].id != s[j].id {
      assert s[i] == images[i];
      if j < |images| {
        assert s[j] == images[j];
      } else {
        assert images[i] in images;
      }
    }
  }

  /** Two tables whose rows agree, position by position, on id and project. */
  predicate SameKeys(a: seq<Image>, b: seq<Image>)
  {
    |a| == |b| && forall k :: 0 <= k < |a| ==> a[k].id == b[k].id && a[k].projectId == b[k].projectId
  }

  /** An update that leaves ids and projects alone keeps every referential constraint. */
  lemma SameKeysConstraints(projects: map<Uuid, Project>, a: seq<Image>, b: seq<Image>)
    requires SameKeys(a, b)
    ensures IdsUnique(a) ==> IdsUnique(b)
    ensures ImageProjectsExist(a, projects) ==> ImageProjectsExist(b, projects)
    ensures CoversExist(projects, a) ==> CoversExist(projects, b)
    ensures CoversInOwnProject(projects, a) ==> CoversInOwnProject(projects, b)
  {
    assert forall x :: x in b ==> exists k :: 0 <= k < |a| && a[k].id == x.id && a[k].projectId == x.projectId && a[k] in a;
    forall id | HasImage(a, id) ensures HasImage(b, id) {
      var x :| x in a && x.id == id;
      var k :| 0 <= k < |a| && a[k] == x;
      assert b[k] in b;
    }
  }

  lemma WithSortOrderKeys(images: seq<Image>, id: Uuid, v: int)
    ensures SameKeys(images, WithSortOrder(images, id, v))
  {
  }

  /** The value-level form of an update that keeps ids and projects: the store stays consistent. */
  lemma SameKeysKeep(users: map<Uuid, User>, projects: map<Uuid, Project>, a: seq<Image>, b: seq<Image>)
    requires SameKeys(a, b) && Consistent(users, projects, a)
    ensures Consistent(users, projects, b)
    ensures CoversInOwnProject(projects, a) ==> CoversInOwnProject(projects, b)
  {
    SameKeysConstraints(projects, a, b);
  }

  lemma WithUrlKeys(images: seq<Image>, id: Uuid, url: string)
    ensures SameKeys(images, WithUrl(images, id, url))
  {
  }

  /** One of these rows is some project's cover: deleting them together violates the cover reference. */
  predicate CoverAmong(projects: map<Uuid, Project>, rows: seq<Image>)
  {
    exists x :: x in rows && IsCover(projects, x.id)
  }

  /** Inserting a row with a fresh id into an existing project keeps every constraint. */
  lemma InsertKeeps(users: map<Uuid, User>, projects: map<Uuid, Project>, images: seq<Image>, row: Image)
    requires Consistent(users, projects, images)
    requires !HasImage(images, row.id) && row.projectId in projects
    ensures Consistent(users, projects, images + [row])
    ensures CoversInOwnProject(projects, images) ==> CoversInOwnProject(projects, images + [row])
  {
    AppendUnique(images, row);
    assert forall x :: x in images + [row] <==> x in images || x == row;
    forall p | p in projects && projects[p].coverImageId.Some? && CoversInOwnProject(projects, images)
      ensures projects[p].coverImageId != Some(row.id)
    {
    }
  }

  /** Deleting an image that is no project's cover keeps every constraint. */
  lemma DeleteImageKeeps(users: map<Uuid, User>, projects: map<Uuid, Project>, images: seq<Image>, id: Uuid)
    requires Consistent(users, projects, images)
    requires !IsCover(projects, id)
    ensures Consistent(users, projects, WithoutImage(images, id))
    ensures CoversInOwnProject(projects, images) ==> CoversInOwnProject(projects, WithoutImage(images, id))
  {
    WithoutImageUnique(images, id);
    var r := WithoutImage(images, id);
    forall p | p in projects && projects[p].coverImageId.Some?
      ensures HasImage(r, projects[p].coverImageId.value)
    {
      var x :| x in images && x.id == projects[p].coverImageId.value;
      assert x in r;
    }
  }

  /** Deleting a cover image would leave its project's cover dangling: the cover reference refuses it. */
  lemma DeleteCoverRefused(projects: map<Uuid, Project>, images: seq<Image>, id: Uuid)
    requires IsCover(projects, id)
    ensures !CoversExist(projects, WithoutImage(images, id))
  {
    var p :| p in projects && projects[p].coverImageId == Some(id);
    assert !HasImage(WithoutImage(images, id), projects[p].coverImageId.value);
  }

  /** Deleting a project's rows when one of them is a cover would leave that cover dangling. */
  lemma DeleteProjectCoverRefused(projects: map<Uuid, Project>, images: seq<Image>, projectId: Uuid)
    requires IdsUnique(images) && CoverAmong(projects, ProjectRows(images, projectId))
    ensures !CoversExist(projects, WithoutProjectImages(images, projectId))
  {
    var rest := WithoutProjectImages(images, projectId);
    var x :| x in ProjectRows(images, projectId) && IsCover(projects, x.id);
    var p :| p in projects && projects[p].coverImageId == Some(x.id);
    forall y | y in rest ensures y.id != x.id {
      var i :| 0 <= i < |images| && images[i] == x;
      var j :| 0 <= j < |images| && images[j] == y;
      assert images[i].projectId != images[j].projectId;
    }
    assert !HasImage(rest, projects[p].coverImageId.value);
  }

  /**
   * Deleting a project and its rows keeps every constraint, provided none of the rows is a cover
   * (of that project or of another).
   */
  lemma DeleteProjectKeeps(users: map<Uuid, User>, projects: map<Uuid, Project>, images: seq<Image>, projectId: Uuid)
    requires Consistent(users, projects, images)
    requires !CoverAmong(projects, ProjectRows(images, projectId))
    ensures Consistent(users, projects - {projectId}, WithoutProjectImages(images, projectId))
    ensures CoversInOwnProject(projects, images) ==>
              CoversInOwnProject(projects - {projectId}, WithoutProjectImages(images, projectId))
  {
    WithoutProjectImagesUnique(images, projectId);
    var r := WithoutProjectImages(images, projectId);
    var rest := projects - {projectId};
    forall p | p in rest && rest[p].coverImageId.Some?
      ensures HasImage(r, rest[p].coverImageId.value)
    {
      var x :| x in images && x.id == rest[p].coverImageId.value;
      assert IsCover(projects, x.id);
      assert x !in ProjectRows(images, projectId);
      assert x in r;
    }
    forall x | x in r ensures x.projectId in rest {
    }
  }

  /** Naming an existing row as a project's cover keeps every constraint; a row of that project keeps the design rule. */
  lemma SetCoverKeeps(users: map<Uuid, User>, projects: map<Uuid, Project>, images: seq<Image>, projectId: Uuid, image: Image)
    requires Consistent(users, projects, images)
    requires projectId in projects && image in images
    ensures Consistent(users, projects[projectId := projects[projectId].(coverImageId := Some(image.id))], images)
    ensures CoversInOwnProject(projects, images) && image.projectId == projectId ==>
              CoversInOwnProject(projects[projectId := projects[projectId].(coverImageId := Some(image.id))], images)
  {
    var q := projects[projectId := projects[projectId].(coverImageId := Some(image.id))];
    forall x | x in images && x.id == image.id ensures x == image {
      var i :| 0 <= i < |images| && images[i] == x;
      var j :| 0 <= j < |images| && images[j] == image;
      assert i == j;
    }
  }

  /** Clearing a project's cover keeps every constraint and the design rule. */
  lemma ClearCoverKeeps(users: map<Uuid, User>, projects: map<Uuid, Project>, images: seq<Image>, projectId: Uuid)
    requires Consistent(users, projects, images)
    requires projectId in projects
    ensures Consistent(users, projects[projectId := projects[projectId].(coverImageId := None)], images)
    ensures CoversInOwnProject(projects, images) ==>
              CoversInOwnProject(projects[projectId := projects[projectId].(coverImageId := None)], images)
  {
  }

  /** Reordering touches sort orders only. */
  lemma ReorderedKeys(images: seq<Image>, ids: seq<Uuid>)
    ensures SameKeys(images, Reordered(images, ids))
  {
    forall k | 0 <= k < |images| ensures Reordered(images, ids)[k].id == images[k].id {
      ReorderedFrame(images, ids, k);
    }
  }
}
