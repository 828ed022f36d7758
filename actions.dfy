/**
 * The server actions on projects and images, as operations of one object that owns the store's
 * tables. Each action first identifies the signed-in user and checks that the user owns the
 * project, then issues its table statements; requests it sends to the internal upload and rotate
 * routes are recorded, in order, in `requests`.
 */
module Actions {
  import opened Wrappers
  import opened Text
  import opened Http
  import opened Schema
  import opened AssetIndex
  import BlobKeys
  import RotateRoute

  datatype ActionError =
    | Unauthorized
    | ProjectNotFound
    | ImageNotFound
    | ServerText(text: string)          // the rotate route answered with something other than JSON
    | Upstream(message: string)         // the rotate route answered with an error status
    | InvalidRotateReply                // an ok answer without `success` and `newUrl`
    | DeleteImageFailed                 // a statement of `deleteImage` threw
    | DeleteProjectFailed               // a statement of `deleteProject` threw
    | Internal                          // an exception caught by `rotateAndSaveImage`

  /** The `error` string each outcome carries. */
  function Message(e: ActionError): (m: string)
    ensures e.Upstream? ==> m == e.message
    ensures !e.Upstream? ==> m != ""
  {
    match e
    case Unauthorized => "Não autorizado"
    case ProjectNotFound => "Projeto não encontrado"
    case ImageNotFound => "Imagem não encontrada"
    case ServerText(text) => "Erro no servidor: " + text
    case Upstream(message) => message
    case InvalidRotateReply => "Resposta inválida da API de rotação"
    case DeleteImageFailed => "Erro ao deletar imagem"
    case DeleteProjectFailed => "Erro ao deletar projeto"
    case Internal => "Erro interno: "
  }

  datatype ActionResult = Done | Rotated(newUrl: string) | Failed(error: ActionError)

  /** A request an action sends to an internal route. */
  datatype RouteRequest =
    | DeleteFile(projectId: Uuid, fileName: string)   // DELETE /api/upload with a form
    | RotateFile(imageUrl: string, rotation: int)     // POST /api/rotate-image with a JSON body

  /** What `rotateAndSaveImage` makes of the rotate route's answer: the new URL to store, or the error to return. */
  datatype Decision = Accept(newUrl: string) | Reject(error: ActionError)

  function RotateDecision(answer: RotateRoute.RotateAnswer): (d: Decision)
    ensures d.Accept? <==>
              && answer.Answer? && answer.isJson && answer.json.Some? && IsOk(answer.status)
              && answer.json.value.success && Present(answer.json.value.newUrl)
    ensures d.Accept? ==> d.newUrl == answer.json.value.newUrl.value
    ensures answer.Answer? && !answer.isJson ==> d == Reject(ServerText(answer.text))
    ensures d.Reject? ==> Message(d.error) != ""
    ensures answer.Answer? && answer.isJson && answer.json.Some? && !IsOk(answer.status) ==>
              d == Reject(Upstream(if Present(answer.json.value.error) then answer.json.value.error.value
                                   else "Erro HTTP " + NatToString(answer.status)))
  {
    match answer
    case AnswerThrew => Reject(Internal)
    case Answer(status, isJson, json, text) =>
      if !isJson then Reject(ServerText(text))
      else if json.None? then Reject(Internal)
      else if !IsOk(status) then
        Reject(Upstream(if Present(json.value.error) then json.value.error.value else "Erro HTTP " + NatToString(status)))
      else if !json.value.success || !Present(json.value.newUrl) then Reject(InvalidRotateReply)
      else Accept(json.value.newUrl.value)
  }

  /** The delete request `deleteImage` sends for an image: none when its URL yields no file name. */
  function DeleteRequestFor(img: Image): (r: seq<RouteRequest>)
    ensures |r| <= 1
    ensures r != [] <==> BlobKeys.FileNameOfUrl(img.url).Some? && BlobKeys.FileNameOfUrl(img.url).value != ""
    ensures r != [] ==> r == [DeleteFile(img.projectId, BlobKeys.FileNameOfUrl(img.url).value)]
  {
    match BlobKeys.FileNameOfUrl(img.url)
    case None => []
    case Some(fileName) => if fileName != "" then [DeleteFile(img.projectId, fileName)] else []
  }

  /**
   * The delete requests `deleteProject` sends for the project's rows, in order: one per row whose URL
   * parses, even when the file name is empty; a row whose URL does not parse is skipped.
   */
  function CascadeRequests(rows: seq<Image>, projectId: Uuid): (r: seq<RouteRequest>)
  {
    if rows == [] then []
    else CascadeRequests(rows[..|rows| - 1], projectId) + CascadeRequest(rows[|rows| - 1], projectId)
  }

  /** The request `deleteProject` sends for one row. */
  function CascadeRequest(img: Image, projectId: Uuid): (r: seq<RouteRequest>)
    ensures r == [] <==> BlobKeys.FileNameOfUrl(img.url).None?
    ensures r != [] ==> r == [DeleteFile(projectId, BlobKeys.FileNameOfUrl(img.url).value)]
  {
    match BlobKeys.FileNameOfUrl(img.url)
    case None => []
    case Some(fileName) => [DeleteFile(projectId, fileName)]
  }

  lemma CascadeStep(rows: seq<Image>, projectId: Uuid, i: nat)
    requires i < |rows|
    ensures CascadeRequests(rows[..i + 1], projectId) == CascadeRequests(rows[..i], projectId) + CascadeRequest(rows[i], projectId)
  {
    assert rows[..i + 1][..i] == rows[..i];
  }

  /** The cascade only deletes files, all in the project's folder, and at most one per row. */
  lemma {:induction false} CascadeRequestsShape(rows: seq<Image>, projectId: Uuid)
    ensures |CascadeRequests(rows, projectId)| <= |rows|
    ensures forall q :: q in CascadeRequests(rows, projectId) ==> q.DeleteFile? && q.projectId == projectId
    decreases |rows|
  {
    if rows != [] {
      CascadeRequestsShape(rows[..|rows| - 1], projectId);
    }
  }

  /** When every URL parses, there is one cascade request per row. */
  lemma {:induction false} CascadeRequestsLength(rows: seq<Image>, projectId: Uuid)
    requires forall k :: 0 <= k < |rows| ==> BlobKeys.FileNameOfUrl(rows[k].url).Some?
    ensures |CascadeRequests(rows, projectId)| == |rows|
    decreases |rows|
  {
    if rows != [] {
      var front := rows[..|rows| - 1];
      assert forall k :: 0 <= k < |front| ==> front[k] == rows[k];
      CascadeRequestsLength(front, projectId);
    }
  }

  /** One cascade request per row, in row order, when every URL parses. */
  lemma {:induction false} CascadeRequestsAt(rows: seq<Image>, projectId: Uuid, i: nat)
    requires forall k :: 0 <= k < |rows| ==> BlobKeys.FileNameOfUrl(rows[k].url).Some?
    requires i < |rows|
    ensures |CascadeRequests(rows, projectId)| == |rows|
    ensures CascadeRequests(rows, projectId)[i] == DeleteFile(projectId, BlobKeys.FileNameOfUrl(rows[i].url).value)
    decreases |rows|
  {
    CascadeRequestsLength(rows, projectId);
    if i < |rows| - 1 {
      var front := rows[..|rows| - 1];
      assert front[i] == rows[i];
      CascadeRequestsAt(front, projectId, i);
    }
  }

  /** The row `saveImageUrl` inserts: sort order one past the project's largest, null counted as 0. */
  function NewRow(images: seq<Image>, projectId: Uuid, url: string, newId: Uuid, now: int): (row: Image)
    ensures row.id == newId && row.url == url && row.projectId == projectId && row.createdAt == Some(now)
    ensures row.sortOrder.Some? && row.sortOrder.value >= 1
    ensures forall x :: x in images && x.projectId == projectId && x.sortOrder.Some? ==> x.sortOrder.value < row.sortOrder.value
    ensures row.sortOrder.value == 1
            || exists x :: x in images && x.projectId == projectId && x.sortOrder == Some(row.sortOrder.value - 1)
  {
    var rows := ProjectRows(images, projectId);
    var m := MaxSortOrder(rows);
    assert m == 0 || exists x :: x in images && x.projectId == projectId && x.sortOrder == Some(m) by {
      if m != 0 {
        var i :| 0 <= i < |rows| && rows[i].sortOrder == Some(m);
        assert rows[i] in rows;
      }
    }
    NewImage(newId, url, projectId, Given(Some(m + 1)), now)
  }

  class AssetStore {
    var users: map<Uuid, User>
    var projects: map<Uuid, Project>
    var images: seq<Image>
    /** Requests sent to the internal routes, oldest first. */
    var requests: seq<RouteRequest>

    /** The tables satisfy every constraint the schema declares; the store refuses statements that would break one. */
    ghost predicate Valid()
      reads this
    {
      Consistent(users, projects, images)
    }

    constructor (users: map<Uuid, User>, projects: map<Uuid, Project>, images: seq<Image>)
      requires Consistent(users, projects, images)
      ensures Valid()
      ensures this.users == users && this.projects == projects && this.images == images && requests == []
    {
      this.users := users;
      this.projects := projects;
      this.images := images;
      requests := [];
    }

    /** `getUser`: the user whose id the session cookie holds; an absent or empty cookie means no user. */
    function GetUser(session: Option<Uuid>): (u: Option<User>)
      reads this
      ensures u.Some? <==> Present(session) && session.value in users
      ensures u.Some? ==> u.value == users[session.value]
    {
      if !Present(session) then None
      else if session.value in users then Some(users[session.value])
      else None
    }

    /** `getProject`: the project, only when a user is signed in and owns it. */
    function GetProject(session: Option<Uuid>, projectId: Uuid): (p: Option<Project>)
      reads this
      ensures p.Some? <==> && GetUser(session).Some? && projectId in projects
                           && projects[projectId].userId == GetUser(session).value.id
      ensures p.Some? ==> p.value == projects[projectId]
    {
      match GetUser(session)
      case None => None
      case Some(user) =>
        if projectId !in projects || projects[projectId].userId != user.id then None
        else Some(projects[projectId])
    }

    /** `getProjectImages` (no ownership check): the project's rows, ordered. */
    function GetProjectImages(projectId: Uuid): (r: seq<Image>)
      reads this
      ensures Sorted(r)
      ensures multiset(r) == multiset(ProjectRows(images, projectId))
      ensures forall x :: x in r <==> x in images && x.projectId == projectId
    {
      ProjectImages(images, projectId)
    }

    /** `getCoverImage`: the cover row of an owned project, when one is set and exists. */
    function GetCoverImage(session: Option<Uuid>, projectId: Uuid): (r: Option<Image>)
      reads this
      ensures r.Some? <==> && GetProject(session, projectId).Some? && Present(projects[projectId].coverImageId)
                           && HasImage(images, projects[projectId].coverImageId.value)
      ensures r.Some? ==> r.value in images && Some(r.value.id) == projects[projectId].coverImageId
    {
      match GetProject(session, projectId)
      case None => None
      case Some(project) =>
        if !Present(project.coverImageId) then None
        else FindImage(images, project.coverImageId.value)
    }

    /**
     * `saveImageUrl`: insert a row for an uploaded URL, after the project's other rows in sort order.
     * `newId` and `now` are the defaults the store generates; the id is fresh.
     */
    method SaveImageUrl(session: Option<Uuid>, projectId: Uuid, url: string, newId: Uuid, now: int)
      returns (r: ActionResult)
      requires Valid()
      requires !HasImage(images, newId)
      modifies this
      ensures Valid()
      ensures old(CoversInOwnProject(projects, images)) ==> CoversInOwnProject(projects, images)
      ensures users == old(users) && projects == old(projects) && requests == old(requests)
      ensures old(GetUser(session)).None? ==> r == Failed(Unauthorized)
      ensures old(GetUser(session)).Some? && old(GetProject(session, projectId)).None? ==> r == Failed(ProjectNotFound)
      ensures r == Done <==> old(GetProject(session, projectId)).Some?
      ensures r.Done? ==> images == old(images) + [NewRow(old(images), projectId, url, newId, now)]
      ensures !r.Done? ==> images == old(images)
    {
      if GetUser(session).None? {
        return Failed(Unauthorized);
      }
      if GetProject(session, projectId).None? {
        return Failed(ProjectNotFound);
      }
      var row := NewRow(images, projectId, url, newId, now);
      InsertKeeps(users, projects, images, row);
      images := images + [row];
      r := Done;
    }

    /**
     * `deleteImage`: ask the delete route to remove the blob (its outcome does not matter), then
     * delete the row. The cover reference refuses the delete when the image is some project's
     * cover; the action then reports an error, after the blob request has gone out.
     */
    method DeleteImage(session: Option<Uuid>, imageId: Uuid) returns (r: ActionResult)
      requires Valid()
      modifies this
      ensures Valid()
      ensures old(CoversInOwnProject(projects, images)) ==> CoversInOwnProject(projects, images)
      ensures users == old(users) && projects == old(projects)
      ensures old(GetUser(session)).None? ==> r == Failed(Unauthorized)
      ensures old(GetUser(session)).Some? && !old(HasImage(images, imageId)) ==> r == Failed(ImageNotFound)
      ensures var asked := && old(GetUser(session)).Some? && old(HasImage(images, imageId))
                           && old(GetProject(session, FindImage(images, imageId).value.projectId)).Some?;
              && (asked ==> requests == old(requests) + DeleteRequestFor(old(FindImage(images, imageId)).value))
              && (!asked ==> requests == old(requests))
              && (old(GetUser(session)).Some? && old(HasImage(images, imageId)) && !asked ==> r == Failed(ProjectNotFound))
              && (r == Done <==> asked && !old(IsCover(projects, imageId)))
              && (asked && old(IsCover(projects, imageId)) ==> r == Failed(DeleteImageFailed))
      ensures r.Done? ==> images == WithoutImage(old(images), imageId)
      ensures !r.Done? ==> images == old(images)
    {
      if GetUser(session).None? {
        return Failed(Unauthorized);
      }
      var found := FindImage(images, imageId);
      if found.None? {
        return Failed(ImageNotFound);
      }
      var image := found.value;
      if GetProject(session, image.projectId).None? {
        return Failed(ProjectNotFound);
      }
      requests := requests + DeleteRequestFor(image);
      if IsCover(projects, imageId) {
        return Failed(DeleteImageFailed);
      }
      DeleteImageKeeps(users, projects, images, imageId);
      images := WithoutImage(images, imageId);
      r := Done;
    }

    /**
     * `deleteProject`: ask the delete route to remove each of the project's blobs (a failing request
     * does not stop the loop), then delete the project's rows and the project. The cover reference
     * refuses the row delete when one of the rows is a cover, which includes the project's own cover.
     */
    method DeleteProject(session: Option<Uuid>, projectId: Uuid) returns (r: ActionResult)
      requires Valid()
      modifies this
      ensures Valid()
      ensures old(CoversInOwnProject(projects, images)) ==> CoversInOwnProject(projects, images)
      ensures users == old(users)
      ensures old(GetUser(session)).None? ==> r == Failed(Unauthorized)
      ensures old(GetUser(session)).Some? && old(GetProject(session, projectId)).None? ==> r == Failed(ProjectNotFound)
      ensures old(GetProject(session, projectId)).Some? ==>
                requests == old(requests) + CascadeRequests(ProjectRows(old(images), projectId), projectId)
      ensures old(GetProject(session, projectId)).None? ==> requests == old(requests)
      ensures r == Done <==> old(GetProject(session, projectId)).Some?
                             && !old(CoverAmong(projects, ProjectRows(images, projectId)))
      ensures old(GetProject(session, projectId)).Some? && !r.Done? ==> r == Failed(DeleteProjectFailed)
      ensures r.Done? ==> images == WithoutProjectImages(old(images), projectId) && projects == old(projects) - {projectId}
      ensures !r.Done? ==> images == old(images) && projects == old(projects)
    {
      if GetUser(session).None? {
        return Failed(Unauthorized);
      }
      if GetProject(session, projectId).None? {
        return Failed(ProjectNotFound);
      }
      var projectImages := ProjectRows(images, projectId);
      RequestBlobDeletes(projectImages, projectId);
      if CoverAmong(projects, projectImages) {
        return Failed(DeleteProjectFailed);
      }
      DeleteProjectKeeps(users, projects, images, projectId);
      images := WithoutProjectImages(images, projectId);
      projects := projects - {projectId};
      r := Done;
    }

    /**
     * The loop of `deleteProject`: one delete request per row whose URL parses, in row order; a row
     * whose URL does not parse is skipped, and a failing request does not stop the loop.
     */
    method RequestBlobDeletes(rows: seq<Image>, projectId: Uuid)
      modifies this
      ensures requests == old(requests) + CascadeRequests(rows, projectId)
      ensures users == old(users) && projects == old(projects) && images == old(images)
    {
      for i := 0 to |rows|
        invariant requests == old(requests) + CascadeRequests(rows[..i], projectId)
        invariant users == old(users) && projects == old(projects) && images == old(images)
      {
        CascadeStep(rows, projectId, i);
        RequestBlobDelete(rows[i], projectId);
        assert old(requests) + CascadeRequests(rows[..i + 1], projectId)
            == (old(requests) + CascadeRequests(rows[..i], projectId)) + CascadeRequest(rows[i], projectId);
      }
      assert rows[..|rows|] == rows;
    }

    /** One pass of the cascade loop: a DELETE request for the row's file, or none when its URL does not parse. */
    method RequestBlobDelete(img: Image, projectId: Uuid)
      modifies this
      ensures requests == old(requests) + CascadeRequest(img, projectId)
      ensures users == old(users) && projects == old(projects) && images == old(images)
    {
      match BlobKeys.FileNameOfUrl(img.url)
      case None =>
        assert old(requests) + [] == old(requests);
      case Some(fileName) =>
        requests := requests + [DeleteFile(projectId, fileName)];
    }

    /** `setCoverImage`: make an image of the project its cover. */
    method SetCoverImage(session: Option<Uuid>, projectId: Uuid, imageId: Uuid) returns (r: ActionResult)
      requires Valid()
      modifies this
      ensures Valid()
      ensures old(CoversInOwnProject(projects, images)) ==> CoversInOwnProject(projects, images)
      ensures users == old(users) && images == old(images) && requests == old(requests)
      ensures old(GetUser(session)).None? ==> r == Failed(Unauthorized)
      ensures old(GetUser(session)).Some? && old(GetProject(session, projectId)).None? ==> r == Failed(ProjectNotFound)
      ensures var found := old(FindImage(images, imageId));
              && (old(GetProject(session, projectId)).Some? && (found.None? || found.value.projectId != projectId)
                  ==> r == Failed(ImageNotFound))
              && (r == Done <==> old(GetProject(session, projectId)).Some? && found.Some? && found.value.projectId == projectId)
      ensures r.Done? ==> projects == old(projects)[projectId := old(projects)[projectId].(coverImageId := Some(imageId))]
      ensures !r.Done? ==> projects == old(projects)
    {
      if GetUser(session).None? {
        return Failed(Unauthorized);
      }
      var project := GetProject(session, projectId);
      if project.None? {
        return Failed(ProjectNotFound);
      }
      var image := FindImage(images, imageId);
      if image.None? || image.value.projectId != projectId {
        return Failed(ImageNotFound);
      }
      SetCoverKeeps(users, projects, images, projectId, image.value);
      projects := projects[projectId := project.value.(coverImageId := Some(imageId))];
      r := Done;
    }

    /** `removeCoverImage`: clear the project's cover. */
    method RemoveCoverImage(session: Option<Uuid>, projectId: Uuid) returns (r: ActionResult)
      requires Valid()
      modifies this
      ensures Valid()
      ensures old(CoversInOwnProject(projects, images)) ==> CoversInOwnProject(projects, images)
      ensures users == old(users) && images == old(images) && requests == old(requests)
      ensures old(GetUser(session)).None? ==> r == Failed(Unauthorized)
      ensures old(GetUser(session)).Some? && old(GetProject(session, projectId)).None? ==> r == Failed(ProjectNotFound)
      ensures r == Done <==> old(GetProject(session, projectId)).Some?
      ensures r.Done? ==> projects == old(projects)[projectId := old(projects)[projectId].(coverImageId := None)]
      ensures !r.Done? ==> projects == old(projects)
    {
      if GetUser(session).None? {
        return Failed(Unauthorized);
      }
      var project := GetProject(session, projectId);
      if project.None? {
        return Failed(ProjectNotFound);
      }
      ClearCoverKeeps(users, projects, images, projectId);
      projects := projects[projectId := project.value.(coverImageId := None)];
      r := Done;
    }

    /**
     * `reorderImages`: one update per position, giving `imageIds[i]` sort order i + 1. The ids are
     * neither checked against the project nor required to be distinct or complete.
     */
    method ReorderImages(session: Option<Uuid>, projectId: Uuid, imageIds: seq<Uuid>) returns (r: ActionResult)
      requires Valid()
      modifies this
      ensures Valid()
      ensures old(CoversInOwnProject(projects, images)) ==> CoversInOwnProject(projects, images)
      ensures users == old(users) && projects == old(projects) && requests == old(requests)
      ensures old(GetUser(session)).None? ==> r == Failed(Unauthorized)
      ensures old(GetUser(session)).Some? && old(GetProject(session, projectId)).None? ==> r == Failed(ProjectNotFound)
      ensures r == Done <==> old(GetProject(session, projectId)).Some?
      ensures r.Done? ==> images == Reordered(old(images), imageIds)
      ensures !r.Done? ==> images == old(images)
    {
      if GetUser(session).None? {
        return Failed(Unauthorized);
      }
      if GetProject(session, projectId).None? {
        return Failed(ProjectNotFound);
      }
      for i := 0 to |imageIds|
        invariant images == Reordered(old(images), imageIds[..i])
        invariant users == old(users) && projects == old(projects) && requests == old(requests)
      {
        assert imageIds[..i + 1] == imageIds[..i] + [imageIds[i]];
        ReorderedStep(old(images), imageIds[..i], imageIds[i]);
        images := WithSortOrder(images, imageIds[i], i + 1);
      }
      assert imageIds[..|imageIds|] == imageIds;
      ReorderedKeys(old(images), imageIds);
      SameKeysKeep(users, projects, old(images), images);
      r := Done;
    }

    /**
     * `rotateAndSaveImage`: ask the rotate route for a rotated copy, and store its URL when the answer
     * is ok JSON carrying `success` and `newUrl`. `answer` is the route's response.
     */
    method RotateAndSaveImage(session: Option<Uuid>, imageId: Uuid, rotation: int, answer: RotateRoute.RotateAnswer)
      returns (r: ActionResult)
      requires Valid()
      modifies this
      ensures Valid()
      ensures old(CoversInOwnProject(projects, images)) ==> CoversInOwnProject(projects, images)
      ensures users == old(users) && projects == old(projects)
      ensures old(GetUser(session)).None? ==> r == Failed(Unauthorized)
      ensures old(GetUser(session)).Some? && !old(HasImage(images, imageId)) ==> r == Failed(ImageNotFound)
      ensures var asked := && old(GetUser(session)).Some? && old(HasImage(images, imageId))
                           && old(GetProject(session, FindImage(images, imageId).value.projectId)).Some?;
              && (asked ==> requests == old(requests) + [RotateFile(old(FindImage(images, imageId)).value.url, rotation)])
              && (!asked ==> requests == old(requests))
              && (old(GetUser(session)).Some? && old(HasImage(images, imageId)) && !asked ==> r == Failed(ProjectNotFound))
              && (asked && RotateDecision(answer).Reject? ==> r == Failed(RotateDecision(answer).error))
              && (r.Rotated? <==> asked && RotateDecision(answer).Accept?)
      ensures r.Rotated? ==> r.newUrl == RotateDecision(answer).newUrl && images == WithUrl(old(images), imageId, r.newUrl)
      ensures !r.Rotated? ==> images == old(images)
    {
      if GetUser(session).None? {
        return Failed(Unauthorized);
      }
      var found := FindImage(images, imageId);
      if found.None? {
        return Failed(ImageNotFound);
      }
      var image := found.value;
      if GetProject(session, image.projectId).None? {
        return Failed(ProjectNotFound);
      }
      requests := requests + [RotateFile(image.url, rotation)];
      match RotateDecision(answer)
      case Reject(error) =>
        r := Failed(error);
      case Accept(newUrl) =>
        WithUrlKeys(images, imageId, newUrl);
        SameKeysKeep(users, projects, images, WithUrl(images, imageId, newUrl));
        images := WithUrl(images, imageId, newUrl);
        r := Rotated(newUrl);
    }
  }

  /** Deleting the same image twice: once the first call has removed the row, the second finds nothing. */
  method DeleteImageTwice(store: AssetStore, session: Option<Uuid>, imageId: Uuid) returns (first: ActionResult, second: ActionResult)
    requires store.Valid()
    modifies store
    ensures store.Valid()
    ensures first.Done? ==> second == Failed(ImageNotFound) && !HasImage(store.images, imageId)
  {
    first := store.DeleteImage(session, imageId);
    second := store.DeleteImage(session, imageId);
  }
}
