/**
 * The request flows that cross components: `rotateAndSaveImage` calling the rotate route, and the
 * delete actions calling the upload route's DELETE. Each flow is the sequence of effects it has on
 * the blob store and on the image table, in the order they happen.
 */
module Flows {
  import opened Wrappers
  import opened Text
  import opened Http
  import opened BlobKeys
  import UploadRoute
  import RotateRoute
  import Actions
  import Schema

  /** An effect of a flow: a blob-store call, or the update that stores an image's new URL. */
  datatype Event = Blob(call: BlobCall) | Commit(imageId: string, url: string)

  function Blobs(calls: seq<BlobCall>): (r: seq<Event>)
    ensures |r| == |calls| && forall i :: 0 <= i < |calls| ==> r[i] == Blob(calls[i])
  {
    if calls == [] then [] else [Blob(calls[0])] + Blobs(calls[1..])
  }

  /** The rotate route's reply to the request `rotateAndSaveImage` sends for the image's URL. */
  function RouteReply(imageUrl: string, rotation: int, download: FetchResult, transformed: bool, timestamp: nat,
                      upload: FetchResult): Handled<RotateRoute.RotateReply>
  {
    RotateRoute.HandlePost(Some(RotateRoute.RotateBody(Some(imageUrl), Some(rotation))), download, transformed,
                           timestamp, upload)
  }

  /**
   * The effects of rotating one image: the route's blob calls, then, when the action accepts the
   * route's answer, the commit of the new URL.
   */
  function RotateEvents(imageId: string, imageUrl: string, rotation: int, download: FetchResult, transformed: bool,
                        timestamp: nat, upload: FetchResult): seq<Event>
  {
    var h := RouteReply(imageUrl, rotation, download, transformed, timestamp, upload);
    Blobs(h.calls) + match Actions.RotateDecision(RotateRoute.Wire(h.reply))
                     case Accept(newUrl) => [Commit(imageId, newUrl)]
                     case Reject(_) => []
  }

  /** The action accepts exactly the route's successful replies, and then stores the URL the route returned. */
  lemma {:induction false} DecisionOfWire(reply: RotateRoute.RotateReply)
    requires reply.RotateFailed? ==> !IsOk(reply.status)
    requires reply.RotateDone? ==> reply.newUrl != ""
    ensures Actions.RotateDecision(RotateRoute.Wire(reply)).Accept? <==> reply.RotateDone?
    ensures reply.RotateDone? ==> Actions.RotateDecision(RotateRoute.Wire(reply)) == Actions.Accept(reply.newUrl)
    ensures reply.RotateFailed? ==>
              Actions.RotateDecision(RotateRoute.Wire(reply)) == Actions.Reject(Actions.Upstream(
                if reply.error != "" then reply.error else "Erro HTTP " + NatToString(reply.status)))
  {
    var a := RotateRoute.Wire(reply);
    if reply.RotateDone? {
      assert IsOk(a.status) && a.json.value.success && Present(a.json.value.newUrl);
    } else {
      assert !IsOk(a.status);
    }
  }

  /** A rotation commits a new URL exactly when the route reports success. */
  lemma {:induction false} CommitIffRouteSucceeded(imageId: string, imageUrl: string, rotation: int,
                                                   download: FetchResult, transformed: bool, timestamp: nat,
                                                   upload: FetchResult)
    ensures var h := RouteReply(imageUrl, rotation, download, transformed, timestamp, upload);
            var events := RotateEvents(imageId, imageUrl, rotation, download, transformed, timestamp, upload);
            && (h.reply.RotateDone? ==> events == Blobs(h.calls) + [Commit(imageId, h.reply.newUrl)])
            && (h.reply.RotateFailed? ==> events == Blobs(h.calls) && forall e :: e in events ==> e.Blob?)
  {
    var h := RouteReply(imageUrl, rotation, download, transformed, timestamp, upload);
    DecisionOfWire(h.reply);
    var events := RotateEvents(imageId, imageUrl, rotation, download, transformed, timestamp, upload);
  }

  /**
   * The old object is deleted before the new URL is committed: whenever a rotation commits, the
   * DELETE of the original's storage key comes earlier in its effects, and the PUT of the rotated
   * object earlier still. Between the two, the image row still names a URL whose object is gone.
   */
  lemma {:induction false} OldBlobDeletedBeforeCommit(imageId: string, imageUrl: string, rotation: int,
                                                      download: FetchResult, transformed: bool, timestamp: nat,
                                                      upload: FetchResult, k: nat)
    requires var events := RotateEvents(imageId, imageUrl, rotation, download, transformed, timestamp, upload);
             k < |events| && events[k].Commit?
    ensures RotateRoute.Target(imageUrl).Some?
    ensures var events := RotateEvents(imageId, imageUrl, rotation, download, transformed, timestamp, upload);
            var (projectId, original) := RotateRoute.Target(imageUrl).value;
            var newName := RotateRoute.RotatedFileName(original, timestamp);
            && k == 3 && |events| == 4
            && events[1] == Blob(Put(StorageUrl(projectId, newName)))
            && events[2] == Blob(Delete(StorageUrl(projectId, original)))
            && events[3] == Commit(imageId, PublicUrl(projectId, newName))
  {
    var h := RouteReply(imageUrl, rotation, download, transformed, timestamp, upload);
    CommitIffRouteSucceeded(imageId, imageUrl, rotation, download, transformed, timestamp, upload);
    var events := RotateEvents(imageId, imageUrl, rotation, download, transformed, timestamp, upload);
    RotateRoute.RotateSuccessShape(Some(RotateRoute.RotateBody(Some(imageUrl), Some(rotation))), download,
                                   transformed, timestamp, upload);
  }

  /** The upload route's DELETE run for one request a delete action sends, on a configured server. */
  function DeleteEffects(request: Actions.RouteRequest, upstream: FetchResult): Handled<UploadRoute.DeleteReply>
    requires request.DeleteFile?
  {
    UploadRoute.HandleDelete(Some(UploadRoute.DeleteForm(Some(request.projectId), Some(request.fileName))),
                             true, upstream)
  }

  /**
   * Upload, then delete: for a row that stores the URL an upload returned, `deleteImage` sends one
   * request, and the route deletes exactly the storage key the upload wrote, whatever the upstream
   * answers; a second attempt, answered 404, still counts as success.
   */
  lemma {:induction false} DeleteRemovesUploadedBlob(projectId: string, uuid: string, put: FetchResult,
                                                     row: Schema.Image, upstream: FetchResult)
    requires IsSegment(projectId) && IsSegment(uuid)
    requires UploadRoute.HandlePost(true, Some(projectId), uuid, true, put).reply.PostUploaded?
    requires row.url == UploadRoute.HandlePost(true, Some(projectId), uuid, true, put).reply.url
    requires row.projectId == projectId
    ensures var fileName := UploadRoute.UploadedFileName(uuid);
            var key := StorageUrl(projectId, fileName);
            var requests := Actions.DeleteRequestFor(row);
            && UploadRoute.HandlePost(true, Some(projectId), uuid, true, put).calls == [Put(key)]
            && requests == [Actions.DeleteFile(projectId, fileName)]
            && DeleteEffects(requests[0], upstream).calls == [Delete(key)]
            && (upstream == Answered(404) ==> DeleteEffects(requests[0], upstream).reply == UploadRoute.DeleteOk)
  {
    UploadRoute.UploadedUrlRoundTrip(projectId, uuid, put);
  }
}
