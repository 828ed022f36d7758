/**
 * The upload route: POST transcodes a file and PUTs it into the project's storage folder under a
 * fresh name, answering with its public URL; DELETE removes one stored file, counting "not found"
 * as success.
 */
module UploadRoute {
  import opened Wrappers
  import opened Http
  import opened BlobKeys

  /** A form field read with `formData.get(..) as string`; in a template a missing one renders "null". */
  function Render(field: Option<string>): string
  {
    match field
    case None => "null"
    case Some(s) => s
  }

  /** The stored name of an upload: the generated UUID with the `.webp` extension. */
  function UploadedFileName(uuid: string): string
  {
    uuid + ".webp"
  }

  datatype PostReply =
    | PostText(status: nat, text: string)          // a plain-text error response
    | PostUploaded(message: string, url: string)   // status 200, JSON {message, url}

  function PostStatus(r: PostReply): nat
  {
    if r.PostText? then r.status else 200
  }

  /**
   * POST. `hasFile`: the form carries a file; `uuid`: the value of crypto.randomUUID();
   * `transformed`: reading the file and the sharp pipeline succeeded; `put`: the storage PUT.
   */
  function HandlePost(hasFile: bool, projectId: Option<string>, uuid: string, transformed: bool, put: FetchResult)
    : (h: Handled<PostReply>)
    ensures !hasFile ==> h.reply == PostText(400, "Arquivo não encontrado")
    ensures h.calls == if hasFile && transformed
                       then [Put(StorageUrl(Render(projectId), UploadedFileName(uuid)))] else []
    ensures h.reply.PostUploaded? <==> hasFile && transformed && Succeeded(put)
    ensures h.reply.PostUploaded? ==> h.reply.url == PublicUrl(Render(projectId), UploadedFileName(uuid))
    ensures !h.reply.PostUploaded? ==> PostStatus(h.reply) in {400, 500}
    ensures hasFile && !h.reply.PostUploaded? ==> PostStatus(h.reply) == 500
  {
    if !hasFile then Handled(PostText(400, "Arquivo não encontrado"), [])
    else
      var folder := StorageFolder(Render(projectId));
      if !transformed then Handled(PostText(500, "Erro interno no processamento"), [])
      else
        var fileName := uuid + ".webp";
        var uploadUrl := folder + "/" + fileName;
        match put
        case Threw => Handled(PostText(500, "Erro interno no processamento"), [Put(uploadUrl)])
        case Answered(status) =>
          if !IsOk(status) then Handled(PostText(500, "Erro ao fazer upload no BunnyCDN"), [Put(uploadUrl)])
          else
            var url := CdnBaseUrl + "/images/" + Render(projectId) + "/" + fileName;
            Handled(PostUploaded("Upload com sucesso!", url), [Put(uploadUrl)])
  }

  /**
   * Round trip: the URL an upload returns leads back, through the parsing done by the delete
   * actions and by the rotate route, to the project id and file name that were PUT.
   */
  lemma {:induction false} UploadedUrlRoundTrip(projectId: string, uuid: string, put: FetchResult)
    requires IsSegment(projectId) && IsSegment(uuid)
    requires HandlePost(true, Some(projectId), uuid, true, put).reply.PostUploaded?
    ensures var h := HandlePost(true, Some(projectId), uuid, true, put);
            var fileName := UploadedFileName(uuid);
            && FileNameOfUrl(h.reply.url) == Some(fileName)
            && Url.PathName(h.reply.url).Some?
            && FolderAndFile(Url.PathName(h.reply.url).value) == Some((projectId, fileName))
            && h.calls == [Put(StorageUrl(projectId, fileName))]
  {
    var fileName := UploadedFileName(uuid);
    assert IsSegment(fileName) by {
      assert forall c :: c in fileName ==> c in uuid || c in ".webp";
    }
    FileNameOfPublicUrl(projectId, fileName);
    FolderAndFileOfPublicUrl(projectId, fileName);
  }

  datatype DeleteForm = DeleteForm(projectId: Option<string>, fileName: Option<string>)

  datatype DeleteReply =
    | DeleteOk                                                           // 200 {success: true}
    | DeleteFailed(status: nat, error: string, upstreamStatus: Option<nat>)   // JSON {error, ...}

  function DeleteStatus(r: DeleteReply): nat
  {
    if r.DeleteOk? then 200 else r.status
  }

  /** Blob-store DELETE: 200 (deleted) and 404 (already absent) both count as success. */
  predicate DeleteSucceeded(status: nat)
  {
    status == 200 || status == 404
  }

  /**
   * DELETE. `form`: the parsed form (None when parsing throws); `hasApiKey`: BUNNY_KEY is set;
   * `upstream`: the storage DELETE's outcome.
   */
  function HandleDelete(form: Option<DeleteForm>, hasApiKey: bool, upstream: FetchResult): (h: Handled<DeleteReply>)
    ensures form.Some? && !hasApiKey ==> DeleteStatus(h.reply) == 500 && h.calls == []
    ensures form.Some? && hasApiKey && !(Present(form.value.projectId) && Present(form.value.fileName))
            ==> DeleteStatus(h.reply) == 400 && h.calls == []
    ensures h.calls != [] <==> form.Some? && hasApiKey && Present(form.value.projectId) && Present(form.value.fileName)
    ensures h.calls != [] ==> h.calls == [Delete(StorageUrl(form.value.projectId.value, form.value.fileName.value))]
    ensures h.reply.DeleteOk? <==> h.calls != [] && upstream.Answered? && DeleteSucceeded(upstream.status)
    ensures h.reply.DeleteFailed? ==> h.reply.status in {400, 500}
    ensures h.calls != [] && !h.reply.DeleteOk? ==> DeleteStatus(h.reply) == 500
    ensures form.None? ==> DeleteStatus(h.reply) == 500 && h.calls == []
  {
    match form
    case None => Handled(DeleteFailed(500, "Erro interno na deleção", None), [])
    case Some(DeleteForm(projectId, fileName)) =>
      if !hasApiKey then Handled(DeleteFailed(500, "Configuração do CDN não encontrada", None), [])
      else if !Present(projectId) || !Present(fileName) then
        Handled(DeleteFailed(400, "Parâmetros obrigatórios ausentes", None), [])
      else
        var url := "https://" + StorageHost + "/" + StorageZone + "/images/" + projectId.value + "/" + fileName.value;
        match upstream
        case Threw => Handled(DeleteFailed(500, "Erro interno na deleção", None), [Delete(url)])
        case Answered(status) =>
          if status != 200 && status != 404 then
            Handled(DeleteFailed(500, "Erro ao deletar arquivo do CDN", Some(status)), [Delete(url)])
          else Handled(DeleteOk, [Delete(url)])
  }

  /** Deleting a key twice: once the first DELETE has removed it, the store answers 404, still a success. */
  lemma DeleteAbsentKeySucceeds(projectId: string, fileName: string)
    requires projectId != "" && fileName != ""
    ensures HandleDelete(Some(DeleteForm(Some(projectId), Some(fileName))), true, Answered(404)).reply == DeleteOk
  {
  }
}
