/**
 * The rotate route: download an image by its public URL, rotate it, PUT the result beside the
 * original under a new name, fire a DELETE of the original, and answer with the new public URL.
 * Every error answer is JSON `{error, details}`.
 */
module RotateRoute {
  import opened Wrappers
  import opened Text
  import opened Http
  import opened BlobKeys
  import Url

  /** The last '.' of a string, if any. */
  function LastDot(s: string): (r: Option<nat>)
    ensures r.None? ==> '.' !in s
    ensures r.Some? ==> r.value < |s| && s[r.value] == '.' && '.' !in s[r.value + 1..]
  {
    if s == [] then None
    else if s[|s| - 1] == '.' then Some(|s| - 1)
    else
      var r := LastDot(s[..|s| - 1]);
      assert s == s[..|s| - 1] + [s[|s| - 1]];
      r
  }

  /** `name` ends in an extension: a '.' followed by one or more characters, none of them a '.'. */
  predicate HasExtension(name: string)
  {
    exists i :: 0 <= i < |name| - 1 && name[i] == '.' && '.' !in name[i + 1..]
  }

  /** `name.replace(/\.[^.]+$/, "")`: the name without its final extension. */
  function StripExtension(name: string): (base: string)
    ensures |base| <= |name| && base == name[..|base|]
    ensures base != name <==> HasExtension(name)
    ensures base != name ==> |base| + 1 < |name| && name[|base|] == '.' && '.' !in name[|base| + 1..]
  {
    match LastDot(name)
    case Some(i) =>
      if i + 1 < |name| then
        assert HasExtension(name);
        name[..i]
      else
        assert !HasExtension(name) by {
          forall j | 0 <= j < |name| - 1 && name[j] == '.' ensures '.' in name[j + 1..] {
            assert name[j + 1..][|name| - 1 - (j + 1)] == name[|name| - 1];
          }
        }
        name
    case None =>
      assert !HasExtension(name) by {
        forall j | 0 <= j < |name| - 1 ensures name[j] != '.' {
          assert name[j] in name;
        }
      }
      name
  }

  /** `${baseName}_${timestamp}.webp`. */
  function RotatedFileName(originalFileName: string, timestamp: nat): string
  {
    StripExtension(originalFileName) + "_" + NatToString(timestamp) + ".webp"
  }

  /**
   * The rotated name is a new `.webp` name in the same shape as the original: it never equals the
   * original (so the PUT never overwrites the blob still referenced), and it is again a segment.
   */
  lemma {:induction false} RotatedFileNameFresh(originalFileName: string, timestamp: nat)
    ensures EndsWith(RotatedFileName(originalFileName, timestamp), ".webp")
    ensures RotatedFileName(originalFileName, timestamp) != originalFileName
    ensures IsSegment(originalFileName) ==> IsSegment(RotatedFileName(originalFileName, timestamp))
  {
    var base := StripExtension(originalFileName);
    var digits := NatToString(timestamp);
    var name := RotatedFileName(originalFileName, timestamp);
    assert name == base + "_" + digits + ".webp";
    assert name[|base|] == '_';
    if IsSegment(originalFileName) {
      RotatedSegment(originalFileName, base, digits);
    }
  }

  /** A prefix of a segment, an underscore, digits and `.webp` make a segment again. */
  lemma RotatedSegment(original: string, base: string, digits: string)
    requires IsSegment(original) && |base| <= |original| && base == original[..|base|]
    requires forall i :: 0 <= i < |digits| ==> '0' <= digits[i] <= '9'
    ensures IsSegment(base + "_" + digits + ".webp")
  {
    PrefixChars(original, base);
    DigitsChars(digits);
    assert base + "_" + digits + ".webp" == base + ("_" + digits + ".webp");
  }

  /** Every character of a prefix occurs in the whole string. */
  lemma PrefixChars(s: string, p: string)
    requires |p| <= |s| && p == s[..|p|]
    ensures forall c :: c in p ==> c in s
  {
    forall c | c in p ensures c in s {
      var i :| 0 <= i < |p| && p[i] == c;
      assert s[i] == c;
    }
  }

  /** A string of digits holds no URL delimiter. */
  lemma DigitsChars(digits: string)
    requires forall i :: 0 <= i < |digits| ==> '0' <= digits[i] <= '9'
    ensures '/' !in digits && '?' !in digits && '#' !in digits
  {
    forall c | c in digits ensures '0' <= c <= '9' {
      var i :| 0 <= i < |digits| && digits[i] == c;
    }
  }

  /** The JSON body of a request; `rotation` is None when absent or not a number. */
  datatype RotateBody = RotateBody(imageUrl: Option<string>, rotation: Option<int>)

  /** What an error answer carries as `details`: null, a caught exception, the upstream's text, or the URL. */
  datatype Details = NoDetails | ErrorObject | UpstreamText | OffendingUrl(url: string)

  datatype RotateReply =
    | RotateFailed(status: nat, error: string, details: Details)
    | RotateDone(newUrl: string, message: string)

  /** The project id and file name the route reads out of an image URL, when it can. */
  function Target(imageUrl: string): Option<(string, string)>
  {
    match Url.PathName(imageUrl)
    case None => None
    case Some(path) => FolderAndFile(path)
  }

  /** The URL parses, but its path has fewer than two non-empty segments. */
  predicate ShortPath(imageUrl: string)
  {
    Url.PathName(imageUrl).Some? && FolderAndFile(Url.PathName(imageUrl).value).None?
  }

  /** The request is well formed: a JSON body with a non-empty `imageUrl` and a numeric `rotation`. */
  predicate WellFormed(body: Option<RotateBody>)
  {
    body.Some? && Present(body.value.imageUrl) && body.value.rotation.Some?
  }

  /**
   * POST. `body`: the parsed JSON (None when it is not JSON); `download`: the GET of the original;
   * `transformed`: sharp succeeded; `timestamp`: Date.now(); `upload`: the storage PUT.
   */
  function HandlePost(body: Option<RotateBody>, download: FetchResult, transformed: bool, timestamp: nat,
                      upload: FetchResult): (h: Handled<RotateReply>)
    ensures !WellFormed(body) ==> h.reply.RotateFailed? && h.reply.status == 400 && h.calls == []
    ensures WellFormed(body) ==> |h.calls| >= 1 && h.calls[0] == Get(body.value.imageUrl.value)
    ensures h.reply.RotateDone? <==>
              && WellFormed(body) && Succeeded(download) && transformed
              && Target(body.value.imageUrl.value).Some? && Succeeded(upload)
    ensures h.reply.RotateFailed? && WellFormed(body) && Succeeded(download) && transformed
            && Target(body.value.imageUrl.value).Some? && upload.Answered?
            ==> h.reply.status == upload.status
    ensures h.reply.RotateFailed? ==> !IsOk(h.reply.status)
    ensures h.reply.RotateDone? ==> h.reply.newUrl != ""
    ensures WellFormed(body) && download.Answered? && !IsOk(download.status)
            ==> h.reply.RotateFailed? && h.reply.status == download.status
    ensures WellFormed(body) && Succeeded(download) && transformed && ShortPath(body.value.imageUrl.value)
            ==> h.reply.RotateFailed? && h.reply.status == 400
  {
    if body.None? then
      Handled(RotateFailed(400, "Corpo da requisição inválido (não é JSON)", ErrorObject), [])
    else if !Present(body.value.imageUrl) || body.value.rotation.None? then
      Handled(RotateFailed(400, "Parâmetros 'imageUrl' e 'rotation' são obrigatórios", NoDetails), [])
    else
      var imageUrl := body.value.imageUrl.value;
      var r := Process(imageUrl, download, transformed, timestamp, upload);
      Handled(r.reply, [Get(imageUrl)] + r.calls)
  }

  /** Steps 1 to 3 of the route, once the body is valid: download, rotate, locate the original. */
  function Process(imageUrl: string, download: FetchResult, transformed: bool, timestamp: nat, upload: FetchResult)
    : (h: Handled<RotateReply>)
    ensures h.reply.RotateDone? <==> Succeeded(download) && transformed && Target(imageUrl).Some? && Succeeded(upload)
    ensures h.calls != [] ==> Succeeded(download) && transformed && Target(imageUrl).Some?
    ensures Succeeded(download) && transformed && Target(imageUrl).Some? ==>
              h == Republish(Target(imageUrl).value.0, Target(imageUrl).value.1, timestamp, upload)
    ensures h.reply.RotateFailed? ==> !IsOk(h.reply.status)
    ensures download.Answered? && !IsOk(download.status) ==> h.reply.RotateFailed? && h.reply.status == download.status
    ensures Succeeded(download) && transformed && ShortPath(imageUrl) ==> h.reply.RotateFailed? && h.reply.status == 400
  {
    match download
    case Threw => Handled(RotateFailed(500, "Erro de rede ao tentar baixar a imagem", ErrorObject), [])
    case Answered(status) =>
      if !IsOk(status) then
        Handled(RotateFailed(status, "Falha ao baixar a imagem original do CDN", UpstreamText), [])
      else if !transformed then
        Handled(RotateFailed(500, "Erro ao processar a imagem com Sharp", ErrorObject), [])
      else
        match Url.PathName(imageUrl)
        case None => Handled(RotateFailed(500, "Erro interno inesperado no servidor", ErrorObject), [])
        case Some(path) =>
          match FolderAndFile(path)
          case None =>
            Handled(RotateFailed(400, "Não foi possível extrair o nome do arquivo ou ID do projeto da URL",
                                 OffendingUrl(imageUrl)), [])
          case Some((projectId, originalFileName)) => Republish(projectId, originalFileName, timestamp, upload)
  }

  /** The original is never deleted by a request that fails: a DELETE is sent only after an ok PUT. */
  lemma DeleteOnlyOnSuccess(body: Option<RotateBody>, download: FetchResult, transformed: bool, timestamp: nat,
                            upload: FetchResult)
    ensures var h := HandlePost(body, download, transformed, timestamp, upload);
            (exists i :: 0 <= i < |h.calls| && h.calls[i].Delete?) ==> h.reply.RotateDone?
  {
    var h := HandlePost(body, download, transformed, timestamp, upload);
    if h.reply.RotateFailed? && WellFormed(body) {
      var imageUrl := body.value.imageUrl.value;
      var r := Process(imageUrl, download, transformed, timestamp, upload);
      assert h.calls == [Get(imageUrl)] + r.calls;
      assert r.calls == [] || (r.calls[0].Put? && r.calls == [r.calls[0]]) by {
        if r.calls != [] {
          assert r == Republish(Target(imageUrl).value.0, Target(imageUrl).value.1, timestamp, upload);
        }
      }
      forall i | 0 <= i < |h.calls| ensures !h.calls[i].Delete? {
        if i > 0 {
          assert h.calls[i] == r.calls[i - 1];
        }
      }
    }
  }

  /** A successful answer names the rotated object, and the calls were GET, then PUT of it, then DELETE of the original. */
  lemma RotateSuccessShape(body: Option<RotateBody>, download: FetchResult, transformed: bool, timestamp: nat,
                           upload: FetchResult)
    requires HandlePost(body, download, transformed, timestamp, upload).reply.RotateDone?
    ensures var h := HandlePost(body, download, transformed, timestamp, upload);
            && WellFormed(body) && Target(body.value.imageUrl.value).Some?
            && var (projectId, original) := Target(body.value.imageUrl.value).value;
               var newName := RotatedFileName(original, timestamp);
               && h.reply.newUrl == PublicUrl(projectId, newName)
               && h.calls == [Get(body.value.imageUrl.value), Put(StorageUrl(projectId, newName)),
                              Delete(StorageUrl(projectId, original))]
  {
  }

  /**
   * Steps 4 to 6 of the route, once the original is downloaded, rotated and located: PUT the new
   * object, and only after an ok PUT fire the DELETE of the original and answer with the new URL.
   */
  function Republish(projectId: string, originalFileName: string, timestamp: nat, upload: FetchResult)
    : (h: Handled<RotateReply>)
    ensures |h.calls| >= 1 && h.calls[0] == Put(StorageUrl(projectId, RotatedFileName(originalFileName, timestamp)))
    ensures h.reply.RotateDone? <==> Succeeded(upload)
    ensures h.reply.RotateDone? ==>
              && h.reply.newUrl == PublicUrl(projectId, RotatedFileName(originalFileName, timestamp))
              && h.calls == [h.calls[0], Delete(StorageUrl(projectId, originalFileName))]
    ensures h.reply.RotateFailed? ==> h.calls == [h.calls[0]]
    ensures h.reply.RotateFailed? && upload.Answered? ==> h.reply.status == upload.status
    ensures h.reply.RotateFailed? ==> !IsOk(h.reply.status)
  {
    var newFileName := RotatedFileName(originalFileName, timestamp);
    var uploadUrl := StorageUrl(projectId, newFileName);
    var put := [Put(uploadUrl)];
    match upload
    case Threw => Handled(RotateFailed(500, "Erro interno inesperado no servidor", ErrorObject), put)
    case Answered(status) =>
      if !IsOk(status) then
        Handled(RotateFailed(status, "Erro ao fazer upload da imagem rotacionada para o CDN", UpstreamText), put)
      else
        var deleteUrl := StorageUrl(projectId, originalFileName);
        var newImageUrl := PublicUrl(projectId, newFileName);
        Handled(RotateDone(newImageUrl, "Imagem rotacionada e salva com sucesso"), put + [Delete(deleteUrl)])
  }

  /**
   * Rotating an uploaded image: the new object goes in the same project folder under a fresh name,
   * and the DELETE (issued only after the PUT succeeded) targets exactly the object the upload wrote.
   */
  lemma {:induction false} RotateUploadedImage(projectId: string, fileName: string, rotation: int, timestamp: nat,
                                               download: FetchResult, upload: FetchResult)
    requires IsSegment(projectId) && IsSegment(fileName)
    requires Succeeded(download) && Succeeded(upload)
    ensures var h := HandlePost(Some(RotateBody(Some(PublicUrl(projectId, fileName)), Some(rotation))),
                                download, true, timestamp, upload);
            var newName := RotatedFileName(fileName, timestamp);
            && h.reply == RotateDone(PublicUrl(projectId, newName), "Imagem rotacionada e salva com sucesso")
            && h.calls == [Get(PublicUrl(projectId, fileName)), Put(StorageUrl(projectId, newName)),
                           Delete(StorageUrl(projectId, fileName))]
            && StorageUrl(projectId, newName) != StorageUrl(projectId, fileName)
  {
    var url := PublicUrl(projectId, fileName);
    var body := Some(RotateBody(Some(url), Some(rotation)));
    FolderAndFileOfPublicUrl(projectId, fileName);
    assert Target(url) == Some((projectId, fileName));
    assert WellFormed(body);
    var r := Republish(projectId, fileName, timestamp, upload);
    assert Process(url, download, true, timestamp, upload) == r;
    assert HandlePost(body, download, true, timestamp, upload) == Handled(r.reply, [Get(url)] + r.calls);
    RotatedFileNameFresh(fileName, timestamp);
    KeysInjective(projectId, RotatedFileName(fileName, timestamp), projectId, fileName);
  }

  /** What the rotate action reads of a JSON body: `error`, truthiness of `success`, and `newUrl`. */
  datatype RotateJson = RotateJson(error: Option<string>, success: bool, newUrl: Option<string>)

  /**
   * A response as the rotate action sees it: the fetch threw, or a status, whether the content type
   * is JSON, the parsed JSON (None when `response.json()` throws) and the text body.
   */
  datatype RotateAnswer = AnswerThrew | Answer(status: nat, isJson: bool, json: Option<RotateJson>, text: string)

  /** How `NextResponse.json` puts a reply on the wire: always JSON, with the reply's status. */
  function Wire(reply: RotateReply): (a: RotateAnswer)
    ensures a.Answer? && a.isJson && a.json.Some?
    ensures reply.RotateFailed? ==> a.status == reply.status && a.json.value.error == Some(reply.error)
                                    && !a.json.value.success
    ensures reply.RotateDone? ==> a.status == 200 && a.json.value.success && a.json.value.newUrl == Some(reply.newUrl)
  {
    match reply
    case RotateFailed(status, error, _) => Answer(status, true, Some(RotateJson(Some(error), false, None)), "")
    case RotateDone(newUrl, _) => Answer(200, true, Some(RotateJson(None, true, Some(newUrl))), "")
  }
}
