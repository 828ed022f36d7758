/**
 * Where image blobs live: the storage path written by the upload and rotate routes, the public CDN
 * URL handed back to clients, and the ways the actions and routes read a project id and file name
 * back out of such a URL.
 */
module BlobKeys {
  import opened Wrappers
  import opened Text
  import opened Url

  const StorageZone := "lavi"
  const StorageHost := "storage.bunnycdn.com"
  const CdnHost := "cdn.laviarquitetura.com.br"
  /** CDN_BASE_URL of both routes. */
  const CdnBaseUrl := "https://" + CdnHost

  /** The storage folder of a project: `https://storage.bunnycdn.com/{zone}/images/{projectId}`. */
  function StorageFolder(projectId: string): string
  {
    "https://" + StorageHost + "/" + StorageZone + "/images/" + projectId
  }

  /** The storage object a PUT or DELETE addresses. */
  function StorageUrl(projectId: string, fileName: string): string
  {
    StorageFolder(projectId) + "/" + fileName
  }

  /** The public URL of a stored object: `{CDN}/images/{projectId}/{fileName}`. */
  function PublicUrl(projectId: string, fileName: string): string
  {
    CdnBaseUrl + "/images/" + projectId + "/" + fileName
  }

  /** A generated id or file name: one non-empty path segment with no query or fragment marker. */
  predicate IsSegment(s: string)
  {
    s != "" && '/' !in s && '?' !in s && '#' !in s
  }

  /**
   * The file name `deleteImage` and `deleteProject` send to the delete route: the last piece of
   * `new URL(url).pathname.split("/")`. None where the URL constructor throws.
   */
  function FileNameOfUrl(url: string): (r: Option<string>)
    ensures r.Some? ==> '/' !in r.value
  {
    match PathName(url)
    case None => None
    case Some(path) =>
      var parts := Split(path, '/');
      Some(parts[|parts| - 1])
  }

  /**
   * The rotate route's reading of a pathname: the non-empty segments, the last as the file name
   * and the one before it as the project id. None when there are fewer than two.
   */
  function FolderAndFile(path: string): (r: Option<(string, string)>)
    ensures r.Some? <==> |NonEmpty(Split(path, '/'))| >= 2
    ensures r.Some? ==> r.value.0 != "" && r.value.1 != "" && '/' !in r.value.0 && '/' !in r.value.1
  {
    var parts := NonEmpty(Split(path, '/'));
    if |parts| < 2 then None
    else
      assert parts[|parts| - 1] in parts && parts[|parts| - 2] in parts;
      Some((parts[|parts| - 2], parts[|parts| - 1]))
  }

  /** The pathname of a public URL. */
  lemma PublicUrlPath(projectId: string, fileName: string)
    requires IsSegment(projectId) && IsSegment(fileName)
    ensures PathName(PublicUrl(projectId, fileName)) == Some("/images/" + projectId + "/" + fileName)
  {
    var path := "/images/" + projectId + "/" + fileName;
    assert PublicUrl(projectId, fileName) == "https" + "://" + CdnHost + path;
    assert IsScheme("https");
    assert forall i :: 0 <= i < |path| ==> path[i] !in PathStops by {
      forall i | 0 <= i < |path| ensures path[i] !in PathStops {
        if i < 8 {
        } else if i < 8 + |projectId| {
          assert path[i] == projectId[i - 8];
        } else if i > 8 + |projectId| {
          assert path[i] == fileName[i - 9 - |projectId|];
        }
      }
    }
    PathNameOf("https", CdnHost, path);
  }

  /** The pieces of a public URL's pathname, split at '/'. */
  lemma PublicUrlPieces(projectId: string, fileName: string)
    requires IsSegment(projectId) && IsSegment(fileName)
    ensures Split("/images/" + projectId + "/" + fileName, '/') == ["", "images", projectId, fileName]
  {
    ThreePieces("images", projectId, fileName, '/');
    assert "/images/" + projectId + "/" + fileName == ['/'] + "images" + ['/'] + projectId + ['/'] + fileName;
  }

  /** A path of three separator-free pieces, each behind a separator. */
  lemma ThreePieces(a: string, b: string, c: string, sep: char)
    requires sep !in a && sep !in b && sep !in c
    ensures Split([sep] + a + [sep] + b + [sep] + c, sep) == ["", a, b, c]
  {
    SplitAppendAtom([], a, sep);
    assert [] + [sep] + a == [sep] + a;
    assert Split([], sep) == [""];
    SplitAppendAtom([sep] + a, b, sep);
    SplitAppendAtom([sep] + a + [sep] + b, c, sep);
  }

  /**
   * Round trip with the delete actions: the last path piece of the URL the upload route returns is
   * the file name it generated.
   */
  lemma {:induction false} FileNameOfPublicUrl(projectId: string, fileName: string)
    requires IsSegment(projectId) && IsSegment(fileName)
    ensures FileNameOfUrl(PublicUrl(projectId, fileName)) == Some(fileName)
  {
    PublicUrlPath(projectId, fileName);
    PublicUrlPieces(projectId, fileName);
  }

  /**
   * Round trip with the rotate route: the project id and file name it reads back from a public URL
   * are the ones the URL was built from.
   */
  lemma {:induction false} FolderAndFileOfPublicUrl(projectId: string, fileName: string)
    requires IsSegment(projectId) && IsSegment(fileName)
    ensures PathName(PublicUrl(projectId, fileName)).Some?
    ensures FolderAndFile(PathName(PublicUrl(projectId, fileName)).value) == Some((projectId, fileName))
  {
    PublicUrlPath(projectId, fileName);
    PublicUrlPieces(projectId, fileName);
    var pieces: seq<string> := ["", "images", projectId, fileName];
    NonEmptyConcat([""], ["images", projectId, fileName]);
    NonEmptyConcat(["images"], [projectId, fileName]);
    NonEmptyConcat([projectId], [fileName]);
    assert pieces == [""] + ["images", projectId, fileName];
    assert ["images", projectId, fileName] == ["images"] + [projectId, fileName];
    assert [projectId, fileName] == [projectId] + [fileName];
    assert NonEmpty(pieces) == ["images", projectId, fileName];
  }

  /** Behind a common prefix, the path `/images/{projectId}/{fileName}` determines both segments. */
  lemma {:induction false} PathInjective(prefix: string, p1: string, f1: string, p2: string, f2: string)
    requires IsSegment(p1) && IsSegment(f1) && IsSegment(p2) && IsSegment(f2)
    requires prefix + ("/images/" + p1 + "/" + f1) == prefix + ("/images/" + p2 + "/" + f2)
    ensures p1 == p2 && f1 == f2
  {
    var t1 := "/images/" + p1 + "/" + f1;
    var t2 := "/images/" + p2 + "/" + f2;
    assert t1 == (prefix + t1)[|prefix|..];
    assert t2 == (prefix + t2)[|prefix|..];
    PublicUrlPieces(p1, f1);
    PublicUrlPieces(p2, f2);
    assert Split(t1, '/')[2] == p1 && Split(t1, '/')[3] == f1;
  }

  /** Distinct (project, file) pairs name distinct storage objects and distinct public URLs. */
  lemma {:induction false} KeysInjective(p1: string, f1: string, p2: string, f2: string)
    requires IsSegment(p1) && IsSegment(f1) && IsSegment(p2) && IsSegment(f2)
    ensures PublicUrl(p1, f1) == PublicUrl(p2, f2) <==> p1 == p2 && f1 == f2
    ensures StorageUrl(p1, f1) == StorageUrl(p2, f2) <==> p1 == p2 && f1 == f2
  {
    var cdn := CdnBaseUrl;
    var storage := "https://" + StorageHost + "/" + StorageZone;
    assert PublicUrl(p1, f1) == cdn + ("/images/" + p1 + "/" + f1);
    assert PublicUrl(p2, f2) == cdn + ("/images/" + p2 + "/" + f2);
    assert StorageUrl(p1, f1) == storage + ("/images/" + p1 + "/" + f1);
    assert StorageUrl(p2, f2) == storage + ("/images/" + p2 + "/" + f2);
    if PublicUrl(p1, f1) == PublicUrl(p2, f2) {
      PathInjective(cdn, p1, f1, p2, f2);
    }
    if StorageUrl(p1, f1) == StorageUrl(p2, f2) {
      PathInjective(storage, p1, f1, p2, f2);
    }
  }
}
