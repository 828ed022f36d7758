# la-galeria: a verified model of the gallery's core

La Galeria is a portfolio site for an architecture studio. A signed-in user manages projects. Each
project holds an ordered gallery of images, and one of those images may be chosen as the project's
cover. Image files live in a Bunny storage zone (`lavi`) and are served from the CDN at
`https://cdn.laviarquitetura.com.br/images/{projectId}/{fileName}`. The relational store only keeps
their public URLs.

This project models in Dafny the parts of the system that decide what is stored, where, and in
which order:

- **`schema.dfy`**: the `users`, `projects` and `images` tables. They are datatypes, and the declared
  constraints are predicates: primary keys, the unique `username`, the `userId` and `projectId`
  references, the nullable `coverImageId` reference to `images.id`, and the `sortOrder` default of
  0. `Consistent` is all of them together.
- **`asset_index.dfy`**: the queries and statements the actions issue on `images`:
  - the max-sortOrder reduce;
  - the ordered per-project select, with ascending `sortOrder` then `createdAt` and NULLs last;
  - lookup by id, and deletes by id and by project;
  - the `sortOrder` and `url` updates.

  A "Keeps" lemma for each statement shows it preserves `Consistent`. The refusal lemmas show why
  the cover reference makes the store reject some deletes.
- **`actions.dfy`**: the server actions as the class `AssetStore`, which owns the three tables.
  - The field `requests` records, in order, the requests the actions send to the internal routes.
  - Every method keeps `Valid()`, which is the schema's constraints.
  - Every method states its whole new state and its answer on each path: unauthorised, project
    not found, image not found, route errors, and the foreign-key failure.
  - The foreign-key failure: deleting an image that is any project's cover, or deleting a project
    whose rows include a cover (including its own cover), is refused by the store. The action
    then answers with its error message, after the blob delete requests were already sent.
- **`upload_route.dfy`**: the upload route's POST, which PUTs a file under a fresh
  `{uuid}.webp` name and answers with its public URL. Also its DELETE, where 200 and 404 from
  storage both count as success.
- **`rotate_route.dfy`**: the rotate route's POST. It takes these steps:
  1. download the image by URL;
  2. rotate it;
  3. read the project id and file name back out of the URL;
  4. PUT the result under `{base}_{timestamp}.webp`;
  5. after an ok PUT, fire a DELETE of the original;
  6. answer with the new URL.
- **`flows.dfy`**: the flows that cross components:
  - an upload's URL being parsed back by the delete actions and the rotate route;
  - `rotateAndSaveImage` calling the rotate route and committing the URL it returns.
- **`blob_keys.dfy`**, **`url.dfy`** and **`text.dfy`**: the storage and CDN paths, the pathname of
  `new URL(..)`, `split`, `join` and `filter(Boolean)` with JavaScript's meaning, and the round
  trips between building a URL and parsing it back.
- **`drag_and_drop.dfy`**:
  - the drag-and-drop hook's state, as the class `DragState`;
  - the reorder a drop makes, with `Array.prototype.splice` written out, including its clamping
    of out-of-range starts.
- **`lightbox.dfy`**: the lightbox's rotation and navigation state, as the class `Viewer`. This
  includes JavaScript's truncating `%`, the refusal to navigate or close while a rotation is
  unsaved, saving through `rotateAndSaveImage`, the thumbnail strip and the keyboard handler. The
  handler's Escape skips the unsaved check (see "## Findings").

These things come in as parameters rather than being computed:

- whether a fetch threw and which status it answered;
- whether sharp succeeded;
- `crypto.randomUUID()`, `Date.now()` and the ids and timestamps the store generates;
- the session's user id.

## Model

| member | source | states |
|---|---|---|
| Text.Split | lib/actions.ts:131-133 | `split` on one character: always at least one piece, and no piece contains the separator |
| Text.JoinSplit | lib/actions.ts:131-133 | joining the pieces with the separator gives back the original string, so split loses nothing |
| Text.SplitAtom | app/api/rotate-image/route.ts:55-56 | a string without the separator splits to exactly itself |
| Text.SplitConcat | app/api/rotate-image/route.ts:55-56 | splitting `a + sep + b` is splitting `a` followed by splitting `b` |
| Text.NonEmpty | app/api/rotate-image/route.ts:56 | `filter(Boolean)` keeps exactly the non-empty pieces, and nothing empty remains |
| Text.NonEmptyConcat | app/api/rotate-image/route.ts:56 | filtering a concatenation filters each side |
| Text.NatToString | app/api/rotate-image/route.ts:64-66 | the timestamp in the new file name is a non-empty string of decimal digits |
| Url.PathName | app/api/rotate-image/route.ts:55 | the pathname of a parsed URL starts with '/' and holds no '?' or '#' |
| Url.PathNameOf | app/api/rotate-image/route.ts:55 | for `scheme://host` followed by a clean path, the pathname is exactly that path |
| BlobKeys.FileNameOfUrl | lib/actions.ts:128-137 | the file name the delete actions read from a URL is the last path piece and has no '/' |
| BlobKeys.FolderAndFile | app/api/rotate-image/route.ts:56-62 | the route finds a project id and file name iff the path has at least two non-empty segments; both are non-empty and have no '/' |
| BlobKeys.PublicUrlPath | app/api/upload/route.ts:47-51 | the pathname of a public URL is `/images/{projectId}/{fileName}` |
| BlobKeys.FileNameOfPublicUrl | lib/actions.ts:128-137 | round trip: the file name read back from a public URL is the one it was built from |
| BlobKeys.FolderAndFileOfPublicUrl | app/api/rotate-image/route.ts:54-62 | round trip: the rotate route reads back exactly the project id and file name a public URL was built from |
| BlobKeys.KeysInjective | app/api/upload/route.ts:17-31 | distinct (project, file) pairs give distinct public URLs and distinct storage URLs, in both directions |
| UploadRoute.HandlePost | app/api/upload/route.ts:8-63 | no file gives 400; a PUT of `{folder}/{uuid}.webp` is sent iff the file was read and transformed; the upload succeeds iff that PUT was ok, and then answers the public URL; with a file, every failure is 500 |
| UploadRoute.UploadedUrlRoundTrip | app/api/upload/route.ts:30-51 | the URL an upload answers parses back, for both the delete actions and the rotate route, to the project and file name that were PUT |
| UploadRoute.HandleDelete | app/api/upload/route.ts:65-132 | no API key gives 500 and missing parameters give 400, without any request; otherwise exactly one DELETE of the storage key is sent; the answer is success iff storage answered 200 or 404, and any other outcome of the sent DELETE is 500; a form that cannot be parsed is 500 with no request |
| UploadRoute.DeleteAbsentKeySucceeds | app/api/upload/route.ts:97-98 | deleting a key storage no longer has (404) still counts as success |
| RotateRoute.StripExtension | app/api/rotate-image/route.ts:65 | the base name is a prefix of the name; it differs from the name iff the name ends in a non-empty extension, and then exactly the final `.ext` is removed |
| RotateRoute.RotatedFileNameFresh | app/api/rotate-image/route.ts:64-66 | the new name ends in `.webp`, never equals the original, and is again one path segment |
| RotateRoute.HandlePost | app/api/rotate-image/route.ts:14-101 | a body that is not JSON or lacks the fields gives 400 with no request; otherwise the first call is the GET of the image; the route succeeds iff the download, sharp, the URL parse and the PUT all succeed; a download or upload answered with a non-ok status forwards that status; a URL whose path has fewer than two non-empty segments gives 400; no failure has a 2xx status |
| RotateRoute.Process | app/api/rotate-image/route.ts:29-62 | no blob call is made before the download, the transform and the URL parse succeed; a non-ok download forwards its status; a path with fewer than two non-empty segments gives 400; once all succeed, the rest is `Republish` of the parsed project and file |
| RotateRoute.Republish | app/api/rotate-image/route.ts:64-96 | the PUT of the rotated name comes first; success iff the PUT was ok, and only then comes the DELETE of the original and the answer is the new public URL |
| RotateRoute.DeleteOnlyOnSuccess | app/api/rotate-image/route.ts:76-88 | a request that fails never deletes the original: a DELETE among the calls implies success |
| RotateRoute.RotateSuccessShape | app/api/rotate-image/route.ts:64-96 | a success names the rotated object, and the calls were exactly GET, then PUT of the new key, then DELETE of the original key |
| RotateRoute.RotateUploadedImage | app/api/rotate-image/route.ts:14-101 | rotating an uploaded image succeeds when download and upload succeed; it writes a key different from the original in the same folder, and deletes exactly the key the upload wrote |
| RotateRoute.Wire | app/api/rotate-image/route.ts:9-12 | every reply goes out as JSON; an error carries its status and its `error` text; a success is 200 with `success` and `newUrl` |
| Schema.NewImage | lib/db/schema.ts:21-29 | an inserted row has the given id, URL and project; `sortOrder` defaults to 0 when omitted, and `createdAt` is the current time |
| AssetIndex.MaxFrom | lib/actions.ts:93-95 | the reduce result is at least the start value, at least every row's sort order (null as 0), and is one of them |
| AssetIndex.MaxSortOrder | lib/actions.ts:93-95 | the largest sort order of the rows, null counted as 0, and 0 for none: non-negative, an upper bound, and attained |
| AssetIndex.ProjectRows | lib/actions.ts:183 | select by project: exactly the rows of that project |
| AssetIndex.Insert | lib/actions.ts:107-113 | inserting into an ordered list keeps it ordered and adds exactly that row (as a multiset) |
| AssetIndex.SortRows | lib/actions.ts:107-113 | the result is ordered by sortOrder, then createdAt, ascending with NULLs last, and is a permutation of the input |
| AssetIndex.ProjectImages | lib/actions.ts:107-113 | the ordered select: sorted, a permutation of the project's rows, and containing exactly them |
| AssetIndex.FindImage | lib/actions.ts:121-122 | lookup by id: a found row is in the table with that id, and nothing is found iff no row has it |
| AssetIndex.WithoutImage | lib/actions.ts:163 | delete by id removes exactly the rows with that id |
| AssetIndex.WithoutProjectImages | lib/actions.ts:209 | delete by project removes exactly the rows of that project |
| AssetIndex.ReorderedStep | lib/actions.ts:294-299 | one more loop iteration is one more `sortOrder` update of the next id to its position plus one |
| AssetIndex.ReorderedPositions | lib/actions.ts:294-299 | with distinct ids, the row for `ids[i]` ends with sort order i + 1 |
| AssetIndex.ReorderedFrame | lib/actions.ts:294-299 | reordering leaves unlisted rows untouched and changes only `sortOrder` in listed ones |
| AssetIndex.ReorderedIdempotent | lib/actions.ts:284-307 | applying the same order twice gives the same table as applying it once |
| AssetIndex.InsertKeeps | lib/actions.ts:97-101 | inserting a row with a fresh id into an existing project keeps every constraint, and keeps covers within their own project |
| AssetIndex.DeleteImageKeeps | lib/actions.ts:163 | deleting an image that is no project's cover keeps every constraint |
| AssetIndex.DeleteCoverRefused | lib/db/schema.ts:17 | deleting an image that is a project's cover would leave that project's cover dangling |
| AssetIndex.DeleteProjectCoverRefused | lib/db/schema.ts:17 | deleting a project's rows while one of them is a cover would leave that cover dangling |
| AssetIndex.DeleteProjectKeeps | lib/actions.ts:209-212 | deleting a project and its rows, none of them a cover, keeps every constraint |
| AssetIndex.SetCoverKeeps | lib/actions.ts:255 | naming an existing row as cover keeps every constraint, and a row of the same project keeps covers within their project |
| AssetIndex.ClearCoverKeeps | lib/actions.ts:270 | clearing a cover keeps every constraint |
| AssetIndex.SameKeysConstraints | lib/actions.ts:294-299 | an update that changes neither ids nor projects keeps unique ids and every reference |
| AssetIndex.SameKeysKeep | lib/actions.ts:366 | an update that keeps ids and projects keeps the store consistent |
| AssetIndex.ReorderedKeys | lib/actions.ts:294-299 | reordering changes neither ids nor projects |
| Actions.Message | lib/actions.ts:115-377 | every fixed outcome carries a non-empty `error` string, and the rotate route's error is passed on as it is |
| Actions.RotateDecision | lib/actions.ts:341-361 | the action accepts the route's answer iff it is ok JSON with `success` and `newUrl`, and then stores that URL; non-JSON gives "Erro no servidor: " and the text; an error status gives the route's `error` or "Erro HTTP {status}" |
| Actions.DeleteRequestFor | lib/actions.ts:128-160 | `deleteImage` sends at most one request, exactly when the URL yields a non-empty file name, and for that file in the image's project |
| Actions.CascadeRequest | lib/actions.ts:188-201 | one loop pass sends a DELETE for the row's file name iff its URL parses |
| Actions.CascadeRequestsShape | lib/actions.ts:186-206 | the cascade only deletes files, all in the project's folder, at most one per row |
| Actions.CascadeRequestsLength | lib/actions.ts:186-206 | when every URL parses, there is exactly one request per row |
| Actions.CascadeRequestsAt | lib/actions.ts:186-206 | when every URL parses, the i-th request deletes the i-th row's file |
| Actions.NewRow | lib/actions.ts:93-101 | the inserted row's sort order is exactly one more than the project's largest sort order, a NULL counted as 0 (so 1 for a project without rows): above every non-null sort order of the project, and either 1 or one more than a sort order some row of the project holds |
| Actions.AssetStore.constructor | lib/db/schema.ts:1-29 | a store over consistent tables is valid and has sent no requests |
| Actions.AssetStore.GetUser | lib/auth.ts:10-17 | there is a signed-in user iff the session cookie is present, non-empty and names a stored user, and it is that user |
| Actions.AssetStore.GetProject | lib/actions.ts:74-83 | the project is returned iff a user is signed in, the project exists, and that user owns it |
| Actions.AssetStore.GetProjectImages | lib/actions.ts:107-113 | the project's rows, ordered by sortOrder then createdAt with NULLs last, each exactly as often as stored |
| Actions.AssetStore.GetCoverImage | lib/actions.ts:276-282 | a cover is returned iff the project is owned, has a cover set, and that row exists; it is that row |
| Actions.AssetStore.SaveImageUrl | lib/actions.ts:85-105 | unauthorised or not owned leaves everything unchanged with the matching error; otherwise exactly one row is appended, with a sort order one more than the project's largest (1 for a project without rows), and the store stays consistent |
| Actions.AssetStore.DeleteImage | lib/actions.ts:115-171 | the errors in the source's order; for an owned image, one delete request when the URL yields a file name; then the row is deleted unless it is a cover, in which case the action fails after the request and nothing else changes |
| Actions.AssetStore.DeleteProject | lib/actions.ts:173-220 | for an owned project, one delete request per parseable row URL, in row order; then the rows and the project are deleted unless a row is a cover, in which case the action fails and the tables are unchanged |
| Actions.AssetStore.RequestBlobDeletes | lib/actions.ts:186-206 | the loop appends exactly the cascade's requests and changes no table |
| Actions.AssetStore.RequestBlobDelete | lib/actions.ts:187-205 | one pass appends the row's request, or nothing when its URL does not parse |
| Actions.AssetStore.SetCoverImage | lib/actions.ts:240-259 | for an owned project and one of its images, the cover becomes that image; any other case leaves the projects unchanged with the matching error |
| Actions.AssetStore.RemoveCoverImage | lib/actions.ts:261-274 | for an owned project the cover is cleared; only that project changes |
| Actions.AssetStore.ReorderImages | lib/actions.ts:284-307 | for an owned project, the table becomes the reordered table, whose properties are proved in AssetIndex, and the store stays consistent |
| Actions.AssetStore.RotateAndSaveImage | lib/actions.ts:311-377 | for an owned image, one rotate request with its URL; the URL is replaced exactly when the route's answer is accepted; otherwise the table is unchanged and the decision's error is returned |
| Actions.DeleteImageTwice | lib/actions.ts:115-171 | after a successful delete, deleting the same image again answers "image not found" |
| Flows.DecisionOfWire | lib/actions.ts:341-361 | the action accepts exactly the rotate route's successful replies, and then stores the URL the route returned; an error reply becomes the route's error text |
| Flows.CommitIffRouteSucceeded | lib/actions.ts:355-366 | a rotation commits a new URL exactly when the route succeeded, and a failure performs only blob calls |
| Flows.OldBlobDeletedBeforeCommit | app/api/rotate-image/route.ts:70-96 | when a rotation commits, the PUT of the new key and then the DELETE of the original come before the commit of the new public URL |
| Flows.DeleteRemovesUploadedBlob | lib/actions.ts:128-160 | for a row holding an uploaded URL, the delete action's request makes the route delete exactly the key the upload wrote, and a repeat answered 404 still succeeds |
| DragAndDrop.SpliceStart | hooks/use-drag-and-drop.ts:74-77 | `splice`'s start normalisation stays within the list and is the identity on in-range starts |
| DragAndDrop.Remove | hooks/use-drag-and-drop.ts:74 | `splice(i, 1)` removes one element when i is in range, and nothing otherwise |
| DragAndDrop.InsertAt | hooks/use-drag-and-drop.ts:77 | `splice(i, 0, x)` adds one element and puts x at the normalised index |
| DragAndDrop.MovePermutation | hooks/use-drag-and-drop.ts:61-83 | the list handed to `onReorder` is a permutation of the items |
| DragAndDrop.MoveLanding | hooks/use-drag-and-drop.ts:61-83 | the dragged item lands at the clamped drop index, and the others keep their relative order |
| DragAndDrop.MoveInPlace | hooks/use-drag-and-drop.ts:61-83 | a drop where the item already is returns the list unchanged |
| DragAndDrop.DragState.constructor | hooks/use-drag-and-drop.ts:13-15 | the hook starts idle: nothing dragged, nothing highlighted, counter 0 |
| DragAndDrop.DragState.DragStart | hooks/use-drag-and-drop.ts:17-26 | the dragged item and its index are remembered; nothing else changes |
| DragAndDrop.DragState.DragEnd | hooks/use-drag-and-drop.ts:28-37 | the whole drag state is reset |
| DragAndDrop.DragState.DragOver | hooks/use-drag-and-drop.ts:39-46 | a slot is highlighted only while dragging and only when it is not the item's own index |
| DragAndDrop.DragState.DragEnter | hooks/use-drag-and-drop.ts:48-52 | the counter goes up by one and the slot is highlighted |
| DragAndDrop.DragState.DragLeave | hooks/use-drag-and-drop.ts:54-59 | the counter goes down by one, and the highlight is cleared only when the counter reaches 0 |
| DragAndDrop.DragState.Drop | hooks/use-drag-and-drop.ts:61-83 | with nothing dragged, or a drop on the item's own index, no reorder happens and the counter is kept; otherwise `onReorder` gets the moved list and the state is reset |
| Lightbox.JsRem | components/image-lightbox.tsx:161-167 | JavaScript `%`: for a non-negative dividend a remainder in [0, b) |
| Lightbox.Clockwise | components/image-lightbox.tsx:160-164 | a quarter turn stays a quarter turn, in [0, 360) |
| Lightbox.CounterClockwise | components/image-lightbox.tsx:166-170 | a quarter turn stays a quarter turn, in [0, 360) |
| Lightbox.RotationGroup | components/image-lightbox.tsx:160-170 | four clockwise turns are the identity, and each direction undoes the other |
| Lightbox.NextIndex | components/image-lightbox.tsx:148 | the next index stays in range: one on, and from the last back to the first |
| Lightbox.PrevIndex | components/image-lightbox.tsx:139 | the previous index stays in range: one back, and from the first on to the last |
| Lightbox.NavigationInverse | components/image-lightbox.tsx:134-150 | next and previous undo each other on a valid index |
| Lightbox.Viewer.constructor | components/image-lightbox.tsx:33-38 | the lightbox starts at the given index with no rotation and nothing unsaved |
| Lightbox.Viewer.Reopen | components/image-lightbox.tsx:42-48 | reopening resets to the given index with no rotation and nothing unsaved |
| Lightbox.Viewer.RotateClockwise | components/image-lightbox.tsx:160-164 | the rotation turns clockwise and becomes unsaved, and the index is kept |
| Lightbox.Viewer.RotateCounterClockwise | components/image-lightbox.tsx:166-170 | the rotation turns counter-clockwise and becomes unsaved, and the index is kept |
| Lightbox.Viewer.ResetTransforms | components/image-lightbox.tsx:172-177 | no rotation and nothing unsaved, and the index is kept |
| Lightbox.Viewer.ResetRotation | components/image-lightbox.tsx:179-183 | the rotation goes back to 0, and counts as unsaved exactly when the image was rotated |
| Lightbox.Viewer.GoToNext | components/image-lightbox.tsx:143-150 | refused, changing nothing, while a rotation is unsaved; otherwise the next index with transforms reset |
| Lightbox.Viewer.GoToPrevious | components/image-lightbox.tsx:134-141 | refused, changing nothing, while a rotation is unsaved; otherwise the previous index with transforms reset |
| Lightbox.CommandOf | components/image-lightbox.tsx:95-124 | the key switch: Escape alone dismisses, the arrow keys navigate, r/R/l/L rotate, and s/S saves only with Ctrl or Meta held |
| Lightbox.Viewer.GoTo | components/image-lightbox.tsx:435-442 | a thumbnail click is refused, changing nothing, while a rotation is unsaved; otherwise it shows that image with transforms reset |
| Lightbox.Viewer.KeyDown | components/image-lightbox.tsx:91-126 | with the dialog closed a key changes nothing; Escape closes whether or not a rotation is unsaved; the arrows navigate as the buttons do, refused while unsaved; r/R and l/L rotate and mark the rotation unsaved; Ctrl/Meta+S saves as the save button does; zoom keys and other keys leave the modelled state alone |
| Lightbox.EscapeDiscardsRotation | components/image-lightbox.tsx:102-104 | a rotation followed by Escape closes the dialog with the rotation still unsaved |
| Lightbox.Viewer.KeyDownChecked | components/image-lightbox.tsx:205-211 | with Escape routed through the close handler, Escape closes exactly when nothing is unsaved, and a refusal changes nothing |
| Lightbox.EscapeCheckedKeepsRotation | components/image-lightbox.tsx:205-211 | with the check, the same presses leave the dialog open and keep the rotation |
| Lightbox.Viewer.Close | components/image-lightbox.tsx:205-211 | the dialog closes iff nothing is unsaved, and then the image is unrotated |
| Lightbox.Viewer.SaveRotation | components/image-lightbox.tsx:50-89 | nothing unsaved or a rotation of 0 is refused; no image at the index sends nothing; success iff the action answered without error, and then the rotation is reset; an error shows the action's message and keeps the rotation |

## Left out

- Image processing by sharp (EXIF rotation, resize, webp encoding, the rotation itself) is one
  boolean per request: success or failure. Pixel content is not modelled.
- The network: every `fetch` is its outcome, either thrown or a status. Headers, bodies, the
  AccessKey, `getBaseUrl()` and the `VERCEL_URL` fallback are not modelled. The
  fire-and-forget DELETE of the rotate route is recorded as sent, and its outcome is ignored, as
  in the source.
- Concurrency and the interleaving of async calls: every action and route runs to completion on
  its own.
- `revalidatePath`, `redirect`, console logging, toasts and all rendering, zoom and pan and the
  download button have no effect on the modelled state. The keyboard handler is
  Lightbox.Viewer.KeyDown. The event listener's registration is not modelled. Neither is the
  thumbnail strip being shown only for more than one image.
- UploadRoute.HandlePost: `req.formData()` (app/api/upload/route.ts:9) runs outside the `try`, so a
  body that is not a form makes the handler throw, and the framework answers. The model starts from a parsed
  form. Reading the PUT's error text (route.ts:45) is taken to succeed.
- RotateRoute.HandlePost and RotateRoute.Process: a failure of
  `imageResponse.arrayBuffer()` (app/api/rotate-image/route.ts:44) reaches the outer `catch`. It
  answers 500 "Erro interno inesperado no servidor". The model has no parameter for it: its
  `transformed == false` is sharp's failure, with sharp's message. A failure of reading the download's
  error text (route.ts:37) is not modelled either.
- Sessions and authentication: reading the `userId` cookie is not modelled. Its value is the
  session parameter of the actions. `loginAction`, `logoutAction`, `createProject`, `getProjects`
  and `createSeedUser` are outside the modelled core, and so is the password column.
- Actions.Message: for an exception caught by `rotateAndSaveImage`, the exception's own message is
  not modelled. The text is only the fixed "Erro interno: " prefix.
- Store failures other than the cover reference (a lost connection, a timeout) are not modelled.
- Ids are assumed to be well-formed UUIDs. Every id column is a Postgres `uuid`
  (lib/db/schema.ts:4-24), so a statement comparing it with a string that is not a UUID throws.
  Postgres's lenient UUID input syntax is not part of this model. The model does not capture these
  failures:
  - Actions.AssetStore.ReorderImages: a malformed id stops the loop after the earlier updates,
    and the action answers "Erro ao reordenar imagens" (lib/actions.ts:294-305). The model applies
    every id and answers Done.
  - Actions.AssetStore.DeleteImage: a malformed id answers "Erro ao deletar imagem"
    (lib/actions.ts:167-169). The model answers "Imagem não encontrada".
  - Actions.AssetStore.RotateAndSaveImage: a malformed id answers "Erro interno: "
    (lib/actions.ts:373-376). The model answers "Imagem não encontrada".
  - Actions.AssetStore.GetUser, Actions.AssetStore.GetProject, Actions.AssetStore.GetCoverImage,
    Actions.AssetStore.GetProjectImages, Actions.AssetStore.SaveImageUrl,
    Actions.AssetStore.SetCoverImage, Actions.AssetStore.RemoveCoverImage and
    Actions.AssetStore.DeleteProject: a malformed session or project id makes the action throw
    outside any `try`. The model answers "not found" or unauthorised instead.
- Actions.NewRow: a row whose sort order is NULL still lists after the new row. The maximum counts
  NULL as 0 (lib/actions.ts:95), but the ordered select puts NULL last (lib/actions.ts:112). No
  action writes a NULL sort order: inserts default to 0 and reorders write numbers.
- Actions.AssetStore.DeleteProject: the select of the project's rows (lib/actions.ts:183) has no
  ORDER BY, so the order of the delete requests is unspecified. The model sends them in table
  order.
- Integers are unbounded. The `integer` column's 32-bit range and JavaScript's float arithmetic are
  not modelled, and timestamps are plain integers.
- Url.PathName: only absolute URLs of the form `scheme://host/path?query#fragment` are parsed.
  Userinfo, ports, percent-encoding, dot segments and the WHATWG special cases are not modelled.
- The order SQL gives rows with equal `sortOrder` and `createdAt` is unspecified. The model uses a
  stable insertion sort, so such rows keep table order.
- Actions.AssetStore.ReorderImages: like the source, it does not check that the ids belong to the
  project, or that they are distinct or complete. ReorderedPositions therefore requires distinct
  ids.
- The rotate route deletes the original blob before `rotateAndSaveImage` stores the new URL, not
  after, so for a while the row names a deleted object. The model follows the code, and
  Flows.OldBlobDeletedBeforeCommit states this ordering.
- The catch branch of the rotate route for a malformed URL is reached only when `new URL` throws.
  It is modelled as the 500 "Erro interno inesperado no servidor" answer.
- Lightbox.Viewer.SaveRotation: the handler's branch for a reply carrying neither `error` nor
  `success` cannot happen, because every action result carries one of them. The stale closure of
  React's `useCallback` is not modelled: each handler sees the current state.
- Lightbox.JsRem: for a negative dividend the ensures restates the definition of JavaScript's `%`,
  because no independent characterisation is needed by the model.
- DragAndDrop.DragState.Drop requires the dragged index to still be an index of `items`. A list
  that shrank between drag start and drop is not modelled.

## Findings

| source | as written | input that shows it | evidently intended | confidence | as-written member | corrected member |
|---|---|---|---|---|---|---|
| components/image-lightbox.tsx:102-104 | the `keydown` handler calls `onClose()` for Escape directly | rotate the image, then press Escape: the dialog closes and the unsaved rotation is lost | Escape goes through `handleClose` (lines 205-211), as the close button (line 340) and the dialog's own close request (line 219) do, so it refuses while a rotation is unsaved | medium, not executed | Lightbox.EscapeDiscardsRotation | Lightbox.Viewer.KeyDownChecked |
