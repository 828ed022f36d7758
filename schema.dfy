/**
 * The three tables of the relational store (`users`, `projects`, `images`) and the constraints
 * their declaration imposes: primary keys, not-null columns, references and one unique column.
 */
module Schema {
  import opened Wrappers

  /** Ids are UUIDs, compared as strings. */
  type Uuid = string

  /** A `users` row; the password hash is not part of this model. */
  datatype User = User(id: Uuid, username: string, createdAt: Option<int>)

  /** A `projects` row. `userId` is not null; `coverImageId` is nullable. Timestamps are integers. */
  datatype Project = Project(id: Uuid, name: string, description: Option<string>, userId: Uuid,
                             coverImageId: Option<Uuid>, createdAt: Option<int>)

  /** An `images` row. `url` and `projectId` are not null; `sortOrder` is nullable. */
  datatype Image = Image(id: Uuid, url: string, projectId: Uuid, sortOrder: Option<int>, createdAt: Option<int>)

  /** A column in an insert: left out, so that its default applies, or given explicitly. */
  datatype Supplied<T> = Omitted | Given(value: T)

  /** The `images` row an insert creates: `sortOrder` defaults to 0 and `createdAt` to the current time. */
  function NewImage(id: Uuid, url: string, projectId: Uuid, sortOrder: Supplied<Option<int>>, now: int): (r: Image)
    ensures r.id == id && r.url == url && r.projectId == projectId && r.createdAt == Some(now)
    ensures sortOrder.Omitted? ==> r.sortOrder == Some(0)
    ensures sortOrder.Given? ==> r.sortOrder == sortOrder.value
  {
    Image(id, url, projectId, if sortOrder.Omitted? then Some(0) else sortOrder.value, Some(now))
  }

  /** The table holds a row with this id. */
  predicate HasImage(images: seq<Image>, id: Uuid)
  {
    exists x :: x in images && x.id == id
  }

  /** No two image rows share an id. */
  predicate IdsUnique(images: seq<Image>)
  {
    forall i, j :: 0 <= i < j < |images| ==> images[i].id != images[j].id
  }

  /** Primary keys: every row is stored under its own id, and no two image rows share an id. */
  predicate KeysUnique(users: map<Uuid, User>, projects: map<Uuid, Project>, images: seq<Image>)
  {
    && (forall u :: u in users ==> users[u].id == u)
    && (forall p :: p in projects ==> projects[p].id == p)
    && IdsUnique(images)
  }

  /** `username` is unique. */
  predicate UsernamesUnique(users: map<Uuid, User>)
  {
    forall u, v :: u in users && v in users && u != v ==> users[u].username != users[v].username
  }

  /** `projects.userId` references `users.id`. */
  predicate OwnersExist(projects: map<Uuid, Project>, users: map<Uuid, User>)
  {
    forall p :: p in projects ==> projects[p].userId in users
  }

  /** `images.projectId` references `projects.id`. */
  predicate ImageProjectsExist(images: seq<Image>, projects: map<Uuid, Project>)
  {
    forall x :: x in images ==> x.projectId in projects
  }

  /** `projects.coverImageId`, when set, references `images.id` (of any project: the schema does not restrict it). */
  predicate CoversExist(projects: map<Uuid, Project>, images: seq<Image>)
  {
    forall p :: p in projects && projects[p].coverImageId.Some? ==> HasImage(images, projects[p].coverImageId.value)
  }

  /** Some project names this image as its cover, so the cover reference forbids deleting it. */
  predicate IsCover(projects: map<Uuid, Project>, id: Uuid)
  {
    exists p :: p in projects && projects[p].coverImageId == Some(id)
  }

  /** The stronger design rule: a cover, when set, is an image of the same project. */
  predicate CoversInOwnProject(projects: map<Uuid, Project>, images: seq<Image>)
  {
    forall p, x :: p in projects && x in images && projects[p].coverImageId == Some(x.id) ==> x.projectId == p
  }

  /** The declared constraints other than the cover reference. */
  predicate Integral(users: map<Uuid, User>, projects: map<Uuid, Project>, images: seq<Image>)
  {
    && KeysUnique(users, projects, images)
    && UsernamesUnique(users)
    && OwnersExist(projects, users)
    && ImageProjectsExist(images, projects)
  }

  /** Covers resolve: each set cover is an existing image of its own project. */
  predicate CoversResolve(projects: map<Uuid, Project>, images: seq<Image>)
  {
    CoversExist(projects, images) && CoversInOwnProject(projects, images)
  }

  /** Every constraint the schema declares. */
  predicate Consistent(users: map<Uuid, User>, projects: map<Uuid, Project>, images: seq<Image>)
  {
    Integral(users, projects, images) && CoversExist(projects, images)
  }
}
