/**
 * Everything the server-side code changes outside its own variables: the
 * Prisma `User` and `Video` tables, the files on disk, the credentials held
 * by the module-level Google OAuth2 client of lib/Youtube.ts:6-10, and a log
 * of the effects in the order they happen (table writes, file writes and
 * removals, and the requests sent to Google).
 */
module Store {
  import opened Common
  import opened MetadataSchema

  /** A row of the `User` table. */
  datatype User = User(
    id: string,
    email: string,
    accessToken: Option<string>,
    refreshToken: Option<string>,
    expiryDate: Option<int>,
    createdAt: int,
    updatedAt: int)

  /** A row of the `Video` table; `filePath` is unique (updates select by it). */
  datatype Video = Video(
    userId: string,
    filePath: string,
    title: string,
    description: string,
    thumbnail: string,
    category: string,
    hashtags: seq<string>,
    status: string,
    youtubeVideoId: Option<string>,
    updatedAt: int)

  /** What `oauth2Client.setCredentials` stores and `refreshAccessToken` gives back. */
  datatype Credentials = Credentials(accessToken: Option<string>, refreshToken: Option<string>, expiryDate: Option<int>)

  const NoCredentials: Credentials := Credentials(None, None, None)

  /** The body of a `youtube.videos.insert` request. */
  datatype InsertRequest = InsertRequest(
    title: string,
    description: string,
    tags: Json,
    categoryId: string,
    defaultLanguage: string,
    defaultAudioLanguage: string,
    privacyStatus: string,
    media: string)

  /** One effect, in the order the program causes it. */
  datatype Event =
    | UserCreated(id: string)
    | UserUpdated(id: string)
    | VideoCreated(filePath: string)
    | VideoUpdated(filePath: string)
    | FileWritten(path: string)
    | FileRemoved(path: string)
    | RefreshRequested(refreshToken: string)
    | InsertRequested(request: InsertRequest)
    | ThumbnailRequested(videoId: string, path: string)

  /** A snapshot of the whole outside world. */
  datatype World = World(
    users: seq<User>,
    videos: map<string, Video>,
    files: set<string>,
    credentials: Credentials,
    log: seq<Event>)

  /** What an operation gives back together with the world after it. */
  datatype Step<+T> = Step(result: T, world: World)

  /** Primary key `id` and unique `email` of the `User` table. */
  predicate UniqueKeys(users: seq<User>) {
    forall i, j | 0 <= i < j < |users| :: users[i].id != users[j].id && users[i].email != users[j].email
  }

  /** The unique columns of the `User` table. */
  datatype Key = Id | Email

  function KeyOf(u: User, key: Key): string {
    match key
    case Id => u.id
    case Email => u.email
  }

  /** `prisma.user.findUnique({ where: { <key>: value } })`, as the row's position. */
  function FindBy(users: seq<User>, key: Key, value: string): (r: Option<nat>)
    ensures r.Some? ==> r.value < |users| && KeyOf(users[r.value], key) == value
    ensures r.None? <==> forall k | 0 <= k < |users| :: KeyOf(users[k], key) != value
  {
    if |users| == 0 then None
    else if KeyOf(users[|users| - 1], key) == value then Some(|users| - 1)
    else FindBy(users[..|users| - 1], key, value)
  }

  function FindById(users: seq<User>, id: string): Option<nat> {
    FindBy(users, Id, id)
  }

  function FindByEmail(users: seq<User>, email: string): Option<nat> {
    FindBy(users, Email, email)
  }

  /** Rewriting a row without touching its keys keeps the keys unique. */
  lemma UpdateKeepsUniqueKeys(users: seq<User>, i: nat, u: User)
    requires UniqueKeys(users) && i < |users| && u.id == users[i].id && u.email == users[i].email
    ensures UniqueKeys(users[i := u])
  {
    var t := users[i := u];
    forall a, b | 0 <= a < b < |t| ensures t[a].id != t[b].id && t[a].email != t[b].email {
      assert users[a].id != users[b].id && users[a].email != users[b].email;
    }
  }

  /** Adding a row whose keys are both new keeps the keys unique. */
  lemma AppendKeepsUniqueKeys(users: seq<User>, u: User)
    requires UniqueKeys(users)
    requires FindById(users, u.id).None? && FindByEmail(users, u.email).None?
    ensures UniqueKeys(users + [u])
  {
    var t := users + [u];
    forall a, b | 0 <= a < b < |t| ensures t[a].id != t[b].id && t[a].email != t[b].email {
      if b < |users| {
        assert t[a] == users[a] && t[b] == users[b];
      } else {
        assert t[b] == u && t[a] == users[a];
      }
    }
  }

  /** The mutable world the route handlers and library functions act on. */
  class Backend {
    var users: seq<User>
    var videos: map<string, Video>
    var files: set<string>
    var credentials: Credentials
    var log: seq<Event>

    /** An empty database and disk, and a client without credentials. */
    constructor ()
      ensures State() == World([], map[], {}, NoCredentials, [])
    {
      users := [];
      videos := map[];
      files := {};
      credentials := NoCredentials;
      log := [];
    }

    function State(): World
      reads this
    {
      World(users, videos, files, credentials, log)
    }
  }
}
