/**
 * app/api/generateMetadata/route.ts: the POST handler that receives a video,
 * stages it on disk, has a thumbnail made, asks lib/openai.ts for metadata
 * and records a pending `Video` row.
 */
module GenerateRoute {
  import opened Common
  import opened JsText
  import opened MetadataSchema
  import opened Completion
  import OpenAi
  import opened Store
  import opened Auth
  import opened Http

  /** 100 * 1024 * 1024 bytes. */
  const MaxVideoBytes: nat := 104857600
  const NoVideoMessage: string := "No video file uploaded"
  const TooLargeMessage: string := "File size exceeds 100 MB"
  const ProcessErrorPrefix: string := "Failed to process video: "
  const ThumbnailFailedMessage: string := "Failed to generate thumbnail"
  const DatabaseFailedMessage: string := "Failed to save video metadata to database"
  const DefaultCategory: string := "Uncategorized"
  const PendingStatus: string := "PENDING"

  /** The `video` entry of the form: the client's file name and its size in bytes. */
  datatype VideoFile = VideoFile(name: string, size: nat)

  /** The form fields the handler reads. */
  datatype FormData = FormData(video: Option<VideoFile>, context: Option<string>)

  /** What `generateMetadata` depends on besides its context: the index's
      matches for a context, the model setting, the endpoint's answers and
      `JSON.parse`. */
  datatype Generator = Generator(
    retrieve: string -> Result<OpenAi.Matches, string>,
    modelEnv: Option<string>,
    provider: nat -> Outcome,
    parse: string -> Option<Json>)

  /** The environment of one request: `Date.now()`, the uploads directory,
      the error of `mkdir`/`writeFile` if any, the working directory, the
      `Date.now()` read inside `generateThumbnail` (or the error it throws),
      and whether the database accepts writes. */
  datatype Env = Env(now: nat, uploadDir: string, writeError: Option<string>,
                     cwd: string, thumbnail: Result<nat, string>, databaseUp: bool)

  /** The session carries a truthy user id and access token: both present
      and neither the empty string. */
  predicate Authorized(session: Option<SessionUser>): (ok: bool)
    ensures ok <==> && session.Some?
                    && session.value.id.Some? && session.value.id.value != []
                    && session.value.accessToken.Some? && session.value.accessToken.value != []
  {
    session.Some? && Truthy(session.value.id) && Truthy(session.value.accessToken)
  }

  /** After a Google sign-in, the session lib/auth.ts builds lets a request
      through exactly when the account's subject is non-empty and Google
      handed over a non-empty access token. */
  lemma SignedInAuthorized(w: World, token: Token, account: Account, now: int, user: SessionUser)
    requires token.email.Str? && token.sub.Str?
    requires JwtSpec(w, token, Some(account), now).result.Some?
    ensures var t := JwtSpec(w, token, Some(account), now).result.value;
      Authorized(SessionSpec(Session(Some(user)), t).user) <==> token.sub.s != [] && Truthy(account.accessToken)
  {
    SignInThenSession(w, token, account, now, user);
  }

  /** `${Date.now()}-${videoFile.name}`. */
  function FileName(now: nat, name: string): (f: string)
    ensures Decimal(now) + "-" <= f && f[|Decimal(now)| + 1..] == name
  {
    Decimal(now) + "-" + name
  }

  /** Where the video is written. */
  function StagedPath(uploadDir: string, now: nat, name: string): (p: string)
    ensures uploadDir + "/" + Decimal(now) + "-" <= p
    ensures EndsWith(p, name)
  {
    var head := uploadDir + "/" + Decimal(now) + "-";
    assert uploadDir + "/" + FileName(now, name) == head + name;
    assert (head + name)[|head + name| - |name|..] == name;
    uploadDir + "/" + FileName(now, name)
  }

  /** The staged file's base name is the time stamp, a dash and the client's
      file name, when that name has no `/`. */
  lemma StagedBasename(uploadDir: string, now: nat, name: string)
    requires '/' !in name
    ensures Basename(StagedPath(uploadDir, now, name)) == FileName(now, name)
  {
    var f := FileName(now, name);
    assert '/' !in Decimal(now);
    forall k | 0 <= k < |f| ensures f[k] != '/' {
      if k < |Decimal(now)| {
        assert f[k] == Decimal(now)[k];
      } else if k > |Decimal(now)| {
        assert f[k] == name[k - |Decimal(now)| - 1];
      }
    }
    BasenameOfJoin(uploadDir, f);
  }

  /** lib/thumbnail.ts: `thumb-${Date.now()}.jpg`. */
  function ThumbnailName(stamp: nat): (f: string)
    ensures "thumb-" <= f && f != [] && '/' !in f
  {
    assert '/' !in Decimal(stamp);
    "thumb-" + Decimal(stamp) + ".jpg"
  }

  /** The directory, relative to the site root, that `generateThumbnail`
      writes to and names in its URL. */
  const ThumbnailDir: string := "/uploads/thumbnails"

  /** Where `generateThumbnail` moves the frame it extracted:
      `<cwd>/public/uploads/thumbnails/<name>`. */
  function ThumbnailFile(cwd: string, stamp: nat): (p: string)
    ensures cwd + "/public" <= p && EndsWith(p, ".jpg")
  {
    var head := cwd + "/public" + ThumbnailDir + "/" + "thumb-" + Decimal(stamp);
    assert cwd + "/public" + ThumbnailDir + "/" + ThumbnailName(stamp) == head + ".jpg";
    assert (head + ".jpg")[|head + ".jpg"| - 4..] == ".jpg";
    cwd + "/public" + ThumbnailDir + "/" + ThumbnailName(stamp)
  }

  /** What `generateThumbnail` returns: the public URL of that file, not its
      location on disk. */
  function ThumbnailUrl(stamp: nat): (u: string)
    ensures ThumbnailDir + "/thumb-" <= u && EndsWith(u, ".jpg")
  {
    var head := ThumbnailDir + "/" + "thumb-" + Decimal(stamp);
    assert ThumbnailDir + "/" + ThumbnailName(stamp) == head + ".jpg";
    assert (head + ".jpg")[|head + ".jpg"| - 4..] == ".jpg";
    ThumbnailDir + "/" + ThumbnailName(stamp)
  }

  /** The returned URL is the written file's path below `<cwd>/public`, and
      both end in the same file name, which is what the response reports. */
  lemma ThumbnailNaming(cwd: string, stamp: nat)
    ensures ThumbnailFile(cwd, stamp) == cwd + "/public" + ThumbnailUrl(stamp)
    ensures Basename(ThumbnailUrl(stamp)) == ThumbnailName(stamp)
    ensures Basename(ThumbnailFile(cwd, stamp)) == ThumbnailName(stamp)
  {
    var name := ThumbnailName(stamp);
    var root := cwd + "/public";
    assert root + ThumbnailDir + "/" + name == root + (ThumbnailDir + "/" + name);
    BasenameOfJoin(ThumbnailDir, name);
    BasenameOfJoin(root + ThumbnailDir, name);
  }

  /** `context || videoFile.name`. */
  function ContextFor(context: Option<string>, name: string): (c: string)
    ensures Truthy(context) ==> c == context.value
    ensures !Truthy(context) ==> c == name
  {
    if Truthy(context) then context.value else name
  }

  /** `metadata.category` after the default is filled in. */
  function CategoryOf(m: Metadata): (c: string)
    ensures m.category.Some? ==> c == m.category.value
    ensures m.category.None? ==> c == "Uncategorized"
  {
    m.category.GetOr(DefaultCategory)
  }

  function ProcessError(message: string): Response {
    Response(ServerError, ErrorBody(ProcessErrorPrefix + message))
  }

  /** The metadata for a context, or the message thrown. */
  function GenerateFor(gen: Generator, context: string): Result<Metadata, string> {
    OpenAi.Generated(context, gen.retrieve(context), gen.modelEnv, gen.provider, gen.parse)
  }

  /** The request has passed every check before the video is written. */
  predicate Admitted(session: Option<SessionUser>, form: Result<FormData, string>) {
    Authorized(session) && form.Success? && form.value.video.Some? && form.value.video.value.size <= MaxVideoBytes
  }

  /** The handler after the video and its thumbnail are on disk. */
  function RecordSpec(w: World, userId: string, videoPath: string, thumbnailUrl: string, context: string,
                      env: Env, gen: Generator): (s: Step<Response>)
    ensures s.world.files == w.files && s.world.users == w.users
    ensures s.result.status == Ok <==> GenerateFor(gen, context).Success? && env.databaseUp && videoPath !in w.videos
    ensures s.result.status != Ok ==> s.world.videos == w.videos && s.result.status == ServerError
    ensures GenerateFor(gen, context).Failure? ==> s == Step(ProcessError(GenerateFor(gen, context).error), w)
    ensures GenerateFor(gen, context).Success? && (!env.databaseUp || videoPath in w.videos) ==>
      s == Step(Response(ServerError, ErrorBody(DatabaseFailedMessage)), w)
    ensures s.result.status == Ok ==>
      var m := GenerateFor(gen, context).value;
      && s.world.videos == w.videos[videoPath := Video(userId, videoPath, m.title, m.description, thumbnailUrl,
                                                       CategoryOf(m), m.hashtags, "PENDING", None, env.now)]
      && s.result.body == MetadataBody(m.title, m.description, Basename(thumbnailUrl), Basename(videoPath),
                                       m.hashtags, CategoryOf(m))
  {
    match GenerateFor(gen, context)
    case Failure(e) => Step(ProcessError(e), w)
    case Success(m) =>
      var category := CategoryOf(m);
      if !env.databaseUp || videoPath in w.videos then Step(Response(ServerError, ErrorBody(DatabaseFailedMessage)), w)
      else
        var record := Video(userId, videoPath, m.title, m.description, thumbnailUrl, category, m.hashtags,
                            PendingStatus, None, env.now);
        Step(Response(Ok, MetadataBody(m.title, m.description, Basename(thumbnailUrl), Basename(videoPath),
                                       m.hashtags, category)),
             w.(videos := w.videos[videoPath := record], log := w.log + [VideoCreated(videoPath)]))
  }

  /** The handler once the checks have passed: write the video, make the
      thumbnail, then generate and record. It answers 200 or 500. */
  function StageSpec(w: World, userId: string, context: string, video: VideoFile, env: Env, gen: Generator)
    : (s: Step<Response>)
    ensures s.result.status == Ok || s.result.status == ServerError
    ensures s.world.users == w.users && s.world.credentials == w.credentials
    ensures env.writeError.Some? ==> s == Step(ProcessError(env.writeError.value), w)
    ensures env.writeError.None? && env.thumbnail.Failure? ==>
      && s.result == ProcessError(ThumbnailFailedMessage) && s.world.videos == w.videos
      && s.world.files == w.files + {StagedPath(env.uploadDir, env.now, video.name)}
    ensures env.writeError.None? && env.thumbnail.Success? ==>
      s.world.files == w.files + {StagedPath(env.uploadDir, env.now, video.name), ThumbnailFile(env.cwd, env.thumbnail.value)}
    ensures s.result.status == Ok ==>
      var videoPath := StagedPath(env.uploadDir, env.now, video.name);
      && env.writeError.None? && env.thumbnail.Success?
      && videoPath in s.world.videos && videoPath !in w.videos
      && s.world.videos[videoPath].thumbnail == ThumbnailUrl(env.thumbnail.value)
      && s.world.videos[videoPath].status == PendingStatus
  {
    var videoPath := StagedPath(env.uploadDir, env.now, video.name);
    if env.writeError.Some? then Step(ProcessError(env.writeError.value), w)
    else
      var written := w.(files := w.files + {videoPath}, log := w.log + [FileWritten(videoPath)]);
      match env.thumbnail
      case Failure(_) => Step(ProcessError(ThumbnailFailedMessage), written)
      case Success(stamp) =>
        var thumbnailFile := ThumbnailFile(env.cwd, stamp);
        var thumbed := written.(files := written.files + {thumbnailFile},
                                log := written.log + [FileWritten(thumbnailFile)]);
        RecordSpec(thumbed, userId, videoPath, ThumbnailUrl(stamp), context, env, gen)
  }

  /** `POST /api/generateMetadata`: the response and the world after it. */
  function PostSpec(w: World, session: Option<SessionUser>, form: Result<FormData, string>, env: Env, gen: Generator)
    : (s: Step<Response>)
    ensures s.world.users == w.users && s.world.credentials == w.credentials
  {
    if !Authorized(session) then Step(Response(Unauthorized, AuthRedirect(SignInPath)), w)
    else match form
    case Failure(e) => Step(ProcessError(e), w)
    case Success(data) =>
      match data.video
      case None => Step(Response(BadRequest, ErrorBody(NoVideoMessage)), w)
      case Some(video) =>
        if video.size > MaxVideoBytes then Step(Response(BadRequest, ErrorBody(TooLargeMessage)), w)
        else StageSpec(w, session.value.id.value, ContextFor(data.context, video.name), video, env, gen)
  }

  /** 401 exactly without a session holding a user id and an access token;
      every 401 and 400 leaves the world as it was, and only admitted
      requests write anything. */
  lemma RejectionsWriteNothing(w: World, session: Option<SessionUser>, form: Result<FormData, string>, env: Env,
                               gen: Generator)
    ensures var s := PostSpec(w, session, form, env, gen);
      && (s.result.status == Unauthorized <==> !Authorized(session))
      && (s.result.status == Unauthorized ==> s.result.body == AuthRedirect(SignInPath))
      && (s.result.status in {Unauthorized, BadRequest} ==> s.world == w)
      && (!Admitted(session, form) ==> s.world == w)
  {
  }

  /** A video of exactly 100 MiB is accepted; one byte more is refused with
      400 "File size exceeds 100 MB" before anything is written. */
  lemma SizeLimit(w: World, session: Option<SessionUser>, context: Option<string>, name: string, size: nat,
                  env: Env, gen: Generator)
    requires Authorized(session)
    ensures var s := PostSpec(w, session, Success(FormData(Some(VideoFile(name, size)), context)), env, gen);
      && (s.result.status == BadRequest <==> size > MaxVideoBytes)
      && (size > MaxVideoBytes ==> s.result.body == ErrorBody(TooLargeMessage) && s.world == w)
  {
  }

  /** An authorized request whose form has no `video` entry gets 400 "No
      video file uploaded" and changes nothing. */
  lemma NoVideoRefused(w: World, session: Option<SessionUser>, data: FormData, env: Env, gen: Generator)
    requires Authorized(session) && data.video.None?
    ensures var s := PostSpec(w, session, Success(data), env, gen);
      s.result == Response(BadRequest, ErrorBody(NoVideoMessage)) && s.world == w
  {
  }

  /** An authorized request whose body cannot be read as a form gets 500
      "Failed to process video: " followed by the parser's message, and
      changes nothing. */
  lemma UnreadableFormFails(w: World, session: Option<SessionUser>, error: string, env: Env, gen: Generator)
    requires Authorized(session)
    ensures var s := PostSpec(w, session, Failure(error), env, gen);
      s.result == Response(ServerError, ErrorBody(ProcessErrorPrefix + error)) && s.world == w
  {
  }

  /** A failed thumbnail ends the request with 500 "Failed to process video:
      Failed to generate thumbnail" after only the video was written: no
      metadata is generated (the answer does not depend on the generator)
      and no row is created. */
  lemma ThumbnailFailureIsFatal(w: World, session: Option<SessionUser>, form: Result<FormData, string>, env: Env,
                                gen: Generator, other: Generator)
    requires Admitted(session, form) && env.writeError.None? && env.thumbnail.Failure?
    ensures var s := PostSpec(w, session, form, env, gen);
      && s.result == Response(ServerError, ErrorBody(ProcessErrorPrefix + ThumbnailFailedMessage))
      && s == PostSpec(w, session, form, env, other)
      && s.world.videos == w.videos
      && s.world.files == w.files + {StagedPath(env.uploadDir, env.now, form.value.video.value.name)}
  {
  }

  /** A successful request: the row at the staged path is pending and holds
      the metadata generated for the context field (or the file name when
      the field is empty), within the schema bounds, with "Uncategorized"
      for a missing category; the response names the files by base name,
      the video's being the time-stamped file name. */
  lemma SuccessRecordsPendingVideo(w: World, session: Option<SessionUser>, data: FormData, env: Env, gen: Generator)
    requires Admitted(session, Success(data)) && '/' !in data.video.value.name
    requires PostSpec(w, session, Success(data), env, gen).result.status == Ok
    ensures var s := PostSpec(w, session, Success(data), env, gen);
      var video := data.video.value;
      var videoPath := StagedPath(env.uploadDir, env.now, video.name);
      var g := GenerateFor(gen, ContextFor(data.context, video.name));
      && env.writeError.None? && env.thumbnail.Success? && g.Success?
      && WithinBounds(g.value)
      && videoPath in s.world.videos
      && s.world.videos[videoPath].status == "PENDING"
      && s.world.videos[videoPath].userId == session.value.id.value
      && s.world.videos[videoPath].title == g.value.title
      && s.world.videos[videoPath].hashtags == g.value.hashtags
      && s.world.videos[videoPath].category == CategoryOf(g.value)
      && s.world.videos[videoPath].thumbnail == ThumbnailUrl(env.thumbnail.value)
      && s.result.body.videoPath == FileName(env.now, video.name)
      && s.result.body.thumbnail == ThumbnailName(env.thumbnail.value)
      && {videoPath, ThumbnailFile(env.cwd, env.thumbnail.value)} <= s.world.files
  {
    var video := data.video.value;
    StagedBasename(env.uploadDir, env.now, video.name);
    ThumbnailNaming(env.cwd, env.thumbnail.value);
  }

  /** A refused database write answers 500 with its own message and leaves
      the staged video and thumbnail on disk. */
  lemma DatabaseFailureKeepsFiles(w: World, session: Option<SessionUser>, data: FormData, env: Env, gen: Generator)
    requires Admitted(session, Success(data)) && env.writeError.None? && env.thumbnail.Success?
    requires GenerateFor(gen, ContextFor(data.context, data.video.value.name)).Success? && !env.databaseUp
    ensures var s := PostSpec(w, session, Success(data), env, gen);
      && s.result == Response(ServerError, ErrorBody(DatabaseFailedMessage))
      && s.world.videos == w.videos
      && StagedPath(env.uploadDir, env.now, data.video.value.name) in s.world.files
      && ThumbnailFile(env.cwd, env.thumbnail.value) in s.world.files
  {
  }

  /** The handler, step by step. */
  method Post(b: Backend, session: Option<SessionUser>, form: Result<FormData, string>, env: Env, gen: Generator)
    returns (response: Response)
    modifies b
    ensures Step(response, b.State()) == PostSpec(old(b.State()), session, form, env, gen)
  {
    ghost var w := b.State();
    if !Authorized(session) {
      return Response(Unauthorized, AuthRedirect(SignInPath));
    }
    if form.Failure? {
      return ProcessError(form.error);
    }
    var data := form.value;
    if data.video.None? {
      return Response(BadRequest, ErrorBody(NoVideoMessage));
    }
    var video := data.video.value;
    if video.size > MaxVideoBytes {
      return Response(BadRequest, ErrorBody(TooLargeMessage));
    }
    var context := ContextFor(data.context, video.name);
    ghost var staged := StageSpec(w, session.value.id.value, context, video, env, gen);
    assert PostSpec(w, session, form, env, gen) == staged;
    var videoPath := StagedPath(env.uploadDir, env.now, video.name);
    if env.writeError.Some? {
      return ProcessError(env.writeError.value);
    }
    b.files := b.files + {videoPath};
    b.log := b.log + [FileWritten(videoPath)];
    if env.thumbnail.Failure? {
      return ProcessError(ThumbnailFailedMessage);
    }
    var thumbnailFile := ThumbnailFile(env.cwd, env.thumbnail.value);
    b.files := b.files + {thumbnailFile};
    b.log := b.log + [FileWritten(thumbnailFile)];
    var thumbnailUrl := ThumbnailUrl(env.thumbnail.value);
    assert staged == RecordSpec(b.State(), session.value.id.value, videoPath, thumbnailUrl, context, env, gen);
    response := Record(b, session.value.id.value, videoPath, thumbnailUrl, context, env, gen);
  }

  /** The handler once both files are on disk: generate the metadata and
      create the video row. */
  method Record(b: Backend, userId: string, videoPath: string, thumbnailUrl: string, context: string, env: Env,
                gen: Generator)
    returns (response: Response)
    modifies b
    ensures Step(response, b.State()) == RecordSpec(old(b.State()), userId, videoPath, thumbnailUrl, context, env, gen)
  {
    var metadata, _, _ := OpenAi.GenerateMetadata(context, gen.retrieve(context), gen.modelEnv, gen.provider, gen.parse);
    if metadata.Failure? {
      return ProcessError(metadata.error);
    }
    var m := metadata.value;
    var category := CategoryOf(m);
    if !env.databaseUp || videoPath in b.videos {
      return Response(ServerError, ErrorBody(DatabaseFailedMessage));
    }
    b.videos := b.videos[videoPath := Video(userId, videoPath, m.title, m.description, thumbnailUrl,
                                            category, m.hashtags, PendingStatus, None, env.now)];
    b.log := b.log + [VideoCreated(videoPath)];
    response := Response(Ok, MetadataBody(m.title, m.description, Basename(thumbnailUrl), Basename(videoPath),
                                          m.hashtags, category));
  }
}
