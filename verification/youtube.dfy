/**
 * lib/Youtube.ts: refreshing a user's Google access token and publishing a
 * staged video on YouTube. Both work through the one module-level OAuth2
 * client, whose credentials they overwrite, and through the `User` and
 * `Video` tables. Google's answers are parameters: the credentials a refresh
 * gives back (`None` when it fails), the id `videos.insert` gives back
 * (`None` when it fails) and whether `thumbnails.set` succeeds. Both
 * requests stream their file from disk, so either fails when its file is
 * not in the store's `files`, whatever Google would have answered.
 */
module YouTube {
  import opened Common
  import opened MetadataSchema
  import opened Store

  const RefreshFailedMessage: string := "Failed to refresh access token"
  const NoTokensMessage: string := "No tokens found for user"
  const UploadFailedMessage: string := "Failed to upload video to YouTube"
  const UploadedStatus: string := "uploaded"
  /** YouTube's "People & Blogs" category. */
  const CategoryId: string := "22"
  const Language: string := "en"
  const Privacy: string := "private"

  /** What Google answers during one `uploadVideo` call. */
  datatype GoogleAnswers = GoogleAnswers(refresh: Option<Credentials>, insert: Option<string>, thumbnailSet: bool)

  /** `user.expiryDate && user.expiryDate < Date.now()`: a missing expiry,
      or the falsy 0, never asks for a refresh; any other expiry does once
      it lies in the past. */
  predicate Expired(expiry: Option<int>, now: int): (due: bool)
    ensures expiry.None? || expiry == Some(0) ==> !due
    ensures expiry.Some? && expiry.value != 0 ==> (due <==> expiry.value < now)
  {
    expiry.Some? && expiry.value != 0 && expiry.value < now
  }

  /** Once a token is due for a refresh it stays due. */
  lemma ExpiryLasts(expiry: Option<int>, now: int, later: int)
    requires Expired(expiry, now) && now <= later
    ensures Expired(expiry, later)
  {
  }

  /** The row `refreshAccessToken` leaves behind for the refreshed credentials `c`. */
  function Refreshed(user: User, c: Credentials, now: int): (u: User)
    ensures u.id == user.id && u.email == user.email && u.refreshToken == user.refreshToken
    ensures u.accessToken == c.accessToken && u.expiryDate == c.expiryDate && u.updatedAt == now
  {
    user.(accessToken := c.accessToken, expiryDate := c.expiryDate, updatedAt := now)
  }

  /** `refreshAccessToken(userId)`: the new credentials or the message thrown. */
  function RefreshSpec(w: World, userId: string, now: int, answer: Option<Credentials>): (s: Step<Result<Credentials, string>>)
    ensures s.result.Success? <==>
      FindById(w.users, userId).Some? && Truthy(w.users[FindById(w.users, userId).value].refreshToken) && answer.Some?
    ensures s.result.Failure? ==> s.result.error == RefreshFailedMessage && s.world.users == w.users
    ensures s.result.Success? ==>
      var i := FindById(w.users, userId).value;
      && s.result.value == answer.value
      && s.world.credentials == answer.value
      && s.world.users == w.users[i := Refreshed(w.users[i], answer.value, now)]
      && s.world.log == w.log + [RefreshRequested(w.users[i].refreshToken.value), UserUpdated(userId)]
    ensures s.world.videos == w.videos && s.world.files == w.files && w.log <= s.world.log
  {
    match FindById(w.users, userId)
    case None => Step(Failure(RefreshFailedMessage), w)
    case Some(i) =>
      var user := w.users[i];
      if !Truthy(user.refreshToken) then Step(Failure(RefreshFailedMessage), w)
      else
        var asked := w.(credentials := Credentials(None, user.refreshToken, None),
                        log := w.log + [RefreshRequested(user.refreshToken.value)]);
        match answer
        case None => Step(Failure(RefreshFailedMessage), asked)
        case Some(c) =>
          Step(Success(c), asked.(users := w.users[i := Refreshed(user, c, now)], credentials := c,
                                  log := asked.log + [UserUpdated(userId)]))
  }

  /** A refresh never breaks the uniqueness of user ids and emails. */
  lemma RefreshKeepsUniqueKeys(w: World, userId: string, now: int, answer: Option<Credentials>)
    requires UniqueKeys(w.users)
    ensures UniqueKeys(RefreshSpec(w, userId, now, answer).world.users)
  {
    var s := RefreshSpec(w, userId, now, answer);
    if s.result.Success? {
      var i := FindById(w.users, userId).value;
      UpdateKeepsUniqueKeys(w.users, i, Refreshed(w.users[i], answer.value, now));
    }
  }

  /** Google's answers as the `try` block sees them: `createReadStream` of a
      path that is not on disk makes the request that streams it fail. */
  function Streamed(files: set<string>, videoPath: string, thumbnailPath: string, answers: GoogleAnswers): (g: GoogleAnswers)
    ensures g.insert.Some? <==> answers.insert.Some? && videoPath in files
    ensures g.insert.Some? ==> g.insert == answers.insert
    ensures g.thumbnailSet <==> answers.thumbnailSet && thumbnailPath in files
  {
    answers.(insert := if videoPath in files then answers.insert else None,
             thumbnailSet := answers.thumbnailSet && thumbnailPath in files)
  }

  /** The `videos.insert` request for a video. */
  function InsertRequestFor(videoPath: string, title: string, description: string, hashtags: Json): (req: InsertRequest)
    ensures req.title == title && req.description == description && req.tags == hashtags
    ensures req.categoryId == "22" && req.privacyStatus == "private" && req.media == videoPath
  {
    InsertRequest(title, description, hashtags, CategoryId, Language, Language, Privacy, videoPath)
  }

  /** The part of `uploadVideo` inside its `try`: insert, set the thumbnail,
      record the YouTube id on the video row. Each upload reads its file
      from disk, so a success needs both files there. */
  function PublishSpec(w: World, videoPath: string, thumbnailPath: string, title: string, description: string,
                       hashtags: Json, now: int, answers: GoogleAnswers): (s: Step<Result<string, string>>)
    ensures s.result.Success? <==>
      && answers.insert.Some? && answers.thumbnailSet && videoPath in w.videos
      && videoPath in w.files && thumbnailPath in w.files
    ensures s.result.Failure? ==> s.result.error == UploadFailedMessage && s.world.videos == w.videos
    ensures s.result.Success? ==>
      && s.result.value == answers.insert.value
      && s.world.videos == w.videos[videoPath := w.videos[videoPath].(
           youtubeVideoId := Some(answers.insert.value), status := "uploaded", updatedAt := now)]
    ensures s.world.users == w.users && s.world.files == w.files && s.world.credentials == w.credentials
    ensures s.world.log == w.log + PublishEvents(videoPath, thumbnailPath, title, description, hashtags,
                                                 Streamed(w.files, videoPath, thumbnailPath, answers), videoPath in w.videos)
  {
    var g := Streamed(w.files, videoPath, thumbnailPath, answers);
    var request := InsertRequestFor(videoPath, title, description, hashtags);
    var inserted := w.(log := w.log + [InsertRequested(request)]);
    match g.insert
    case None => Step(Failure(UploadFailedMessage), inserted)
    case Some(id) =>
      var asked := inserted.(log := inserted.log + [ThumbnailRequested(id, thumbnailPath)]);
      if !g.thumbnailSet || videoPath !in w.videos then Step(Failure(UploadFailedMessage), asked)
      else
        var v := w.videos[videoPath].(youtubeVideoId := Some(id), status := UploadedStatus, updatedAt := now);
        Step(Success(id), asked.(videos := w.videos[videoPath := v], log := asked.log + [VideoUpdated(videoPath)]))
  }

  /** The effects of the `try` block, in order: the insert request; the
      thumbnail request only once the insert gave an id; the row update only
      once both succeeded. */
  function PublishEvents(videoPath: string, thumbnailPath: string, title: string, description: string,
                         hashtags: Json, answers: GoogleAnswers, rowExists: bool): (events: seq<Event>)
    ensures 1 <= |events| <= 3
    ensures events[0] == InsertRequested(InsertRequestFor(videoPath, title, description, hashtags))
    ensures |events| >= 2 <==> answers.insert.Some?
    ensures |events| >= 2 ==> events[1] == ThumbnailRequested(answers.insert.value, thumbnailPath)
    ensures |events| == 3 <==> answers.insert.Some? && answers.thumbnailSet && rowExists
    ensures |events| == 3 ==> events[2] == VideoUpdated(videoPath)
  {
    [InsertRequested(InsertRequestFor(videoPath, title, description, hashtags))]
    + (match answers.insert
       case None => []
       case Some(id) =>
         [ThumbnailRequested(id, thumbnailPath)]
         + (if answers.thumbnailSet && rowExists then [VideoUpdated(videoPath)] else []))
  }

  /** The user can publish: a row exists and has a truthy access token. */
  predicate HasTokens(w: World, userId: string): (ok: bool)
    ensures ok ==> exists i | 0 <= i < |w.users| :: w.users[i].id == userId && Truthy(w.users[i].accessToken)
    ensures UniqueKeys(w.users) && (exists i | 0 <= i < |w.users| :: w.users[i].id == userId && Truthy(w.users[i].accessToken))
      ==> ok
  {
    FindById(w.users, userId).Some? && Truthy(w.users[FindById(w.users, userId).value].accessToken)
  }

  /** What `uploadVideo` hands to the `try` block: the store after the
      credentials are set and any refresh has succeeded. */
  function Armed(w: World, userId: string, now: int, answers: GoogleAnswers): (a: Step<Result<Credentials, string>>)
    requires HasTokens(w, userId)
    ensures a.world.videos == w.videos && a.world.files == w.files && w.log <= a.world.log
    ensures a.result.Failure? ==> a.result.error == RefreshFailedMessage && a.world.users == w.users
    ensures var user := w.users[FindById(w.users, userId).value];
      !Expired(user.expiryDate, now) ==>
        a == Step(Success(Credentials(user.accessToken, user.refreshToken, user.expiryDate)),
                  w.(credentials := Credentials(user.accessToken, user.refreshToken, user.expiryDate)))
    ensures forall k | |w.log| <= k < |a.world.log| :: a.world.log[k].RefreshRequested? || a.world.log[k].UserUpdated?
  {
    var user := w.users[FindById(w.users, userId).value];
    var armed := w.(credentials := Credentials(user.accessToken, user.refreshToken, user.expiryDate));
    if Expired(user.expiryDate, now) then RefreshSpec(armed, userId, now, answers.refresh)
    else Step(Success(armed.credentials), armed)
  }

  /** `uploadVideo(videoPath, thumbnailPath, title, description, hashtags, userId)`:
      the YouTube id or the message thrown. */
  function UploadSpec(w: World, videoPath: string, thumbnailPath: string, title: string, description: string,
                      hashtags: Json, userId: string, now: int, answers: GoogleAnswers): (s: Step<Result<string, string>>)
    ensures !HasTokens(w, userId) ==> s == Step(Failure(NoTokensMessage), w)
    ensures s.result.Failure? ==>
      s.result.error in {NoTokensMessage, RefreshFailedMessage, UploadFailedMessage} && s.world.videos == w.videos
    ensures s.world.files == w.files && w.log <= s.world.log
    ensures forall k | |w.log| <= k < |s.world.log| :: !s.world.log[k].FileRemoved?
  {
    if !HasTokens(w, userId) then Step(Failure(NoTokensMessage), w)
    else
      var armed := Armed(w, userId, now, answers);
      if armed.result.Failure? then Step(Failure(armed.result.error), armed.world)
      else PublishSpec(armed.world, videoPath, thumbnailPath, title, description, hashtags, now, answers)
  }

  /** "No tokens found for user" is thrown exactly when the user has no row or
      no access token, and then nothing has happened. */
  lemma NoTokensExactly(w: World, videoPath: string, thumbnailPath: string, title: string, description: string,
                        hashtags: Json, userId: string, now: int, answers: GoogleAnswers)
    ensures var s := UploadSpec(w, videoPath, thumbnailPath, title, description, hashtags, userId, now, answers);
      (s.result == Failure(NoTokensMessage) <==> !HasTokens(w, userId))
      && (!HasTokens(w, userId) ==> s.world == w)
  {
    assert NoTokensMessage != RefreshFailedMessage && NoTokensMessage != UploadFailedMessage;
  }

  /** A refresh is requested exactly when the user has tokens, the stored
      expiry is set and in the past, and the row holds a refresh token; a
      successful refresh writes the user row before the insert request. */
  lemma RefreshOnlyWhenExpired(w: World, videoPath: string, thumbnailPath: string, title: string, description: string,
                               hashtags: Json, userId: string, now: int, answers: GoogleAnswers)
    requires HasTokens(w, userId)
    ensures var s := UploadSpec(w, videoPath, thumbnailPath, title, description, hashtags, userId, now, answers);
      var user := w.users[FindById(w.users, userId).value];
      var events := s.world.log[|w.log|..];
      && (Expired(user.expiryDate, now) && Truthy(user.refreshToken) <==> |events| > 0 && events[0].RefreshRequested?)
      && (Expired(user.expiryDate, now) && Truthy(user.refreshToken) && answers.refresh.Some? ==>
            events[..3] == [RefreshRequested(user.refreshToken.value), UserUpdated(userId),
                            InsertRequested(InsertRequestFor(videoPath, title, description, hashtags))])
  {
    var s := UploadSpec(w, videoPath, thumbnailPath, title, description, hashtags, userId, now, answers);
    var i := FindById(w.users, userId).value;
    var user := w.users[i];
    var armed := w.(credentials := Credentials(user.accessToken, user.refreshToken, user.expiryDate));
    var pe := PublishEvents(videoPath, thumbnailPath, title, description, hashtags,
                            Streamed(w.files, videoPath, thumbnailPath, answers), videoPath in w.videos);
    if Expired(user.expiryDate, now) {
      var refreshed := RefreshSpec(armed, userId, now, answers.refresh);
      if refreshed.result.Success? {
        var pre := [RefreshRequested(user.refreshToken.value), UserUpdated(userId)];
        assert refreshed.world.log == w.log + pre;
        assert s.world.log == w.log + pre + pe;
        assert s.world.log[|w.log|..] == pre + pe;
      } else if Truthy(user.refreshToken) {
        assert s.world.log == w.log + [RefreshRequested(user.refreshToken.value)];
      } else {
        assert s.world.log == w.log;
      }
    } else {
      assert s.world.log == w.log + pe;
      assert s.world.log[|w.log|..] == pe;
    }
  }

  /** `uploadVideo` returns an id exactly when the user has tokens, any due
      refresh succeeds, both files are on disk, the insert and the thumbnail
      succeed and a video row has the given path. */
  lemma UploadSucceedsExactly(w: World, videoPath: string, thumbnailPath: string, title: string, description: string,
                              hashtags: Json, userId: string, now: int, answers: GoogleAnswers)
    ensures UploadSpec(w, videoPath, thumbnailPath, title, description, hashtags, userId, now, answers).result.Success?
      <==>
        && HasTokens(w, userId)
        && (Expired(w.users[FindById(w.users, userId).value].expiryDate, now) ==>
              Truthy(w.users[FindById(w.users, userId).value].refreshToken) && answers.refresh.Some?)
        && answers.insert.Some? && answers.thumbnailSet && videoPath in w.videos
        && videoPath in w.files && thumbnailPath in w.files
  {
  }

  /** A due refresh that fails (no refresh token, or Google refuses) is
      called outside the `try`, so its "Failed to refresh access token"
      escapes unwrapped: no insert or thumbnail request follows, and the
      user and video tables are as they were. */
  lemma RefreshFailureStops(w: World, videoPath: string, thumbnailPath: string, title: string, description: string,
                            hashtags: Json, userId: string, now: int, answers: GoogleAnswers)
    requires HasTokens(w, userId)
    requires var user := w.users[FindById(w.users, userId).value];
      Expired(user.expiryDate, now) && !(Truthy(user.refreshToken) && answers.refresh.Some?)
    ensures var s := UploadSpec(w, videoPath, thumbnailPath, title, description, hashtags, userId, now, answers);
      && s.result == Failure(RefreshFailedMessage)
      && s.world.users == w.users && s.world.videos == w.videos
      && forall k | |w.log| <= k < |s.world.log| ::
           !s.world.log[k].InsertRequested? && !s.world.log[k].ThumbnailRequested?
  {
  }

  /** A successful `uploadVideo` returns the inserted id, the row holds that id
      and status "uploaded", and the last three effects are the insert (tags =
      hashtags, category "22", private), the thumbnail request for that id and
      the row update. */
  lemma UploadSuccessEffects(w: World, videoPath: string, thumbnailPath: string, title: string, description: string,
                             hashtags: Json, userId: string, now: int, answers: GoogleAnswers)
    requires UploadSpec(w, videoPath, thumbnailPath, title, description, hashtags, userId, now, answers).result.Success?
    ensures var s := UploadSpec(w, videoPath, thumbnailPath, title, description, hashtags, userId, now, answers);
      && s.result.value == answers.insert.value
      && videoPath in s.world.videos
      && s.world.videos[videoPath].youtubeVideoId == Some(answers.insert.value)
      && s.world.videos[videoPath].status == "uploaded"
      && |s.world.log| >= |w.log| + 3
      && s.world.log[|s.world.log| - 3..] == [
           InsertRequested(InsertRequestFor(videoPath, title, description, hashtags)),
           ThumbnailRequested(answers.insert.value, thumbnailPath),
           VideoUpdated(videoPath)]
  {
    var s := UploadSpec(w, videoPath, thumbnailPath, title, description, hashtags, userId, now, answers);
    var a := Armed(w, userId, now, answers);
    assert s == PublishSpec(a.world, videoPath, thumbnailPath, title, description, hashtags, now, answers);
    var pe := PublishEvents(videoPath, thumbnailPath, title, description, hashtags,
                            Streamed(a.world.files, videoPath, thumbnailPath, answers), true);
    assert s.world.log == a.world.log + pe;
    assert s.world.log[|s.world.log| - 3..] == pe;
  }

  /** Nothing `uploadVideo` does breaks the uniqueness of user ids and emails. */
  lemma UploadKeepsUniqueKeys(w: World, videoPath: string, thumbnailPath: string, title: string, description: string,
                              hashtags: Json, userId: string, now: int, answers: GoogleAnswers)
    requires UniqueKeys(w.users)
    ensures UniqueKeys(UploadSpec(w, videoPath, thumbnailPath, title, description, hashtags, userId, now, answers).world.users)
  {
    if HasTokens(w, userId) {
      var user := w.users[FindById(w.users, userId).value];
      var armed := w.(credentials := Credentials(user.accessToken, user.refreshToken, user.expiryDate));
      RefreshKeepsUniqueKeys(armed, userId, now, answers.refresh);
    }
  }

  /** `refreshAccessToken`, acting on the shared client and the store. */
  method RefreshAccessToken(b: Backend, userId: string, now: int, answer: Option<Credentials>)
    returns (r: Result<Credentials, string>)
    modifies b
    ensures Step(r, b.State()) == RefreshSpec(old(b.State()), userId, now, answer)
  {
    var found := FindById(b.users, userId);
    if found.None? || !Truthy(b.users[found.value].refreshToken) {
      return Failure(RefreshFailedMessage);
    }
    var i := found.value;
    var user := b.users[i];
    b.credentials := Credentials(None, user.refreshToken, None);
    b.log := b.log + [RefreshRequested(user.refreshToken.value)];
    if answer.None? {
      return Failure(RefreshFailedMessage);
    }
    var c := answer.value;
    b.users := b.users[i := Refreshed(user, c, now)];
    b.log := b.log + [UserUpdated(userId)];
    b.credentials := c;
    r := Success(c);
  }

  /** `uploadVideo`, acting on the shared client and the store. */
  method UploadVideo(b: Backend, videoPath: string, thumbnailPath: string, title: string, description: string,
                     hashtags: Json, userId: string, now: int, answers: GoogleAnswers)
    returns (r: Result<string, string>)
    modifies b
    ensures Step(r, b.State()) ==
      UploadSpec(old(b.State()), videoPath, thumbnailPath, title, description, hashtags, userId, now, answers)
  {
    ghost var w := b.State();
    var found := FindById(b.users, userId);
    if found.None? || !Truthy(b.users[found.value].accessToken) {
      return Failure(NoTokensMessage);
    }
    ghost var armed := Armed(w, userId, now, answers);
    var user := b.users[found.value];
    b.credentials := Credentials(user.accessToken, user.refreshToken, user.expiryDate);
    if Expired(user.expiryDate, now) {
      var refreshed := RefreshAccessToken(b, userId, now, answers.refresh);
      if refreshed.Failure? {
        return Failure(refreshed.error);
      }
    }
    assert armed.result.Success? && b.State() == armed.world;
    r := Publish(b, videoPath, thumbnailPath, title, description, hashtags, now, answers);
  }

  /** The `try` block of `uploadVideo`: insert, set the thumbnail, update the row. */
  method Publish(b: Backend, videoPath: string, thumbnailPath: string, title: string, description: string,
                 hashtags: Json, now: int, answers: GoogleAnswers)
    returns (r: Result<string, string>)
    modifies b
    ensures Step(r, b.State()) ==
      PublishSpec(old(b.State()), videoPath, thumbnailPath, title, description, hashtags, now, answers)
  {
    b.log := b.log + [InsertRequested(InsertRequestFor(videoPath, title, description, hashtags))];
    if answers.insert.None? || videoPath !in b.files {
      return Failure(UploadFailedMessage);
    }
    var id := answers.insert.value;
    b.log := b.log + [ThumbnailRequested(id, thumbnailPath)];
    if !answers.thumbnailSet || thumbnailPath !in b.files || videoPath !in b.videos {
      return Failure(UploadFailedMessage);
    }
    b.videos := b.videos[videoPath := b.videos[videoPath].(youtubeVideoId := Some(id), status := UploadedStatus, updatedAt := now)];
    b.log := b.log + [VideoUpdated(videoPath)];
    r := Success(id);
  }
}
