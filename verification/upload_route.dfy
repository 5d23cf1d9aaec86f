/**
 * app/api/upload/route.ts: the POST handler that receives the video again
 * (formidable writes it to its own upload directory), publishes it with
 * lib/Youtube.ts and removes the uploaded video and the thumbnail file.
 */
module UploadRoute {
  import opened Common
  import opened JsText
  import opened MetadataSchema
  import opened Store
  import opened Auth
  import opened Http
  import opened YouTube

  const MissingFieldsMessage: string := "Missing required fields"
  const UploadFailedResponse: string := "Failed to upload video"
  const UploadedMessage: string := "Video uploaded successfully"
  const UploadPagePath: string := "/api/upload"

  /** What formidable hands over: every field's values, and the path it wrote
      the `video` file to, if one was sent. */
  datatype UploadForm = UploadForm(fields: map<string, seq<string>>, video: Option<string>)

  /** `fields.<key>?.[0]`. */
  function First(fields: map<string, seq<string>>, key: string): (v: Option<string>)
    ensures v.Some? <==> key in fields && |fields[key]| > 0
    ensures v.Some? ==> v.value == fields[key][0]
  {
    if key in fields && |fields[key]| > 0 then Some(fields[key][0]) else None
  }

  /** `fields.hashtags ? JSON.parse(fields.hashtags[0]) : []`; `None` when the
      parse throws (an empty list of values parses `undefined`, which throws). */
  function HashtagsOf(fields: map<string, seq<string>>, parse: string -> Option<Json>): (h: Option<Json>)
    ensures "hashtags" !in fields ==> h == Some(JArray([]))
    ensures "hashtags" in fields && |fields["hashtags"]| > 0 ==> h == parse(fields["hashtags"][0])
    ensures "hashtags" in fields && |fields["hashtags"]| == 0 ==> h.None?
  {
    if "hashtags" !in fields then Some(JArray([]))
    else if |fields["hashtags"]| == 0 then None
    else parse(fields["hashtags"][0])
  }

  /** `/api/auth/signin?callbackUrl=${encodeURIComponent(callbackPath)}`. */
  function SignInAndReturn(callbackPath: string): (url: string)
    ensures SignInPath + "?callbackUrl=" <= url
    ensures forall k | |SignInPath + "?callbackUrl="| <= k < |url| :: IsUnreserved(url[k]) || url[k] == '%'
  {
    EncodedTail(SignInPath + "?callbackUrl=", EncodeUriComponent(callbackPath));
    SignInPath + "?callbackUrl=" + EncodeUriComponent(callbackPath)
  }

  /** Text appended after a prefix keeps its characters. */
  lemma EncodedTail(prefix: string, tail: string)
    requires forall k | 0 <= k < |tail| :: IsUnreserved(tail[k]) || tail[k] == '%'
    ensures forall k | |prefix| <= k < |prefix + tail| :: IsUnreserved((prefix + tail)[k]) || (prefix + tail)[k] == '%'
  {
    forall k | |prefix| <= k < |prefix + tail|
      ensures IsUnreserved((prefix + tail)[k]) || (prefix + tail)[k] == '%'
    {
      assert (prefix + tail)[k] == tail[k - |prefix|];
    }
  }

  /** The two segments of the upload path need no escaping. */
  lemma PlainSegment(segment: string)
    requires segment == "api" || segment == "upload"
    ensures forall k :: 0 <= k < |segment| ==> IsUnreserved(segment[k])
  {
  }

  /** `encodeURIComponent("/api/upload")` escapes the two slashes only. */
  lemma EncodeUploadPath(path: string)
    requires path == UploadPagePath
    ensures EncodeUriComponent(path) == "%2F" + "api" + "%2F" + "upload"
  {
    PlainSegment("api");
    PlainSegment("upload");
    assert path == "/" + "api" + "/" + "upload";
    EncodeTwoSegments("api", "upload");
  }

  /** The sign-in link sends the visitor back to the upload endpoint. */
  lemma SignInAndReturnUrl(path: string)
    requires path == UploadPagePath
    ensures SignInAndReturn(path) == SignInPath + "?callbackUrl=" + "%2Fapi%2Fupload"
  {
    EncodeUploadPath(path);
    EncodedUploadPath("%2F" + "api" + "%2F" + "upload", "%2Fapi%2Fupload");
  }

  lemma EncodedUploadPath(pieces: string, whole: string)
    requires pieces == "%2F" + "api" + "%2F" + "upload" && whole == "%2Fapi%2Fupload"
    ensures pieces == whole
  {
  }

  /** `fs.unlink(path)`: removes the file, or `None` when there is none. */
  function Unlink(w: World, path: string): (r: Option<World>)
    ensures r.Some? <==> path in w.files
    ensures r.Some? ==> r.value.files == w.files - {path} && r.value.videos == w.videos && r.value.users == w.users
    ensures r.Some? ==> r.value.log == w.log + [FileRemoved(path)]
  {
    if path in w.files then Some(w.(files := w.files - {path}, log := w.log + [FileRemoved(path)])) else None
  }

  /** The world once formidable has written the uploaded video. */
  function Received(w: World, form: UploadForm): (r: World)
    ensures form.video.Some? ==> r.files == w.files + {form.video.value}
    ensures form.video.None? ==> r == w
    ensures r.users == w.users && r.videos == w.videos
  {
    if form.video.Some? then w.(files := w.files + {form.video.value}, log := w.log + [FileWritten(form.video.value)])
    else w
  }

  /** All four required inputs are present and non-empty. */
  predicate Complete(form: UploadForm): (ok: bool)
    ensures form.video.None? ==> !ok
    ensures ok ==> forall key | key in {"title", "description", "thumbnail"} ::
      First(form.fields, key).Some? && First(form.fields, key).value != []
  {
    form.video.Some? && Truthy(First(form.fields, "title")) && Truthy(First(form.fields, "description"))
    && Truthy(First(form.fields, "thumbnail"))
  }

  /** The `uploadVideo` call of a complete form: formidable's path, the
      `thumbnail`, `title` and `description` fields and the parsed hashtags
      are handed over. It leaves the files alone; on success the row at
      formidable's path holds the returned YouTube id, and a failure leaves
      the video table as it was. */
  function Publish(w: World, form: UploadForm, hashtags: Json, userId: string, now: int, answers: GoogleAnswers)
    : (up: Step<Result<string, string>>)
    requires Complete(form)
    ensures up.world.files == w.files
    ensures up.result.Failure? ==> up.world.videos == w.videos
    ensures up.result.Success? ==>
      && form.video.value in up.world.videos
      && up.world.videos[form.video.value].youtubeVideoId == Some(up.result.value)
      && up.world.videos[form.video.value].status == "uploaded"
  {
    var up := UploadSpec(w, form.video.value, First(form.fields, "thumbnail").value, First(form.fields, "title").value,
                         First(form.fields, "description").value, hashtags, userId, now, answers);
    if up.result.Success? then
      UploadSuccessEffects(w, form.video.value, First(form.fields, "thumbnail").value, First(form.fields, "title").value,
                           First(form.fields, "description").value, hashtags, userId, now, answers);
      up
    else up
  }

  /** From the `uploadVideo` call on: the sign-in redirect, the 500, or the
      two removals and the success answer. */
  function AfterUpload(up: Step<Result<string, string>>, videoPath: string, thumbnailPath: string): (s: Step<Response>)
    ensures up.result == Failure(NoTokensMessage) ==> s == Step(Response(Ok, AuthRedirect(SignInAndReturn(UploadPagePath))), up.world)
    ensures up.result.Failure? && up.result.error != NoTokensMessage ==>
      s == Step(Response(ServerError, ErrorBody(UploadFailedResponse)), up.world)
    ensures s.result.status == Ok && s.result.body.UploadedBody? <==>
      up.result.Success? && videoPath in up.world.files && thumbnailPath in up.world.files - {videoPath}
    ensures s.result.body.UploadedBody? ==>
      && s.result.body == UploadedBody(up.result.value, UploadedMessage)
      && s.world.files == up.world.files - {videoPath, thumbnailPath}
      && s.world.log == up.world.log + [FileRemoved(videoPath), FileRemoved(thumbnailPath)]
    ensures up.result.Success? && videoPath !in up.world.files ==>
      s == Step(Response(ServerError, ErrorBody(UploadFailedResponse)), up.world)
    ensures up.result.Success? && videoPath in up.world.files && thumbnailPath !in up.world.files - {videoPath} ==>
      && s.result == Response(ServerError, ErrorBody(UploadFailedResponse))
      && s.world.files == up.world.files - {videoPath}
      && s.world.log == up.world.log + [FileRemoved(videoPath)]
    ensures s.world.videos == up.world.videos && s.world.users == up.world.users
  {
    match up.result
    case Failure(e) =>
      if e == NoTokensMessage then Step(Response(Ok, AuthRedirect(SignInAndReturn(UploadPagePath))), up.world)
      else Step(Response(ServerError, ErrorBody(UploadFailedResponse)), up.world)
    case Success(videoId) =>
      match Unlink(up.world, videoPath)
      case None => Step(Response(ServerError, ErrorBody(UploadFailedResponse)), up.world)
      case Some(w1) =>
        match Unlink(w1, thumbnailPath)
        case None => Step(Response(ServerError, ErrorBody(UploadFailedResponse)), w1)
        case Some(w2) => Step(Response(Ok, UploadedBody(videoId, UploadedMessage)), w2)
  }

  /** `POST /api/upload`: the response and the world after it. The answer is
      200, 400, 401 or 500; only a complete form with parseable hashtags
      reaches YouTube, so only such a form can change the video table; and
      the only file the handler ever adds is the one formidable received. */
  function PostSpec(w: World, session: Option<SessionUser>, form: Result<UploadForm, string>,
                    parse: string -> Option<Json>, now: int, answers: GoogleAnswers): (s: Step<Response>)
    ensures s.result.status in {Ok, BadRequest, Unauthorized, ServerError}
    ensures s.world.videos != w.videos ==>
      && session.Some? && Truthy(session.value.id) && form.Success? && Complete(form.value)
      && HashtagsOf(form.value.fields, parse).Some?
    ensures s.world.files - w.files <= (if form.Success? && form.value.video.Some? then {form.value.video.value} else {})
  {
    if session.None? || !Truthy(session.value.id) then Step(Response(Unauthorized, AuthRedirect(SignInPath)), w)
    else match form
    case Failure(_) => Step(Response(ServerError, ErrorBody(UploadFailedResponse)), w)
    case Success(f) =>
      var received := Received(w, f);
      match HashtagsOf(f.fields, parse)
      case None => Step(Response(ServerError, ErrorBody(UploadFailedResponse)), received)
      case Some(hashtags) =>
        if !Complete(f) then Step(Response(BadRequest, ErrorBody(MissingFieldsMessage)), received)
        else
          AfterUpload(Publish(received, f, hashtags, session.value.id.value, now, answers),
                      f.video.value, First(f.fields, "thumbnail").value)
  }

  /** 401 exactly without a session holding a user id, and then nothing changes. */
  lemma UnauthorizedExactly(w: World, session: Option<SessionUser>, form: Result<UploadForm, string>,
                            parse: string -> Option<Json>, now: int, answers: GoogleAnswers)
    ensures var s := PostSpec(w, session, form, parse, now, answers);
      && (s.result.status == Unauthorized <==> session.None? || !Truthy(session.value.id))
      && (s.result.status == Unauthorized ==> s == Step(Response(401, AuthRedirect(SignInPath)), w))
  {
    var s := PostSpec(w, session, form, parse, now, answers);
    if session.Some? && Truthy(session.value.id) && form.Success? {
      var f := form.value;
      if HashtagsOf(f.fields, parse).Some? && Complete(f) {
        var up := Publish(Received(w, f), f, HashtagsOf(f.fields, parse).value, session.value.id.value, now, answers);
        assert s == AfterUpload(up, f.video.value, First(f.fields, "thumbnail").value);
      }
    }
  }

  /** A request formidable cannot parse, or whose `hashtags` field is not
      JSON, reaches the outer `catch`: 500 "Failed to upload video" before
      `uploadVideo` is called, with at most the received video written. */
  lemma UnreadableUploadFails(w: World, session: Option<SessionUser>, form: Result<UploadForm, string>,
                              parse: string -> Option<Json>, now: int, answers: GoogleAnswers)
    requires session.Some? && Truthy(session.value.id)
    requires form.Failure? || HashtagsOf(form.value.fields, parse).None?
    ensures var s := PostSpec(w, session, form, parse, now, answers);
      && s.result == Response(ServerError, ErrorBody(UploadFailedResponse))
      && s.world == (if form.Success? then Received(w, form.value) else w)
      && s.world.users == w.users && s.world.videos == w.videos && s.world.credentials == w.credentials
  {
  }

  /** A form missing the video, the title, the description or the thumbnail
      (with parseable hashtags) gets 400 "Missing required fields"; nothing
      is published and the video formidable wrote stays on disk. */
  lemma MissingFieldsRefused(w: World, session: Option<SessionUser>, f: UploadForm,
                             parse: string -> Option<Json>, now: int, answers: GoogleAnswers)
    requires session.Some? && Truthy(session.value.id)
    requires HashtagsOf(f.fields, parse).Some? && !Complete(f)
    ensures var s := PostSpec(w, session, Success(f), parse, now, answers);
      && s.result == Response(BadRequest, ErrorBody(MissingFieldsMessage))
      && s.world == Received(w, f)
      && (f.video.Some? ==> f.video.value in s.world.files)
  {
  }

  /** "No tokens found for user" turns into a 200 answer whose sign-in link
      returns to the upload endpoint; the uploaded video stays on disk. */
  lemma NoTokensRedirects(w: World, session: Option<SessionUser>, f: UploadForm,
                          parse: string -> Option<Json>, now: int, answers: GoogleAnswers)
    requires session.Some? && Truthy(session.value.id)
    requires HashtagsOf(f.fields, parse).Some? && Complete(f)
    requires !HasTokens(Received(w, f), session.value.id.value)
    ensures var s := PostSpec(w, session, Success(f), parse, now, answers);
      && s.result == Response(200, AuthRedirect(SignInPath + "?callbackUrl=" + "%2Fapi%2Fupload"))
      && s.world == Received(w, f)
  {
    var received := Received(w, f);
    var hashtags := HashtagsOf(f.fields, parse).value;
    var thumbnail := First(f.fields, "thumbnail").value;
    NoTokensExactly(received, f.video.value, thumbnail, First(f.fields, "title").value,
                    First(f.fields, "description").value, hashtags, session.value.id.value, now, answers);
    var up := Publish(received, f, hashtags, session.value.id.value, now, answers);
    assert up == Step(Failure(NoTokensMessage), received);
    var s := PostSpec(w, session, Success(f), parse, now, answers);
    assert s == AfterUpload(up, f.video.value, thumbnail);
    assert s == Step(Response(Ok, AuthRedirect(SignInAndReturn(UploadPagePath))), received);
    SignInAndReturnUrl(UploadPagePath);
  }

  /** Any other failure of `uploadVideo` gives 500 "Failed to upload video"
      and removes no file. */
  lemma OtherFailuresRemoveNothing(w: World, session: Option<SessionUser>, f: UploadForm,
                                   parse: string -> Option<Json>, now: int, answers: GoogleAnswers)
    requires session.Some? && Truthy(session.value.id)
    requires HashtagsOf(f.fields, parse).Some? && Complete(f)
    requires var up := Publish(Received(w, f), f, HashtagsOf(f.fields, parse).value, session.value.id.value, now, answers);
      up.result.Failure? && up.result.error != NoTokensMessage
    ensures var s := PostSpec(w, session, Success(f), parse, now, answers);
      && s.result == Response(ServerError, ErrorBody(UploadFailedResponse))
      && s.world.files == w.files + {f.video.value}
      && forall e | e in s.world.log[|w.log|..] :: !e.FileRemoved?
  {
    var received := Received(w, f);
    var up := Publish(received, f, HashtagsOf(f.fields, parse).value, session.value.id.value, now, answers);
    var s := PostSpec(w, session, Success(f), parse, now, answers);
    assert s.world == up.world;
    assert received.log == w.log + [FileWritten(f.video.value)];
    var later := up.world.log[|received.log|..];
    assert up.world.log[|w.log|..] == [FileWritten(f.video.value)] + later;
    forall e | e in later ensures !e.FileRemoved? {
      var k :| 0 <= k < |later| && later[k] == e;
      assert e == up.world.log[|received.log| + k];
    }
  }

  /** A successful request published the video, removed both files and
      answers 200 with the YouTube id. The thumbnail field must name a file
      already on disk, other than the received video. */
  lemma SuccessRemovesBothFiles(w: World, session: Option<SessionUser>, f: UploadForm,
                                parse: string -> Option<Json>, now: int, answers: GoogleAnswers)
    requires session.Some? && Truthy(session.value.id)
    requires PostSpec(w, session, Success(f), parse, now, answers).result.body.UploadedBody?
    ensures var s := PostSpec(w, session, Success(f), parse, now, answers);
      && Complete(f)
      && s.result == Response(200, UploadedBody(answers.insert.value, "Video uploaded successfully"))
      && f.video.value !in s.world.files
      && First(f.fields, "thumbnail").value !in s.world.files
      && First(f.fields, "thumbnail").value in w.files && First(f.fields, "thumbnail").value != f.video.value
      && s.world.videos[f.video.value].youtubeVideoId == Some(answers.insert.value)
  {
    var s := PostSpec(w, session, Success(f), parse, now, answers);
    var received := Received(w, f);
    var hashtags := HashtagsOf(f.fields, parse).value;
    var up := Publish(received, f, hashtags, session.value.id.value, now, answers);
    UploadSuccessEffects(received, f.video.value, First(f.fields, "thumbnail").value, First(f.fields, "title").value,
                         First(f.fields, "description").value, hashtags, session.value.id.value, now, answers);
  }

  /** `thumbnails.set` streams the file the `thumbnail` field names, so when
      no such file is on disk (a bare name, say, where the thumbnail lives
      under another directory) the upload fails: no 200 with a video id, no
      row update, and the received video stays. */
  lemma MissingThumbnailFails(w: World, session: Option<SessionUser>, f: UploadForm,
                              parse: string -> Option<Json>, now: int, answers: GoogleAnswers)
    requires session.Some? && Truthy(session.value.id)
    requires HashtagsOf(f.fields, parse).Some? && Complete(f)
    requires First(f.fields, "thumbnail").value !in w.files + {f.video.value}
    ensures var s := PostSpec(w, session, Success(f), parse, now, answers);
      && !s.result.body.UploadedBody?
      && s.world.videos == w.videos
      && s.world.files == w.files + {f.video.value}
  {
    var received := Received(w, f);
    var hashtags := HashtagsOf(f.fields, parse).value;
    var thumbnail := First(f.fields, "thumbnail").value;
    UploadSucceedsExactly(received, f.video.value, thumbnail, First(f.fields, "title").value,
                          First(f.fields, "description").value, hashtags, session.value.id.value, now, answers);
    var up := Publish(received, f, hashtags, session.value.id.value, now, answers);
    assert up.result.Failure?;
  }

  /** The video is received under a path of formidable's choosing; when no
      `Video` row has that path, the request fails with 500 even though the
      video went to YouTube and its thumbnail was requested. */
  lemma UnknownPathFailsAfterPublishing(w: World, session: Option<SessionUser>, f: UploadForm,
                                        parse: string -> Option<Json>, now: int, answers: GoogleAnswers)
    requires session.Some? && Truthy(session.value.id)
    requires HashtagsOf(f.fields, parse).Some? && Complete(f)
    requires HasTokens(Received(w, f), session.value.id.value)
    requires !Expired(Received(w, f).users[FindById(Received(w, f).users, session.value.id.value).value].expiryDate, now)
    requires answers.insert.Some? && answers.thumbnailSet && f.video.value !in w.videos
    ensures var s := PostSpec(w, session, Success(f), parse, now, answers);
      && s.result == Response(ServerError, ErrorBody(UploadFailedResponse))
      && ThumbnailRequested(answers.insert.value, First(f.fields, "thumbnail").value) in s.world.log
  {
    var received := Received(w, f);
    var hashtags := HashtagsOf(f.fields, parse).value;
    var thumbnail := First(f.fields, "thumbnail").value;
    var up := Publish(received, f, hashtags, session.value.id.value, now, answers);
    var a := Armed(received, session.value.id.value, now, answers);
    var pe := PublishEvents(f.video.value, thumbnail, First(f.fields, "title").value, First(f.fields, "description").value,
                            hashtags, Streamed(a.world.files, f.video.value, thumbnail, answers), false);
    assert up.world.log == a.world.log + pe;
    assert pe[1] == ThumbnailRequested(answers.insert.value, thumbnail);
    assert up.world.log[|a.world.log| + 1] == pe[1];
  }

  /** The handler, step by step. */
  method Post(b: Backend, session: Option<SessionUser>, form: Result<UploadForm, string>,
              parse: string -> Option<Json>, now: int, answers: GoogleAnswers)
    returns (response: Response)
    modifies b
    ensures Step(response, b.State()) == PostSpec(old(b.State()), session, form, parse, now, answers)
  {
    if session.None? || !Truthy(session.value.id) {
      return Response(Unauthorized, AuthRedirect(SignInPath));
    }
    if form.Failure? {
      return Response(ServerError, ErrorBody(UploadFailedResponse));
    }
    var f := form.value;
    if f.video.Some? {
      b.files := b.files + {f.video.value};
      b.log := b.log + [FileWritten(f.video.value)];
    }
    var hashtags := HashtagsOf(f.fields, parse);
    if hashtags.None? {
      return Response(ServerError, ErrorBody(UploadFailedResponse));
    }
    var title := First(f.fields, "title");
    var description := First(f.fields, "description");
    var thumbnail := First(f.fields, "thumbnail");
    if f.video.None? || !Truthy(title) || !Truthy(description) || !Truthy(thumbnail) {
      return Response(BadRequest, ErrorBody(MissingFieldsMessage));
    }
    var videoPath := f.video.value;
    var uploaded := UploadVideo(b, videoPath, thumbnail.value, title.value, description.value, hashtags.value,
                                session.value.id.value, now, answers);
    if uploaded.Failure? {
      if uploaded.error == NoTokensMessage {
        return Response(Ok, AuthRedirect(SignInAndReturn(UploadPagePath)));
      }
      return Response(ServerError, ErrorBody(UploadFailedResponse));
    }
    if videoPath !in b.files {
      return Response(ServerError, ErrorBody(UploadFailedResponse));
    }
    b.files := b.files - {videoPath};
    b.log := b.log + [FileRemoved(videoPath)];
    if thumbnail.value !in b.files {
      return Response(ServerError, ErrorBody(UploadFailedResponse));
    }
    b.files := b.files - {thumbnail.value};
    b.log := b.log + [FileRemoved(thumbnail.value)];
    response := Response(Ok, UploadedBody(uploaded.value, UploadedMessage));
  }
}
