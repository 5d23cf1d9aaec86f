/**
 * The JSON responses the two route handlers return (`NextResponse.json`,
 * whose status is 200 unless given).
 */
module Http {
  datatype Body =
    | AuthRedirect(authUrl: string)
    | ErrorBody(error: string)
    | MetadataBody(title: string, description: string, thumbnail: string, videoPath: string,
                   hashtags: seq<string>, category: string)
    | UploadedBody(videoId: string, message: string)

  datatype Response = Response(status: nat, body: Body)

  const Ok: nat := 200
  const BadRequest: nat := 400
  const Unauthorized: nat := 401
  const ServerError: nat := 500

  /** Where a visitor without a usable session is sent. */
  const SignInPath: string := "/api/auth/signin"
}
