/**
 * The remote repository as the pipeline sees it through the contents API. Each call to
 * `getContent` on a path yields an array of entries (a directory), a single object (any other
 * path) or a thrown error; a directory entry carries what the call on its own path yields.
 */
module RepoTree {
  import opened Wrappers

  /** The `response` part of an error thrown by the API client. */
  datatype HttpResponse = HttpResponse(
    status: int,
    rateLimitRemaining: Option<string>, // header `x-ratelimit-remaining`
    dataMessage: string                 // `response.data.message`
  )

  /** An error thrown by an API call or by the pipeline itself (`response` absent). */
  datatype HttpError = HttpError(response: Option<HttpResponse>, message: string)

  datatype Entry =
    | File(name: string, path: string, size: nat)
    | Dir(name: string, path: string, contents: Content)
    | Other(name: string, path: string)  // symlink, submodule

  /** What one `getContent` call on a path yields. */
  datatype Content =
    | Listing(entries: seq<Entry>)
    | Single(entry: Entry)
    | Failed(error: HttpError)

  /** `{ path, size }` as collected by the walker. */
  datatype FileRef = FileRef(path: string, size: nat)

  function RefOf(e: Entry): FileRef
    requires e.File?
  {
    FileRef(e.path, e.size)
  }
}
