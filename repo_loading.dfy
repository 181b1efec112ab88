/**
 * The two entry points that read the repository before indexing: `checkCredits` (the cost
 * estimate) and `loadGithubRepo` (branch resolution, the size filter and the call to the
 * document loader), with the loader's error classification.
 */
module RepoLoading {
  import opened Wrappers
  import opened JsText
  import opened RepoTree
  import opened Exclusion
  import opened GithubUrl
  import opened FileCounter
  import opened RepoWalker
  import opened SizeFilter
  import opened CountVsWalk

  /** What the remote side answers for the repository the URL names. */
  datatype GithubEnv = GithubEnv(
    hasToken: bool,                     // the user record holds a GitHub token
    defaultBranch: Option<string>,      // `repos.get(...).data.default_branch`; None when the call throws
    contents: Option<string> -> Content // `getContent` on the root path at a ref (None: no ref given)
  )

  // ---------------------------------------------------------------- branch resolution

  /** `checkCredits`: the ref passed to `getContent`; with no usable branch there is no ref at all. */
  function CreditsRef(branch: Option<string>, detected: Option<string>): (r: Option<string>)
    ensures r == None || Truthy(r)
    ensures r.Some? ==> r == branch || r == detected
  {
    if Truthy(branch) then branch
    else if Truthy(detected) then detected
    else None
  }

  /** The ref used by `checkCredits` is an explicit branch, else the detected default, else none. */
  lemma CreditsRefCases(branch: Option<string>, detected: Option<string>)
    ensures Truthy(branch) ==> CreditsRef(branch, detected) == branch
    ensures !Truthy(branch) && Truthy(detected) ==> CreditsRef(branch, detected) == detected
    ensures !Truthy(branch) && !Truthy(detected) ==> CreditsRef(branch, detected) == None
    ensures CreditsRef(branch, detected) == None || Truthy(CreditsRef(branch, detected))
  {
  }

  /**
   * `loadGithubRepo`: the value of `branch` after the detection block. A missing token throws
   * inside the inner try and so falls back to "main"; an invalid URL skips the detection.
   */
  function DetectBranch(branch: Option<string>, hasToken: bool, coordinates: Option<Coordinates>, detected: Option<string>): (r: Option<string>)
    ensures Truthy(branch) ==> r == branch
    ensures r == branch || r == detected || r == Some("main")
    ensures !hasToken ==> Truthy(r)
    ensures !Truthy(branch) && !hasToken ==> r == Some("main")
  {
    if Truthy(branch) then branch
    else if !hasToken then Some("main")
    else if coordinates.None? then branch
    else if detected.Some? then detected
    else Some("main")
  }

  /** `branch || 'main'` */
  function EffectiveBranch(branch: Option<string>): (r: string)
    ensures r != ""
  {
    if Truthy(branch) then branch.value else "main"
  }

  /** The branch `loadGithubRepo` walks and loads: explicit, else the detected default, else "main". */
  lemma LoadBranchCases(branch: Option<string>, hasToken: bool, coordinates: Option<Coordinates>, detected: Option<string>)
    ensures var b := EffectiveBranch(DetectBranch(branch, hasToken, coordinates, detected));
      && (Truthy(branch) ==> b == branch.value)
      && (!Truthy(branch) && hasToken && coordinates.Some? && Truthy(detected) ==> b == detected.value)
      && (!Truthy(branch) && !(hasToken && coordinates.Some? && Truthy(detected)) ==> b == "main")
  {
  }

  // ---------------------------------------------------------------- errors

  /** The errors `loadGithubRepo` rethrows, by the message they carry. */
  datatype LoadError =
    | RepoNotFound(detail: string)  // status 404
    | RateLimitExceeded             // status 403 with no requests remaining
    | UnknownError(message: string)

  /** The classification of the outer catch of `loadGithubRepo`. */
  function Classify(e: HttpError): (r: LoadError)
    ensures r.RepoNotFound? ==> e.response.Some? && r.detail == e.response.value.dataMessage
    ensures r.RateLimitExceeded? ==> e.response.Some? && e.response.value.status == 403
    ensures r.UnknownError? ==> r.message == e.message
  {
    if e.response.Some? && e.response.value.status == 404 then RepoNotFound(e.response.value.dataMessage)
    else if e.response.Some? && e.response.value.status == 403 && e.response.value.rateLimitRemaining == Some("0") then RateLimitExceeded
    else UnknownError(e.message)
  }

  function LoadErrorMessage(error: LoadError): (r: string)
    ensures error.UnknownError? ==> "Unknown error: " <= r && r[|"Unknown error: "|..] == error.message
    ensures error.RepoNotFound? ==> "Unable to fetch repository files: 404 " <= r
    ensures error.RepoNotFound? ==> r[|"Unable to fetch repository files: 404 "|..] == error.detail
    ensures error.RateLimitExceeded? ==> r == "GitHub API rate limit exceeded. Please try again later."
  {
    match error
    case RepoNotFound(detail) => "Unable to fetch repository files: 404 " + detail
    case RateLimitExceeded => "GitHub API rate limit exceeded. Please try again later."
    case UnknownError(message) => "Unknown error: " + message
  }

  /** Rate limiting is recognised only from a 403 whose remaining-quota header is the string "0". */
  lemma ClassifyCases(e: HttpError)
    ensures Classify(e).RepoNotFound? <==> e.response.Some? && e.response.value.status == 404
    ensures Classify(e).RateLimitExceeded? <==>
      e.response.Some? && e.response.value.status == 403 && e.response.value.rateLimitRemaining == Some("0")
    ensures e.response.None? ==> Classify(e) == UnknownError(e.message)
    ensures e.response.None? ==> LoadErrorMessage(Classify(e)) == "Unknown error: " + e.message
  {
  }

  const TokenNotFound := "GitHub token not found for user."
  const InvalidUrl := "Invalid GitHub URL"

  // ---------------------------------------------------------------- checkCredits

  datatype CreditsError = MissingToken | ListingFailed(error: HttpError)

  /** The number of files `checkCredits` reports for a repository. */
  function CreditsCount(env: GithubEnv, githubUrl: Option<string>, branch: Option<string>, arg: IgnoreArg): Result<nat, CreditsError> {
    if !env.hasToken then Failure(MissingToken)
    else if OwnerAndRepo(CleanUrl(githubUrl)).None? then Success(0)
    else
      match CountContent(env.contents(CreditsRef(branch, env.defaultBranch)), ExclusionTest(NormalizeIgnoreArg(arg)))
      case Success(n) => Success(n)
      case Failure(e) => Failure(ListingFailed(e))
  }

  method CheckCredits(env: GithubEnv, githubUrl: Option<string>, branch: Option<string>, arg: IgnoreArg)
    returns (r: Result<nat, CreditsError>)
    ensures r == CreditsCount(env, githubUrl, branch, arg)
  {
    var cleanUrl := CleanUrl(githubUrl);
    if !env.hasToken {
      return Failure(MissingToken);
    }
    var coordinates := OwnerAndRepo(cleanUrl);
    if coordinates.None? {
      return Success(0);
    }
    var extras := NormalizeIgnoreArg(arg);
    var branchToUse := branch;
    if !Truthy(branchToUse) && env.defaultBranch.Some? {
      branchToUse := env.defaultBranch;
    }
    var ref := if Truthy(branchToUse) then branchToUse else None;
    var count := GetFileCount(env.contents(ref), 0, extras);
    match count {
      case Success(n) => return Success(n);
      case Failure(e) => return Failure(ListingFailed(e));
    }
  }

  // ---------------------------------------------------------------- loadGithubRepo

  /** The options handed to the document loader. */
  datatype LoaderRequest = LoaderRequest(url: string, branch: string, ignoreFiles: seq<string>)

  /** The loader request `loadGithubRepo` builds once the token and the URL are accepted. */
  function PlannedRequest(env: GithubEnv, githubUrl: Option<string>, branch: Option<string>, extras: seq<string>): LoaderRequest {
    var cleanUrl := CleanUrl(githubUrl);
    var b := EffectiveBranch(DetectBranch(branch, env.hasToken, OwnerAndRepo(cleanUrl), env.defaultBranch));
    var allFiles := WalkContent(env.contents(Some(b)));
    LoaderRequest(cleanUrl.GetOr(""), b, AllIgnored(extras) + Paths(LargeFiles(allFiles)))
  }

  method LoadGithubRepo<D>(env: GithubEnv, githubUrl: Option<string>, branch: Option<string>, extras: seq<string>,
                           load: LoaderRequest -> Result<seq<D>, HttpError>)
    returns (r: Result<seq<D>, LoadError>)
    ensures !env.hasToken ==> r == Failure(UnknownError(TokenNotFound))
    ensures env.hasToken && OwnerAndRepo(CleanUrl(githubUrl)).None? ==> r == Failure(UnknownError(InvalidUrl))
    ensures env.hasToken && OwnerAndRepo(CleanUrl(githubUrl)).Some? ==>
      r == match load(PlannedRequest(env, githubUrl, branch, extras))
           case Success(docs) => Success(docs)
           case Failure(e) => Failure(Classify(e))
  {
    var ignoredFiles := AllIgnored(extras);
    var cleanUrl := CleanUrl(githubUrl);
    var b := branch;
    if !Truthy(b) {
      if !env.hasToken {
        b := Some("main");
      } else {
        var coordinates := OwnerAndRepo(cleanUrl);
        if coordinates.Some? {
          b := if env.defaultBranch.Some? then env.defaultBranch else Some("main");
        }
      }
    }
    if !env.hasToken {
      return Failure(UnknownError(TokenNotFound));
    }
    var coordinates := OwnerAndRepo(cleanUrl);
    if coordinates.None? {
      return Failure(UnknownError(InvalidUrl));
    }
    var effective := EffectiveBranch(b);
    var allFiles := GetAllFilesInRepo(env.contents(Some(effective)));
    ignoredFiles := SkipLargeFiles(ignoredFiles, allFiles);
    var request := LoaderRequest(cleanUrl.GetOr(""), effective, ignoredFiles);
    assert request == PlannedRequest(env, githubUrl, branch, extras);
    match load(request) {
      case Success(docs) => return Success(docs);
      case Failure(e) => return Failure(Classify(e));
    }
  }

  /** The estimate never exceeds the number of files a walk of the same ref would list. */
  lemma CreditsCountAtMostFiles(env: GithubEnv, githubUrl: Option<string>, branch: Option<string>, arg: IgnoreArg)
    requires env.hasToken && OwnerAndRepo(CleanUrl(githubUrl)).Some?
    requires CreditsCount(env, githubUrl, branch, arg).Success?
    ensures CreditsCount(env, githubUrl, branch, arg).value <= |WalkContent(env.contents(CreditsRef(branch, env.defaultBranch)))|
  {
    CountAtMostWalk(env.contents(CreditsRef(branch, env.defaultBranch)), ExclusionTest(NormalizeIgnoreArg(arg)));
  }

  /** A repository holding `a.txt` (1 KB), `pnpm-lock.yaml` (2 KB) and `assets/big.bin` (100 KB). */
  function ExampleTree(): Content {
    Listing([File("a.txt", "a.txt", 1024), File("pnpm-lock.yaml", "pnpm-lock.yaml", 2048),
             Dir("assets", "assets", Listing([File("big.bin", "assets/big.bin", 102400)]))])
  }

  function ExampleFiles(): seq<FileRef> {
    [FileRef("a.txt", 1024), FileRef("pnpm-lock.yaml", 2048), FileRef("assets/big.bin", 102400)]
  }

  /** The walk lists the lock file too: it applies no name exclusion. */
  lemma ExampleWalk()
    ensures WalkContent(ExampleTree()) == ExampleFiles()
  {
    var items := ExampleTree().entries;
    var files := ExampleFiles();
    var bigRef := FileRef("assets/big.bin", 102400);
    assert WalkItems([items[2].contents.entries[0]]) == [bigRef] by {
      assert [items[2].contents.entries[0]][..0] == [];
    }
    assert WalkItems(items[..1]) == files[..1] by {
      assert items[..1][..0] == [];
    }
    assert WalkItems(items[..2]) == files[..2] by {
      assert items[..2][..1] == items[..1];
    }
    assert items[..3][..2] == items[..2];
    assert items[..3] == items;
    assert WalkEntry(items[2]) == [bigRef];
    assert WalkItems(items) == files[..2] + [bigRef];
  }

  /** Only the 100 KB file is over the 80 KiB ceiling. */
  lemma ExampleLargeFiles()
    ensures LargeFiles(ExampleFiles()) == [FileRef("assets/big.bin", 102400)]
  {
    var files := ExampleFiles();
    IsLargeIffOverLimitBytes(files[0]);
    IsLargeIffOverLimitBytes(files[1]);
    IsLargeIffOverLimitBytes(files[2]);
    assert files[..3] == files;
    assert files[..2][..1] == files[..1] && files[..1][..0] == [];
    assert LargeFiles(files[..1]) == [];
    assert LargeFiles(files[..2]) == [];
  }

  /**
   * Loading that repository from its `.git` URL with no branch and no extra names: the detected
   * default branch is used, and only the large binary is appended to the default ignore list.
   */
  lemma LoaderRequestExample(owner: string, repo: string)
    requires owner != "" && repo != "" && '/' !in owner && '/' !in repo
    ensures var base := Join(["https:", "", "github.com", owner, repo], "/");
      PlannedRequest(GithubEnv(true, Some("develop"), _ => ExampleTree()), Some(base + ".git"), None, [])
        == LoaderRequest(base, "develop", DefaultIgnoredFiles + ["assets/big.bin"])
  {
    var base := Join(["https:", "", "github.com", owner, repo], "/");
    var env := GithubEnv(true, Some("develop"), _ => ExampleTree());
    CleanGitUrl("https:", "github.com", owner, repo);
    var cleanUrl := CleanUrl(Some(base + ".git"));
    var b := EffectiveBranch(DetectBranch(None, true, OwnerAndRepo(cleanUrl), Some("develop")));
    assert b == "develop";
    ExampleWalk();
    ExampleLargeFiles();
    assert WalkContent(env.contents(Some(b))) == ExampleFiles();
    assert Paths(LargeFiles(ExampleFiles())) == ["assets/big.bin"];
    assert AllIgnored([]) == DefaultIgnoredFiles;
  }
}
