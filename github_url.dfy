/**
 * Normalisation of the caller's inputs: the repository URL (trailing `.git`, owner and
 * repository taken by position from a `/`-split) and the ignore-list argument of `checkCredits`.
 */
module GithubUrl {
  import opened Wrappers
  import opened JsText

  /** `url.replace(/\.git$/, '')`: at most one trailing `.git` is removed. */
  function StripGitSuffix(url: string): (r: string)
    ensures r == url || r + ".git" == url
    ensures r <= url
  {
    if EndsWith(url, ".git") then url[..|url| - 4] else url
  }

  /** `githubUrl?.replace(/\.git$/, '')` */
  function CleanUrl(githubUrl: Option<string>): (r: Option<string>)
    ensures r.Some? <==> githubUrl.Some?
    ensures r.Some? ==> r.value == githubUrl.value || r.value + ".git" == githubUrl.value
  {
    match githubUrl
    case None => None
    case Some(url) => Some(StripGitSuffix(url))
  }

  lemma StripGitSuffixRoundTrip(base: string)
    ensures StripGitSuffix(base + ".git") == base
  {
    assert (base + ".git")[|base|..] == ".git";
    assert (base + ".git")[..|base|] == base;
  }

  /** A URL without the suffix is left alone; one with it loses exactly those four characters, once. */
  lemma StripGitSuffixRemovesAtMostOne(url: string)
    ensures !EndsWith(url, ".git") ==> StripGitSuffix(url) == url
    ensures EndsWith(url, ".git") ==> StripGitSuffix(url) + ".git" == url
    ensures StripGitSuffix("widgets.git.git") == "widgets.git"
  {
    if EndsWith(url, ".git") {
      assert url == url[..|url| - 4] + url[|url| - 4..];
    }
    StripGitSuffixRoundTrip("widgets.git");
  }

  /** JavaScript truthiness of a `string | undefined`. */
  predicate Truthy(s: Option<string>) {
    s.Some? && s.value != ""
  }

  /** `cleanUrl?.split('/')[i]`: `undefined` when the URL or the segment is missing. */
  function Segment(cleanUrl: Option<string>, i: nat): Option<string> {
    match cleanUrl
    case None => None
    case Some(u) =>
      var parts := Split(u, '/');
      if i < |parts| then Some(parts[i]) else None
  }

  datatype Coordinates = Coordinates(owner: string, repo: string)

  /** `githubOwner`/`githubRepo` are segments 3 and 4; either one missing or empty makes the URL invalid. */
  function OwnerAndRepo(cleanUrl: Option<string>): (r: Option<Coordinates>)
    ensures r.Some? ==> r.value.owner != "" && r.value.repo != ""
    ensures r.Some? ==> '/' !in r.value.owner && '/' !in r.value.repo
  {
    var owner := Segment(cleanUrl, 3);
    var repo := Segment(cleanUrl, 4);
    if Truthy(owner) && Truthy(repo) then Some(Coordinates(owner.value, repo.value)) else None
  }

  /** Segment `i` of slash-free parts joined with "/" is part `i`. */
  lemma SegmentOfJoin(parts: seq<string>, i: nat)
    requires |parts| >= 1
    requires forall k :: 0 <= k < |parts| ==> '/' !in parts[k]
    ensures i < |parts| ==> Segment(Some(Join(parts, "/")), i) == Some(parts[i])
    ensures i >= |parts| ==> Segment(Some(Join(parts, "/")), i) == None
  {
    SplitJoin(parts, '/');
  }

  /**
   * A URL made of `/`-free segments (`https:`, ``, `github.com`, owner, repository, ...) yields
   * segments 3 and 4 as owner and repository.
   */
  lemma OwnerAndRepoOfRepositoryUrl(parts: seq<string>)
    requires |parts| >= 5 && parts[3] != "" && parts[4] != ""
    requires forall k :: 0 <= k < |parts| ==> '/' !in parts[k]
    ensures OwnerAndRepo(Some(Join(parts, "/"))) == Some(Coordinates(parts[3], parts[4]))
  {
    SplitJoin(parts, '/');
    OwnerAndRepoOfSplit(Join(parts, "/"), parts[3], parts[4]);
  }

  /**
   * The refusing half: a URL of `/`-free segments with fewer than five segments, or with an
   * empty segment 3 or 4, yields no owner and repository.
   */
  lemma OwnerAndRepoRefused(parts: seq<string>)
    requires |parts| >= 1
    requires forall k :: 0 <= k < |parts| ==> '/' !in parts[k]
    requires |parts| < 5 || parts[3] == "" || parts[4] == ""
    ensures OwnerAndRepo(Some(Join(parts, "/"))) == None
  {
    SplitJoin(parts, '/');
  }

  lemma OwnerAndRepoOfSplit(u: string, owner: string, repo: string)
    requires owner != "" && repo != ""
    requires |Split(u, '/')| >= 5 && Split(u, '/')[3] == owner && Split(u, '/')[4] == repo
    ensures OwnerAndRepo(Some(u)) == Some(Coordinates(owner, repo))
  {
    assert Segment(Some(u), 3) == Some(owner);
    assert Segment(Some(u), 4) == Some(repo);
  }

  /** The test is by position: with the scheme left out, the owner lands at index 1 and the URL is refused. */
  lemma OwnerAndRepoIsPositional(host: string, owner: string, repo: string)
    requires '/' !in host && '/' !in owner && '/' !in repo
    ensures OwnerAndRepo(Some(Join([host, owner, repo], "/"))) == None
  {
    SegmentOfJoin([host, owner, repo], 3);
  }

  /** A `.git` repository URL is cleaned and then yields the same owner and repository. */
  lemma CleanGitUrl(scheme: string, host: string, owner: string, repo: string)
    requires owner != "" && repo != ""
    requires '/' !in scheme && '/' !in host && '/' !in owner && '/' !in repo
    ensures var base := Join([scheme, "", host, owner, repo], "/");
      && CleanUrl(Some(base + ".git")) == Some(base)
      && OwnerAndRepo(CleanUrl(Some(base + ".git"))) == Some(Coordinates(owner, repo))
  {
    var parts := [scheme, "", host, owner, repo];
    StripGitSuffixRoundTrip(Join(parts, "/"));
    OwnerAndRepoOfRepositoryUrl(parts);
  }

  /** The `ignoresFilesExtensions` argument of `checkCredits`: a string, an array of strings or `undefined`. */
  datatype IgnoreArg = Absent | OneName(name: string) | Names(names: seq<string>)

  /** Falsy becomes `[]`, an array is kept as it is, a non-empty string becomes `[s]`. */
  function NormalizeIgnoreArg(arg: IgnoreArg): (r: seq<string>)
    ensures forall x :: x in r <==> (arg.OneName? && x == arg.name && x != "") || (arg.Names? && x in arg.names)
    ensures arg.Names? ==> r == arg.names
    ensures !arg.Names? ==> |r| <= 1
  {
    match arg
    case Absent => []
    case OneName(s) => if s == "" then [] else [s]
    case Names(items) => items
  }
}
