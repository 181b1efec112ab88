/**
 * The name-exclusion test shared by the file counter: an entry is skipped when its name
 * matches one of the nine default names or one of the caller's extras.
 */
module Exclusion {
  import opened JsText

  /** The default list, in the source's order. */
  const DefaultIgnoredFiles: seq<string> := [
    "package-lock.json",
    "yarn.lock",
    "pnpm-lock.yaml",
    "bun.lockb",
    "node_modules",
    "databases",
    "database",
    ".DS_Store",
    ".gitignore"
  ]

  /** `[...defaultIgnoredFiles, ...ignoresFilesExtensions]` */
  function AllIgnored(extras: seq<string>): (r: seq<string>)
    ensures |r| == |DefaultIgnoredFiles| + |extras|
    ensures r[..|DefaultIgnoredFiles|] == DefaultIgnoredFiles && r[|DefaultIgnoredFiles|..] == extras
  {
    DefaultIgnoredFiles + extras
  }

  /** Some name of `ignored` ends `name`: the inner `some` of the source, which ignores the outer element. */
  predicate EndsWithAny(name: string, ignored: seq<string>) {
    exists j :: 0 <= j < |ignored| && EndsWith(name, ignored[j])
  }

  /** The source's test as written: some `ignoredFile` is included in the name, or the name ends with any entry. */
  predicate ShouldIgnore(name: string, ignored: seq<string>)
    ensures ShouldIgnore(name, ignored) ==> |ignored| > 0
    ensures (exists i :: 0 <= i < |ignored| && Includes(name, ignored[i])) ==> ShouldIgnore(name, ignored)
  {
    exists i :: 0 <= i < |ignored| && (Includes(name, ignored[i]) || EndsWithAny(name, ignored))
  }

  /** Whether an entry of this name is skipped when the caller passes `extras`. */
  predicate Excluded(name: string, extras: seq<string>)
    ensures (exists i :: 0 <= i < |extras| && Includes(name, extras[i])) ==> Excluded(name, extras)
  {
    ShouldIgnore(name, AllIgnored(extras))
  }

  /** The exclusion test as a value, for the traversals that apply it. */
  function ExclusionTest(extras: seq<string>): string -> bool {
    name => Excluded(name, extras)
  }

  /** The plain substring test. */
  predicate IncludesAny(name: string, ignored: seq<string>) {
    exists i :: 0 <= i < |ignored| && Includes(name, ignored[i])
  }

  /**
   * The source's test is exactly the substring test: a suffix is a substring, and the outer
   * element only matters through `includes`.
   */
  lemma ShouldIgnoreIsSubstringTest(name: string, ignored: seq<string>)
    ensures ShouldIgnore(name, ignored) <==> IncludesAny(name, ignored)
  {
    if ShouldIgnore(name, ignored) {
      var i :| 0 <= i < |ignored| && (Includes(name, ignored[i]) || EndsWithAny(name, ignored));
      if !Includes(name, ignored[i]) {
        var j :| 0 <= j < |ignored| && EndsWith(name, ignored[j]);
        EndsWithImpliesIncludes(name, ignored[j]);
      }
    }
  }

  /** An entry is excluded exactly when one of defaults ++ extras is a substring of its name. */
  lemma ExcludedIffIncludesAny(name: string, extras: seq<string>)
    ensures Excluded(name, extras) <==> IncludesAny(name, AllIgnored(extras))
  {
    ShouldIgnoreIsSubstringTest(name, AllIgnored(extras));
  }

  /** Since the default list is never empty, an empty-string extra excludes every name. */
  lemma EmptyExtraExcludesEverything(name: string, extras: seq<string>)
    requires "" in extras
    ensures Excluded(name, extras)
  {
    var j :| 0 <= j < |extras| && extras[j] == "";
    var all := AllIgnored(extras);
    assert all[|DefaultIgnoredFiles| + j] == "";
    IncludesEmpty(name);
  }

  /** Extras only ever add exclusions. */
  lemma ExtrasOnlyAdd(name: string, extras: seq<string>)
    ensures Excluded(name, []) ==> Excluded(name, extras)
  {
    ExcludedIffIncludesAny(name, []);
    ExcludedIffIncludesAny(name, extras);
    if IncludesAny(name, AllIgnored([])) {
      var i :| 0 <= i < |AllIgnored([])| && Includes(name, AllIgnored([])[i]);
      assert AllIgnored(extras)[i] == AllIgnored([])[i];
    }
  }

  /** The match is on substrings, not path segments: a short default catches unrelated files. */
  lemma ExclusionIsCaseSensitiveSubstring()
    ensures Excluded("userDatabaseService.ts", []) == false
    ensures Excluded("src-database-utils.ts", [])
  {
    var all := AllIgnored([]);
    assert all[6] == "database";
    assert OccursAt("src-database-utils.ts", "database", 4);
    ExcludedIffIncludesAny("userDatabaseService.ts", []);
    forall i | 0 <= i < |all|
      ensures !Includes("userDatabaseService.ts", all[i])
    {
      forall k: nat | k <= |"userDatabaseService.ts"|
        ensures !OccursAt("userDatabaseService.ts", all[i], k)
      {
        NoOccurrence("userDatabaseService.ts", all[i], k);
      }
    }
  }

  lemma NoOccurrence(s: string, t: string, k: nat)
    requires s == "userDatabaseService.ts" && t in DefaultIgnoredFiles
    ensures !OccursAt(s, t, k)
  {
    if k + |t| <= |s| {
      var w := s[k..k + |t|];
      assert w[0] == s[k] && w[|t| - 1] == s[k + |t| - 1];
    }
  }
}
