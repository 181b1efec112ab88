# Repository indexing pipeline, modelled in Dafny

This project models the repository-indexing module `test/largeFile.tsx` of folder-test. The
module takes a GitHub repository and does the following:

- **Cost estimate (`checkCredits`, `getFileCount`).** It counts the files that are not excluded
  by name. The name test is `includes` of any ignored name, or `endsWith` of any ignored name.
  The default ignore list has nine entries, and the caller may add more.
- **Loading (`loadGithubRepo`, `getAllFilesInRepo`).** It resolves the branch, walks the whole
  tree, and adds to the loader's ignore list the path of every file over 80 KiB. It then hands
  the list to the document loader and sorts the loader's errors into "not found", "rate limited"
  and "unknown".
- **Indexing (`indexGithubRepo`, `generateEmbeddingsForBatch`).** It cuts the loaded documents
  into batches. For each batch it increments the project's `processedFiles`, then summarises and
  embeds each document. It strips NUL characters from the summary and source text and writes one
  `SourceCodeEmbedding` row per successful document. It pauses between batches.

The remote side is a value, not a service. `RepoTree.Content` is what the contents endpoint
answers for a path: a listing, a single entry, or an error. A directory entry carries the content
its own path yields. The token lookup and the repository metadata call are plain values in
`RepoLoading.GithubEnv`: whether the user has a token, and the default branch or `None` when the
call throws. The contents endpoint, the summariser, the embedding service, the document loader
and the database writes are function-valued parameters. `None` or `Failure` in their results
stands for a call that throws.

Code that loops or changes state is written as methods with loops and is proved against
specification functions:

- `FileCounter.GetFileCount`, `RepoWalker.GetAllFilesInRepo` and `SizeFilter.SkipLargeFiles`
- `Batching.MakeBatches`
- the methods of the `Indexing.IndexingRun` class, whose fields are the project's counter, its
  rows and the pauses taken

Expression-level code is written as functions: exclusion, URL parsing, branch resolution, error
classification and summary normalisation.

Notes on the code's behaviour:

- `getAllFilesInRepo` applies no name exclusion; only the loader receives the ignore list.
  `RepoLoading.ExampleWalk` shows this: a default-excluded `pnpm-lock.yaml` is walked like any
  other file.
- The walk does not fail on a missing branch or repository. Each listing error is logged, and that
  subtree contributes nothing. Only errors from the loader and from `loadGithubRepo` itself are
  classified.
- When default-branch detection fails, `checkCredits` counts with no ref at all. `loadGithubRepo`
  falls back to `"main"`.
- The missing-token and invalid-URL errors of `loadGithubRepo` are thrown inside its outer `try`.
  The caller therefore sees `"Unknown error: GitHub token not found for user."` and
  `"Unknown error: Invalid GitHub URL"`.
- The estimate equals the number of walked files when every listing can be read and no name is
  excluded (`CountVsWalk.CountMatchesWalk`). In general a successful estimate is at most that
  number (`CountVsWalk.CountAtMostWalk`).

## Model

| member | source | states |
|---|---|---|
| JsText.StripNul | test/largeFile.tsx:352-363 | `replace(/\0/g, '')`: the result holds no NUL and is no longer than the input |
| JsText.StripNulIdentity | test/largeFile.tsx:352-354 | stripping leaves a text unchanged exactly when it holds no NUL |
| JsText.StripNulMultiset | test/largeFile.tsx:356-358 | stripping removes every NUL and keeps every other character with its multiplicity |
| JsText.StripNulIdempotent | test/largeFile.tsx:356-358 | stripping twice is stripping once |
| JsText.StripNulJoin | test/largeFile.tsx:360-362 | stripping the `' '`-joined chunks equals joining the stripped chunks |
| JsText.Split | test/largeFile.tsx:105-106 | `split('/')` yields at least one piece and no piece holds the separator |
| JsText.JoinSplit | test/largeFile.tsx:105-106 | joining the pieces of a split with the separator gives back the text |
| JsText.SplitJoin | test/largeFile.tsx:105-106 | splitting a join of separator-free pieces gives back the pieces |
| JsText.EndsWithImpliesIncludes | test/largeFile.tsx:40-45 | a name that ends with an ignored name also includes it |
| Exclusion.AllIgnored | test/largeFile.tsx:25-37 | the ignore list is the nine defaults, in order, followed by the caller's names |
| Exclusion.ShouldIgnore | test/largeFile.tsx:55-58 | the source's `some(includes \|\| some(endsWith))` test: an empty list ignores nothing, and a name containing a listed name is ignored |
| Exclusion.Excluded | test/largeFile.tsx:37-45 | the test against defaults plus extras: a name containing any extra is excluded |
| Exclusion.ShouldIgnoreIsSubstringTest | test/largeFile.tsx:55-58 | the includes-or-endsWith test is exactly "the name contains some listed name" |
| Exclusion.ExcludedIffIncludesAny | test/largeFile.tsx:25-45 | a name is excluded exactly when it contains a default or extra name |
| Exclusion.EmptyExtraExcludesEverything | test/largeFile.tsx:35-45 | an empty string among the extra names excludes every name |
| Exclusion.ExtrasOnlyAdd | test/largeFile.tsx:37 | extra names never re-admit a name the defaults exclude |
| Exclusion.ExclusionIsCaseSensitiveSubstring | test/largeFile.tsx:25-45 | `src-database-utils.ts` is excluded by the `database` default, while `userDatabaseService.ts` is not |
| FileCounter.CountContent | test/largeFile.tsx:40-76 | the specified estimate of a tree: a failed listing fails it, a single non-file entry counts 0, and a readable tree with every name excluded counts 0 |
| FileCounter.CountEntry | test/largeFile.tsx:53-60 | an excluded entry counts 0 whatever lies beneath it |
| FileCounter.CountItems | test/largeFile.tsx:49-74 | a listing whose every name is excluded counts 0 |
| FileCounter.GetFileCount | test/largeFile.tsx:11-77 | the count is the accumulator plus the specified count of non-excluded files, or the first listing error |
| FileCounter.ScanListing | test/largeFile.tsx:49-65 | the listing loop counts the non-excluded files and collects the non-excluded directories, in order |
| FileCounter.CountDirectories | test/largeFile.tsx:66-72 | the per-directory counts summed equal the count of those directories, with the first failure winning |
| FileCounter.CountItemsSplits | test/largeFile.tsx:49-74 | a listing's count is its local file count plus the counts of the directories it descends into |
| FileCounter.CountItemsConcat | test/largeFile.tsx:66-72 | counting a concatenation adds both counts, with the first failure winning |
| FileCounter.DirsToVisitMembers | test/largeFile.tsx:53-60 | every visited directory is a non-excluded directory entry of the listing |
| FileCounter.ExcludedDirIsSkipped | test/largeFile.tsx:53-60 | an excluded directory adds nothing and its subtree is never read |
| FileCounter.UnreadableDirFailsCount | test/largeFile.tsx:66-72 | an unreadable non-excluded directory makes the whole estimate fail with its error |
| RepoWalker.WalkContent | test/largeFile.tsx:271-306 | the specified walk: a failed listing yields nothing, and a single object yields its reference exactly when it is a file |
| RepoWalker.GetAllFilesInRepo | test/largeFile.tsx:264-307 | the walk returns exactly the specified sequence of file references |
| RepoWalker.WalkIsFilesInDepthFirstOrder | test/largeFile.tsx:280-297 | the walk is the file entries of the depth-first, listing-order enumeration |
| RepoWalker.WalkItemsConcat | test/largeFile.tsx:282-295 | walking a concatenation of entries concatenates the walks |
| RepoWalker.UnreadableDirContributesNothing | test/largeFile.tsx:303-305 | an unreadable directory is skipped and the rest of the walk is unchanged |
| RepoWalker.FileRefs | test/largeFile.tsx:284-289 | the `{path, size}` of the file entries: every file entry's reference is present, and every reference comes from a file entry |
| CountVsWalk.CountMatchesWalk | test/largeFile.tsx:49-74 | with every listing readable and no name excluded, the estimate equals the number of walked files |
| CountVsWalk.CountAtMostWalk | test/largeFile.tsx:49-74 | a successful estimate never exceeds the number of walked files |
| CountVsWalk.ExcludedFileIsWalkedButNotCounted | test/largeFile.tsx:40-64 | an excluded file, as the root object or as the only entry of a listing, counts 0 but is still walked |
| SizeFilter.IsLarge | test/largeFile.tsx:220-224 | the per-file test `size / 1024 > 80`: a file of at most 80 KiB is never large |
| SizeFilter.IsLargeIffOverLimitBytes | test/largeFile.tsx:224 | `size / 1024 > 80` on reals holds exactly when the size exceeds 81920 bytes |
| SizeFilter.LimitBoundary | test/largeFile.tsx:220-224 | a file of exactly 80 KiB is kept and one byte more is filtered |
| SizeFilter.LargeFiles | test/largeFile.tsx:224 | the filter keeps exactly the large files and never adds any |
| SizeFilter.LargeFilesConcat | test/largeFile.tsx:224 | filtering keeps enumeration order |
| SizeFilter.Paths | test/largeFile.tsx:229-231 | the path of each large file, position by position |
| SizeFilter.SkipLargeFiles | test/largeFile.tsx:227-233 | the ignore list grows by the paths of the large files, in walk order |
| SizeFilter.SkipLargeFilesEffect | test/largeFile.tsx:227-233 | the original list is kept and a path is added exactly when some walked file over 81920 bytes has it |
| GithubUrl.StripGitSuffix | test/largeFile.tsx:158 | `replace(/\.git$/, '')` on a string: the result is a prefix, either the URL itself or the URL minus a final `.git` |
| GithubUrl.CleanUrl | test/largeFile.tsx:87 | `githubUrl?.replace(...)`: undefined stays undefined, and a URL loses at most a final `.git` |
| GithubUrl.StripGitSuffixRoundTrip | test/largeFile.tsx:87 | removing the suffix undoes appending `.git` |
| GithubUrl.StripGitSuffixRemovesAtMostOne | test/largeFile.tsx:158 | only one trailing `.git` is removed, and a URL without one is unchanged |
| GithubUrl.OwnerAndRepo | test/largeFile.tsx:105-109 | accepted owner and repository are non-empty and slash-free |
| GithubUrl.OwnerAndRepoRefused | test/largeFile.tsx:105-109 | a URL of slash-free segments with fewer than five segments, or an empty segment 3 or 4, yields no owner and repository (`checkCredits` then returns 0, and `loadGithubRepo` reports an invalid URL) |
| GithubUrl.OwnerAndRepoOfRepositoryUrl | test/largeFile.tsx:212-217 | a URL of slash-free segments yields segments 3 and 4 as owner and repository |
| GithubUrl.OwnerAndRepoIsPositional | test/largeFile.tsx:179-182 | a URL without the scheme (`host/owner/repo`) is refused |
| GithubUrl.CleanGitUrl | test/largeFile.tsx:158 | `https://host/owner/repo.git` is cleaned to the URL without `.git` and keeps owner and repository |
| GithubUrl.NormalizeIgnoreArg | test/largeFile.tsx:111-115 | an array is kept, a non-empty string becomes a one-element list, and anything falsy becomes empty |
| RepoLoading.CreditsRef | test/largeFile.tsx:121-137 | the ref the estimate uses is either none or a truthy string, and it is the explicit branch or the detected one |
| RepoLoading.CreditsRefCases | test/largeFile.tsx:121-137 | the estimate's ref is the explicit branch, else the detected default, else no ref |
| RepoLoading.EffectiveBranch | test/largeFile.tsx:237 | `branch \|\| 'main'` is never empty |
| RepoLoading.DetectBranch | test/largeFile.tsx:162-194 | a truthy branch is kept; otherwise the result is the given branch, the detected one or `main`, and a missing token falls back to `main` |
| RepoLoading.LoadBranchCases | test/largeFile.tsx:162-194 | loading uses the explicit branch, else the detected default, else `main` |
| RepoLoading.Classify | test/largeFile.tsx:248-259 | "not found" carries the response's message, rate limiting needs a 403 response, and "unknown" keeps the error's message |
| RepoLoading.LoadErrorMessage | test/largeFile.tsx:251-258 | an unknown error's message is `Unknown error: ` followed by the original message; a not-found message is `Unable to fetch repository files: 404 ` followed by the response's message; the rate-limit message is `GitHub API rate limit exceeded. Please try again later.` |
| RepoLoading.ClassifyCases | test/largeFile.tsx:248-259 | 404 is "not found", 403 with remaining quota "0" is "rate limited", and every other error is "Unknown error: " + its message |
| RepoLoading.CheckCredits | test/largeFile.tsx:79-141 | missing token fails, an invalid URL gives 0, and otherwise the result is the count at the resolved ref |
| RepoLoading.CreditsCountAtMostFiles | test/largeFile.tsx:137 | the credit estimate never exceeds the files a walk of the same ref lists |
| RepoLoading.LoadGithubRepo | test/largeFile.tsx:143-261 | token and URL errors are "Unknown error" results; otherwise the loader gets the clean URL, the resolved branch and the ignore list grown by the large files, and its failures are classified |
| RepoLoading.ExampleWalk | test/largeFile.tsx:271-293 | the walk of `a.txt`, `pnpm-lock.yaml` and `assets/big.bin` lists all three, the default-excluded lock file included |
| RepoLoading.LoaderRequestExample | test/largeFile.tsx:219-244 | for `a.txt`, `pnpm-lock.yaml` and a 100 KB `assets/big.bin`, only `assets/big.bin` joins the defaults |
| Batching.Batches | test/largeFile.tsx:321-326 | the specified batches: no more batches than documents, and none exactly when there are no documents |
| Batching.MakeBatches | test/largeFile.tsx:321-326 | the loop builds exactly the specified partition |
| Batching.BatchesConcat | test/largeFile.tsx:324-325 | the batches laid end to end are the documents in order |
| Batching.BatchesSizes | test/largeFile.tsx:324-325 | each batch is non-empty and at most the batch size, and all but the last are full |
| Batching.BatchesCount | test/largeFile.tsx:324-325 | there are `ceil(n / k)` batches |
| Batching.SingletonBatches | test/largeFile.tsx:321 | with the batch size 1, batch `j` is document `j` |
| Embedding.ChunkTexts | test/largeFile.tsx:413 | one text per chunk: the chunk itself, or its JSON |
| Embedding.SummaryForEmbedding | test/largeFile.tsx:410-414 | `summaryString`: a string is embedded as is, one chunk as its text, and a falsy value or an empty array as `''` |
| Embedding.PersistedSummary | test/largeFile.tsx:355-363 | the stored summary has no NUL, is no longer than the embedded text, and is `''` for a value that is neither string nor array |
| Embedding.PersistedSummaryIsCleanedText | test/largeFile.tsx:352-363 | the stored summary is the embedded text minus its NULs for strings and arrays, and empty for any other truthy value |
| Embedding.PersistedChunks | test/largeFile.tsx:358-362 | the stored array summary is the stripped chunks joined with a space |
| Embedding.ProcessDoc | test/largeFile.tsx:404-429 | a document yields a result exactly when summary, embedding and content conversion all succeed; the result carries them, and a non-string page content gives a non-string source code |
| Embedding.EmbedBatch | test/largeFile.tsx:403-431 | one result per document, in order |
| Embedding.Sanitize | test/largeFile.tsx:352-371 | the written record has the file name or `''` and the embedding; its summary is the persisted summary and its source is the loaded text minus its NULs, or `''` when that is not a string; neither holds a NUL |
| Embedding.SourceCodeKeptWithoutNul | test/largeFile.tsx:352-354 | source text without NUL is stored as loaded |
| Indexing.ResultRows | test/largeFile.tsx:347-386 | a result leaves at most one row |
| Indexing.DocRows | test/largeFile.tsx:347-386 | a document leaves at most one row |
| Indexing.DocRow | test/largeFile.tsx:365-378 | a failed document leaves no row; a failed create leaves none; a failed vector update leaves a row without vector |
| Indexing.FailedDocDoesNotAbortBatch | test/largeFile.tsx:426-429 | a failing document does not stop the next one in the batch from being stored |
| Indexing.EmbedBatchRows | test/largeFile.tsx:344-386 | storing a batch's results adds the rows of its documents in order |
| Indexing.BatchRowsConcat | test/largeFile.tsx:347-386 | the rows of a concatenation are the rows of each part |
| Indexing.RunRowsIsBatchRowsOfAll | test/largeFile.tsx:333-393 | the rows written do not depend on how the documents were cut into batches |
| Indexing.BatchRowsClean | test/largeFile.tsx:352-371 | at most one row per document, and no stored summary or source holds a NUL |
| Indexing.Pauses | test/largeFile.tsx:388-392 | one pause between each pair of consecutive batches: one fewer than the batches, and none without batches |
| Indexing.IndexingRun.StoreResults | test/largeFile.tsx:347-386 | the rows grow by the rows of the non-null results; counter and pauses are unchanged |
| Indexing.IndexingRun.IndexBatch | test/largeFile.tsx:335-386 | the counter grows by one and the rows by the batch's rows |
| Indexing.IndexingRun.IndexBatches | test/largeFile.tsx:333-393 | the counter grows by the number of batches, the rows by each batch's rows in order, and there is one pause fewer than batches |
| Indexing.IndexingRun.IndexGithubRepo | test/largeFile.tsx:309-399 | a load error is rethrown with nothing changed; otherwise the counter grows by the number of documents, the rows by their rows, and there are `n - 1` pauses |

## Left out

- Network calls, the token lookup and decryption, the metadata call, the document loader, the summariser and the embedding service are all inputs. Their internals are not modelled, and neither are their timeouts or `maxConcurrency`.
- `Promise.all` over sibling directories and over a batch's documents runs one after another in the model. When several calls fail, the model reports the first failure in listing order, whereas JavaScript reports whichever rejects first.
- The pause between batches (`setTimeout`) is a counter. The delay itself is not modelled.
- Logging (`console.log`, `console.error`, `toFixed`) is not modelled. Neither is the local `processedFiles` counter in the store callback, which only feeds a log line.
- `JSON.stringify` of a non-string chunk is known by its text. The vector written by the raw update is kept as the vector value, not its JSON text.
- A `db.project.update` that throws would abort the run. The model assumes the counter update succeeds.
- Errors thrown by the user lookup in `checkCredits`, and thrown by `getContent` other than as a listing error, are not modelled.
- `avatarRepo` is assigned in `checkCredits` and never read, so it is not modelled.
- `Indexing.IndexingRun.IndexGithubRepo` receives the result of `loadGithubRepo` as an argument instead of calling it. `RepoLoading.LoadGithubRepo` specifies that result.
- `RepoLoading.LoadGithubRepo` does not model the 404 message's access to `error.response.data.message` when `data` is missing. The model assumes the message is present.
- Failures of the user lookups in `loadGithubRepo` are not modelled: the model assumes `db.user.findUnique` returns, and both lookups (lines 164 and 196) read the same `GithubEnv.hasToken`. In the source, a throw from the first lookup makes the branch fall back to `main`, and a throw from the second makes the load fail with `Unknown error: ` and the lookup error's message.
- Decryption failures are not modelled: the model assumes `decryptSensitiveData` returns. If it throws, the source behaves differently at each call:
  - inside the inner `try` of branch detection in `loadGithubRepo`, the branch falls back to `main`;
  - at the second call in `loadGithubRepo`, the load fails with `Unknown error: ` and the decryption error's message;
  - in `checkCredits`, the error propagates to its caller.
- `Batching.MakeBatches` takes the batch size as a parameter that must be positive. The source fixes it at 1, and `Indexing.BatchSize` is 1.
