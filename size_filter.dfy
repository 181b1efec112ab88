/**
 * The size ceiling applied before content loading: a walked file whose size in KiB exceeds the
 * limit is reported and its path appended to the loader's ignore list.
 */
module SizeFilter {
  import opened RepoTree

  const FileSizeLimitKb: nat := 80

  /** `(file.size / 1024) > FILE_SIZE_LIMIT_KB`, with the source's floating-point division. */
  predicate IsLarge(f: FileRef)
    ensures f.size <= FileSizeLimitKb * 1024 ==> !IsLarge(f)
  {
    (f.size as real) / 1024.0 > FileSizeLimitKb as real
  }

  /** The real-valued test is the integer test `size > 81920`: a file of exactly 80 KiB is kept. */
  lemma IsLargeIffOverLimitBytes(f: FileRef)
    ensures IsLarge(f) <==> f.size > FileSizeLimitKb * 1024
  {
    var s := f.size as real;
    assert s / 1024.0 * 1024.0 == s;
  }

  lemma LimitBoundary(path: string)
    ensures !IsLarge(FileRef(path, 81920))
    ensures IsLarge(FileRef(path, 81921))
  {
    IsLargeIffOverLimitBytes(FileRef(path, 81920));
    IsLargeIffOverLimitBytes(FileRef(path, 81921));
  }

  /** `allFiles.filter(file => file.size / 1024 > 80)` */
  function LargeFiles(files: seq<FileRef>): (r: seq<FileRef>)
    ensures |r| <= |files|
    ensures forall f :: f in r <==> f in files && IsLarge(f)
  {
    if files == [] then []
    else
      var last := files[|files| - 1];
      var init := files[..|files| - 1];
      assert files == init + [last];
      LargeFiles(init) + (if IsLarge(last) then [last] else [])
  }

  /** Filtering keeps the enumeration order: it works piece by piece. */
  lemma {:induction false} LargeFilesConcat(a: seq<FileRef>, b: seq<FileRef>)
    ensures LargeFiles(a + b) == LargeFiles(a) + LargeFiles(b)
    decreases |b|
  {
    if b == [] {
      assert a + b == a;
    } else {
      var b' := b[..|b| - 1];
      assert (a + b)[..|a + b| - 1] == a + b';
      LargeFilesConcat(a, b');
    }
  }

  function Paths(files: seq<FileRef>): (r: seq<string>)
    ensures |r| == |files|
    ensures forall k :: 0 <= k < |files| ==> r[k] == files[k].path
  {
    if files == [] then [] else [files[0].path] + Paths(files[1..])
  }

  /**
   * The size filter of `loadGithubRepo`: the path of every large walked file is pushed onto the
   * ignore list, in enumeration order; the entries already there are left as they were.
   */
  method SkipLargeFiles(ignoredFiles: seq<string>, allFiles: seq<FileRef>) returns (grown: seq<string>)
    ensures grown == ignoredFiles + Paths(LargeFiles(allFiles))
  {
    var largeFiles := LargeFiles(allFiles);
    grown := ignoredFiles;
    if |largeFiles| > 0 {
      var k := 0;
      while k < |largeFiles|
        invariant 0 <= k <= |largeFiles|
        invariant grown == ignoredFiles + Paths(largeFiles[..k])
      {
        assert Paths(largeFiles[..k + 1]) == Paths(largeFiles[..k]) + [largeFiles[k].path];
        grown := grown + [largeFiles[k].path];
        k := k + 1;
      }
      assert largeFiles[..k] == largeFiles;
    } else {
      assert Paths(largeFiles) == [];
    }
  }

  /** What the grown list holds: the old list unchanged, then exactly the large files' paths in order. */
  lemma SkipLargeFilesEffect(ignoredFiles: seq<string>, allFiles: seq<FileRef>, grown: seq<string>)
    requires grown == ignoredFiles + Paths(LargeFiles(allFiles))
    ensures grown[..|ignoredFiles|] == ignoredFiles
    ensures forall p :: p in grown[|ignoredFiles|..] <==> exists f :: f in allFiles && f.size > 81920 && f.path == p
  {
    assert grown[|ignoredFiles|..] == Paths(LargeFiles(allFiles));
    forall f | f in allFiles
      ensures IsLarge(f) <==> f.size > 81920
    {
      IsLargeIffOverLimitBytes(f);
    }
    var large := LargeFiles(allFiles);
    forall p | p in Paths(large)
      ensures exists f :: f in allFiles && f.size > 81920 && f.path == p
    {
      var k :| 0 <= k < |large| && Paths(large)[k] == p;
      assert large[k] in large;
    }
    forall p | exists f :: f in allFiles && f.size > 81920 && f.path == p
      ensures p in Paths(large)
    {
      var f :| f in allFiles && f.size > 81920 && f.path == p;
      assert f in large;
      var k :| 0 <= k < |large| && large[k] == f;
      assert Paths(large)[k] == p;
    }
  }
}
