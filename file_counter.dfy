/**
 * `getFileCount`: the cost estimate. Counts the non-excluded files under a path, descending into
 * non-excluded directories; a listing error anywhere it descends is thrown to the caller.
 */
module FileCounter {
  import opened Wrappers
  import opened RepoTree
  import opened Exclusion

  /** Sum of two counts; the first failure, in listing order, wins. */
  function AddCounts(a: Result<nat, HttpError>, b: Result<nat, HttpError>): Result<nat, HttpError> {
    if a.Failure? then a
    else if b.Failure? then b
    else Success(a.value + b.value)
  }

  /** A count with `acc` added to it (the source's accumulator argument). */
  function Shift(a: Result<nat, HttpError>, acc: nat): Result<nat, HttpError> {
    if a.Failure? then a else Success(a.value + acc)
  }

  function CountContent(c: Content, skip: string -> bool): (r: Result<nat, HttpError>)
    ensures c.Failed? ==> r == Failure(c.error)
    ensures c.Single? && !c.entry.File? ==> r == Success(0)
    ensures (forall name :: skip(name)) && !c.Failed? ==> r == Success(0)
    decreases c
  {
    match c
    case Failed(e) => Failure(e)
    case Single(e) => Success(if e.File? && !skip(e.name) then 1 else 0)
    case Listing(items) => CountItems(items, skip)
  }

  function CountEntry(e: Entry, skip: string -> bool): (r: Result<nat, HttpError>)
    ensures skip(e.name) ==> r == Success(0)
    decreases e
  {
    if skip(e.name) then Success(0)
    else
      match e
      case File(_, _, _) => Success(1)
      case Dir(_, _, sub) => CountContent(sub, skip)
      case Other(_, _) => Success(0)
  }

  function CountItems(items: seq<Entry>, skip: string -> bool): (r: Result<nat, HttpError>)
    ensures (forall name :: skip(name)) ==> r == Success(0)
    decreases items
  {
    if items == [] then Success(0)
    else AddCounts(CountItems(items[..|items| - 1], skip), CountEntry(items[|items| - 1], skip))
  }

  /** Number of non-excluded file entries directly in a listing (the `fileCount++` loop). */
  function LocalFileCount(items: seq<Entry>, skip: string -> bool): nat {
    if items == [] then 0
    else
      var last := items[|items| - 1];
      LocalFileCount(items[..|items| - 1], skip) + (if last.File? && !skip(last.name) then 1 else 0)
  }

  /** The non-excluded directory entries of a listing, in order (the `directories.push` loop). */
  function DirsToVisit(items: seq<Entry>, skip: string -> bool): seq<Entry> {
    if items == [] then []
    else
      var last := items[|items| - 1];
      DirsToVisit(items[..|items| - 1], skip) + (if last.Dir? && !skip(last.name) then [last] else [])
  }

  lemma {:induction false} AddCountsAssociative(a: Result<nat, HttpError>, b: Result<nat, HttpError>, c: Result<nat, HttpError>)
    ensures AddCounts(AddCounts(a, b), c) == AddCounts(a, AddCounts(b, c))
  {
  }

  /** Counting a concatenation counts both parts; the first failure wins. */
  lemma {:induction false} CountItemsConcat(a: seq<Entry>, b: seq<Entry>, skip: string -> bool)
    ensures CountItems(a + b, skip) == AddCounts(CountItems(a, skip), CountItems(b, skip))
    decreases |b|
  {
    if b == [] {
      assert a + b == a;
    } else {
      var b' := b[..|b| - 1];
      assert (a + b)[..|a + b| - 1] == a + b';
      assert (a + b)[|a + b| - 1] == b[|b| - 1];
      CountItemsConcat(a, b', skip);
      AddCountsAssociative(CountItems(a, skip), CountItems(b', skip), CountEntry(b[|b| - 1], skip));
    }
  }

  /** The count of a listing is its local files plus the counts of the directories it visits. */
  lemma {:induction false} CountItemsSplits(items: seq<Entry>, skip: string -> bool)
    ensures SplitsAt(items, skip)
  {
    if items != [] {
      CountItemsSplits(items[..|items| - 1], skip);
      if items[|items| - 1].Dir? && !skip(items[|items| - 1].name) {
        VisitedDirStep(items, skip);
      } else {
        SkippedEntryStep(items, skip);
      }
    }
  }

  predicate SplitsAt(items: seq<Entry>, skip: string -> bool) {
    CountItems(items, skip) == Shift(CountItems(DirsToVisit(items, skip), skip), LocalFileCount(items, skip))
  }

  lemma VisitedDirStep(items: seq<Entry>, skip: string -> bool)
    requires items != []
    requires items[|items| - 1].Dir? && !skip(items[|items| - 1].name)
    requires SplitsAt(items[..|items| - 1], skip)
    ensures SplitsAt(items, skip)
  {
    var init := items[..|items| - 1];
    var last := items[|items| - 1];
    var ds := DirsToVisit(init, skip);
    var local := LocalFileCount(init, skip);
    assert DirsToVisit(items, skip) == ds + [last];
    assert LocalFileCount(items, skip) == local;
    assert (ds + [last])[..|ds + [last]| - 1] == ds;
    assert CountItems(ds + [last], skip) == AddCounts(CountItems(ds, skip), CountEntry(last, skip));
    assert CountItems(items, skip) == AddCounts(Shift(CountItems(ds, skip), local), CountEntry(last, skip));
    ShiftThenAdd(CountItems(ds, skip), CountEntry(last, skip), local);
  }

  lemma SkippedEntryStep(items: seq<Entry>, skip: string -> bool)
    requires items != []
    requires !(items[|items| - 1].Dir? && !skip(items[|items| - 1].name))
    requires SplitsAt(items[..|items| - 1], skip)
    ensures SplitsAt(items, skip)
  {
    var init := items[..|items| - 1];
    var last := items[|items| - 1];
    var ds := DirsToVisit(init, skip);
    var local := LocalFileCount(init, skip);
    var k: nat := if last.File? && !skip(last.name) then 1 else 0;
    assert DirsToVisit(items, skip) == ds by {
      assert ds + [] == ds;
    }
    assert LocalFileCount(items, skip) == local + k;
    assert CountEntry(last, skip) == Success(k);
    assert CountItems(items, skip) == AddCounts(Shift(CountItems(ds, skip), local), Success(k));
    ShiftThenAdd(CountItems(ds, skip), Success(k), local);
  }

  lemma ShiftThenAdd(a: Result<nat, HttpError>, b: Result<nat, HttpError>, acc: nat)
    ensures AddCounts(Shift(a, acc), b) == Shift(AddCounts(a, b), acc)
  {
  }

  /** The directories the counter visits are non-excluded directory entries of the listing. */
  lemma {:induction false} DirsToVisitMembers(items: seq<Entry>, skip: string -> bool)
    ensures forall d :: d in DirsToVisit(items, skip) ==> d in items && d.Dir? && !skip(d.name)
  {
    if items != [] {
      DirsToVisitMembers(items[..|items| - 1], skip);
    }
  }

  /** `getFileCount(path, ..., acc, branch, extras)` on the content that `path` yields. */
  method GetFileCount(c: Content, acc: nat, extras: seq<string>) returns (r: Result<nat, HttpError>)
    ensures r == Shift(CountContent(c, ExclusionTest(extras)), acc)
    decreases c, 1
  {
    var skip := ExclusionTest(extras);
    match c {
      case Failed(e) =>
        return Failure(e);
      case Single(e) =>
        if e.File? {
          var shouldIgnore := skip(e.name);
          return Success(if shouldIgnore then acc else acc + 1);
        }
        return Success(acc);
      case Listing(items) =>
        var fileCount, directories := ScanListing(items, skip);
        CountItemsSplits(items, skip);
        DirsToVisitMembers(items, skip);
        var sub := CountDirectories(items, directories, extras);
        return Shift(sub, acc + fileCount);
    }
  }

  /** The loop over one listing: counts its non-excluded files and collects the directories to visit. */
  method ScanListing(items: seq<Entry>, skip: string -> bool) returns (fileCount: nat, directories: seq<Entry>)
    ensures fileCount == LocalFileCount(items, skip)
    ensures directories == DirsToVisit(items, skip)
  {
    fileCount := 0;
    directories := [];
    var i := 0;
    while i < |items|
      invariant 0 <= i <= |items|
      invariant fileCount == LocalFileCount(items[..i], skip)
      invariant directories == DirsToVisit(items[..i], skip)
    {
      var item := items[i];
      assert items[..i + 1][..i] == items[..i];
      var shouldIgnore := skip(item.name);
      if item.Dir? && !shouldIgnore {
        directories := directories + [item];
      } else if item.File? && !shouldIgnore {
        fileCount := fileCount + 1;
      }
      i := i + 1;
    }
    assert items[..i] == items;
  }

  /** The `Promise.all` over the collected directories and the sum of their counts. */
  method CountDirectories(ghost items: seq<Entry>, directories: seq<Entry>, extras: seq<string>) returns (r: Result<nat, HttpError>)
    requires forall d :: d in directories ==> d in items && d.Dir?
    requires forall d :: d in directories ==> !ExclusionTest(extras)(d.name)
    ensures r == CountItems(directories, ExclusionTest(extras))
    decreases Listing(items), 0
  {
    var skip := ExclusionTest(extras);
    var sum: nat := 0;
    var j := 0;
    while j < |directories|
      invariant 0 <= j <= |directories|
      invariant CountItems(directories[..j], skip) == Success(sum)
    {
      var dir := directories[j];
      var sub := GetFileCount(dir.contents, 0, extras);
      assert directories[..j + 1][..j] == directories[..j];
      if sub.Failure? {
        CountItemsConcat(directories[..j + 1], directories[j + 1..], skip);
        assert directories[..j + 1] + directories[j + 1..] == directories;
        return sub;
      }
      sum := sum + sub.value;
      j := j + 1;
    }
    assert directories[..j] == directories;
    return Success(sum);
  }

  /** An excluded directory is never descended into: even an unreadable one leaves the count of its siblings as it is. */
  lemma ExcludedDirIsSkipped(pre: seq<Entry>, name: string, path: string, sub: Content, post: seq<Entry>, skip: string -> bool)
    requires skip(name)
    ensures CountItems(pre + [Dir(name, path, sub)] + post, skip) == CountItems(pre + post, skip)
  {
    var d := Dir(name, path, sub);
    CountItemsConcat(pre + [d], post, skip);
    CountItemsConcat(pre, post, skip);
    assert (pre + [d])[..|pre + [d]| - 1] == pre;
  }

  /** An unreadable directory that is not excluded makes the whole count fail with its error. */
  lemma UnreadableDirFailsCount(pre: seq<Entry>, name: string, path: string, e: HttpError, post: seq<Entry>, skip: string -> bool)
    requires !skip(name)
    requires CountItems(pre, skip).Success?
    ensures CountItems(pre + [Dir(name, path, Failed(e))] + post, skip) == Failure(e)
  {
    var d := Dir(name, path, Failed(e));
    CountItemsConcat(pre + [d], post, skip);
    assert (pre + [d])[..|pre + [d]| - 1] == pre;
    assert CountEntry(d, skip) == Failure(e);
    assert CountItems(pre + [d], skip) == Failure(e);
  }
}
