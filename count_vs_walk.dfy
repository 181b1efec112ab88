/**
 * How the cost estimate (`getFileCount`) relates to the files the walk (`getAllFilesInRepo`)
 * collects for the same tree: the estimate never exceeds the walk, and the two agree when
 * every listing can be read and the exclusion test skips no entry.
 */
module CountVsWalk {
  import opened Wrappers
  import opened RepoTree
  import opened FileCounter
  import opened RepoWalker

  /** Every listing reachable from `c` is readable and `skip` rejects no entry name on the way. */
  predicate VisibleContent(c: Content, skip: string -> bool)
    decreases c
  {
    match c
    case Failed(_) => false
    case Single(e) => !(e.File? && skip(e.name))
    case Listing(items) => VisibleItems(items, skip)
  }

  predicate VisibleEntry(e: Entry, skip: string -> bool)
    decreases e
  {
    match e
    case File(name, _, _) => !skip(name)
    case Dir(name, _, sub) => !skip(name) && VisibleContent(sub, skip)
    case Other(_, _) => true
  }

  predicate VisibleItems(items: seq<Entry>, skip: string -> bool)
    decreases items
  {
    items == [] || (VisibleItems(items[..|items| - 1], skip) && VisibleEntry(items[|items| - 1], skip))
  }

  /** With nothing skipped and nothing unreadable, the estimate is exactly the number of files walked. */
  lemma {:induction false} CountMatchesWalk(c: Content, skip: string -> bool)
    requires VisibleContent(c, skip)
    ensures CountContent(c, skip) == Success(|WalkContent(c)|)
    decreases c
  {
    match c
    case Single(e) =>
    case Listing(items) =>
      CountMatchesWalkItems(items, skip);
  }

  lemma {:induction false} CountMatchesWalkEntry(e: Entry, skip: string -> bool)
    requires VisibleEntry(e, skip)
    ensures CountEntry(e, skip) == Success(|WalkEntry(e)|)
    decreases e
  {
    match e
    case File(_, _, _) =>
    case Dir(_, _, sub) =>
      CountMatchesWalk(sub, skip);
    case Other(_, _) =>
  }

  lemma {:induction false} CountMatchesWalkItems(items: seq<Entry>, skip: string -> bool)
    requires VisibleItems(items, skip)
    ensures CountItems(items, skip) == Success(|WalkItems(items)|)
    decreases items
  {
    if items != [] {
      CountMatchesWalkItems(items[..|items| - 1], skip);
      CountMatchesWalkEntry(items[|items| - 1], skip);
    }
  }

  /** Whenever the estimate succeeds it is at most the number of files walked. */
  lemma {:induction false} CountAtMostWalk(c: Content, skip: string -> bool)
    requires CountContent(c, skip).Success?
    ensures CountContent(c, skip).value <= |WalkContent(c)|
    decreases c
  {
    match c
    case Single(e) =>
    case Listing(items) =>
      CountAtMostWalkItems(items, skip);
  }

  lemma {:induction false} CountAtMostWalkEntry(e: Entry, skip: string -> bool)
    requires CountEntry(e, skip).Success?
    ensures CountEntry(e, skip).value <= |WalkEntry(e)|
    decreases e
  {
    if !skip(e.name) {
      match e
      case File(_, _, _) =>
      case Dir(_, _, sub) =>
        CountAtMostWalk(sub, skip);
      case Other(_, _) =>
    }
  }

  lemma {:induction false} CountAtMostWalkItems(items: seq<Entry>, skip: string -> bool)
    requires CountItems(items, skip).Success?
    ensures CountItems(items, skip).value <= |WalkItems(items)|
    decreases items
  {
    if items != [] {
      CountAtMostWalkItems(items[..|items| - 1], skip);
      CountAtMostWalkEntry(items[|items| - 1], skip);
    }
  }

  /**
   * An excluded file is left out of the estimate but still walked: the walk, and so the size
   * filter, applies no name exclusion.
   */
  lemma ExcludedFileIsWalkedButNotCounted(f: Entry, skip: string -> bool)
    requires f.File? && skip(f.name)
    ensures CountContent(Listing([f]), skip) == Success(0)
    ensures WalkContent(Listing([f])) == [FileRef(f.path, f.size)]
    ensures CountContent(Single(f), skip) == Success(0)
    ensures WalkContent(Single(f)) == [FileRef(f.path, f.size)]
  {
    var items := [f];
    assert items[..0] == [] && items[0] == f;
    assert CountItems(items, skip) == AddCounts(CountItems([], skip), CountEntry(f, skip));
    assert WalkItems(items) == WalkItems([]) + WalkEntry(f);
  }
}
