/**
 * `getAllFilesInRepo`: the depth-first walk that collects `{ path, size }` for every file of the
 * tree, in listing order. It applies no name exclusion, and a listing that fails is logged and
 * contributes nothing.
 */
module RepoWalker {
  import opened RepoTree

  function WalkContent(c: Content): (r: seq<FileRef>)
    ensures c.Failed? ==> r == []
    ensures c.Single? ==> |r| <= 1 && (r != [] <==> c.entry.File?)
    ensures c.Single? && c.entry.File? ==> r == [RefOf(c.entry)]
    decreases c
  {
    match c
    case Failed(_) => []
    case Single(e) => if e.File? then [RefOf(e)] else []
    case Listing(items) => WalkItems(items)
  }

  function WalkEntry(e: Entry): seq<FileRef>
    decreases e
  {
    match e
    case File(_, _, _) => [RefOf(e)]
    case Dir(_, _, sub) => WalkContent(sub)
    case Other(_, _) => []
  }

  function WalkItems(items: seq<Entry>): seq<FileRef>
    decreases items
  {
    if items == [] then []
    else WalkItems(items[..|items| - 1]) + WalkEntry(items[|items| - 1])
  }

  /** `getAllFilesInRepo(octokit, owner, repo, branch, path)` on the content that `path` yields. */
  method GetAllFilesInRepo(c: Content) returns (result: seq<FileRef>)
    ensures result == WalkContent(c)
    decreases c
  {
    result := [];
    match c {
      case Failed(_) =>
      case Single(e) =>
        if e.File? {
          result := result + [RefOf(e)];
        }
      case Listing(items) =>
        var i := 0;
        while i < |items|
          invariant 0 <= i <= |items|
          invariant result == WalkItems(items[..i])
        {
          var item := items[i];
          assert items[..i + 1][..i] == items[..i];
          if item.File? {
            result := result + [RefOf(item)];
          } else if item.Dir? {
            var subFiles := GetAllFilesInRepo(item.contents);
            result := result + subFiles;
          }
          i := i + 1;
        }
        assert items[..i] == items;
    }
  }

  // An independent reading of the walk: list every entry depth-first, then keep the files.

  /** Every entry reachable from `c`, each directory followed by its own entries, in listing order. */
  function EntriesContent(c: Content): seq<Entry>
    decreases c
  {
    match c
    case Failed(_) => []
    case Single(e) => [e]
    case Listing(items) => EntriesItems(items)
  }

  function EntriesEntry(e: Entry): seq<Entry>
    decreases e
  {
    match e
    case Dir(_, _, sub) => [e] + EntriesContent(sub)
    case _ => [e]
  }

  function EntriesItems(items: seq<Entry>): seq<Entry>
    decreases items
  {
    if items == [] then []
    else EntriesItems(items[..|items| - 1]) + EntriesEntry(items[|items| - 1])
  }

  /** The `{ path, size }` of the file entries of `es`, in order; other entries are dropped. */
  function FileRefs(es: seq<Entry>): (r: seq<FileRef>)
    ensures |r| <= |es|
    ensures forall i :: 0 <= i < |es| && es[i].File? ==> RefOf(es[i]) in r
    ensures forall ref :: ref in r ==> exists i :: 0 <= i < |es| && es[i].File? && ref == RefOf(es[i])
  {
    if es == [] then []
    else FileRefs(es[..|es| - 1]) + (if es[|es| - 1].File? then [RefOf(es[|es| - 1])] else [])
  }

  lemma {:induction false} FileRefsConcat(a: seq<Entry>, b: seq<Entry>)
    ensures FileRefs(a + b) == FileRefs(a) + FileRefs(b)
    decreases |b|
  {
    if b == [] {
      assert a + b == a;
    } else {
      var b' := b[..|b| - 1];
      assert (a + b)[..|a + b| - 1] == a + b';
      FileRefsConcat(a, b');
    }
  }

  /** The walk yields exactly the file entries of the tree, in depth-first listing order. */
  lemma {:induction false} WalkIsFilesInDepthFirstOrder(c: Content)
    ensures WalkContent(c) == FileRefs(EntriesContent(c))
    decreases c
  {
    match c
    case Failed(_) =>
    case Single(e) =>
      assert [e][..0] == [];
    case Listing(items) =>
      WalkItemsIsFiles(items);
  }

  lemma {:induction false} WalkEntryIsFiles(e: Entry)
    ensures WalkEntry(e) == FileRefs(EntriesEntry(e))
    decreases e
  {
    assert [e][..0] == [];
    match e
    case Dir(_, _, sub) =>
      WalkIsFilesInDepthFirstOrder(sub);
      FileRefsConcat([e], EntriesContent(sub));
    case _ =>
  }

  lemma {:induction false} WalkItemsIsFiles(items: seq<Entry>)
    ensures WalkItems(items) == FileRefs(EntriesItems(items))
    decreases items
  {
    if items != [] {
      var init := items[..|items| - 1];
      var last := items[|items| - 1];
      WalkItemsIsFiles(init);
      WalkEntryIsFiles(last);
      FileRefsConcat(EntriesItems(init), EntriesEntry(last));
    }
  }

  /** Walking a concatenation of listings walks each in turn. */
  lemma {:induction false} WalkItemsConcat(a: seq<Entry>, b: seq<Entry>)
    ensures WalkItems(a + b) == WalkItems(a) + WalkItems(b)
    decreases |b|
  {
    if b == [] {
      assert a + b == a;
    } else {
      var b' := b[..|b| - 1];
      assert (a + b)[..|a + b| - 1] == a + b';
      WalkItemsConcat(a, b');
    }
  }

  /** A directory whose listing fails contributes nothing and leaves its siblings' files as they are. */
  lemma UnreadableDirContributesNothing(pre: seq<Entry>, name: string, path: string, error: HttpError, post: seq<Entry>)
    ensures WalkItems(pre + [Dir(name, path, Failed(error))] + post) == WalkItems(pre) + WalkItems(post)
  {
    var d := Dir(name, path, Failed(error));
    WalkItemsConcat(pre + [d], post);
    assert (pre + [d])[..|pre + [d]| - 1] == pre;
    assert WalkEntry(d) == [];
    assert WalkItems(pre + [d]) == WalkItems(pre) + [];
  }
}
