/**
 * The redirect table movedFiles and its lookup hasMoved. The table is a flat
 * array of pairs: each old path at an even index, its new path just after it.
 */
module Redirects {

  const MovedFiles: seq<string> := ["/old_page.html", "/new_page.html", "/old_page2.html", "/new_page2.html"]

  /** No old path occurs at an even index below `bound`. */
  predicate NoOldPathBelow(table: seq<string>, path: string, bound: int) {
    forall j :: 0 <= j < bound && j < |table| && j % 2 == 0 ==> table[j] != path
  }

  /**
   * The value hasMoved returns when its scan starts at the even index `i`:
   * the index after the first even-indexed entry equal to `path`, or -1.
   */
  function FindMovedFrom(table: seq<string>, path: string, i: nat): (r: int)
    requires i % 2 == 0
    ensures r == -1 || (r % 2 == 1 && i < r <= |table| && table[r - 1] == path)
    decreases |table| - i
  {
    if i >= |table| then -1
    else if table[i] == path then i + 1
    else FindMovedFrom(table, path, i + 2)
  }

  function FindMoved(table: seq<string>, path: string): (r: int)
    ensures r == -1 || (r % 2 == 1 && 0 < r <= |table| && table[r - 1] == path)
  {
    FindMovedFrom(table, path, 0)
  }

  lemma {:induction false} FindMovedFromSpec(table: seq<string>, path: string, i: nat)
    requires i % 2 == 0 && NoOldPathBelow(table, path, i)
    ensures FindMovedFrom(table, path, i) == -1 <==> NoOldPathBelow(table, path, |table|)
    ensures FindMovedFrom(table, path, i) != -1 ==> NoOldPathBelow(table, path, FindMovedFrom(table, path, i) - 1)
    decreases |table| - i
  {
    if i < |table| && table[i] != path {
      FindMovedFromSpec(table, path, i + 2);
    }
  }

  /**
   * hasMoved answers -1 exactly when no old path equals `path`; otherwise it
   * answers the index just after the FIRST old path equal to it, which is odd
   * and holds that entry's new path.
   */
  lemma FindMovedSpec(table: seq<string>, path: string)
    ensures FindMoved(table, path) == -1 <==> NoOldPathBelow(table, path, |table|)
    ensures FindMoved(table, path) != -1 ==>
      var r := FindMoved(table, path);
      r % 2 == 1 && 0 < r <= |table| && table[r - 1] == path && NoOldPathBelow(table, path, r - 1)
  {
    FindMovedFromSpec(table, path, 0);
  }

  /** hasMoved: a scan of the even indices of movedFiles with an early return. */
  method HasMoved(fileRequested: string) returns (r: int)
    ensures r == FindMoved(MovedFiles, fileRequested)
    ensures r == -1 <==> NoOldPathBelow(MovedFiles, fileRequested, |MovedFiles|)
    ensures r != -1 ==>
      r % 2 == 1 && 0 < r < |MovedFiles| && MovedFiles[r - 1] == fileRequested
      && NoOldPathBelow(MovedFiles, fileRequested, r - 1)
  {
    var i := 0;
    while i < |MovedFiles|
      invariant 0 <= i <= |MovedFiles| && i % 2 == 0
      invariant NoOldPathBelow(MovedFiles, fileRequested, i)
      invariant FindMovedFrom(MovedFiles, fileRequested, i) == FindMoved(MovedFiles, fileRequested)
    {
      if MovedFiles[i] == fileRequested {
        return i + 1;
      }
      i := i + 2;
    }
    return -1;
  }

  /** The configured pairs: each old page leads to its new page, and no new page is itself moved. */
  lemma MovedFilesPairs()
    ensures FindMoved(MovedFiles, "/old_page.html") == 1 && MovedFiles[1] == "/new_page.html"
    ensures FindMoved(MovedFiles, "/old_page2.html") == 3 && MovedFiles[3] == "/new_page2.html"
    ensures FindMoved(MovedFiles, "/new_page.html") == -1 && FindMoved(MovedFiles, "/new_page2.html") == -1
  {
  }
}
