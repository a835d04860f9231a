/** The directory locator `search_directory`: roots are tried in order, each
    searched breadth-first for a directory whose base name is the target. */
module Locator {
  import opened Options
  import opened FileTree
  import opened Discovery

  /** A configured search root: absent from disk, or present with the tree
      found there. */
  datatype Root =
    | Missing(path: string)
    | Present(path: string, top: Entry)

  /** A present root must be a directory: os.scandir on anything else raises
      an error the source does not catch. */
  predicate Scannable(r: Root)
  {
    r.Present? ==> r.top.Dir?
  }

  /** The path returned on a match: the root it was found under and the names
      joined below it. */
  datatype FoundPath = FoundPath(base: string, rel: seq<string>)

  /** The search queue starts with the root alone, at an empty relative path. */
  function Start(top: Entry): Item
  {
    Item([], top)
  }

  /** What the search of one root returns. */
  function SearchRoot(target: string, r: Root): Option<FoundPath>
  {
    match r
    case Missing(_) => None
    case Present(base, top) =>
      match FirstMatch(target, Discover([Start(top)]))
      case None => None
      case Some(x) => Some(FoundPath(base, x.rel))
  }

  /** What `search_directory` returns: the result of the first root that
      yields one. */
  function Locate(target: string, roots: seq<Root>): Option<FoundPath>
  {
    if roots == [] then None
    else if SearchRoot(target, roots[0]).Some? then SearchRoot(target, roots[0])
    else Locate(target, roots[1..])
  }

  /** Some directory below the root of `r` is named `target`. */
  predicate HasReachableMatch(target: string, r: Root)
  {
    r.Present? && exists x :: x in Below(Start(r.top)) && x.node.name == target
  }

  /** The `for entry in it` loop over one listing: the first directory
      (never a link, never a file) named `target`, or, when there is none,
      the queue with every listed directory appended in listing order. */
  method ScanListing(target: string, rel: seq<string>, entries: seq<Entry>, queue: seq<Item>)
    returns (hit: Option<Item>, extended: seq<Item>)
    ensures hit == FirstMatch(target, ChildItems(rel, entries))
    ensures hit.None? ==> extended == queue + ChildItems(rel, entries)
  {
    extended := queue;
    assert entries[0..] == entries;
    var j := 0;
    while j < |entries|
      invariant 0 <= j <= |entries|
      invariant extended + ChildItems(rel, entries[j..]) == queue + ChildItems(rel, entries)
      invariant FirstMatch(target, ChildItems(rel, entries[j..])) == FirstMatch(target, ChildItems(rel, entries))
    {
      var entry := entries[j];
      assert entries[j..][1..] == entries[j + 1..];
      if entry.Dir? {
        var item := Item(rel + [entry.name], entry);
        assert ChildItems(rel, entries[j..]) == [item] + ChildItems(rel, entries[j + 1..]);
        if entry.name == target {
          return Some(item), extended;
        }
        assert extended + [item] + ChildItems(rel, entries[j + 1..]) == queue + ChildItems(rel, entries);
        extended := extended + [item];
      } else {
        assert ChildItems(rel, entries[j..]) == ChildItems(rel, entries[j + 1..]);
      }
      j := j + 1;
    }
    assert extended + [] == extended;
    hit := None;
  }

  /** The breadth-first scan of one present root (the `while queue` loop):
      it returns the first matching directory in discovery order. */
  method BreadthFirst(target: string, top: Entry) returns (found: Option<Item>)
    requires top.Dir?
    ensures found == FirstMatch(target, Discover([Start(top)]))
  {
    var queue := [Start(top)];
    while queue != []
      invariant AllDirs(queue)
      invariant FirstMatch(target, Discover(queue)) == FirstMatch(target, Discover([Start(top)]))
      decreases QueueSize(queue)
    {
      var current := queue[0];
      ghost var next := queue[1..] + Kids(current);
      assert QueueSize(next) < QueueSize(queue) by {
        KidsSmaller(current);
        QueueSizeAppend(queue[1..], Kids(current));
      }
      assert FirstMatch(target, Discover(queue)) ==
             if FirstMatch(target, Kids(current)).Some? then FirstMatch(target, Kids(current))
             else FirstMatch(target, Discover(next)) by {
        DiscoverStep(queue);
        FirstMatchAppend(target, Kids(current), Discover(next));
      }
      queue := queue[1..];
      assert AllDirs(next) by {
        KidsAreDirs(current);
        AllDirsAppend(queue, Kids(current));
      }
      if current.node.readable {
        var hit;
        hit, queue := ScanListing(target, current.rel, current.node.children, queue);
        if hit.Some? {
          return hit;
        }
      } else {
        assert queue == next by {
          assert Kids(current) == [];
          assert queue + [] == queue;
        }
      }
    }
    found := None;
  }

  /** `search_directory`: roots are tried strictly in list order; a missing
      root is skipped and the search goes on. */
  method SearchDirectory(target: string, roots: seq<Root>) returns (found: Option<FoundPath>)
    requires forall i :: 0 <= i < |roots| ==> Scannable(roots[i])
    ensures found == Locate(target, roots)
  {
    for i := 0 to |roots|
      invariant Locate(target, roots) == Locate(target, roots[i..])
    {
      assert roots[i..][0] == roots[i] && roots[i..][1..] == roots[i + 1..];
      if roots[i].Present? {
        assert Scannable(roots[i]);
        var hit := BreadthFirst(target, roots[i].top);
        if hit.Some? {
          return Some(FoundPath(roots[i].path, hit.value.rel));
        }
      }
    }
    assert roots[|roots|..] == [];
    return None;
  }

  /** The result is that of the first root, in list order, that yields one;
      no root yields one exactly when the result is None. */
  lemma {:induction false} LocateFirstRoot(target: string, roots: seq<Root>)
    ensures Locate(target, roots).None? <==> forall i :: 0 <= i < |roots| ==> SearchRoot(target, roots[i]).None?
    ensures Locate(target, roots).Some? ==>
              exists i :: 0 <= i < |roots| && Locate(target, roots) == SearchRoot(target, roots[i]) &&
                          forall k :: 0 <= k < i ==> SearchRoot(target, roots[k]).None?
  {
    if roots != [] {
      LocateFirstRoot(target, roots[1..]);
      if SearchRoot(target, roots[0]).None? {
        forall i | 0 <= i < |roots| - 1 ensures roots[1..][i] == roots[i + 1] { }
        if Locate(target, roots).Some? {
          var i :| 0 <= i < |roots| - 1 && Locate(target, roots[1..]) == SearchRoot(target, roots[1..][i]) &&
                   forall k :: 0 <= k < i ==> SearchRoot(target, roots[1..][k]).None?;
          assert Locate(target, roots) == SearchRoot(target, roots[i + 1]);
          forall k | 0 <= k < i + 1 ensures SearchRoot(target, roots[k]).None? {
            if k > 0 { assert roots[k] == roots[1..][k - 1]; }
          }
        }
      }
    }
  }

  /** A root yields nothing exactly when it is missing or no directory below
      it carries the target name; the root's own name is never compared. */
  lemma {:induction false} SearchRootNoneIff(target: string, r: Root)
    ensures SearchRoot(target, r).None? <==> !HasReachableMatch(target, r)
  {
    if r.Present? {
      var d := Discover([Start(r.top)]);
      DiscoveredIffBelow(Start(r.top));
      FirstMatchIsFirst(target, d);
      if FirstMatch(target, d).Some? {
        var i :| 0 <= i < |d| && d[i] == FirstMatch(target, d).value && d[i].node.name == target;
        assert d[i] in Below(Start(r.top));
      }
    }
  }

  /** `search_directory` returns None exactly when no root has a reachable
      directory named `target`. */
  lemma {:induction false} LocateNoneIff(target: string, roots: seq<Root>)
    ensures Locate(target, roots).None? <==> forall i :: 0 <= i < |roots| ==> !HasReachableMatch(target, roots[i])
  {
    LocateFirstRoot(target, roots);
    forall i | 0 <= i < |roots|
      ensures SearchRoot(target, roots[i]).None? <==> !HasReachableMatch(target, roots[i])
    {
      SearchRootNoneIff(target, roots[i]);
    }
  }

  /** A match from a root is a real directory below it (never the root,
      never a link), its path ends with exactly `target`, and no matching
      directory lies shallower under that root. */
  lemma {:induction false} SearchRootFound(target: string, r: Root, p: FoundPath)
    requires SearchRoot(target, r) == Some(p)
    ensures r.Present? && p.base == r.path
    ensures |p.rel| > 0 && p.rel[|p.rel| - 1] == target
    ensures exists x :: x in Below(Start(r.top)) && x.rel == p.rel && x.node.Dir? && x.node.name == target
    ensures forall x :: x in Below(Start(r.top)) && x.node.name == target ==> |p.rel| <= |x.rel|
  {
    var top := r.top;
    var d := Discover([Start(top)]);
    var m := FirstMatch(target, d).value;
    assert m.rel == p.rel;
    assert m in d && m.node.name == target by {
      FirstMatchIsFirst(target, d);
    }
    assert m.node.Dir? && |m.rel| > 0 && m.rel[|m.rel| - 1] == m.node.name by {
      DiscoverShape([Start(top)]);
    }
    assert forall x :: x in d && x.node.name == target ==> |m.rel| <= |x.rel| by {
      DiscoverByDepth([Start(top)], 0);
      FirstMatchShallowest(target, d);
    }
    DiscoveredIffBelow(Start(top));
  }

  /** `search_directory` on its whole root list: a result comes from the
      first root holding a match, ends with `target`, names a real directory
      below that root, and is as shallow as any match there; every earlier
      root, missing or not, has no match. */
  lemma {:induction false} SearchDirectoryResult(target: string, roots: seq<Root>, p: FoundPath)
    requires Locate(target, roots) == Some(p)
    ensures |p.rel| > 0 && p.rel[|p.rel| - 1] == target
    ensures exists i :: 0 <= i < |roots| && roots[i].Present? && roots[i].path == p.base &&
                        (exists x :: x in Below(Start(roots[i].top)) && x.rel == p.rel && x.node.Dir? && x.node.name == target) &&
                        (forall x :: x in Below(Start(roots[i].top)) && x.node.name == target ==> |p.rel| <= |x.rel|) &&
                        forall k :: 0 <= k < i ==> !HasReachableMatch(target, roots[k])
  {
    LocateFirstRoot(target, roots);
    var i :| 0 <= i < |roots| && Locate(target, roots) == SearchRoot(target, roots[i]) &&
             forall k :: 0 <= k < i ==> SearchRoot(target, roots[k]).None?;
    SearchRootFound(target, roots[i], p);
    forall k | 0 <= k < i ensures !HasReachableMatch(target, roots[k]) {
      SearchRootNoneIff(target, roots[k]);
    }
  }

  /** A root that cannot be listed yields nothing, and the search goes on
      with the next root. */
  lemma {:induction false} UnreadableRootSkipped(target: string, base: string, name: string, children: seq<Entry>, rest: seq<Root>)
    ensures Locate(target, [Present(base, Dir(name, false, children))] + rest) == Locate(target, rest)
  {
    var roots := [Present(base, Dir(name, false, children))] + rest;
    UnreadableSkipped(name, children, [], []);
    assert [Start(Dir(name, false, children))] + [] == [Start(Dir(name, false, children))];
    assert roots[1..] == rest;
  }
}
