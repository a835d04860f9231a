/** The filesystem as the directory locator sees it: a finite tree of
    directory entries, listed in the order os.scandir yields them. */
module FileTree {

  /** One entry of a directory listing. A symbolic link is a leaf whatever it
      points to, because the locator asks `is_dir(follow_symlinks=False)`,
      which is false for every symbolic link. */
  datatype Entry =
    | Dir(name: string, readable: bool, children: seq<Entry>)
    | Symlink(name: string)
    | File(name: string)

  /** A directory reached by the search: the names joined below the search
      root to form its path (`entry.path`), and the entry itself. */
  datatype Item = Item(rel: seq<string>, node: Entry)

  /** Number of entries in the subtree of `e`, itself included. */
  function Size(e: Entry): nat
  {
    match e
    case Dir(_, _, children) => 1 + SizeAll(children)
    case _ => 1
  }

  function SizeAll(es: seq<Entry>): nat
  {
    if es == [] then 0 else Size(es[0]) + SizeAll(es[1..])
  }

  /** Sum of the subtree sizes of the directories waiting in a queue. */
  function QueueSize(q: seq<Item>): nat
  {
    if q == [] then 0 else Size(q[0].node) + QueueSize(q[1..])
  }

  /** The entries of a listing that the search would enqueue: the real
      directories (never a link, never a file), each with its extended path,
      in listing order. */
  function ChildItems(rel: seq<string>, es: seq<Entry>): seq<Item>
  {
    if es == [] then []
    else (if es[0].Dir? then [Item(rel + [es[0].name], es[0])] else []) + ChildItems(rel, es[1..])
  }

  /** What listing the directory `it` contributes: nothing when it cannot be
      listed (the PermissionError branch). */
  function Kids(it: Item): seq<Item>
  {
    if it.node.Dir? && it.node.readable then ChildItems(it.rel, it.node.children) else []
  }

  lemma {:induction false} QueueSizeAppend(a: seq<Item>, b: seq<Item>)
    ensures QueueSize(a + b) == QueueSize(a) + QueueSize(b)
  {
    if a != [] {
      assert (a + b)[1..] == a[1..] + b;
      QueueSizeAppend(a[1..], b);
    } else {
      assert a + b == b;
    }
  }

  lemma {:induction false} ChildItemsSmaller(rel: seq<string>, es: seq<Entry>)
    ensures QueueSize(ChildItems(rel, es)) <= SizeAll(es)
  {
    if es != [] {
      var head := if es[0].Dir? then [Item(rel + [es[0].name], es[0])] else [];
      ChildItemsSmaller(rel, es[1..]);
      QueueSizeAppend(head, ChildItems(rel, es[1..]));
    }
  }

  /** Listing a directory yields strictly less than its own subtree: the
      measure that makes the breadth-first loop terminate. */
  lemma KidsSmaller(it: Item)
    ensures QueueSize(Kids(it)) < Size(it.node)
  {
    if it.node.Dir? && it.node.readable {
      ChildItemsSmaller(it.rel, it.node.children);
    }
  }

  /** Every enqueued entry is a real directory whose path is its parent's path
      extended by its own name. */
  lemma {:induction false} ChildItemsShape(rel: seq<string>, es: seq<Entry>)
    ensures forall x :: x in ChildItems(rel, es) ==> x.node.Dir? && x.node in es && x.rel == rel + [x.node.name]
  {
    if es != [] {
      ChildItemsShape(rel, es[1..]);
      forall x | x in ChildItems(rel, es)
        ensures x.node.Dir? && x.node in es && x.rel == rel + [x.node.name]
      {
        if x !in ChildItems(rel, es[1..]) {
          assert x == Item(rel + [es[0].name], es[0]);
        }
      }
    }
  }

  /** Every directory waiting in `q` is a real directory. */
  predicate AllDirs(q: seq<Item>)
  {
    forall k :: 0 <= k < |q| ==> q[k].node.Dir?
  }

  lemma AllDirsAppend(a: seq<Item>, b: seq<Item>)
    requires AllDirs(a) && AllDirs(b)
    ensures AllDirs(a + b)
  {
    forall k | |a| <= k < |a + b| ensures (a + b)[k].node.Dir? {
      assert (a + b)[k] == b[k - |a|];
    }
  }

  lemma KidsAreDirs(it: Item)
    ensures AllDirs(Kids(it))
  {
    KidsShape(it);
    forall k | 0 <= k < |Kids(it)| ensures Kids(it)[k].node.Dir? {
      assert Kids(it)[k] in Kids(it);
    }
  }

  lemma KidsShape(it: Item)
    ensures forall x :: x in Kids(it) ==> x.node.Dir? && x.rel == it.rel + [x.node.name]
  {
    if it.node.Dir? && it.node.readable {
      ChildItemsShape(it.rel, it.node.children);
    }
  }
}
