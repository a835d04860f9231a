/** The order in which the locator discovers directories, stated three ways:
    as the FIFO queue discipline of the source (Discover), level by level
    (Expand), and as the reachable directories listed by recursion (Below):
    a directory's listing first, then everything below each listed directory
    in turn, so root->{a->{a1->{a11}}, b->{b1}} gives a, b, a1, a11, b1. That
    is neither pre-order nor breadth-first order, so Below is compared with
    Discover only as a multiset. The lemmas tie them together. */
module Discovery {
  import opened Options
  import opened FileTree

  /** The directories discovered while the queue `q` is drained: each
      dequeued directory contributes its listing, which is also appended to
      the back of the queue. */
  function Discover(q: seq<Item>): seq<Item>
    decreases QueueSize(q)
  {
    if q == [] then []
    else
      KidsSmaller(q[0]);
      QueueSizeAppend(q[1..], Kids(q[0]));
      Kids(q[0]) + Discover(q[1..] + Kids(q[0]))
  }

  /** One turn of the loop: dequeue the head, append its listing. */
  lemma DiscoverStep(q: seq<Item>)
    requires q != []
    ensures Discover(q) == Kids(q[0]) + Discover(q[1..] + Kids(q[0]))
  {
  }

  /** The next level of the tree below the directories of `q`. */
  function Expand(q: seq<Item>): seq<Item>
  {
    if q == [] then [] else Kids(q[0]) + Expand(q[1..])
  }

  /** Every directory reachable from `it` through listable, non-link
      directories (`it` itself excluded): its listing, then everything below
      each listed directory. */
  function Below(it: Item): seq<Item>
    decreases Size(it.node), 0
  {
    KidsSmaller(it);
    Kids(it) + BelowAll(Kids(it))
  }

  /** Everything below each directory of `q`, in turn. */
  function BelowAll(q: seq<Item>): seq<Item>
    decreases QueueSize(q), 1
  {
    if q == [] then [] else Below(q[0]) + BelowAll(q[1..])
  }

  /** The first directory of `s` whose base name is exactly `target`. */
  function FirstMatch(target: string, s: seq<Item>): Option<Item>
  {
    if s == [] then None
    else if s[0].node.name == target then Some(s[0])
    else FirstMatch(target, s[1..])
  }

  /** FirstMatch finds a directory exactly when one of `s` is named `target`
      (an exact, case-sensitive comparison), and no earlier one is. */
  lemma {:induction false} FirstMatchIsFirst(target: string, s: seq<Item>)
    ensures FirstMatch(target, s).None? <==> forall i :: 0 <= i < |s| ==> s[i].node.name != target
    ensures FirstMatch(target, s).Some? ==>
              exists i :: 0 <= i < |s| && s[i] == FirstMatch(target, s).value && s[i].node.name == target &&
                          forall j :: 0 <= j < i ==> s[j].node.name != target
  {
    if s != [] && s[0].node.name != target {
      FirstMatchIsFirst(target, s[1..]);
      if FirstMatch(target, s).Some? {
        var i :| 0 <= i < |s| - 1 && s[1..][i] == FirstMatch(target, s).value && s[1..][i].node.name == target &&
                 forall j :: 0 <= j < i ==> s[1..][j].node.name != target;
        assert s[i + 1] == s[1..][i];
        forall j | 0 <= j < i + 1 ensures s[j].node.name != target {
          if j > 0 { assert s[j] == s[1..][j - 1]; }
        }
      } else {
        forall i | 0 <= i < |s| ensures s[i].node.name != target {
          if i > 0 { assert s[i] == s[1..][i - 1]; }
        }
      }
    }
  }

  lemma {:induction false} FirstMatchAppend(target: string, a: seq<Item>, b: seq<Item>)
    ensures FirstMatch(target, a + b) == if FirstMatch(target, a).Some? then FirstMatch(target, a) else FirstMatch(target, b)
  {
    if a == [] {
      assert a + b == b;
    } else {
      assert (a + b)[1..] == a[1..] + b;
      FirstMatchAppend(target, a[1..], b);
    }
  }

  /** Draining a queue `q + r` first discovers the whole next level below
      `q`, then continues with `r` followed by that level. */
  lemma {:induction false} DiscoverSplit(q: seq<Item>, r: seq<Item>)
    ensures Discover(q + r) == Expand(q) + Discover(r + Expand(q))
    decreases |q|
  {
    if q == [] {
      assert q + r == r;
      assert r + Expand(q) == r;
    } else {
      var k, t := Kids(q[0]), q[1..];
      DiscoverSplitHead(q, r);
      DiscoverSplit(t, r + k);
      assert Expand(q) == k + Expand(t);
      Regroup(Discover(q + r), k, Expand(t), Expand(q), r, Discover(t + (r + k)), Discover(r + k + Expand(t)));
    }
  }

  /** Sequence bookkeeping for DiscoverSplit, kept apart from any unfolding
      of Discover. */
  lemma Regroup(d: seq<Item>, k: seq<Item>, et: seq<Item>, eq: seq<Item>, r: seq<Item>, x: seq<Item>, y: seq<Item>)
    requires d == k + x && x == et + y && eq == k + et
    ensures d == eq + y && r + k + et == r + eq
  {
  }

  /** The first turn of draining `q + r`. */
  lemma DiscoverSplitHead(q: seq<Item>, r: seq<Item>)
    requires q != []
    ensures Discover(q + r) == Kids(q[0]) + Discover(q[1..] + (r + Kids(q[0])))
  {
    ConsAppend(q, r, Kids(q[0]));
    DiscoverStep(q + r);
  }

  /** Sequence bookkeeping for DiscoverSplitHead. */
  lemma ConsAppend(q: seq<Item>, r: seq<Item>, k: seq<Item>)
    requires q != []
    ensures (q + r)[0] == q[0] && (q + r)[1..] + k == q[1..] + (r + k)
  {
    assert (q + r)[1..] == q[1..] + r;
  }

  /** Breadth-first order: the discovery order is the next level, then the
      discovery order of that level. */
  lemma DiscoverLevels(q: seq<Item>)
    ensures Discover(q) == Expand(q) + Discover(Expand(q))
  {
    DiscoverSplit(q, []);
    assert q + [] == q;
    assert [] + Expand(q) == Expand(q);
  }

  lemma {:induction false} ExpandSmaller(q: seq<Item>)
    ensures QueueSize(Expand(q)) + |q| <= QueueSize(q)
  {
    if q != [] {
      ExpandSmaller(q[1..]);
      KidsSmaller(q[0]);
      QueueSizeAppend(Kids(q[0]), Expand(q[1..]));
    }
  }

  lemma {:induction false} ExpandDepth(q: seq<Item>, d: nat)
    requires forall k :: 0 <= k < |q| ==> |q[k].rel| == d
    ensures forall k :: 0 <= k < |Expand(q)| ==> |Expand(q)[k].rel| == d + 1
  {
    if q != [] {
      ExpandDepth(q[1..], d);
      KidsShape(q[0]);
      var e := Expand(q);
      forall k | 0 <= k < |e| ensures |e[k].rel| == d + 1 {
        if k < |Kids(q[0])| {
          assert e[k] in Kids(q[0]);
        } else {
          assert e[k] == Expand(q[1..])[k - |Kids(q[0])|];
        }
      }
    }
  }

  /** All directories of `s` lie deeper than `d`. */
  predicate Deeper(s: seq<Item>, d: nat)
  {
    forall i :: 0 <= i < |s| ==> |s[i].rel| > d
  }

  /** The directories of `s` come in non-decreasing depth. */
  predicate ShallowFirst(s: seq<Item>)
  {
    forall i, j :: 0 <= i < j < |s| ==> |s[i].rel| <= |s[j].rel|
  }

  lemma LevelThenDeeper(e: seq<Item>, t: seq<Item>, d: nat)
    requires forall k :: 0 <= k < |e| ==> |e[k].rel| == d + 1
    requires Deeper(t, d + 1) && ShallowFirst(t)
    ensures Deeper(e + t, d) && ShallowFirst(e + t)
  {
    var s := e + t;
    forall i | 0 <= i < |s| ensures |s[i].rel| > d {
      if i >= |e| { assert s[i] == t[i - |e|]; }
    }
    forall i, j | 0 <= i < j < |s| ensures |s[i].rel| <= |s[j].rel| {
      if j < |e| {
      } else if i < |e| {
        assert s[j] == t[j - |e|];
      } else {
        assert s[i] == t[i - |e|];
        assert s[j] == t[j - |e|];
      }
    }
  }

  /** Starting from a queue whose directories all lie at depth `d`, the
      discovery order lists directories strictly deeper than `d`, in
      non-decreasing depth. */
  lemma {:induction false} DiscoverByDepth(q: seq<Item>, d: nat)
    requires forall k :: 0 <= k < |q| ==> |q[k].rel| == d
    ensures Deeper(Discover(q), d) && ShallowFirst(Discover(q))
    decreases QueueSize(q)
  {
    if q != [] {
      var e := Expand(q);
      DiscoverLevels(q);
      ExpandDepth(q, d);
      ExpandSmaller(q);
      DiscoverByDepth(e, d + 1);
      LevelThenDeeper(e, Discover(e), d);
    }
  }

  /** When `s` lists shallower directories first, its first match is a
      shallowest match. */
  lemma FirstMatchShallowest(target: string, s: seq<Item>)
    requires ShallowFirst(s) && FirstMatch(target, s).Some?
    ensures forall x :: x in s && x.node.name == target ==> |FirstMatch(target, s).value.rel| <= |x.rel|
  {
    FirstMatchIsFirst(target, s);
    var i :| 0 <= i < |s| && s[i] == FirstMatch(target, s).value && s[i].node.name == target &&
             forall j :: 0 <= j < i ==> s[j].node.name != target;
    forall x | x in s && x.node.name == target ensures |s[i].rel| <= |x.rel| {
      var j :| 0 <= j < |s| && s[j] == x;
      assert i <= j;
    }
  }

  lemma {:induction false} BelowAllAppend(a: seq<Item>, b: seq<Item>)
    ensures BelowAll(a + b) == BelowAll(a) + BelowAll(b)
    decreases |a|
  {
    if a == [] {
      assert a + b == b;
    } else {
      assert (a + b)[0] == a[0];
      assert (a + b)[1..] == a[1..] + b;
      BelowAllAppend(a[1..], b);
    }
  }

  /** Draining the queue discovers every directory reachable below the queued
      ones exactly once: no directory is missed and none is visited twice. */
  lemma {:induction false} DiscoverCoversBelow(q: seq<Item>)
    ensures multiset(Discover(q)) == multiset(BelowAll(q))
    decreases QueueSize(q)
  {
    if q != [] {
      var a, rest := q[0], q[1..];
      var k := Kids(a);
      KidsSmaller(a);
      QueueSizeAppend(rest, k);
      DiscoverCoversBelow(rest + k);
      BelowAllAppend(rest, k);
      assert Discover(q) == k + Discover(rest + k);
      assert BelowAll(q) == k + BelowAll(k) + BelowAll(rest);
    }
  }

  /** The search of one root visits exactly the directories below it. */
  lemma {:induction false} DiscoverIsBelow(it: Item)
    ensures multiset(Discover([it])) == multiset(Below(it))
  {
    var q := [it];
    DiscoverCoversBelow(q);
    assert q[0] == it && q[1..] == [];
    assert BelowAll(q) == Below(it) + BelowAll([]);
  }

  /** A directory is discovered from `it` exactly when it lies below `it`. */
  lemma DiscoveredIffBelow(it: Item)
    ensures forall x :: x in Discover([it]) <==> x in Below(it)
  {
    DiscoverIsBelow(it);
    forall x ensures x in Discover([it]) <==> x in Below(it) {
      assert x in Discover([it]) <==> x in multiset(Discover([it]));
      assert x in Below(it) <==> x in multiset(Below(it));
    }
  }

  /** Everything the search discovers is a real directory whose path below
      the root is non-empty and ends with its own name. */
  lemma {:induction false} DiscoverShape(q: seq<Item>)
    ensures forall x :: x in Discover(q) ==> x.node.Dir? && |x.rel| > 0 && x.rel[|x.rel| - 1] == x.node.name
    decreases QueueSize(q)
  {
    if q != [] {
      var k := Kids(q[0]);
      KidsSmaller(q[0]);
      QueueSizeAppend(q[1..], k);
      KidsShape(q[0]);
      DiscoverShape(q[1..] + k);
      assert Discover(q) == k + Discover(q[1..] + k);
    }
  }

  /** A directory that cannot be listed contributes nothing, and the rest of
      the queue is still drained. */
  lemma UnreadableSkipped(name: string, children: seq<Entry>, rel: seq<string>, rest: seq<Item>)
    ensures Discover([Item(rel, Dir(name, false, children))] + rest) == Discover(rest)
  {
    var q := [Item(rel, Dir(name, false, children))] + rest;
    assert q[1..] == rest;
    assert rest + [] == rest;
  }
}
