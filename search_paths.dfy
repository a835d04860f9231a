/** The last step of `get_paths_to_search`: of the seven configured roots
    read from the environment, keep those that are set and non-empty. */
module SearchPaths {
  import opened Options

  /** Python's truth test on an optional string: None and "" are false. */
  predicate IsSet(p: Option<string>)
  {
    p.Some? && p.value != ""
  }

  /** `[path for path in paths if path]` */
  function PathsToSearch(configured: seq<Option<string>>): (r: seq<string>)
    ensures |r| <= |configured|
    ensures forall k :: 0 <= k < |r| ==> r[k] != ""
    ensures forall s :: s in r <==> s != "" && Some(s) in configured
  {
    if configured == [] then []
    else (if IsSet(configured[0]) then [configured[0].value] else []) + PathsToSearch(configured[1..])
  }

  /** The filter works entry by entry and keeps the original order: filtering
      a concatenation is concatenating the filtered parts. */
  lemma {:induction false} PathsToSearchAppend(a: seq<Option<string>>, b: seq<Option<string>>)
    ensures PathsToSearch(a + b) == PathsToSearch(a) + PathsToSearch(b)
  {
    if a == [] {
      assert a + b == b;
    } else {
      assert (a + b)[0] == a[0];
      assert (a + b)[1..] == a[1..] + b;
      PathsToSearchAppend(a[1..], b);
    }
  }

  /** Nothing is dropped when every entry is set. */
  lemma {:induction false} PathsToSearchKeepsAllSet(configured: seq<Option<string>>)
    requires forall k :: 0 <= k < |configured| ==> configured[k].Some? && configured[k].value != ""
    ensures |PathsToSearch(configured)| == |configured|
    ensures forall k :: 0 <= k < |configured| ==> PathsToSearch(configured)[k] == configured[k].value
  {
    if configured != [] {
      var tail := configured[1..];
      PathsToSearchKeepsAllSet(tail);
      var r := PathsToSearch(configured);
      assert r == [configured[0].value] + PathsToSearch(tail);
      forall k | 0 <= k < |configured| ensures r[k] == configured[k].value {
        if k > 0 {
          assert tail[k - 1] == configured[k];
          assert r[k] == PathsToSearch(tail)[k - 1];
        }
      }
    }
  }

  /** Filtering twice changes nothing. */
  lemma {:induction false} PathsToSearchIdempotent(configured: seq<Option<string>>)
    ensures var r := PathsToSearch(configured);
            PathsToSearch(seq(|r|, k requires 0 <= k < |r| => Some(r[k]))) == r
  {
    var r := PathsToSearch(configured);
    PathsToSearchKeepsAllSet(seq(|r|, k requires 0 <= k < |r| => Some(r[k])));
  }
}
