/** The commit-and-push step of `commit_and_push_changes`, with every call
    to git and gh replaced by the result it returned. */
module PushRetry {

  /** What a finished external command reports back. */
  datatype ToolResult = ToolResult(returnCode: int, stderr: string)

  /** How the push step ends. */
  datatype Status =
    | Succeeded                 // "Changes pushed successfully"
    | Failed(stderr: string)    // error printed, exit(1)
    | ViewCheckFailed           // `gh repo view ... check=True` raised

  /** The push step: how many pushes ran and how it ended. */
  datatype PushReport = PushReport(attempts: nat, status: Status)

  /** How the whole commit-and-push step ends. */
  datatype Outcome =
    | NothingToCommit           // "No changes to commit.", exit(0)
    | Pushing(report: PushReport)

  /** The stderr text that triggers the single retry. */
  const RepoNotFound: string := "Repository not found"

  /** Python's `sub in s` on strings. */
  function Contains(s: string, sub: string): bool
  {
    if sub <= s then true
    else if s == [] then false
    else Contains(s[1..], sub)
  }

  /** `sub` occurs in `s` starting at offset `i`. */
  predicate OccursAt(s: string, sub: string, i: nat)
  {
    i + |sub| <= |s| && s[i..i + |sub|] == sub
  }

  /** An occurrence past the first character is an occurrence in the tail. */
  lemma OccursLater(s: string, sub: string, i: nat)
    requires 0 < i && OccursAt(s, sub, i)
    ensures OccursAt(s[1..], sub, i - 1)
  {
    forall k | 0 <= k < |sub| ensures s[1..][i - 1..i - 1 + |sub|][k] == sub[k] {
      assert s[i..i + |sub|][k] == s[i + k];
    }
  }

  /** `sub in s` holds exactly when `sub` occurs in `s` at some offset. */
  lemma {:induction false} ContainsAt(s: string, sub: string)
    ensures Contains(s, sub) <==> exists i: nat :: OccursAt(s, sub, i)
  {
    if sub <= s {
      assert s[0..|sub|] == sub;
      assert OccursAt(s, sub, 0);
    } else if s != [] {
      ContainsAt(s[1..], sub);
      if Contains(s[1..], sub) {
        var i: nat :| OccursAt(s[1..], sub, i);
        assert s[i + 1..i + 1 + |sub|] == s[1..][i..i + |sub|];
        assert OccursAt(s, sub, i + 1);
      } else {
        forall i: nat | OccursAt(s, sub, i) ensures false {
          if i > 0 {
            OccursLater(s, sub, i);
          }
        }
      }
    }
  }

  /** The first push failed with the not-found message: the only case that
      is retried (after `gh repo view` confirms the repository). */
  predicate RetryWanted(first: ToolResult)
  {
    first.returnCode != 0 && Contains(first.stderr, RepoNotFound)
  }

  /** The push with its one retry. `viewCode` is the exit code of
      `gh repo view`; `second` is what the retried push would return. */
  function PushWithRetry(first: ToolResult, viewCode: int, second: ToolResult): (p: PushReport)
    ensures 1 <= p.attempts <= 2
    ensures p.attempts == 2 <==> RetryWanted(first) && viewCode == 0
    ensures p.status.Succeeded? <==> first.returnCode == 0 || (p.attempts == 2 && second.returnCode == 0)
    ensures p.status.ViewCheckFailed? <==> RetryWanted(first) && viewCode != 0
    ensures p.status.Failed? ==> p.status.stderr == (if p.attempts == 2 then second.stderr else first.stderr)
  {
    if first.returnCode == 0 then PushReport(1, Succeeded)
    else if Contains(first.stderr, RepoNotFound) then
      if viewCode != 0 then PushReport(1, ViewCheckFailed)
      else if second.returnCode == 0 then PushReport(2, Succeeded)
      else PushReport(2, Failed(second.stderr))
    else PushReport(1, Failed(first.stderr))
  }

  /** Commit, then push: a failed commit ends the step before any push. The
      step exits 0 exactly when the commit failed or some push that ran
      returned 0. */
  function CommitAndPush(commit: ToolResult, first: ToolResult, viewCode: int, second: ToolResult): (o: Outcome)
    ensures o.NothingToCommit? <==> commit.returnCode != 0
    ensures o.Pushing? ==> o.report == PushWithRetry(first, viewCode, second)
    ensures ExitCode(o) == 0 <==>
              commit.returnCode != 0 || first.returnCode == 0 ||
              (RetryWanted(first) && viewCode == 0 && second.returnCode == 0)
  {
    if commit.returnCode != 0 then NothingToCommit
    else Pushing(PushWithRetry(first, viewCode, second))
  }

  /** The process exit status the step leads to: 0 when there was nothing to
      commit or the push went through, 1 after exit(1) or an uncaught
      CalledProcessError. */
  function ExitCode(o: Outcome): int
  {
    match o
    case NothingToCommit => 0
    case Pushing(PushReport(_, Succeeded)) => 0
    case Pushing(_) => 1
  }

  /** Without the not-found message the retried push is never run: its
      result cannot change the outcome. */
  lemma SecondPushUnused(first: ToolResult, viewCode: int, second: ToolResult, other: ToolResult)
    requires !RetryWanted(first) || viewCode != 0
    ensures PushWithRetry(first, viewCode, second) == PushWithRetry(first, viewCode, other)
  {
  }

  /** After a failed commit no push runs: no push result and no `gh repo
      view` result can change the outcome. */
  lemma CommitFailedIgnoresPush(commit: ToolResult, first: ToolResult, viewCode: int, second: ToolResult,
                                first': ToolResult, viewCode': int, second': ToolResult)
    requires commit.returnCode != 0
    ensures CommitAndPush(commit, first, viewCode, second) == CommitAndPush(commit, first', viewCode', second')
    ensures ExitCode(CommitAndPush(commit, first, viewCode, second)) == 0
  {
  }

  /** A push that fails with "Repository not found" and then succeeds ends
      in success, with one retry. */
  lemma RetryRecovers(commit: ToolResult, first: ToolResult, second: ToolResult)
    requires commit.returnCode == 0
    requires first.returnCode != 0 && Contains(first.stderr, RepoNotFound)
    requires second.returnCode == 0
    ensures CommitAndPush(commit, first, 0, second) == Pushing(PushReport(2, Succeeded))
    ensures ExitCode(CommitAndPush(commit, first, 0, second)) == 0
  {
  }
}
