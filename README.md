# SetupGitRepo — a verified model of the directory locator

SetupGitRepo is a one-shot helper script. It finds a local project directory by name, then creates a GitHub repository for it and pushes a first commit. Almost all of it drives `git`, `gh` and the SSH tools. This project models the parts that hold logic of their own:

- **The directory locator** `search_directory`. It tries the configured search roots in order and skips roots that do not exist. Each root is searched breadth-first with a FIFO queue. The first directory entry whose base name equals the target is returned. Symbolic links are never followed, and directories that cannot be listed are skipped.
- **The root-list filter** at the end of `get_paths_to_search`. It keeps the configured roots that are set and non-empty.
- **The commit/push decision** of `commit_and_push_changes`. A failed commit ends the step with exit status 0. A failed push is retried once, and only when its stderr says "Repository not found".

The filesystem is a finite tree (`FileTree.Entry`). A directory has a `readable` flag and its children in listing order. A symbolic link or a file is a leaf. A search root is `Missing` or `Present` with the tree found there. A returned path is the root string plus the names joined below it (`Locator.FoundPath`).

Discovery order is specified three ways:

- `Discovery.Discover` is the queue discipline of the source.
- `Discovery.Expand` goes level by level.
- `Discovery.Below` lists the directories reachable below a directory: its listing first, then everything below each listed directory in turn. For root→{a→{a1→{a11}}, b→{b1}} that is a, b, a1, a11, b1, which is neither pre-order nor breadth-first order. It is compared with `Discover` as a multiset, so only which directories are found, and how often, is shared.

Lemmas tie the three together. The methods `Locator.BreadthFirst` and `Locator.ScanListing` are the source's `while queue` and `for entry in it` loops. They are proved equal to the specification. `Locator.SearchDirectory` is the loop over the roots.

Files: `options.dfy` (Option), `file_tree.dfy` (the tree, sizes, listings), `discovery.dfy` (discovery order and its lemmas), `locator.dfy` (the locator), `search_paths.dfy` (the filter), `push_retry.dfy` (commit and push).

## Model

| member | source | states |
|---|---|---|
| `Locator.SearchDirectory` | setup_git_repo.py:40-65 | the loop over the roots returns exactly `Locate`: the result of the first root, in list order, that yields one, skipping missing roots; None when no root yields one |
| `Locator.BreadthFirst` | setup_git_repo.py:48-62 | the FIFO loop over one root returns the first directory named `target` in breadth-first discovery order (`Discover`), or None |
| `Locator.ScanListing` | setup_git_repo.py:53-60 | the scan of one listing returns its first real directory named `target`; when there is none, the queue comes back with every listed real directory appended, in listing order |
| `Locator.LocateFirstRoot` | setup_git_repo.py:41-45 | roots are tried strictly in order: the result is that of some root whose every predecessor yields nothing, and it is None exactly when no root yields anything |
| `Locator.SearchRootNoneIff` | setup_git_repo.py:48-62 | one root yields nothing exactly when it is missing or no directory reachable below it (through listable, non-link directories) has the target name; the root's own name never counts |
| `Locator.LocateNoneIff` | setup_git_repo.py:40-65 | `search_directory` returns None exactly when no root has a reachable directory named `target` |
| `Locator.SearchRootFound` | setup_git_repo.py:48-60 | a match from a root is a real directory below it (not the root, not a link) whose path ends with exactly `target`, and no matching directory under that root is shallower |
| `Locator.SearchDirectoryResult` | setup_git_repo.py:40-65 | a returned path comes from the first root with a reachable match, ends with `target`, names a real directory below that root, and has minimal depth there; every earlier root has no match |
| `Locator.UnreadableRootSkipped` | setup_git_repo.py:52-62 | a root that cannot be listed yields nothing, and the search continues with the next root |
| `Discovery.FirstMatchIsFirst` | setup_git_repo.py:54-59 | the match is an exact, case-sensitive name equality; the first match in discovery order is found, and nothing is found exactly when no entry matches |
| `Discovery.DiscoverSplit` | setup_git_repo.py:50-60 | draining the queue `q + r` first discovers the whole next level below `q`, then drains `r` followed by that level |
| `Discovery.DiscoverLevels` | setup_git_repo.py:48-60 | breadth-first order: the discovery order is the next level, then the discovery order of that level |
| `Discovery.DiscoverByDepth` | setup_git_repo.py:48-60 | starting from one depth, directories are discovered strictly deeper and in non-decreasing depth |
| `Discovery.DiscoverIsBelow` | setup_git_repo.py:50-62 | the search of a root discovers every reachable directory exactly once (equal multisets), so nothing is missed or revisited |
| `Discovery.DiscoveredIffBelow` | setup_git_repo.py:50-62 | a directory is discovered from a root exactly when it is reachable below it |
| `Discovery.DiscoverShape` | setup_git_repo.py:54-60 | everything discovered is a real directory (never a link, never a file) whose path is non-empty and ends with its own name |
| `Discovery.UnreadableSkipped` | setup_git_repo.py:61-62 | a directory that cannot be listed adds nothing to the queue, and the rest of the queue is still drained |
| `FileTree.KidsSmaller` | setup_git_repo.py:50-60 | a listing holds strictly fewer entries than the directory's subtree, so the loop ends on every finite tree |
| `FileTree.ChildItemsShape` | setup_git_repo.py:54-60 | only real directories are enqueued, each at its parent's path extended by its own name |
| `SearchPaths.PathsToSearch` | setup_git_repo.py:38 | the kept paths are all non-empty, no more than were configured, and are exactly the configured values that are set and non-empty |
| `SearchPaths.PathsToSearchAppend` | setup_git_repo.py:38 | the filter decides entry by entry and keeps the original order |
| `SearchPaths.PathsToSearchKeepsAllSet` | setup_git_repo.py:38 | when every entry is set and non-empty, all of them are kept, in order |
| `SearchPaths.PathsToSearchIdempotent` | setup_git_repo.py:38 | filtering the result again changes nothing |
| `PushRetry.ContainsAt` | setup_git_repo.py:185 | the "Repository not found" test is Python's substring test: true exactly when the text occurs at some offset of stderr |
| `PushRetry.PushWithRetry` | setup_git_repo.py:180-199 | at most two pushes; a second only when the first failed with "Repository not found" and `gh repo view` passed; success exactly when some push returned 0; a failure reports the stderr of the last push |
| `PushRetry.CommitAndPush` | setup_git_repo.py:166-199 | a failed commit ends the step before any push; otherwise the push decision runs; the step exits 0 exactly when the commit failed, the first push returned 0, or the first push failed with "Repository not found", `gh repo view` passed and the second push returned 0 |
| `PushRetry.CommitFailedIgnoresPush` | setup_git_repo.py:166-173 | after a failed commit the step exits 0, and no push result and no `gh repo view` result can change the outcome |
| `PushRetry.SecondPushUnused` | setup_git_repo.py:181-199 | without the not-found message, or when `gh repo view` fails, the retried push never runs: its result cannot change the outcome |
| `PushRetry.RetryRecovers` | setup_git_repo.py:181-191 | a first push that fails with "Repository not found", followed by a retry that succeeds, ends in success after two attempts with exit status 0 |

## Left out

- Every call to `git`, `gh`, `ssh-keygen`, `ssh-agent` and `ssh-add` (`check_gh_auth`, `setup_ssh`, `start_ssh_agent`, `get_github_username`, `create_github_repo`, `initialize_git_repo`, `branch_exists`, and `git add`). These are thin wrappers over external tools. Where the push step reads a result, the result is a parameter (`PushRetry.ToolResult`).
- `PushRetry.CommitAndPush`: `git add .` runs with `check=True` (setup_git_repo.py:160), so when it fails the step ends with exit status 1 before any commit. The model starts after a successful `git add`, and its exit-status statement holds only then.
- The prompts (`read_input`, `input`) and the defaults they feed: commit message "Initial commit", and branch "main" if it exists, else "master". These are interactive input only.
- `cprint` output, the timestamps from `datetime.now()` and `main`'s sequencing of the steps. These are output and glue.
- `load_dotenv`, `os.getenv` and the WSL test on `os.uname()` in `get_paths_to_search`. Only the filter on the resulting list is modelled; its input is the list of optional values.
- Real filesystem semantics are replaced by the tree: `os.scandir`, `os.path.exists`, `os.chdir` and file writes. Listing order is whatever the tree holds; the source does not sort it either. Names in one directory are not required to be distinct.
- `Locator.SearchDirectory`: its requires rules out a root that exists but is not a directory. The source does not catch the NotADirectoryError that `os.scandir` then raises. A root that is a link to a directory is modelled as the directory it resolves to.
- `Locator.SearchDirectory`: paths are a root string plus a sequence of names, not the string `os.path.join` builds. The source returns a path relative to the root string as given, which is absolute only when the root is.
- A PermissionError raised in the middle of a listing, after some entries were already enqueued, is not modelled. Neither are entries that change while the search runs. Only a directory that cannot be opened at all is skipped.
- `exit(...)`, and the uncaught CalledProcessError when `gh repo view` fails, are modelled as returned outcomes with the exit status they lead to (`PushRetry.ExitCode`).
- Directory cycles that are not symbolic links are not modelled: a Windows directory junction, or a bind mount of an ancestor on Linux (the WSL branch). `is_dir(follow_symlinks=False)` is true for these, so the source enqueues and follows them, and on a cycle it keeps descending until `os.scandir` raises an OSError it does not catch. A finite `FileTree.Entry` cannot express such a cycle, so the model ends on every input.
- `FileTree.Entry` admits names a real listing never yields, such as `""` or a name containing `/`. With target `""`, or a target containing `/`, the model can return a match that `search_directory` never returns.
