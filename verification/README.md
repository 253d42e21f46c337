# Repository auto-sync watcher, modelled in Dafny

`auto-sync.js` is a background process that polls a git working tree every
30 seconds and, when the tree is dirty, stages everything, commits it with a
timestamped message and pushes it to `origin main`. Its only state is
`lastCommitHash`, the HEAD it last recorded. This project models that
watcher as pure functions and proves how it decides, in what order it runs
git, and when it changes its state.

- `wrappers.dfy` (`Wrappers`): `Option`, standing for a string or `null`.
  Equality on it is JavaScript's `!==`/`===` on such values, so two
  failed HEAD reads compare equal.
- `jsstring.dfy` (`JsString`): `String.prototype.trim`, which both readers
  use. It strips the code points that ECMA-262 classes as WhiteSpace
  (section 12.2) and LineTerminator (section 12.3).
- `reader.dfy` (`Reader`): the git commands the watcher can issue, and the
  two readers. `getCurrentCommitHash` becomes `HeadRead` and `hasChanges`
  becomes `HasChanges`. Each takes the query's output, or `None` when the
  query failed.
- `executor.dfy` (`Executor`): `commitAndPush` as `CommitAndPush`. It takes
  the per-step exit results, the timestamp and the HEAD read made after a
  successful push. It returns the new `lastCommitHash`, the git commands
  issued, and how the sync ended.
- `watcher.dfy` (`Watcher`): `startWatching` as `Start`, the interval
  callback as `Tick`, and a run as a left fold of ticks (`Run`,
  `LastAfter`, `Watch`). The trace lemmas live here too.
- `scenarios.dfy` (`Scenarios`): concrete runs. They cover a clean tick,
  a successful sync, an external commit, a failed push and an unreadable
  HEAD.

Each tick returns the complete list of git commands it issued, the reads
included. So "no status query on this tick" and "push only after commit"
are statements about that list.

`lastCommitHash` is refreshed only when add, commit and push all succeed,
because the refresh (auto-sync.js:56) sits inside the `try`, after the
push. Any failed step leaves it unchanged (`CommitAndPush`,
`Watcher.PushFailureNotRetried`). So when a commit succeeds and its push
fails, the next tick sees HEAD as moved and adopts the new commit. The
loop pushes it only when a later change makes the tree dirty again, since
`git push origin main` then sends the whole branch
(`Scenarios.FailedPushIsDropped`).

## Model

| member | source | states |
|---|---|---|
| JsString.IsSpace | auto-sync.js:20 | the characters `trim` strips include space, tab, newline and carriage return. None of them is a hexadecimal digit, so a commit hash loses nothing, and all lie in the Basic Multilingual Plane |
| JsString.Trim | auto-sync.js:20 | `trim` leaves nothing to strip at either end, is no longer than its input, and is empty exactly when every input character is white space |
| JsString.TrimIsInfix | auto-sync.js:29 | the trimmed string is a contiguous slice of the input with only white space before and after it |
| JsString.TrimUnique | auto-sync.js:29 | any slice that has only white space around it and nothing to strip equals `trim`'s result, so the properties above determine `trim` completely |
| JsString.TrimIdempotent | auto-sync.js:20 | trimming twice gives the same result as trimming once |
| JsString.TrimFixesTrimmed | auto-sync.js:20 | a string with nothing to strip is left unchanged |
| JsString.TrimDropsNewline | auto-sync.js:20 | a hash printed by git with its trailing newline reads back as the bare hash |
| Reader.HeadRead | auto-sync.js:18-24 | the HEAD read fails (null) exactly when the query fails; otherwise it is the trimmed output, with no white space at either end |
| Reader.HasChanges | auto-sync.js:26-33 | true exactly when the status query succeeded and its output holds a non-white-space character; false when the query fails |
| Executor.CommitMessage | auto-sync.js:43-44 | the commit message ends with the given timestamp |
| Executor.CommitAndPush | auto-sync.js:35-61 | runs add, then commit, then push, then a HEAD read, stopping at the first failure. Commit runs iff add succeeded, push iff commit succeeded too. The result names the first failed step. `lastCommitHash` becomes the new HEAD read only when all three succeed, and otherwise keeps its value |
| Watcher.Start | auto-sync.js:69 | start-up records the HEAD read (possibly null) as the baseline and issues only the HEAD query: no status check, no sync |
| Watcher.Tick | auto-sync.js:71-82 | the tick ends as "HEAD moved" iff the HEAD read differs from `lastCommitHash` (null equals null). It then adopts that read and issues only the HEAD query. The status is queried iff HEAD is unchanged. A sync runs iff HEAD is unchanged and the tree is dirty. The tick ends with nothing to sync iff HEAD is unchanged and the tree is clean or unreadable, and then it keeps the state and issues only the two queries |
| Watcher.Run | auto-sync.js:71-82 | the interval re-runs the callback: a run has one outcome per tick, the first tick starts from the given state, and every later tick starts from the state the previous tick left |
| Watcher.LastAfter | auto-sync.js:71-82 | the final `lastCommitHash` of a run is what its last tick left, or the starting value when there are no ticks |
| Watcher.Watch | auto-sync.js:63-83 | a watcher run has one outcome per tick, and its first tick compares against the start-up baseline |
| Watcher.RunAt | auto-sync.js:71-82 | tick `i` of a run starts from the `lastCommitHash` that the earlier ticks left |
| Watcher.LastAfterStep | auto-sync.js:71-82 | the state after `i + 1` ticks is what tick `i` leaves |
| Watcher.SyncIffStableAndDirty | auto-sync.js:72-81 | over any run, a tick syncs iff its HEAD read equals the state the earlier ticks left and the tree is dirty |
| Watcher.StableCleanIsIdle | auto-sync.js:26-81 | with HEAD stable and the status clean or unreadable, any number of ticks keeps `lastCommitHash` and only queries, never syncing |
| Watcher.PushOnlyWhenDirty | auto-sync.js:40-81 | a push is issued only on a tick whose HEAD is unchanged and whose tree is dirty, after staging and committing succeeded |
| Watcher.PushFailureNotRetried | auto-sync.js:50-77 | after a push fails behind a successful commit, the state keeps its old value and the next tick adopts the moved HEAD without syncing. While the tree stays clean, no later tick pushes |
| Watcher.TickWritesOnlyHeadReads | auto-sync.js:56-75 | a tick either keeps `lastCommitHash`, or writes it from the HEAD read of a tick that saw HEAD move, or from the post-sync HEAD read of a sync in which all three steps succeeded |
| Watcher.LastIsObserved | auto-sync.js:56-75 | `lastCommitHash` after any run is its starting value, or the HEAD read of a tick where HEAD moved, or the post-sync HEAD read of a tick whose sync fully succeeded. Nothing else writes it, and a failed sync never does |
| Scenarios.CleanThenDirtyThenClean | auto-sync.js:69-82 | a watcher started on HEAD A runs a clean tick that keeps A, then a dirty tick that syncs and records B, then a clean tick that keeps B |
| Scenarios.ExternalCommitDefersSync | auto-sync.js:72-81 | an external commit (B to C) is adopted without syncing even though the tree is dirty. The change syncs one tick later and records D, and a clean tick after that keeps D |
| Scenarios.FailedPushIsDropped | auto-sync.js:50-82 | a failed push leaves the state at A. The next tick adopts B, and a clean tick after that does nothing, so B is not pushed within these ticks |
| Scenarios.UnreadableHeadStillSyncs | auto-sync.js:18-81 | when HEAD is unreadable both at start-up and at the tick, a dirty tree is still synced |

## Left out

- Running git (`execSync`, `cwd: REPO_PATH`, `stdio: 'inherit'`). Each call becomes an exit result plus, for the two queries, its output, supplied as a tick's observation. A command that cannot start is modelled the same way as a nonzero exit.
- `setInterval` and `CHECK_INTERVAL` (30 s). Time is a finite sequence of ticks. Ticks cannot overlap because every git call is synchronous. A run that never ends is represented by its finite prefixes.
- `new Date().toLocaleString('zh-CN')`. It depends on the locale and the clock, so the timestamp is an opaque string parameter.
- `IGNORE_PATTERNS`. It is declared but never used: staging is an unconditional `git add .`.
- Console logging, including the error message printed when a sync fails. The model keeps only which step failed.
- JavaScript strings are UTF-16 code units, whereas Dafny `char` is a Unicode scalar value. Every code point `trim` strips lies in the Basic Multilingual Plane (an `ensures` of `JsString.IsSpace`), so the result is the same. Surrogate pairs are not modelled.
- The web pages, the API handlers and `next.config.js`. They are request/response plumbing and rendering with no state machine, and are not part of this model.
