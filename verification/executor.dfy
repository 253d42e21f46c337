/** The sync executor of auto-sync.js, `commitAndPush()`: stage, commit and
    push, each step run only when the one before it exited zero (a nonzero
    exit makes `execSync` throw, which skips the rest of the `try`). */
module Executor {
  import opened Wrappers
  import opened Reader

  /** The fixed push target. */
  const Remote: string := "origin"
  const Branch: string := "main"

  /** The commit message, around a local timestamp the model takes as given. */
  function CommitMessage(timestamp: string): (m: string)
    ensures |m| > |timestamp| && m[|m| - |timestamp|..] == timestamp
  {
    "\U{1F501} 自动同步: " + timestamp
  }

  /** What the environment does during one sync: whether each git step exits
      zero, the timestamp the commit message carries, and what a HEAD read
      after a successful push would return (`None` if it fails). */
  datatype SyncProbe = SyncProbe(
    addOk: bool,
    commitOk: bool,
    pushOk: bool,
    timestamp: string,
    headAfter: Option<string>)

  /** The step at which a sync gave up. */
  datatype Step = Stage | CommitStep | PushStep

  datatype SyncResult = Synced | Failed(step: Step)

  /** Everything one sync produces: the watcher's new `lastCommitHash`, the
      git commands issued in order, and how it ended. */
  datatype SyncOutcome = SyncOutcome(last: Option<string>, commands: seq<GitCommand>, result: SyncResult)

  /** The full command sequence of a sync in which every step succeeds. */
  function Script(timestamp: string): seq<GitCommand> {
    [AddAll, Commit(CommitMessage(timestamp)), Push(Remote, Branch), RevParseHead]
  }

  predicate AllStepsOk(p: SyncProbe) {
    p.addOk && p.commitOk && p.pushOk
  }

  /** `commitAndPush()` given the watcher's current `lastCommitHash`. */
  function CommitAndPush(last: Option<string>, p: SyncProbe): (o: SyncOutcome)
    ensures o.commands <= Script(p.timestamp)
    ensures |o.commands| >= 1 && o.commands[0] == AddAll
    ensures Commit(CommitMessage(p.timestamp)) in o.commands <==> p.addOk
    ensures Push(Remote, Branch) in o.commands <==> p.addOk && p.commitOk
    ensures RevParseHead in o.commands <==> AllStepsOk(p)
    ensures o.result == Synced <==> AllStepsOk(p)
    ensures o.result == Failed(Stage) <==> !p.addOk
    ensures o.result == Failed(CommitStep) <==> p.addOk && !p.commitOk
    ensures o.result == Failed(PushStep) <==> p.addOk && p.commitOk && !p.pushOk
    ensures o.result.Synced? ==> o.last == HeadRead(p.headAfter)
    ensures o.result.Failed? ==> o.last == last
  {
    var commit := Commit(CommitMessage(p.timestamp));
    if !p.addOk then SyncOutcome(last, [AddAll], Failed(Stage))
    else if !p.commitOk then SyncOutcome(last, [AddAll, commit], Failed(CommitStep))
    else if !p.pushOk then SyncOutcome(last, [AddAll, commit, Push(Remote, Branch)], Failed(PushStep))
    else SyncOutcome(HeadRead(p.headAfter), [AddAll, commit, Push(Remote, Branch), RevParseHead], Synced)
  }
}
