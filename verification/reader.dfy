/** The repository state reader of auto-sync.js: the two git queries the
    watcher makes, each turned into a total function of what the query
    produced. A query that exits nonzero (or cannot start) is `None`. */
module Reader {
  import opened Wrappers
  import opened JsString

  /** Every git invocation the watcher can issue, in the form it issues it. */
  datatype GitCommand =
    | RevParseHead                        // git rev-parse HEAD
    | StatusPorcelain                     // git status --porcelain
    | AddAll                              // git add .
    | Commit(message: string)             // git commit -m "<message>"
    | Push(remote: string, branch: string) // git push <remote> <branch>

  /** `getCurrentCommitHash()`: the trimmed standard output of
      `git rev-parse HEAD`, or `null` when the command fails. */
  function HeadRead(out: Option<string>): (h: Option<string>)
    ensures h.None? <==> out.None?
    ensures h.Some? ==> Trimmed(h.value) && h.value == Trim(out.value)
  {
    match out
    case None => None
    case Some(text) => Some(Trim(text))
  }

  /** `hasChanges()`: the status output, trimmed, is non-empty; a failed
      status query counts as "no changes". */
  function HasChanges(status: Option<string>): (b: bool)
    ensures status.None? ==> !b
    ensures b <==> status.Some? && exists k :: 0 <= k < |status.value| && !IsSpace(status.value[k])
  {
    match status
    case None => false
    case Some(text) => |Trim(text)| > 0
  }
}
