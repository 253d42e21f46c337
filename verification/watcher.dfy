/** The scheduler and change detector of auto-sync.js: `startWatching()`
    and the callback `setInterval` runs every interval. The watcher's whole
    state is `lastCommitHash`; each tick is a pure function from that state
    and what git reports during the tick to the new state and the git
    commands issued. Ticks never overlap (every git call is synchronous), so
    a run is a finite sequence of ticks folded left to right. */
module Watcher {
  import opened Wrappers
  import opened Reader
  import opened Executor

  /** What git reports during one tick: the raw output of the HEAD query,
      the raw output of the status query (`None` when a query fails), and
      what happens if a sync runs. Fields of a query that the tick does not
      make are never looked at. */
  datatype TickProbe = TickProbe(head: Option<string>, status: Option<string>, sync: SyncProbe)

  /** How a tick ended. */
  datatype TickKind =
    | HeadMoved                      // HEAD differs from lastCommitHash: adopt it, skip the rest
    | NothingToSync                  // HEAD unchanged, tree clean or status unreadable
    | SyncAttempted(result: SyncResult)

  datatype TickOutcome = TickOutcome(last: Option<string>, commands: seq<GitCommand>, kind: TickKind)

  datatype Baseline = Baseline(last: Option<string>, commands: seq<GitCommand>)

  /** `startWatching()` up to `setInterval`: record HEAD as the baseline
      without looking at the working tree, so a dirty tree at start-up is not
      synced. */
  function Start(head: Option<string>): (b: Baseline)
    ensures b.last == HeadRead(head)
    ensures b.commands == [RevParseHead]
    ensures StatusPorcelain !in b.commands && AddAll !in b.commands
  {
    Baseline(HeadRead(head), [RevParseHead])
  }

  /** One run of the interval callback with `lastCommitHash == last`. */
  function Tick(last: Option<string>, p: TickProbe): (o: TickOutcome)
    ensures |o.commands| >= 1 && o.commands[0] == RevParseHead
    ensures o.kind.HeadMoved? <==> HeadRead(p.head) != last
    ensures HeadRead(p.head) != last ==>
              o == TickOutcome(HeadRead(p.head), [RevParseHead], HeadMoved)
    ensures o.kind.NothingToSync? <==> HeadRead(p.head) == last && !HasChanges(p.status)
    ensures StatusPorcelain in o.commands <==> HeadRead(p.head) == last
    ensures o.kind.SyncAttempted? <==> HeadRead(p.head) == last && HasChanges(p.status)
    ensures AddAll in o.commands <==> o.kind.SyncAttempted?
    ensures o.kind == NothingToSync ==>
              o.last == last && o.commands == [RevParseHead, StatusPorcelain]
    ensures o.kind.SyncAttempted? ==>
              var s := CommitAndPush(last, p.sync);
              o.last == s.last && o.kind.result == s.result
              && o.commands == [RevParseHead, StatusPorcelain] + s.commands
    ensures last.None? && p.head.None? ==> StatusPorcelain in o.commands
  {
    var current := HeadRead(p.head);
    if current != last then
      TickOutcome(current, [RevParseHead], HeadMoved)
    else if !HasChanges(p.status) then
      TickOutcome(last, [RevParseHead, StatusPorcelain], NothingToSync)
    else
      var s := CommitAndPush(last, p.sync);
      TickOutcome(s.last, [RevParseHead, StatusPorcelain] + s.commands, SyncAttempted(s.result))
  }

  /** `lastCommitHash` after the ticks `ps`, starting from `last`: what the
      last of those ticks leaves, or `last` itself when there are none. */
  function LastAfter(last: Option<string>, ps: seq<TickProbe>): (l: Option<string>)
    ensures ps == [] ==> l == last
    ensures ps != [] ==> l == Run(last, ps)[|ps| - 1].last
    decreases |ps|
  {
    if ps == [] then last else LastAfter(Tick(last, ps[0]).last, ps[1..])
  }

  /** The outcomes of the ticks `ps`, starting from `last`: the first tick
      starts from `last`, and every later tick from the state the tick before
      it left. */
  function Run(last: Option<string>, ps: seq<TickProbe>): (os: seq<TickOutcome>)
    ensures |os| == |ps|
    ensures ps != [] ==> os[0] == Tick(last, ps[0])
    ensures forall i :: 0 < i < |ps| ==> os[i] == Tick(os[i - 1].last, ps[i])
    decreases |ps|
  {
    if ps == [] then [] else
      var o := Tick(last, ps[0]);
      [o] + Run(o.last, ps[1..])
  }

  /** A whole watcher run: start-up with HEAD output `head`, then the ticks `ps`. */
  function Watch(head: Option<string>, ps: seq<TickProbe>): (os: seq<TickOutcome>)
    ensures |os| == |ps|
    ensures ps != [] ==> os[0] == Tick(HeadRead(head), ps[0])
  {
    Run(Start(head).last, ps)
  }

  /** Running a non-empty sequence of ticks is running its first tick, then
      the rest from the state it leaves. */
  lemma RunStep(last: Option<string>, ps: seq<TickProbe>)
    requires ps != []
    ensures Run(last, ps) == [Tick(last, ps[0])] + Run(Tick(last, ps[0]).last, ps[1..])
    ensures LastAfter(last, ps) == LastAfter(Tick(last, ps[0]).last, ps[1..])
  {
  }

  /** Tick `i` of a run sees the state the ticks before it left behind. */
  lemma {:induction false} RunAt(last: Option<string>, ps: seq<TickProbe>, i: nat)
    requires i < |ps|
    ensures Run(last, ps)[i] == Tick(LastAfter(last, ps[..i]), ps[i])
    decreases i
  {
    if i > 0 {
      var o := Tick(last, ps[0]);
      RunAt(o.last, ps[1..], i - 1);
      assert ps[1..][..i - 1] == ps[..i][1..];
      assert ps[..i][0] == ps[0];
    } else {
      assert ps[..0] == [];
    }
  }

  /** A sync is attempted on tick `i` exactly when HEAD still equals
      `lastCommitHash` (null equal to null) and the tree is dirty. */
  lemma SyncIffStableAndDirty(last: Option<string>, ps: seq<TickProbe>, i: nat)
    requires i < |ps|
    ensures Run(last, ps)[i].kind.SyncAttempted?
            <==> HeadRead(ps[i].head) == LastAfter(last, ps[..i]) && HasChanges(ps[i].status)
  {
    RunAt(last, ps, i);
  }

  /** With HEAD stable and the tree clean or unreadable, ticking any number
      of times keeps `lastCommitHash` and only ever queries. */
  lemma {:induction false} StableCleanIsIdle(last: Option<string>, ps: seq<TickProbe>)
    requires forall i :: 0 <= i < |ps| ==> HeadRead(ps[i].head) == last && !HasChanges(ps[i].status)
    ensures LastAfter(last, ps) == last
    ensures forall i :: 0 <= i < |ps| ==>
              Run(last, ps)[i] == TickOutcome(last, [RevParseHead, StatusPorcelain], NothingToSync)
    decreases |ps|
  {
    if ps != [] {
      StableCleanIsIdle(last, ps[1..]);
      var os := Run(last, ps);
      assert os == [Tick(last, ps[0])] + Run(last, ps[1..]);
      forall i | 0 <= i < |ps|
        ensures os[i] == TickOutcome(last, [RevParseHead, StatusPorcelain], NothingToSync)
      {
        if i > 0 {
          assert os[i] == Run(last, ps[1..])[i - 1];
        }
      }
    }
  }

  /** A push is only ever issued on a tick that found HEAD unchanged, the
      tree dirty, and both staging and committing succeeding. */
  lemma PushOnlyWhenDirty(last: Option<string>, ps: seq<TickProbe>, i: nat)
    requires i < |ps|
    requires Push(Remote, Branch) in Run(last, ps)[i].commands
    ensures HeadRead(ps[i].head) == LastAfter(last, ps[..i]) && HasChanges(ps[i].status)
    ensures ps[i].sync.addOk && ps[i].sync.commitOk
  {
    RunAt(last, ps, i);
    var o := Run(last, ps)[i];
    var s := CommitAndPush(LastAfter(last, ps[..i]), ps[i].sync);
    assert o.kind.SyncAttempted?;
    assert Push(Remote, Branch) in s.commands by {
      var k :| 0 <= k < |o.commands| && o.commands[k] == Push(Remote, Branch);
      assert k >= 2;
      assert s.commands[k - 2] == Push(Remote, Branch);
    }
  }

  /** A push that fails after a successful commit is not retried by the loop
      on its own: `lastCommitHash` keeps its old value, the next tick sees the
      commit as a moved HEAD and adopts it without syncing, and as long as the
      tree stays clean no later tick pushes. */
  lemma PushFailureNotRetried(last: Option<string>, ps: seq<TickProbe>, i: nat)
    requires i + 1 < |ps|
    requires Run(last, ps)[i].kind == SyncAttempted(Failed(PushStep))
    requires HeadRead(ps[i + 1].head) != LastAfter(last, ps[..i])
    requires forall j :: i < j < |ps| ==> !HasChanges(ps[j].status)
    ensures Run(last, ps)[i].last == LastAfter(last, ps[..i])
    ensures Run(last, ps)[i + 1] == TickOutcome(HeadRead(ps[i + 1].head), [RevParseHead], HeadMoved)
    ensures forall j :: i < j < |ps| ==> Push(Remote, Branch) !in Run(last, ps)[j].commands
  {
    RunAt(last, ps, i);
    RunAt(last, ps, i + 1);
    assert LastAfter(last, ps[..i + 1]) == LastAfter(last, ps[..i]) by {
      LastAfterStep(last, ps, i);
    }
    forall j | i < j < |ps|
      ensures Push(Remote, Branch) !in Run(last, ps)[j].commands
    {
      if Push(Remote, Branch) in Run(last, ps)[j].commands {
        PushOnlyWhenDirty(last, ps, j);
      }
    }
  }

  /** The state after `i + 1` ticks is the state tick `i` leaves. */
  lemma LastAfterStep(last: Option<string>, ps: seq<TickProbe>, i: nat)
    requires i < |ps|
    ensures LastAfter(last, ps[..i + 1]) == Tick(LastAfter(last, ps[..i]), ps[i]).last
  {
    RunAt(last, ps[..i + 1], i);
    assert ps[..i + 1][..i] == ps[..i];
  }

  /** Tick outcome `o`, on probe `p`, wrote `l` into `lastCommitHash`: either
      HEAD had moved and `l` is the tick's HEAD read, or the sync fully
      succeeded and `l` is the HEAD read made after the push. */
  predicate WroteLast(o: TickOutcome, p: TickProbe, l: Option<string>) {
    || (o.kind == HeadMoved && l == HeadRead(p.head))
    || (o.kind == SyncAttempted(Synced) && l == HeadRead(p.sync.headAfter))
  }

  /** A single tick either keeps `lastCommitHash` or writes it from a HEAD
      read. */
  lemma TickWritesOnlyHeadReads(last: Option<string>, p: TickProbe)
    ensures Tick(last, p).last == last || WroteLast(Tick(last, p), p, Tick(last, p).last)
  {
  }

  /** `lastCommitHash` is only ever written from a HEAD read: after any run
      it is the starting value, the HEAD read of a tick that saw HEAD move,
      or the post-sync HEAD read of a tick whose sync fully succeeded. */
  lemma {:induction false} LastIsObserved(last: Option<string>, ps: seq<TickProbe>)
    ensures var l := LastAfter(last, ps);
            l == last || exists i :: 0 <= i < |ps| && WroteLast(Run(last, ps)[i], ps[i], l)
    decreases |ps|
  {
    if ps != [] {
      var o := Tick(last, ps[0]);
      var os := Run(last, ps);
      RunStep(last, ps);
      LastIsObserved(o.last, ps[1..]);
      var l := LastAfter(last, ps);
      var rest := Run(o.last, ps[1..]);
      if l != o.last {
        var i :| 0 <= i < |ps[1..]| && WroteLast(rest[i], ps[1..][i], l);
        assert ps[1..][i] == ps[i + 1] && os[i + 1] == rest[i];
        assert WroteLast(os[i + 1], ps[i + 1], l);
      } else if l != last {
        TickWritesOnlyHeadReads(last, ps[0]);
        assert WroteLast(os[0], ps[0], l);
      }
    }
  }
}
