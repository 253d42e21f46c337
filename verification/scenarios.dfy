/** Concrete runs of the watcher: the start-up baseline, a sync that
    succeeds, an external commit, a push that fails, and a repository whose
    HEAD cannot be read. Git's outputs carry the trailing newline the
    readers trim away. */
module Scenarios {
  import opened Wrappers
  import opened Reader
  import opened Executor
  import opened Watcher

  const Stamp: string := "2024/1/1 12:00:00"
  const Clean: Option<string> := Some("")
  const Dirty: Option<string> := Some(" M pages/index.tsx\n")

  function Probe(head: string, status: Option<string>, sync: SyncProbe): TickProbe {
    TickProbe(Some(head + "\n"), status, sync)
  }

  function AllOk(headAfter: string): SyncProbe {
    SyncProbe(true, true, true, Stamp, Some(headAfter + "\n"))
  }

  function PushFails(): SyncProbe {
    SyncProbe(true, true, false, Stamp, None)
  }

  /** The HEAD query for commit `h` prints `h` and a newline. */
  lemma ReadsHead(h: string)
    requires h in ["A", "B", "C", "D"]
    ensures HeadRead(Some(h + "\n")) == Some(h)
  {
  }

  /** An empty status output is clean; one listing a modified file is dirty. */
  lemma StatusFacts()
    ensures !HasChanges(Clean) && HasChanges(Dirty)
  {
  }

  /** Three ticks, one after another, each starting from the state the
      previous one left. */
  lemma RunOfThree(last: Option<string>, p0: TickProbe, p1: TickProbe, p2: TickProbe,
                   t0: TickOutcome, t1: TickOutcome, t2: TickOutcome)
    requires Tick(last, p0) == t0 && Tick(t0.last, p1) == t1 && Tick(t1.last, p2) == t2
    ensures Run(last, [p0, p1, p2]) == [t0, t1, t2]
    ensures LastAfter(last, [p0, p1, p2]) == t2.last
  {
    var ps := [p0, p1, p2];
    assert ps[1..] == [p1, p2] && [p1, p2][1..] == [p2] && [p2][1..] == [];
    RunStep(last, ps);
    RunStep(t0.last, [p1, p2]);
    RunStep(t1.last, [p2]);
  }

  /** Start-up on HEAD A records A; a clean tick keeps A; a dirty tick
      stages, commits and pushes and records the new HEAD B; a clean tick
      keeps B. */
  lemma CleanThenDirtyThenClean()
    ensures var ps := [Probe("A", Clean, AllOk("B")), Probe("A", Dirty, AllOk("B")), Probe("B", Clean, AllOk("B"))];
            var os := Watch(Some("A\n"), ps);
            && os[0] == TickOutcome(Some("A"), [RevParseHead, StatusPorcelain], NothingToSync)
            && os[1] == TickOutcome(Some("B"), [RevParseHead, StatusPorcelain] + Script(Stamp), SyncAttempted(Synced))
            && os[2] == TickOutcome(Some("B"), [RevParseHead, StatusPorcelain], NothingToSync)
            && LastAfter(Start(Some("A\n")).last, ps) == Some("B")
  {
    assert Start(Some("A\n")).last == Some("A") by {
      ReadsHead("A");
      assert "A" + "\n" == "A\n";
    }
    var p0, p1, p2 := Probe("A", Clean, AllOk("B")), Probe("A", Dirty, AllOk("B")), Probe("B", Clean, AllOk("B"));
    var t0 := TickOutcome(Some("A"), [RevParseHead, StatusPorcelain], NothingToSync);
    var t1 := TickOutcome(Some("B"), [RevParseHead, StatusPorcelain] + Script(Stamp), SyncAttempted(Synced));
    var t2 := TickOutcome(Some("B"), [RevParseHead, StatusPorcelain], NothingToSync);
    assert Tick(Some("A"), p0) == t0 by {
      ReadsHead("A");
      StatusFacts();
    }
    assert Tick(Some("A"), p1) == t1 by {
      ReadsHead("A");
      ReadsHead("B");
      StatusFacts();
    }
    assert Tick(Some("B"), p2) == t2 by {
      ReadsHead("B");
      StatusFacts();
    }
    RunOfThree(Some("A"), p0, p1, p2, t0, t1, t2);
  }

  /** A commit made outside the watcher (B to C) is adopted without a sync,
      even though the tree is dirty at that tick; the change is synced one
      tick later. */
  lemma ExternalCommitDefersSync()
    ensures var ps := [Probe("C", Dirty, AllOk("D")), Probe("C", Dirty, AllOk("D")), Probe("D", Clean, AllOk("D"))];
            var os := Run(Some("B"), ps);
            && os[0] == TickOutcome(Some("C"), [RevParseHead], HeadMoved)
            && os[1] == TickOutcome(Some("D"), [RevParseHead, StatusPorcelain] + Script(Stamp), SyncAttempted(Synced))
            && os[2] == TickOutcome(Some("D"), [RevParseHead, StatusPorcelain], NothingToSync)
  {
    var p0, p2 := Probe("C", Dirty, AllOk("D")), Probe("D", Clean, AllOk("D"));
    var t0 := TickOutcome(Some("C"), [RevParseHead], HeadMoved);
    var t1 := TickOutcome(Some("D"), [RevParseHead, StatusPorcelain] + Script(Stamp), SyncAttempted(Synced));
    var t2 := TickOutcome(Some("D"), [RevParseHead, StatusPorcelain], NothingToSync);
    assert Tick(Some("B"), p0) == t0 by {
      ReadsHead("C");
    }
    assert Tick(Some("C"), p0) == t1 by {
      ReadsHead("C");
      ReadsHead("D");
      StatusFacts();
    }
    assert Tick(Some("D"), p2) == t2 by {
      ReadsHead("D");
      StatusFacts();
    }
    RunOfThree(Some("B"), p0, p0, p2, t0, t1, t2);
  }

  /** A push that fails after a successful commit leaves `lastCommitHash` at
      A; the next tick adopts the new commit B and the following clean tick
      does nothing, so B is not pushed within these ticks. */
  lemma FailedPushIsDropped()
    ensures var ps := [Probe("A", Dirty, PushFails()), Probe("B", Clean, AllOk("B")), Probe("B", Clean, AllOk("B"))];
            var os := Run(Some("A"), ps);
            && os[0] == TickOutcome(Some("A"), [RevParseHead, StatusPorcelain] + Script(Stamp)[..3],
                                    SyncAttempted(Failed(PushStep)))
            && os[1] == TickOutcome(Some("B"), [RevParseHead], HeadMoved)
            && os[2] == TickOutcome(Some("B"), [RevParseHead, StatusPorcelain], NothingToSync)
  {
    var p0, p1 := Probe("A", Dirty, PushFails()), Probe("B", Clean, AllOk("B"));
    var t0 := TickOutcome(Some("A"), [RevParseHead, StatusPorcelain] + Script(Stamp)[..3], SyncAttempted(Failed(PushStep)));
    var t1 := TickOutcome(Some("B"), [RevParseHead], HeadMoved);
    var t2 := TickOutcome(Some("B"), [RevParseHead, StatusPorcelain], NothingToSync);
    assert Tick(Some("A"), p0) == t0 by {
      ReadsHead("A");
      StatusFacts();
      assert Script(Stamp)[..3] == [AddAll, Commit(CommitMessage(Stamp)), Push(Remote, Branch)];
    }
    assert Tick(Some("A"), p1) == t1 by {
      ReadsHead("B");
    }
    assert Tick(Some("B"), p1) == t2 by {
      ReadsHead("B");
      StatusFacts();
    }
    RunOfThree(Some("A"), p0, p1, p1, t0, t1, t2);
  }

  /** With HEAD unreadable at start-up and at the tick (null and null are
      equal), a dirty tree is still synced. */
  lemma UnreadableHeadStillSyncs()
    ensures Start(None).last == None
    ensures Tick(None, TickProbe(None, Dirty, AllOk("A"))).kind == SyncAttempted(Synced)
  {
  }
}
