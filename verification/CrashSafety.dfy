/** What the publication promises: whatever is interrupted, and however often, one complete
    recovery leaves all targets of one generation, and only unlinking the journal decides
    which. */
module CrashSafety {
  import opened Wrappers
  import opened Filesystem
  import opened Publication
  import opened PublicationSafety
  import opened Recovering

  ghost predicate SomeTargetPresent(d: Disk, g: Generation) {
    exists i: nat :: i < |g.before| && Target(i) in d.dir
  }

  /** A recovery started on `d` synchronises whatever it relies on before it relies on it. */
  ghost predicate RestartSafe(d: Disk, g: Generation)
    requires Legal(g)
  {
    if Journal in d.dir then !NoneExisted(g) || SomeTargetPresent(d, g) || AllOld(d, g)
    else JournalGone(d) || NoneExisted(g)
  }

  /** All targets are of one generation, whatever the next power loss does. */
  ghost predicate Whole(d: Disk, g: Generation)
    requires Legal(g)
  {
    AllOld(d, g) || AllNew(d, g)
  }

  ghost predicate SameTargets(d: Disk, e: Disk, g: Generation) {
    forall i: nat | i < |g.before| :: Look(e.dir, Target(i)) == Look(d.dir, Target(i))
  }

  lemma JournalReads(d: Disk, g: Generation)
    requires Legal(g) && Recoverable(d, g) && Journal in d.dir
    ensures ReadJournal(d.dir, |g.before|) == Some(Existing(g))
    ensures forall i | 0 <= i < |g.before| :: Existing(g)[i] <==> Backup(i) in d.dir
    ensures BackupsHoldOld(d, g)
  {
    assert Possible(d, Journal, Look(d.dir, Journal));
    assert d.dir[Journal].content == Record(g);
    forall i: nat | i < |g.before| ensures Existing(g)[i] <==> Backup(i) in d.dir {
      assert OldAt(g, i, Look(d.dir, Backup(i))) by {
        assert Possible(d, Backup(i), Look(d.dir, Backup(i)));
      }
    }
    var existed := ReadJournal(d.dir, |g.before|).value;
    assert existed == Existing(g);
  }

  lemma CalmWithoutJournal(d: Disk, g: Generation)
    requires Legal(g) && Recoverable(d, g) && RestartSafe(d, g) && Journal !in d.dir
    ensures Calm(d, g)
  {
    assert Possible(d, Journal, None);
  }

  lemma RestoresEnd(d: Disk, e: Disk, g: Generation)
    requires Legal(g) && RestartSafe(d, g) && Journal in d.dir && RestoredTo(d, e, g, |g.before|)
    ensures AllOld(e, g)
  {
  }

  /** A recovery that finds a journal. */
  lemma JournalIsRecovered(m: Medium, d: Disk, g: Generation)
    requires Legal(g) && Recoverable(d, g) && RestartSafe(d, g) && !d.failed && !d.changed && Journal in d.dir
    ensures var r := Recovery(d.dir, |g.before|);
            && r.Some? && Always(m, d, r.value, g, Ending)
            && var e := Exec(m, d, r.value);
            && (e.failed <==> !BackupsLinkable(m, g))
            && (!e.failed ==> AllOld(e, g) && JournalGone(e) && Journal !in e.dir && DebrisFree(e, |g.before|))
  {
    hide Always, Good, Recoverable, Step, RestartSafe;
    var n := |g.before|;
    JournalReads(d, g);
    var p, q := Restores(Existing(g), n), Commit(n);
    assert Recovery(d.dir, n) == Some(p + q);
    RestoresAreSafe(m, d, g, n);
    var e := Exec(m, d, p);
    ExecAppend(m, d, p, q);
    AtTheEnd(m, d, p, g);
    if e.failed {
      AlwaysFailed(m, e, q, g, Ending);
      ExecFailed(m, e, q);
    } else {
      RestoresEnd(d, e, g);
      assert Look(e.dir, Journal) == Look(d.dir, Journal);
      RevertingIsRecoverable(d, e, g);
      CommitIsSafe(m, e, g);
      assert Possible(Exec(m, e, q), Journal, Look(Exec(m, e, q).dir, Journal));
    }
    AlwaysAppend(m, d, p, q, g, Ending);
  }

  /** Everything one recovery does, step by step and at its end. */
  lemma RecoveryIsSafe(m: Medium, d: Disk, g: Generation)
    requires Legal(g) && Recoverable(d, g) && RestartSafe(d, g) && !d.failed && !d.changed
    ensures var r := Recovery(d.dir, |g.before|);
            && r.Some? && Always(m, d, r.value, g, Ending)
            && var e := Exec(m, d, r.value);
            && (e.failed <==> Journal in d.dir && !BackupsLinkable(m, g))
            && (!e.failed ==> Whole(e, g) && Journal !in e.dir && DebrisFree(e, |g.before|))
            && (!e.failed && Journal in d.dir ==> AllOld(e, g) && JournalGone(e))
            && (Journal !in d.dir ==> SameTargets(d, e, g) && (JournalGone(d) ==> JournalGone(e)))
            && (Journal !in d.dir ==> (AllOld(d, g) ==> AllOld(e, g)) && (AllNew(d, g) ==> AllNew(e, g)))
  {
    hide Always, Good, Recoverable, Step, RestartSafe, Exec;
    var n := |g.before|;
    if Journal !in d.dir {
      CalmWithoutJournal(d, g);
      CleanupIsSafe(m, d, g, Ending);
      WithoutDebris(d, Exec(m, d, Cleanup(n)), n);
    } else {
      JournalIsRecovered(m, d, g);
    }
  }

  lemma AtTheEnd(m: Medium, d: Disk, p: seq<Call>, g: Generation)
    requires Legal(g) && Always(m, d, p, g, Ending)
    ensures Good(Exec(m, d, p), g, Ending)
  {
    AlwaysPrefix(m, d, p, g, Ending, |p|);
    assert p[..|p|] == p;
  }

  // ---- Runs --------------------------------------------------------------------------

  /** After `k` of the calls the process was killed, or the power failed. */
  ghost predicate StoppedAfter(m: Medium, d: Disk, calls: seq<Call>, k: nat, e: Disk) {
    k <= |calls| &&
    var f := Exec(m, d, calls[..k]);
    e == Restart(f) || PowerLoss(f, e)
  }

  ghost predicate Interrupted(m: Medium, d: Disk, calls: seq<Call>, e: Disk) {
    exists k: nat :: StoppedAfter(m, d, calls, k, e)
  }

  /** A publication from `d` is interrupted, then recovery after recovery; `disks` holds what
      each interruption left. */
  ghost predicate Run(m: Medium, d: Disk, disks: seq<Disk>, g: Generation)
    requires Legal(g)
  {
    && |disks| > 0
    && Interrupted(m, d, Publish(m, Existing(g)), disks[0])
    && forall j | 0 < j < |disks| :: RecoveryInterrupted(m, disks[j - 1], disks[j], |g.before|)
  }

  ghost predicate RecoveryInterrupted(m: Medium, d: Disk, e: Disk, n: nat) {
    Recovery(d.dir, n).Some? && Interrupted(m, d, Recovery(d.dir, n).value, e)
  }

  lemma InterruptionKeepsRecoverable(m: Medium, d: Disk, calls: seq<Call>, e: Disk, g: Generation)
    requires Legal(g) && Always(m, d, calls, g, Ending) && Interrupted(m, d, calls, e)
    ensures Recoverable(e, g) && !e.failed && !e.changed
  {
    var k: nat :| StoppedAfter(m, d, calls, k, e);
    var f := Exec(m, d, calls[..k]);
    AlwaysPrefix(m, d, calls, g, Ending, k);
    if PowerLoss(f, e) {
      PowerLossKeepsRecoverable(f, e, g);
    } else {
      assert forall x :: NoNewEntry(f, e, x);
      Shrink(f, e, g);
    }
  }

  lemma {:induction false} RunKeepsRecoverable(m: Medium, d: Disk, disks: seq<Disk>, g: Generation)
    requires Ready(d, g) && Run(m, d, disks, g)
    requires forall j | 0 <= j < |disks| - 1 :: RestartSafe(disks[j], g)
    ensures var e := disks[|disks| - 1]; Recoverable(e, g) && !e.failed && !e.changed
    decreases |disks|
  {
    var n := |disks| - 1;
    if n == 0 {
      PublishIsSafe(m, d, g);
      InterruptionKeepsRecoverable(m, d, Publish(m, Existing(g)), disks[0], g);
    } else {
      var earlier := disks[..n];
      RunKeepsRecoverable(m, d, earlier, g);
      var last := earlier[n - 1];
      assert last == disks[n - 1] && RecoveryInterrupted(m, disks[n - 1], disks[n], |g.before|);
      RecoveryIsSafe(m, last, g);
      InterruptionKeepsRecoverable(m, last, Recovery(last.dir, |g.before|).value, disks[n], g);
    }
  }

  /** Crash atomicity.  However a publication and then any number of recoveries were stopped,
      if every recovery started on a restart-safe disk, one that runs to its end leaves all
      targets of one generation and neither journal nor debris; it ends well exactly if no
      journal is left or every backup it needs can be hard-linked. */
  lemma RunsAreAtomic(m: Medium, d: Disk, disks: seq<Disk>, g: Generation)
    requires Ready(d, g) && Run(m, d, disks, g)
    requires forall j | 0 <= j < |disks| :: RestartSafe(disks[j], g)
    ensures var e := disks[|disks| - 1];
            var r := Recovery(e.dir, |g.before|);
            && r.Some?
            && var f := Exec(m, e, r.value);
            && (f.failed <==> Journal in e.dir && !BackupsLinkable(m, g))
            && (!f.failed ==> Whole(f, g) && Journal !in f.dir && DebrisFree(f, |g.before|))
            && (!f.failed && Journal in e.dir ==> AllOld(f, g))
            && (Journal !in e.dir ==> SameTargets(e, f, g))
  {
    RunKeepsRecoverable(m, d, disks, g);
    RecoveryIsSafe(m, disks[|disks| - 1], g);
  }

  // ---- When every restart is safe ----------------------------------------------------

  lemma SynchronisedIsRestartSafe(d: Disk, g: Generation)
    requires Legal(g) && Recoverable(d, g) && d.stale == {}
    ensures RestartSafe(d, g)
  {
  }

  lemma {:induction false} CoherentStaysSynchronised(m: Medium, d: Disk, calls: seq<Call>)
    requires !m.lossy && d.stale == {}
    ensures Exec(m, d, calls).stale == {}
    decreases |calls|
  {
    if calls != [] {
      CoherentStaysSynchronised(m, Step(m, d, calls[0]), calls[1..]);
    }
  }

  /** Power losses alone never make a restart unsafe, and nor do kills on a medium that loses
      nothing. */
  lemma {:induction false} SynchronisedRunsAreAtomic(m: Medium, d: Disk, disks: seq<Disk>, g: Generation)
    requires Ready(d, g) && Run(m, d, disks, g) && BackupsLinkable(m, g)
    requires (!m.lossy && d.stale == {}) || forall j | 0 <= j < |disks| :: disks[j].stale == {}
    ensures var e := disks[|disks| - 1];
            Recovery(e.dir, |g.before|).Some? &&
            var f := Exec(m, e, Recovery(e.dir, |g.before|).value);
            !f.failed && Whole(f, g) && Journal !in f.dir && DebrisFree(f, |g.before|)
  {
    SynchronisedRunIsSafe(m, d, disks, g);
    RunsAreAtomic(m, d, disks, g);
  }

  lemma {:induction false} SynchronisedRunIsSafe(m: Medium, d: Disk, disks: seq<Disk>, g: Generation)
    requires Ready(d, g) && Run(m, d, disks, g)
    requires (!m.lossy && d.stale == {}) || forall j | 0 <= j < |disks| :: disks[j].stale == {}
    ensures forall j | 0 <= j < |disks| :: disks[j].stale == {} && RestartSafe(disks[j], g)
    decreases |disks|
  {
    assert Legal(g);
    hide Ready, Recoverable, Publish, Recovery, RestartSafe, Exec;
    var n := |disks| - 1;
    if n == 0 {
      InterruptedStaysSynchronised(m, d, Publish(m, Existing(g)), disks[0]);
    } else {
      var earlier := disks[..n];
      SynchronisedRunIsSafe(m, d, earlier, g);
      assert earlier[n - 1] == disks[n - 1] && RecoveryInterrupted(m, disks[n - 1], disks[n], |g.before|);
      assert forall j | 0 <= j < n :: earlier[j] == disks[j];
      InterruptedStaysSynchronised(m, disks[n - 1], Recovery(disks[n - 1].dir, |g.before|).value, disks[n]);
    }
    RunKeepsRecoverable(m, d, disks, g);
    SynchronisedIsRestartSafe(disks[n], g);
  }

  lemma InterruptedStaysSynchronised(m: Medium, d: Disk, calls: seq<Call>, e: Disk)
    requires Interrupted(m, d, calls, e)
    ensures !m.lossy && d.stale == {} ==> e.stale == {}
  {
    if !m.lossy && d.stale == {} {
      var k: nat :| StoppedAfter(m, d, calls, k, e);
      CoherentStaysSynchronised(m, d, calls[..k]);
    }
  }

  // ---- The commit point --------------------------------------------------------------

  /** Calls that touch neither targets nor the journal. */
  ghost predicate Quiet(c: Call) {
    c.Sync? || c.SyncIfChanged? || (c.Remove? && !c.name.Target? && !c.name.Journal?)
  }

  lemma {:induction false} QuietCalls(m: Medium, d: Disk, calls: seq<Call>, x: Name)
    requires forall c | c in calls :: Quiet(c)
    requires x.Target? || x.Journal?
    ensures var e := Exec(m, d, calls); Look(e.dir, x) == Look(d.dir, x) && NoNewEntry(d, e, x) && e.failed == d.failed
    decreases |calls|
  {
    if calls != [] {
      assert Quiet(calls[0]);
      var e := Step(m, d, calls[0]);
      QuietCalls(m, e, calls[1..], x);
      assert NoNewEntry(d, e, x);
      NoNewEntryTrans(d, e, Exec(m, e, calls[1..]), x);
    }
  }

  lemma QuietKeepsNew(m: Medium, d: Disk, calls: seq<Call>, g: Generation)
    requires Legal(g) && AllNew(d, g) && forall c | c in calls :: Quiet(c)
    ensures var e := Exec(m, d, calls);
            && AllNew(e, g) && e.failed == d.failed
            && (Journal in e.dir <==> Journal in d.dir) && (JournalGone(d) ==> JournalGone(e))
  {
    var e := Exec(m, d, calls);
    QuietCalls(m, d, calls, Journal);
    forall i: nat ensures NoNewEntry(d, e, Target(i)) {
      QuietCalls(m, d, calls, Target(i));
    }
  }

  lemma CleanupIsQuiet(n: nat)
    ensures forall c | c in Cleanup(n) :: Quiet(c)
  {
    forall c | c in Cleanup(n) ensures Quiet(c) {
      var k :| 0 <= k < |Cleanup(n)| && Cleanup(n)[k] == c;
      if k < |Debris(n)| {
        assert c == Remove(Debris(n)[k]) && Debris(n)[k] in Debris(n);
      }
    }
  }

  /** Every disk of the forward phase can be restarted safely, and its recovery restores. */
  lemma ForwardRecovers(m: Medium, d: Disk, g: Generation)
    requires Legal(g) && Good(d, g, Attempting) && BackupsLinkable(m, g) && !d.failed && !d.changed
    ensures Recovery(d.dir, |g.before|).Some?
    ensures var f := Exec(m, d, Recovery(d.dir, |g.before|).value);
            !f.failed && AllOld(f, g) && JournalGone(f) && DebrisFree(f, |g.before|)
  {
    assert RestartSafe(d, g);
    RecoveryIsSafe(m, d, g);
  }

  /** Whatever goes wrong inside the `try` block, the recovery the exception handler runs
      brings the old generation back, on every medium. */
  lemma ExceptionMeansOld(m: Medium, d: Disk, g: Generation, k: nat)
    requires Ready(d, g) && BackupsLinkable(m, g)
    requires k <= |Cleanup(|g.before|) + Attempt(m, Existing(g))|
    ensures var e := Restart(Exec(m, d, (Cleanup(|g.before|) + Attempt(m, Existing(g)))[..k]));
            Recovery(e.dir, |g.before|).Some? &&
            var f := Exec(m, e, Recovery(e.dir, |g.before|).value);
            !f.failed && AllOld(f, g) && JournalGone(f) && DebrisFree(f, |g.before|)
  {
    var calls := Cleanup(|g.before|) + Attempt(m, Existing(g));
    PublishIsSafe(m, d, g);
    AlwaysPrefix(m, d, calls, g, Attempting, k);
    var f := Exec(m, d, calls[..k]);
    RestartIsGood(f, g);
    ForwardRecovers(m, Restart(f), g);
  }

  lemma RestartIsGood(d: Disk, g: Generation)
    requires Legal(g) && Good(d, g, Attempting)
    ensures Good(Restart(d), g, Attempting)
  {
    var e := Restart(d);
    assert forall x :: NoNewEntry(d, e, x);
    Shrink(d, e, g);
    if !AllOld(d, g) {
      var k: nat :| k < |g.before| && ReplacedUpTo(d, g, k);
      assert ReplacedUpTo(e, g, k);
    }
  }

  /** The number of calls up to, not including, the one that unlinks the journal. */
  function CommitIndex(m: Medium, g: Generation): nat {
    |Cleanup(|g.before|) + Attempt(m, Existing(g))|
  }

  lemma CommitPrefix(m: Medium, e: Disk, g: Generation, j: nat)
    requires Legal(g) && Rolling(e, g, |g.before|) && 0 < j <= |Commit(|g.before|)|
    ensures var f := Exec(m, e, Commit(|g.before|)[..j]); AllNew(f, g) && Journal !in f.dir && !f.failed
    ensures j > 1 ==> JournalGone(Exec(m, e, Commit(|g.before|)[..j]))
  {
    hide Step, Good, Recoverable, Cleanup, Exec;
    var n := |g.before|;
    RollingIsGood(e, g, n);
    var d1, d2 := UnlinkJournal(m, e, g);
    CleanupIsQuiet(n);
    if j == 1 {
      assert Commit(n)[..j] == [Unlink(Journal)] + [];
      ExecCons(m, e, Unlink(Journal), []);
      assert Exec(m, d1, []) == d1 by {
        ExecNil(m, d1);
      }
    } else {
      var rest := Cleanup(n)[..j - 2];
      assert Commit(n)[..j] == [Unlink(Journal)] + ([Sync] + rest);
      ExecCons(m, e, Unlink(Journal), [Sync] + rest);
      ExecCons(m, d1, Sync, rest);
      assert forall c | c in rest :: c in Cleanup(n);
      QuietKeepsNew(m, d2, rest, g);
      assert Journal !in Exec(m, d2, rest).dir;
    }
  }

  lemma ExecNil(m: Medium, d: Disk)
    ensures Exec(m, d, []) == d
  {
  }

  /** Past the commit call the new generation is there, and the journal is not. */
  lemma PastCommit(m: Medium, d: Disk, g: Generation, k: nat)
    requires Ready(d, g) && CommitIndex(m, g) < k <= |Publish(m, Existing(g))|
    ensures var e := Exec(m, d, Publish(m, Existing(g))[..k]); AllNew(e, g) && Journal !in e.dir && !e.failed
    ensures k > CommitIndex(m, g) + 1 ==> JournalGone(Exec(m, d, Publish(m, Existing(g))[..k]))
  {
    hide Exec, AllNew;
    var n, x := |g.before|, Existing(g);
    var p := Cleanup(n) + Attempt(m, x);
    var j := k - |p|;
    assert Publish(m, x)[..k] == p + Commit(n)[..j];
    ExecAppend(m, d, p, Commit(n)[..j]);
    AttemptEnds(m, d, g);
    CommitPrefix(m, Exec(m, d, p), g, j);
  }

  /** Unlinking the journal is the one and only commit point: a process killed before that call
      is rolled back, one killed after it is not (on a medium that loses nothing). */
  lemma OnlyCommitPoint(m: Medium, d: Disk, g: Generation, k: nat)
    requires Ready(d, g) && !m.lossy && d.stale == {} && BackupsLinkable(m, g)
    requires k <= |Publish(m, Existing(g))|
    ensures var e := Restart(Exec(m, d, Publish(m, Existing(g))[..k]));
            Recovery(e.dir, |g.before|).Some? &&
            var f := Exec(m, e, Recovery(e.dir, |g.before|).value);
            !f.failed && JournalGone(f) && if k <= CommitIndex(m, g) then AllOld(f, g) else AllNew(f, g)
  {
    var n, calls := |g.before|, Publish(m, Existing(g));
    if k <= CommitIndex(m, g) {
      assert calls[..k] == (Cleanup(n) + Attempt(m, Existing(g)))[..k];
      ExceptionMeansOld(m, d, g, k);
    } else {
      var f := Exec(m, d, calls[..k]);
      var e := Restart(f);
      PastCommit(m, d, g, k);
      CoherentStaysSynchronised(m, d, calls[..k]);
      CleanupIsQuiet(n);
      assert AllNew(e, g) && JournalGone(e);
      QuietKeepsNew(m, e, Cleanup(n), g);
    }
  }

  /** Where a backup that was copied cannot be linked either, a process killed just before the
      commit call leaves a journal that no recovery can bring to an end. */
  lemma CopiedBackupIsNotRestored(m: Medium, d: Disk, g: Generation)
    requires Ready(d, g) && !BackupsLinkable(m, g)
    ensures CommitIndex(m, g) <= |Publish(m, Existing(g))|
    ensures var e := Restart(Exec(m, d, Publish(m, Existing(g))[..CommitIndex(m, g)]));
            Recovery(e.dir, |g.before|).Some? && Exec(m, e, Recovery(e.dir, |g.before|).value).failed
  {
    hide Exec, Always;
    var p := Cleanup(|g.before|) + Attempt(m, Existing(g));
    assert Publish(m, Existing(g))[..|p|] == p;
    AttemptEnds(m, d, g);
    var f := Exec(m, d, p);
    RollingIsGood(f, g, |g.before|);
    RestartIsGood(f, g);
    assert RestartSafe(Restart(f), g);
    RecoveryIsSafe(m, Restart(f), g);
  }

  /** Once a publication has returned, no recovery, interrupted or not, and no power loss
      brings the old generation back. */
  lemma {:induction false} ReturnedIsPermanent(m: Medium, d: Disk, disks: seq<Disk>, g: Generation)
    requires Ready(d, g) && |disks| > 0
    requires StoppedAfter(m, d, Publish(m, Existing(g)), |Publish(m, Existing(g))|, disks[0])
    requires forall j | 0 < j < |disks| :: RecoveryInterrupted(m, disks[j - 1], disks[j], |g.before|)
    ensures var e := disks[|disks| - 1]; AllNew(e, g) && JournalGone(e)
    decreases |disks|
  {
    hide Step, Exec, Publish, Cleanup;
    var n := |disks| - 1;
    if n == 0 {
      var calls := Publish(m, Existing(g));
      assert calls[..|calls|] == calls;
      PublishIsSafe(m, d, g);
      LossKeepsNew(Exec(m, d, calls), disks[0], g);
    } else {
      var earlier := disks[..n];
      ReturnedIsPermanent(m, d, earlier, g);
      var last := earlier[n - 1];
      assert last == disks[n - 1] && RecoveryInterrupted(m, disks[n - 1], disks[n], |g.before|);
      assert Possible(last, Journal, Look(last.dir, Journal));
      CleanupInterrupted(m, last, disks[n], g);
    }
  }

  lemma CleanupInterrupted(m: Medium, d: Disk, e: Disk, g: Generation)
    requires Legal(g) && AllNew(d, g) && JournalGone(d) && Interrupted(m, d, Cleanup(|g.before|), e)
    ensures AllNew(e, g) && JournalGone(e)
  {
    hide Step;
    var calls := Cleanup(|g.before|);
    var k: nat :| StoppedAfter(m, d, calls, k, e);
    CleanupIsQuiet(|g.before|);
    assert forall c | c in calls[..k] :: c in calls;
    QuietKeepsNew(m, d, calls[..k], g);
    LossKeepsNew(Exec(m, d, calls[..k]), e, g);
  }

  lemma LossKeepsNew(d: Disk, e: Disk, g: Generation)
    requires Legal(g) && AllNew(d, g) && JournalGone(d) && (e == Restart(d) || PowerLoss(d, e))
    ensures AllNew(e, g) && JournalGone(e)
  {
    forall x ensures NoNewEntry(d, e, x) {
      assert Possible(d, x, Look(e.dir, x));
    }
    ProtectedSurvive(d, e, g);
  }

  /** While the `try` block runs, a new manifest (the last target) can be seen, now or after a
      power loss, only if every other output is new and cannot become old again. */
  lemma ManifestIsLast(m: Medium, d: Disk, g: Generation, k: nat, v: Option<File>)
    requires Ready(d, g) && k <= CommitIndex(m, g) && |g.before| > 0
    requires var e := Exec(m, d, (Cleanup(|g.before|) + Attempt(m, Existing(g)))[..k]);
             Possible(e, Target(|g.before| - 1), v) && !OldAt(g, |g.before| - 1, v)
    ensures var e := Exec(m, d, (Cleanup(|g.before|) + Attempt(m, Existing(g)))[..k]);
            forall i: nat, w | i < |g.before| - 1 && Possible(e, Target(i), w) :: NewAt(g, i, w)
  {
    PublishIsSafe(m, d, g);
    AlwaysPrefix(m, d, Cleanup(|g.before|) + Attempt(m, Existing(g)), g, Attempting, k);
  }
}
