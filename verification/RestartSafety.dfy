/** When a recovery may be started on a disk that still holds unsynchronised changes.

    A process can be killed and the power can fail later, while the recovery runs that was
    started in between.  The recovery survives that exactly on restart-safe disks. */
module RestartSafety {
  import opened Wrappers
  import opened Filesystem
  import opened Publication
  import opened PublicationSafety
  import opened Recovering
  import opened CrashSafety

  /** One complete recovery from `d` ends without error and with one whole generation. */
  ghost predicate RecoversWell(m: Medium, d: Disk, g: Generation)
    requires Legal(g)
  {
    Recovery(d.dir, |g.before|).Some? &&
    var e := Exec(m, d, Recovery(d.dir, |g.before|).value);
    !e.failed && Whole(e, g)
  }

  /** Whenever the power fails during a recovery from `d`, the next recovery ends well. */
  ghost predicate SurvivesPowerLoss(m: Medium, d: Disk, g: Generation)
    requires Legal(g)
  {
    Recovery(d.dir, |g.before|).Some? &&
    var calls := Recovery(d.dir, |g.before|).value;
    forall k: nat, e | k <= |calls| && PowerLoss(Exec(m, d, calls[..k]), e) :: RecoversWell(m, e, g)
  }

  lemma RestartSafeSurvives(m: Medium, d: Disk, g: Generation)
    requires Legal(g) && Recoverable(d, g) && !d.failed && !d.changed && BackupsLinkable(m, g)
    requires RestartSafe(d, g)
    ensures SurvivesPowerLoss(m, d, g)
  {
    RecoveryIsSafe(m, d, g);
    var calls := Recovery(d.dir, |g.before|).value;
    forall k: nat, e | k <= |calls| && PowerLoss(Exec(m, d, calls[..k]), e) ensures RecoversWell(m, e, g) {
      AlwaysPrefix(m, d, calls, g, Ending, k);
      PowerLossKeepsRecoverable(Exec(m, d, calls[..k]), e, g);
      SynchronisedIsRestartSafe(e, g);
      RecoveryIsSafe(m, e, g);
    }
  }

  lemma {:induction false} RemovalsRemember(m: Medium, d: Disk, names: seq<Name>)
    requires m.lossy && !d.failed
    ensures var e := Exec(m, d, Removals(names));
            && (forall x :: Look(e.dir, x) == if x in names then None else Look(d.dir, x))
            && d.stale <= e.stale
    decreases |names|
  {
    if names != [] {
      var e := Step(m, d, Remove(names[0]));
      assert Removals(names)[0] == Remove(names[0]) && Removals(names)[1..] == Removals(names[1..]);
      RemovalsRemember(m, e, names[1..]);
    }
  }

  lemma MissingBackupIsRefused(dir: map<Name, File>, g: Generation, i: nat)
    requires Legal(g) && i < |g.before| && Existed(g, i) && Backup(i) !in dir
    requires Journal in dir && dir[Journal].content == Record(g)
    ensures Recovery(dir, |g.before|) == None
  {
    var r := ReadJournal(dir, |g.before|);
    assert r.Some? && r.value[i];
  }

  /** The disk after the cleanup has removed every backup, if then the journal comes back. */
  lemma JournalAlone(m: Medium, d: Disk, g: Generation, c: File) returns (k: nat, e: Disk)
    requires Legal(g) && !d.failed && m.lossy && (Journal, Some(c)) in d.stale
    ensures k <= |Cleanup(|g.before|)| && PowerLoss(Exec(m, d, Cleanup(|g.before|)[..k]), e)
    ensures Journal in e.dir && e.dir[Journal] == c && forall i: nat | i < |g.before| :: Backup(i) !in e.dir
  {
    var n := |g.before|;
    k := |Debris(n)|;
    assert Cleanup(n)[..k] == Removals(Debris(n));
    RemovalsRemember(m, d, Debris(n));
    var f := Exec(m, d, Cleanup(n)[..k]);
    e := ComesBack(f, Journal, c);
    forall i: nat | i < n ensures Backup(i) !in e.dir {
      assert Backup(i) in Debris(n) && Look(f.dir, Backup(i)) == None;
    }
  }

  /** A journal whose removal was not synchronised comes back after its backups are gone. */
  lemma JournalReturns(m: Medium, d: Disk, g: Generation)
    requires Legal(g) && Recoverable(d, g) && !d.failed && m.lossy
    requires Journal !in d.dir && !JournalGone(d) && !NoneExisted(g)
    ensures !SurvivesPowerLoss(m, d, g)
  {
    hide Exec, Cleanup;
    var v :| Possible(d, Journal, v) && v.Some?;
    var i: nat :| i < |g.before| && Existed(g, i);
    var k, e := JournalAlone(m, d, g, v.value);
    MissingBackupIsRefused(e.dir, g, i);
    assert !RecoversWell(m, e, g);
  }

  lemma {:induction false} NothingToRestore(m: Medium, d: Disk, g: Generation, k: nat)
    requires Legal(g) && k <= |g.before| && NoneExisted(g) && !SomeTargetPresent(d, g) && !d.changed
    ensures Exec(m, d, Restores(Existing(g), k)) == d
  {
    if k > 0 {
      NothingToRestore(m, d, g, k - 1);
      assert !Existed(g, k - 1);
      ExecAppend(m, d, Restores(Existing(g), k - 1), RestoreCalls(false, k - 1));
      assert Target(k - 1) !in d.dir;
      assert Step(m, d, Remove(Target(k - 1))) == d && Step(m, d, SyncIfChanged) == d;
      ExecCons(m, d, Remove(Target(k - 1)), [SyncIfChanged]);
      ExecCons(m, d, SyncIfChanged, []);
      assert [SyncIfChanged] + [] == [SyncIfChanged];
    }
  }

  /** A target whose removal was not synchronised comes back after the journal is gone. */
  lemma TargetReturns(m: Medium, d: Disk, g: Generation)
    requires Legal(g) && Recoverable(d, g) && !d.failed && !d.changed && m.lossy && |g.before| >= 2
    requires Journal in d.dir && NoneExisted(g) && !SomeTargetPresent(d, g) && !AllOld(d, g)
    ensures !SurvivesPowerLoss(m, d, g)
  {
    hide Exec, Restores, Commit;
    JournalReads(d, g);
    var calls := Restores(Existing(g), |g.before|) + Commit(|g.before|);
    var i: nat, v :| i < |g.before| && Possible(d, Target(i), v) && !OldAt(g, i, v);
    assert !Existed(g, i) && v.Some? && Target(i) !in d.dir;
    var k, e := TargetAlone(m, d, g, i, v.value);
    var other: nat := if i == 0 then 1 else 0;
    LoneTargetStays(m, e, g, i, other);
    assert !RecoversWell(m, e, g);
  }

  /** The disk after the journal is unlinked, if then one target comes back. */
  lemma TargetAlone(m: Medium, d: Disk, g: Generation, i: nat, c: File) returns (k: nat, e: Disk)
    requires Legal(g) && !d.failed && !d.changed && m.lossy && i < |g.before| && (Target(i), Some(c)) in d.stale
    requires Journal in d.dir && NoneExisted(g) && !SomeTargetPresent(d, g)
    ensures var calls := Restores(Existing(g), |g.before|) + Commit(|g.before|);
            k <= |calls| && PowerLoss(Exec(m, d, calls[..k]), e)
    ensures Journal !in e.dir && Target(i) in e.dir
    ensures forall j: nat | j < |g.before| && j != i :: Target(j) !in e.dir
  {
    hide Exec, Restores, Commit, PowerLoss;
    k := |Restores(Existing(g), |g.before|)| + 1;
    UnlinkAfterNothing(m, d, g);
    var f := Step(m, d, Unlink(Journal));
    e := ComesBack(f, Target(i), c);
    forall j: nat | j < |g.before| && j != i ensures Target(j) !in e.dir {
      assert Target(j) !in d.dir;
    }
  }

  /** The power failed on `d`, and `x` holds one of its stale entries again. */
  lemma ComesBack(d: Disk, x: Name, c: File) returns (e: Disk)
    requires (x, Some(c)) in d.stale
    ensures PowerLoss(d, e) && e.dir == d.dir[x := c]
  {
    e := Disk(d.dir[x := c], {}, d.next, false, false);
  }

  lemma UnlinkAfterNothing(m: Medium, d: Disk, g: Generation)
    requires Legal(g) && !d.changed && NoneExisted(g) && !SomeTargetPresent(d, g)
    ensures var p := Restores(Existing(g), |g.before|);
            var calls := p + Commit(|g.before|);
            |p| + 1 <= |calls| && Exec(m, d, calls[..|p| + 1]) == Step(m, d, Unlink(Journal))
  {
    hide Step, Restores;
    var p := Restores(Existing(g), |g.before|);
    assert (p + Commit(|g.before|))[..|p| + 1] == p + ([Unlink(Journal)] + []);
    NothingToRestore(m, d, g, |g.before|);
    ExecAppend(m, d, p, [Unlink(Journal)] + []);
    ExecCons(m, d, Unlink(Journal), []);
  }

  lemma LoneTargetStays(m: Medium, e: Disk, g: Generation, i: nat, other: nat)
    requires Legal(g) && i < |g.before| && other < |g.before| && !Existed(g, i)
    requires Journal !in e.dir && Target(i) in e.dir && Target(other) !in e.dir
    ensures !RecoversWell(m, e, g)
  {
    hide Step;
    var n := |g.before|;
    CleanupIsQuiet(n);
    QuietCalls(m, e, Cleanup(n), Target(i));
    QuietCalls(m, e, Cleanup(n), Target(other));
    var f := Exec(m, e, Cleanup(n));
    assert Possible(f, Target(i), Look(f.dir, Target(i))) && Possible(f, Target(other), Look(f.dir, Target(other)));
  }

  /** A recovery started on unsynchronised changes survives every power loss exactly if the
      disk is restart-safe. */
  lemma RestartSafeIsExact(m: Medium, d: Disk, g: Generation)
    requires Legal(g) && |g.before| >= 2 && m.lossy && BackupsLinkable(m, g)
    requires Recoverable(d, g) && !d.failed && !d.changed
    ensures RestartSafe(d, g) <==> SurvivesPowerLoss(m, d, g)
  {
    if RestartSafe(d, g) {
      RestartSafeSurvives(m, d, g);
    } else if Journal in d.dir {
      TargetReturns(m, d, g);
    } else {
      JournalReturns(m, d, g);
    }
  }

  /** Such a restart does happen: a publication over existing targets that is killed between
      unlinking the journal and the synchronisation leaves a disk that is not restart-safe. */
  lemma KilledAtCommitIsUnsafe(m: Medium, d: Disk, g: Generation)
    requires Ready(d, g) && m.lossy && !NoneExisted(g)
    ensures var k := CommitIndex(m, g) + 1;
            k <= |Publish(m, Existing(g))| &&
            !RestartSafe(Restart(Exec(m, d, Publish(m, Existing(g))[..k])), g)
  {
    hide Exec, Attempt, Cleanup, Always;
    var n := |g.before|;
    var p := Cleanup(n) + Attempt(m, Existing(g));
    AttemptEnds(m, d, g);
    var e := Exec(m, d, p);
    assert Publish(m, Existing(g))[..|p| + 1] == p + ([Unlink(Journal)] + []);
    ExecAppend(m, d, p, [Unlink(Journal)] + []);
    ExecCons(m, e, Unlink(Journal), []);
    var f := Step(m, e, Unlink(Journal));
    ExecNil(m, f);
    assert Possible(Restart(f), Journal, Some(e.dir[Journal]));
  }

  /** The calls of a publication up to and including the replacement of the first target. */
  function UpToFirstReplacement(m: Medium, existed: seq<bool>): seq<Call> {
    Cleanup(|existed|) + (Backups(m, existed, |existed|) + [Sync] + JournalCalls(existed)) + Replacements(1)
  }

  lemma {:induction false} ReplacementsPrefix(k: nat)
    requires k > 0
    ensures Replacements(1) <= Replacements(k)
  {
    if k > 1 {
      ReplacementsPrefix(k - 1);
    }
  }

  lemma FirstReplacementIsReached(m: Medium, d: Disk, g: Generation)
    requires Ready(d, g) && |g.before| > 0
    ensures UpToFirstReplacement(m, Existing(g)) <= Publish(m, Existing(g))
    ensures Rolling(Exec(m, d, UpToFirstReplacement(m, Existing(g))), g, 1)
  {
    hide Exec, Always, Good, Rolling, Cleanup, Backups, JournalCalls, Replacements, Commit;
    var n, x := |g.before|, Existing(g);
    var o, p, q := Cleanup(n), Backups(m, x, n) + [Sync], JournalCalls(x);
    ReplacementsPrefix(n);
    var more := Replacements(n)[|Replacements(1)|..];
    assert Replacements(n) == Replacements(1) + more;
    assert Publish(m, x) == UpToFirstReplacement(m, x) + (more + Commit(n));
    CleanupLeavesReady(m, d, g);
    var e := Exec(m, d, o);
    BackingUpIsSafe(m, e, g);
    JournalIsSafe(m, Exec(m, e, p), g);
    ReplacementsAreSafe(m, Exec(m, Exec(m, e, p), q), g, 1);
    ExecAppend(m, d, o, p + q);
    ExecAppend(m, e, p, q);
    ExecAppend(m, d, o + (p + q), Replacements(1));
  }

  lemma {:induction false} FirstRestore(m: Medium, x: seq<bool>, k: nat)
    requires 0 < k <= |x| && !x[0]
    ensures |Restores(x, k)| > 0 && Restores(x, k)[0] == Remove(Target(0))
  {
    if k > 1 {
      FirstRestore(m, x, k - 1);
    } else {
      assert Restores(x, 0) == [];
    }
  }

  /** And so does the other: a first publication is killed after one replacement, and the
      recovery from it is killed after it has removed that target again. */
  lemma KilledWhileRemovingIsUnsafe(m: Medium, d: Disk, g: Generation)
    requires Ready(d, g) && m.lossy && NoneExisted(g) && |g.before| > 0
    ensures var e := Restart(Exec(m, d, UpToFirstReplacement(m, Existing(g))));
            var calls := Recovery(e.dir, |g.before|);
            calls.Some? && |calls.value| > 0 && !RestartSafe(Restart(Exec(m, e, calls.value[..1])), g)
  {
    assert Legal(g);
    hide Exec, Rolling, RestartSafe, Ready, UpToFirstReplacement, Recovery, Restart, NoneExisted;
    var f := Exec(m, d, UpToFirstReplacement(m, Existing(g)));
    FirstReplacementIsReached(m, d, g);
    RestartKeepsRolling(f, g, 1);
    OneTargetRemoved(m, Restart(f), g);
  }

  lemma RestartKeepsRolling(f: Disk, g: Generation, k: nat)
    requires Legal(g) && k <= |g.before| && Rolling(f, g, k)
    ensures Rolling(Restart(f), g, k) && Recoverable(Restart(f), g)
  {
    assert Rolling(Restart(f), g, k) by {
      assert Restart(f).dir == f.dir && Restart(f).stale == f.stale;
      assert forall x, v :: Possible(Restart(f), x, v) == Possible(f, x, v);
    }
    RollingIsGood(Restart(f), g, k);
  }

  lemma OneTargetRemoved(m: Medium, e: Disk, g: Generation)
    requires Legal(g) && m.lossy && NoneExisted(g) && |g.before| > 0 && Recoverable(e, g) && Rolling(e, g, 1)
    ensures var calls := Recovery(e.dir, |g.before|);
            calls.Some? && |calls.value| > 0 && !RestartSafe(Restart(Exec(m, e, calls.value[..1])), g)
  {
    hide Restores, Commit, Exec;
    var n := |g.before|;
    JournalReads(e, g);
    assert !Existed(g, 0);
    FirstRestore(m, Existing(g), n);
    var calls := Recovery(e.dir, n).value;
    assert calls == Restores(Existing(g), n) + Commit(n);
    assert calls[..1] == [Remove(Target(0))] + [];
    ExecCons(m, e, Remove(Target(0)), []);
    var f := Step(m, e, Remove(Target(0)));
    ExecNil(m, f);
    var r := Restart(f);
    assert Target(0) in e.dir && (Target(0), Look(e.dir, Target(0))) in r.stale;
    assert Possible(r, Target(0), Look(e.dir, Target(0))) && !OldAt(g, 0, Look(e.dir, Target(0)));
    forall i: nat | i < n ensures Target(i) !in r.dir {
      if i > 0 {
        assert !Existed(g, i);
        assert OldAt(g, i, Look(e.dir, Target(i)));
      }
    }
  }
}
