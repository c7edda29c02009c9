/** A whole publication, and a whole recovery, are safe at every call. */
module Recovering {
  import opened Wrappers
  import opened Filesystem
  import opened Publication
  import opened PublicationSafety

  // ---- Publishing --------------------------------------------------------------------

  /** The disk a publication may start on: no journal can appear, the targets are the old
      generation, the temporaries are complete.  Debris of earlier runs may lie around. */
  ghost predicate Ready(d: Disk, g: Generation) {
    Legal(g) && !d.failed && JournalGone(d) && AllOld(d, g) && TemporariesReady(d, g, 0)
  }

  lemma SynchronisedBackups(d: Disk, e: Disk, g: Generation)
    requires Legal(g) && BackedUp(d, e, g, |g.before|)
    ensures BackupsHoldOld(e.(stale := {}), g)
  {
  }

  lemma TargetsStay(d: Disk, e: Disk, g: Generation)
    requires Legal(g) && AllOld(d, g) && JournalGone(d) && BackedUp(d, e, g, |g.before|)
    ensures AllOld(e, g) && JournalGone(e) && AllOld(e.(stale := {}), g) && JournalGone(e.(stale := {}))
  {
    hide AllOld, JournalGone;
    var f := e.(stale := {});
    assert forall x: Name | x.Target? || x.Journal? :: NoNewEntry(d, e, x);
    ProtectedSurvive(d, e, g);
    assert forall x :: NoNewEntry(e, f, x);
    ProtectedSurvive(e, f, g);
  }

  lemma TemporariesStay(d: Disk, e: Disk, g: Generation)
    requires Legal(g) && TemporariesReady(d, g, 0) && BackedUp(d, e, g, |g.before|) && DebrisFree(d, |g.before|)
    ensures TemporariesReady(e.(stale := {}), g, 0) && JournalTemporary !in e.dir
  {
    var f := e.(stale := {});
    forall i: nat ensures Look(f.dir, Temporary(i)) == Look(d.dir, Temporary(i)) {
    }
    assert JournalTemporary in Debris(|g.before|);
    assert Look(e.dir, JournalTemporary) == Look(d.dir, JournalTemporary);
  }

  lemma BackupsEnd(d: Disk, e: Disk, g: Generation)
    requires Ready(d, g) && DebrisFree(d, |g.before|) && BackedUp(d, e, g, |g.before|)
    ensures var f := e.(stale := {});
            Ready(f, g) && BackupsHoldOld(f, g) && JournalTemporary !in f.dir && Good(e, g, Attempting) && Good(f, g, Attempting)
  {
    SynchronisedBackups(d, e, g);
    TargetsStay(d, e, g);
    TemporariesStay(d, e, g);
    IdleIsGood(e, g, Attempting);
    IdleIsGood(e.(stale := {}), g, Attempting);
    assert e.failed == d.failed;
    hide Good, BackupsHoldOld, JournalGone, AllOld, TemporariesReady, BackedUp, DebrisFree;
  }

  lemma OneSync(m: Medium, d: Disk, g: Generation, ph: Phase)
    requires Legal(g) && !d.failed && Good(d, g, ph) && Good(d.(stale := {}), g, ph)
    ensures Always(m, d, [Sync], g, ph) && Exec(m, d, [Sync]) == d.(stale := {})
  {
    hide Good;
    assert [Sync][1..] == [];
    assert Step(m, d, Sync) == d.(stale := {});
    assert Always(m, d.(stale := {}), [], g, ph);
  }

  /** The backups are taken and durable. */
  lemma BackingUpIsSafe(m: Medium, d: Disk, g: Generation)
    requires Ready(d, g) && DebrisFree(d, |g.before|)
    ensures var p := Backups(m, Existing(g), |g.before|) + [Sync];
            var e := Exec(m, d, p);
            Always(m, d, p, g, Attempting) && Ready(e, g) && BackupsHoldOld(e, g) && JournalTemporary !in e.dir && e.stale == {}
  {
    assert Legal(g) && AllOld(d, g) && JournalGone(d) && !d.failed;
    hide Always, Exec, Ready, Good, Backups, DebrisFree, BackupsHoldOld, AllOld, JournalGone;
    var p := Backups(m, Existing(g), |g.before|);
    BackupsAreSafe(m, d, g, |g.before|, Attempting);
    var e := Exec(m, d, p);
    BackupsEnd(d, e, g);
    assert !e.failed;
    OneSync(m, e, g, Attempting);
    AlwaysAppend(m, d, p, [Sync], g, Attempting);
    ExecAppend(m, d, p, [Sync]);
  }

  lemma AttemptIsSafe(m: Medium, d: Disk, g: Generation)
    requires Ready(d, g) && DebrisFree(d, |g.before|)
    ensures Always(m, d, Attempt(m, Existing(g)), g, Attempting)
    ensures Rolling(Exec(m, d, Attempt(m, Existing(g))), g, |g.before|)
  {
    var n, x := |g.before|, Existing(g);
    var p, q, r := Backups(m, x, n) + [Sync], JournalCalls(x), Replacements(n);
    assert Attempt(m, x) == p + q + r;
    BackingUpIsSafe(m, d, g);
    var e := Exec(m, d, p);
    JournalIsSafe(m, e, g);
    AlwaysAppend(m, d, p, q, g, Attempting);
    ExecAppend(m, d, p, q);
    ReplacementsAreSafe(m, Exec(m, e, q), g, n);
    AlwaysAppend(m, d, p + q, r, g, Attempting);
    ExecAppend(m, d, p + q, r);
  }

  lemma CleanupLeavesReady(m: Medium, d: Disk, g: Generation)
    requires Ready(d, g)
    ensures var e := Exec(m, d, Cleanup(|g.before|));
            Ready(e, g) && DebrisFree(e, |g.before|) && Always(m, d, Cleanup(|g.before|), g, Attempting)
  {
    hide Always, Exec, Recoverable;
    var n := |g.before|;
    assert Calm(d, g) by {
      assert Possible(d, Journal, Look(d.dir, Journal));
    }
    CleanupIsSafe(m, d, g, Attempting);
    var e := Exec(m, d, Cleanup(n));
    WithoutDebris(d, e, n);
    forall i: nat ensures Look(e.dir, Temporary(i)) == Look(d.dir, Temporary(i)) {
    }
  }

  /** Up to the end of the `try` block. */
  lemma AttemptEnds(m: Medium, d: Disk, g: Generation)
    requires Ready(d, g)
    ensures var p := Cleanup(|g.before|) + Attempt(m, Existing(g));
            Rolling(Exec(m, d, p), g, |g.before|) && Always(m, d, p, g, Attempting)
  {
    assert Legal(g);
    hide Always, Exec, Rolling, Ready, Cleanup, Attempt;
    var p, q := Cleanup(|g.before|), Attempt(m, Existing(g));
    CleanupLeavesReady(m, d, g);
    AttemptIsSafe(m, Exec(m, d, p), g);
    AlwaysAppend(m, d, p, q, g, Attempting);
    ExecAppend(m, d, p, q);
  }

  /** A publication passes through recoverable disks only, and ends with the new generation. */
  lemma PublishIsSafe(m: Medium, d: Disk, g: Generation)
    requires Ready(d, g)
    ensures Always(m, d, Publish(m, Existing(g)), g, Ending)
    ensures Always(m, d, Cleanup(|g.before|) + Attempt(m, Existing(g)), g, Attempting)
    ensures var e := Exec(m, d, Publish(m, Existing(g)));
            !e.failed && JournalGone(e) && AllNew(e, g) && DebrisFree(e, |g.before|)
  {
    hide Always, Exec, Cleanup, Attempt, Commit, Good, JournalGone, AllNew, DebrisFree;
    var n := |g.before|;
    var p, q := Cleanup(n) + Attempt(m, Existing(g)), Commit(n);
    AttemptEnds(m, d, g);
    var e := Exec(m, d, p);
    RollingIsGood(e, g, n);
    CommitIsSafe(m, e, g);
    AlwaysWeaken(m, d, p, g, Attempting);
    AlwaysAppend(m, d, p, q, g, Ending);
    ExecAppend(m, d, p, q);
  }

  // ---- Recovering --------------------------------------------------------------------

  /** From `d` to `e` targets were only given old contents, backups and journal nothing new. */
  ghost predicate Reverting(d: Disk, e: Disk, g: Generation)
    requires Legal(g)
  {
    && Look(e.dir, Journal) == Look(d.dir, Journal) && NoNewEntry(d, e, Journal)
    && (forall i: nat :: Look(e.dir, Backup(i)) == Look(d.dir, Backup(i)) && NoNewEntry(d, e, Backup(i)))
    && (forall i: nat, v | i < |g.before| && Possible(e, Target(i), v) :: Possible(d, Target(i), v) || OldAt(g, i, v))
  }

  lemma RevertingIsRecoverable(d: Disk, e: Disk, g: Generation)
    requires Legal(g) && Recoverable(d, g) && Journal in d.dir && Reverting(d, e, g)
    ensures Recoverable(e, g) && BackupsHoldOld(d, g) && BackupsHoldOld(e, g)
  {
    assert Possible(d, Journal, Look(d.dir, Journal));
    assert !JournalGone(d);
    assert Journal in e.dir by {
      assert Look(e.dir, Journal) == Look(d.dir, Journal);
    }
    if AllOld(d, g) {
      assert AllOld(e, g);
    }
  }

  lemma RevertingTrans(d: Disk, e: Disk, f: Disk, g: Generation)
    requires Legal(g) && Reverting(d, e, g) && Reverting(e, f, g)
    ensures Reverting(d, f, g)
  {
    NoNewEntryTrans(d, e, f, Journal);
    forall i: nat ensures NoNewEntry(d, f, Backup(i)) {
      NoNewEntryTrans(d, e, f, Backup(i));
    }
  }

  /** `e` is `d` with the first `k` targets back to the old generation.  Either everything is
      synchronised, or nothing has happened because there was nothing to put back. */
  ghost predicate RestoredTo(d: Disk, e: Disk, g: Generation, k: nat)
    requires Legal(g) && k <= |g.before|
  {
    && Reverting(d, e, g)
    && (forall i: nat | i < k :: OldAt(g, i, Look(e.dir, Target(i))))
    && (forall i: nat | k <= i < |g.before| :: Look(e.dir, Target(i)) == Look(d.dir, Target(i)))
    && (e.stale == {} ||
        (e == d && forall i: nat | i < k :: !Existed(g, i) && Target(i) !in d.dir))
  }

  /** The disks on the way of restoring one backup. */
  lemma RestoreSteps(m: Medium, d: Disk, i: nat) returns (d1: Disk, d2: Disk, d3: Disk)
    requires !d.failed && Backup(i) in d.dir
    ensures d1 == Step(m, d, Discard(Restoring(i))) && !d1.failed
    ensures d2 == Step(m, d1, Link(Backup(i), Restoring(i)))
    ensures d3 == Step(m, d2, Replace(Restoring(i), Target(i)))
    ensures d2.failed == d3.failed == (Backup(i) !in m.linkable) && d3.changed == d.changed
    ensures forall x | x != Restoring(i) ::
      Look(d1.dir, x) == Look(d2.dir, x) == Look(d.dir, x) && NoNewEntry(d, d1, x) && NoNewEntry(d, d2, x)
    ensures !d2.failed ==> Moves(d2, d3, Restoring(i), Target(i), d.dir[Backup(i)])
    ensures d2.failed ==> d3 == d2
  {
    d1 := Step(m, d, Discard(Restoring(i)));
    d2 := Step(m, d1, Link(Backup(i), Restoring(i)));
    d3 := Step(m, d2, Replace(Restoring(i), Target(i)));
    if !d2.failed {
      ReplaceMoves(m, d2, Restoring(i), Target(i));
    }
  }

  lemma TouchingOnlyReverts(d: Disk, e: Disk, g: Generation, i: nat)
    requires Legal(g)
    requires forall x | x != Restoring(i) :: Look(e.dir, x) == Look(d.dir, x) && NoNewEntry(d, e, x)
    ensures Reverting(d, e, g)
  {
    assert forall j: nat :: NoNewEntry(d, e, Target(j));
  }

  lemma MovingBackReverts(d: Disk, e: Disk, g: Generation, i: nat, f: File)
    requires Legal(g) && i < |g.before| && Moves(d, e, Restoring(i), Target(i), f) && OldAt(g, i, Some(f))
    ensures Reverting(d, e, g)
  {
    forall j: nat, v | j < |g.before| && Possible(e, Target(j), v)
      ensures Possible(d, Target(j), v) || OldAt(g, j, v)
    {
      if j != i {
        assert NoNewEntry(d, e, Target(j));
      }
    }
  }

  /** Putting back one target that existed. */
  lemma RestoreExistingIsSafe(m: Medium, o: Disk, d: Disk, g: Generation, i: nat)
    requires Legal(g) && Recoverable(o, g) && Journal in o.dir && !d.failed
    requires i < |g.before| && Existed(g, i) && RestoredTo(o, d, g, i)
    ensures Always(m, d, RestoreCalls(true, i), g, Ending)
    ensures var e := Exec(m, d, RestoreCalls(true, i));
            e.failed == (Backup(i) !in m.linkable) && e.changed == d.changed && (!e.failed ==> RestoredTo(o, e, g, i + 1))
  {
    hide Step, Recoverable;
    RevertingIsRecoverable(o, d, g);
    assert OldAt(g, i, Look(d.dir, Backup(i))) by {
      assert Possible(d, Backup(i), Look(d.dir, Backup(i)));
    }
    var d1, d2, d3 := RestoreSteps(m, d, i);
    TouchingOnlyReverts(d, d1, g, i);
    TouchingOnlyReverts(d, d2, g, i);
    RevertingTrans(o, d, d1, g);
    RevertingTrans(o, d, d2, g);
    RevertingIsRecoverable(o, d1, g);
    RevertingIsRecoverable(o, d2, g);
    var d4 := Step(m, d3, Sync);
    SyncStep(m, d3);
    if !d2.failed {
      MovingBackReverts(d2, d3, g, i, d.dir[Backup(i)]);
      RevertingTrans(o, d2, d3, g);
      SyncReverts(d3, g);
      RevertingTrans(o, d3, d4, g);
      RevertingIsRecoverable(o, d3, g);
      RevertingIsRecoverable(o, d4, g);
      forall j: nat | j != i ensures Look(d4.dir, Target(j)) == Look(d.dir, Target(j)) {
      }
    }
    FourSteps(m, d, Discard(Restoring(i)), Link(Backup(i), Restoring(i)), Replace(Restoring(i), Target(i)), Sync,
              d1, d2, d3, d4, g, Ending);
  }

  lemma SyncStep(m: Medium, d: Disk)
    ensures Step(m, d, Sync) == if d.failed then d else d.(stale := {})
  {
  }

  lemma SyncReverts(d: Disk, g: Generation)
    requires Legal(g)
    ensures Reverting(d, d.(stale := {}), g)
    ensures Reverting(d, d.(stale := {}, changed := false), g)
  {
  }

  /** Removing one target that did not exist. */
  lemma RemoveAddedIsSafe(m: Medium, o: Disk, d: Disk, g: Generation, i: nat)
    requires Legal(g) && Recoverable(o, g) && Journal in o.dir && !d.failed && !d.changed
    requires i < |g.before| && !Existed(g, i) && RestoredTo(o, d, g, i)
    ensures Always(m, d, RestoreCalls(false, i), g, Ending)
    ensures var e := Exec(m, d, RestoreCalls(false, i)); !e.failed && !e.changed && RestoredTo(o, e, g, i + 1)
  {
    hide Recoverable;
    RevertingIsRecoverable(o, d, g);
    var d1 := Step(m, d, Remove(Target(i)));
    var d2 := Step(m, d1, SyncIfChanged);
    PutEntries(m, d, Target(i), None);
    assert Reverting(d, d1, g);
    RevertingTrans(o, d, d1, g);
    RevertingIsRecoverable(o, d1, g);
    SyncReverts(d1, g);
    if d1.changed {
      RevertingTrans(o, d1, d2, g);
    }
    RevertingIsRecoverable(o, d2, g);
    forall j: nat | j != i ensures Look(d2.dir, Target(j)) == Look(d.dir, Target(j)) {
    }
    TwoSteps(m, d, Remove(Target(i)), SyncIfChanged, d1, d2, g, Ending);
  }

  /** Every backup the recovery would have to link can be linked. */
  ghost predicate BackupsLinkable(m: Medium, g: Generation)
    requires Legal(g)
  {
    forall i: nat | i < |g.before| && Existed(g, i) :: Backup(i) in m.linkable
  }

  lemma RestoreNext(m: Medium, o: Disk, p: seq<Call>, g: Generation, i: nat)
    requires Legal(g) && Recoverable(o, g) && Journal in o.dir && i < |g.before|
    requires Always(m, o, p, g, Ending)
    requires var d := Exec(m, o, p); d.failed || (!d.changed && RestoredTo(o, d, g, i))
    ensures var q := RestoreCalls(Existed(g, i), i);
            var e := Exec(m, o, p + q);
            && Always(m, o, p + q, g, Ending)
            && (e.failed || (!e.changed && RestoredTo(o, e, g, i + 1)))
            && (e.failed <==> Exec(m, o, p).failed || (Existed(g, i) && Backup(i) !in m.linkable))
  {
    var d := Exec(m, o, p);
    var q := RestoreCalls(Existed(g, i), i);
    ExecAppend(m, o, p, q);
    if d.failed {
      AlwaysPrefix(m, o, p, g, Ending, |p|);
      assert p[..|p|] == p;
      AlwaysFailed(m, d, q, g, Ending);
      ExecFailed(m, d, q);
    } else if Existed(g, i) {
      RestoreExistingIsSafe(m, o, d, g, i);
    } else {
      RemoveAddedIsSafe(m, o, d, g, i);
    }
    AlwaysAppend(m, o, p, q, g, Ending);
  }

  lemma NothingIsSafe(m: Medium, d: Disk, g: Generation)
    requires Legal(g) && Recoverable(d, g)
    ensures Always(m, d, [], g, Ending) && Exec(m, d, []) == d
  {
  }

  /** One of the first `k` backups is needed and cannot be linked. */
  ghost predicate Blocked(m: Medium, g: Generation, k: nat)
    requires k <= |g.before|
  {
    exists i: nat :: i < k && Existed(g, i) && Backup(i) !in m.linkable
  }

  lemma BlockedNext(m: Medium, g: Generation, k: nat)
    requires k < |g.before|
    ensures Blocked(m, g, k + 1) <==> Blocked(m, g, k) || (Existed(g, k) && Backup(k) !in m.linkable)
  {
  }

  lemma {:induction false} RestoresAreSafe(m: Medium, o: Disk, g: Generation, k: nat)
    requires Legal(g) && Recoverable(o, g) && Journal in o.dir && !o.failed && !o.changed && k <= |g.before|
    ensures var e := Exec(m, o, Restores(Existing(g), k));
            && Always(m, o, Restores(Existing(g), k), g, Ending)
            && (e.failed || (!e.changed && RestoredTo(o, e, g, k)))
            && (e.failed <==> Blocked(m, g, k))
  {
    assert k == 0 ==> !Blocked(m, g, k);
    hide Always, Step, Recoverable, Exec, RestoredTo, RestoreCalls, Blocked;
    if k == 0 {
      NothingRestored(o, g);
      NothingIsSafe(m, o, g);
    } else {
      RestoresAreSafe(m, o, g, k - 1);
      BlockedNext(m, g, k - 1);
      RestoreNext(m, o, Restores(Existing(g), k - 1), g, k - 1);
    }
  }

  lemma NothingRestored(o: Disk, g: Generation)
    requires Legal(g)
    ensures RestoredTo(o, o, g, 0)
  {
    assert Reverting(o, o, g);
  }
}
