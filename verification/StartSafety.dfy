/** When the program may be started on a disk that still holds unsynchronised changes: the
    exact condition for the recovery and the publication that follows it. */
module StartSafety {
  import opened Wrappers
  import opened Filesystem
  import opened Publication
  import opened PublicationSafety
  import opened Recovering
  import opened CrashSafety
  import opened RestartSafety
  import opened Generations

  ghost predicate AllLinkable(m: Medium, n: nat) {
    forall i: nat | i < n :: Backup(i) in m.linkable
  }

  /** Whenever the power fails while a start recovers, or publishes whatever it may, the next
      recovery ends well. */
  ghost predicate SurvivesStart(m: Medium, d: Disk, g: Generation)
    requires Legal(g)
  {
    SurvivesPowerLoss(m, d, g) && forall f, next: Generation | Prepared(m, d, g, f, next) :: SurvivesPublication(m, f, next)
  }

  ghost predicate SurvivesPublication(m: Medium, f: Disk, g: Generation)
    requires Legal(g)
  {
    var calls := Publish(m, Existing(g));
    forall k: nat, e | k <= |calls| && PowerLoss(Exec(m, f, calls[..k]), e) :: RecoversWell(m, e, g)
  }

  // ---- A safe start survives -----------------------------------------------------------

  lemma OpeningSurvives(m: Medium, f: Disk, g: Generation)
    requires Opening(f, g) && BackupsLinkable(m, g)
    ensures SurvivesPublication(m, f, g)
  {
    assert Legal(g);
    hide Exec, Always, Opening, Recoverable, Publish;
    var calls := Publish(m, Existing(g));
    OpeningIsSafe(m, f, g);
    forall k: nat, e | k <= |calls| && PowerLoss(Exec(m, f, calls[..k]), e) ensures RecoversWell(m, e, g) {
      AlwaysPrefix(m, f, calls, g, Ending, k);
      PowerLossKeepsRecoverable(Exec(m, f, calls[..k]), e, g);
      SynchronisedIsRestartSafe(e, g);
      RecoveryIsSafe(m, e, g);
    }
  }

  lemma StartSafeSurvives(m: Medium, d: Disk, g: Generation)
    requires Legal(g) && Recoverable(d, g) && !d.failed && !d.changed && AllLinkable(m, |g.before|)
    requires StartSafe(d, g)
    ensures SurvivesStart(m, d, g)
  {
    hide Recoverable, SurvivesPublication, SurvivesPowerLoss, Opening;
    StartSafeIsRestartSafe(d, g);
    RestartSafeSurvives(m, d, g);
    forall f, next: Generation | Prepared(m, d, g, f, next) ensures SurvivesPublication(m, f, next) {
      PreparedIsOpening(m, d, g, f, next);
      OpeningSurvives(m, f, next);
    }
  }

  // ---- The journal of a first publication returns beside a backup -------------------------

  /** `d` with one temporary for each target. */
  function WithTemporaries(d: Disk, after: seq<Content>): Disk {
    d.(dir := map x | x in d.dir.Keys + (set i: nat | i < |after| :: Temporary(i)) ::
      if x.Temporary? && x.index < |after| then File(0, after[x.index]) else d.dir[x])
  }

  /** Publishing once more what has just been published. */
  function Again(g: Generation): Generation {
    Generation(Held(g.after), g.after)
  }

  lemma AgainIsPrepared(m: Medium, d: Disk, g: Generation)
    requires Legal(g) && AllNew(d, g) && Journal !in d.dir && !d.failed && !d.changed && !SomeDebris(d, |g.before|)
    ensures Prepared(m, d, g, WithTemporaries(d, g.after), Again(g))
  {
    CleanupSynchronises(m, d, |g.before|);
    var f := WithTemporaries(d, g.after);
    forall x: Name | !x.Temporary? ensures Look(f.dir, x) == Look(d.dir, x) && NoNewEntry(d, f, x) {
      assert x in f.dir <==> x in d.dir;
    }
    forall i: nat | i < |g.before| ensures OldAt(Again(g), i, Look(d.dir, Target(i))) {
      assert Possible(d, Target(i), Look(d.dir, Target(i)));
    }
  }

  lemma {:induction false} FirstBackup(m: Medium, existed: seq<bool>, k: nat)
    requires 0 < k <= |existed| && existed[0]
    ensures BackupCalls(m, 0) <= Backups(m, existed, k)
  {
    if k > 1 {
      FirstBackup(m, existed, k - 1);
    } else {
      assert Backups(m, existed, 0) == [];
    }
  }

  /** The calls up to the one that puts the first backup in place. */
  function UpToFirstBackup(m: Medium, n: nat): seq<Call> {
    Cleanup(n) + if Target(0) in m.linkable then [Link(Target(0), Backup(0))]
                 else [Create(BackupCopy(0)), Copy(Target(0), BackupCopy(0)), Replace(BackupCopy(0), Backup(0))]
  }

  lemma FirstBackupIsIssued(m: Medium, g: Generation)
    requires |g.before| > 0 && Existed(g, 0)
    ensures UpToFirstBackup(m, |g.before|) <= Publish(m, Existing(g))
  {
    hide Cleanup, Commit, JournalCalls, Replacements, Backups;
    var n, x := |g.before|, Existing(g);
    FirstBackup(m, x, n);
    var rest := Backups(m, x, n)[|BackupCalls(m, 0)|..];
    assert Backups(m, x, n) == BackupCalls(m, 0) + rest;
    var head := UpToFirstBackup(m, n)[|Cleanup(n)|..];
    assert head <= BackupCalls(m, 0);
    var tail := BackupCalls(m, 0)[|head|..] + rest + [Sync] + JournalCalls(x) + Replacements(n) + Commit(n);
    assert BackupCalls(m, 0) == head + BackupCalls(m, 0)[|head|..];
    assert Publish(m, x) == UpToFirstBackup(m, n) + tail;
  }

  lemma BackupInPlace(m: Medium, f: Disk, n: nat)
    requires n > 0 && Target(0) in f.dir && Journal !in f.dir && !f.failed && !f.changed && !SomeDebris(f, n)
    ensures var e := Exec(m, f, UpToFirstBackup(m, n));
            Backup(0) in e.dir && f.stale <= e.stale && (forall x :: x in f.dir ==> x in e.dir)
  {
    assert Backup(0) in Debris(n) && BackupCopy(0) in Debris(n);
    assert Backup(0) !in f.dir && BackupCopy(0) !in f.dir;
    CleanupSynchronises(m, f, n);
    hide Cleanup;
    if Target(0) in m.linkable {
      ExecAppend(m, f, Cleanup(n), [Link(Target(0), Backup(0))]);
      assert [Link(Target(0), Backup(0))] == [Link(Target(0), Backup(0))] + [];
      ExecCons(m, f, Link(Target(0), Backup(0)), []);
      ExecNil(m, Step(m, f, Link(Target(0), Backup(0))));
    } else {
      CopyInPlace(m, f);
      ExecAppend(m, f, Cleanup(n), [Create(BackupCopy(0)), Copy(Target(0), BackupCopy(0)), Replace(BackupCopy(0), Backup(0))]);
    }
  }

  lemma CopyInPlace(m: Medium, f: Disk)
    requires Target(0) in f.dir && !f.failed && Backup(0) !in f.dir && BackupCopy(0) !in f.dir
    ensures var e := Exec(m, f, [Create(BackupCopy(0)), Copy(Target(0), BackupCopy(0)), Replace(BackupCopy(0), Backup(0))]);
            Backup(0) in e.dir && f.stale <= e.stale && (forall x :: x in f.dir ==> x in e.dir)
  {
    var a, b, c := Create(BackupCopy(0)), Copy(Target(0), BackupCopy(0)), Replace(BackupCopy(0), Backup(0));
    var d1 := Step(m, f, a);
    var d2 := Step(m, d1, b);
    var d3 := Step(m, d2, c);
    assert [a, b, c] == [a] + ([b] + ([c] + []));
    ExecCons(m, f, a, [b] + ([c] + []));
    ExecCons(m, d1, b, [c] + []);
    ExecCons(m, d2, c, []);
    ExecNil(m, d3);
  }

  lemma StrayBackupIsRefused(dir: map<Name, File>, g: Generation)
    requires Legal(g) && |g.before| > 0 && NoneExisted(g)
    requires Journal in dir && dir[Journal].content == Record(g) && Backup(0) in dir
    ensures Recovery(dir, |g.before|) == None
  {
    var r := ReadJournal(dir, |g.before|);
    assert !Existed(g, 0);
    assert r.Some? && !r.value[0];
  }

  /** A first publication that is complete, but for its journal, which can come back, and
      nothing that would make the next cleanup synchronise. */
  ghost predicate Haunted(d: Disk, g: Generation)
    requires Legal(g)
  {
    Journal !in d.dir && !JournalGone(d) && NoneExisted(g) && !AllOld(d, g) && !SomeDebris(d, |g.before|)
  }

  lemma JournalReturnsBesideBackup(m: Medium, d: Disk, g: Generation)
    requires Legal(g) && Recoverable(d, g) && !d.failed && !d.changed && |g.before| > 0 && Haunted(d, g)
    ensures !SurvivesStart(m, d, g)
  {
    assert AllNew(d, g) && JournalOrNothing(d, g) by {
      assert Possible(d, Journal, None);
    }
    var v :| Possible(d, Journal, v) && v.Some?;
    assert v.value.content == Record(g) && (Journal, v) in d.stale;
    hide Exec, Publish, Cleanup, UpToFirstBackup, Recoverable, Prepared, JournalGone, JournalOrNothing, AllNew, AllOld;
    var f, next := WithTemporaries(d, g.after), Again(g);
    AgainIsPrepared(m, d, g);
    FilesStay(d, g);
    BackupInPlace(m, f, |g.before|);
    FirstBackupIsIssued(m, next);
    BackupThenLoss(m, f, g, next, v.value);
  }

  lemma BackupThenLoss(m: Medium, f: Disk, g: Generation, next: Generation, c: File)
    requires Legal(g) && Legal(next) && |g.before| == |next.before| > 0 && NoneExisted(g) && c.content == Record(g)
    requires UpToFirstBackup(m, |g.before|) <= Publish(m, Existing(next))
    requires var h := Exec(m, f, UpToFirstBackup(m, |g.before|)); Backup(0) in h.dir && (Journal, Some(c)) in h.stale
    ensures !SurvivesPublication(m, f, next)
  {
    hide Exec, Publish, UpToFirstBackup, NoneExisted;
    var p, calls := UpToFirstBackup(m, |g.before|), Publish(m, Existing(next));
    var e := ComesBack(Exec(m, f, p), Journal, c);
    StrayBackupIsRefused(e.dir, g);
    assert calls[..|p|] == p;
    assert PowerLoss(Exec(m, f, calls[..|p|]), e) && !RecoversWell(m, e, next);
  }

  lemma FilesStay(d: Disk, g: Generation)
    requires Legal(g) && |g.before| > 0 && AllNew(d, g) && Journal !in d.dir && !SomeDebris(d, |g.before|)
    ensures var f := WithTemporaries(d, g.after);
            Target(0) in f.dir && Journal !in f.dir && !SomeDebris(f, |g.before|) && f.stale == d.stale && Existed(Again(g), 0)
  {
    assert Possible(d, Target(0), Look(d.dir, Target(0)));
    assert NewAt(g, 0, Look(d.dir, Target(0)));
  }

  /** A start on unsynchronised changes survives every power failure, whatever it goes on to
      publish, exactly if it is safe. */
  lemma StartSafeIsExact(m: Medium, d: Disk, g: Generation)
    requires Legal(g) && |g.before| >= 2 && m.lossy && AllLinkable(m, |g.before|)
    requires Recoverable(d, g) && !d.failed && !d.changed
    ensures StartSafe(d, g) <==> SurvivesStart(m, d, g)
  {
    hide Recoverable, SurvivesPublication, SurvivesPowerLoss, Prepared;
    if StartSafe(d, g) {
      StartSafeSurvives(m, d, g);
    } else if !RestartSafe(d, g) {
      RestartSafeIsExact(m, d, g);
    } else {
      JournalReturnsBesideBackup(m, d, g);
    }
  }

  // ---- Such a disk is left behind -------------------------------------------------------------

  predicate Mentions(c: Call, x: Name) {
    match c
    case Remove(a) => a == x
    case Discard(a) => a == x
    case Unlink(a) => a == x
    case Link(_, b) => b == x
    case Replace(a, b) => a == x || b == x
    case Create(a) => a == x
    case Fill(a, _) => a == x
    case Copy(_, b) => b == x
    case _ => false
  }

  lemma {:induction false} Unmentioned(m: Medium, d: Disk, calls: seq<Call>, x: Name)
    requires forall c | c in calls :: !Mentions(c, x)
    ensures Look(Exec(m, d, calls).dir, x) == Look(d.dir, x)
    decreases |calls|
  {
    if calls != [] {
      assert !Mentions(calls[0], x);
      Unmentioned(m, Step(m, d, calls[0]), calls[1..], x);
    }
  }

  lemma {:induction false} ReplacementsMention(k: nat, x: Name)
    requires !x.Target? && !x.Temporary?
    ensures forall c | c in Replacements(k) :: !Mentions(c, x)
  {
    if k > 0 {
      ReplacementsMention(k - 1, x);
    }
  }

  lemma AttemptMentions(m: Medium, g: Generation, x: Name)
    requires NoneExisted(g) && !x.Target? && !x.Temporary? && x != JournalTemporary && x != Journal
    ensures forall c | c in Attempt(m, Existing(g)) :: !Mentions(c, x)
  {
    var n, existed := |g.before|, Existing(g);
    NoBackups(m, g, n);
    ReplacementsMention(n, x);
    JournalMentions(existed, x);
    assert Attempt(m, existed) == [Sync] + (JournalCalls(existed) + Replacements(n));
    hide JournalCalls, Replacements, Attempt;
    forall c | c in Attempt(m, existed) ensures !Mentions(c, x) {
      assert c == Sync || c in JournalCalls(existed) || c in Replacements(n);
    }
  }

  lemma JournalMentions(existed: seq<bool>, x: Name)
    requires x != JournalTemporary && x != Journal
    ensures forall c | c in JournalCalls(existed) :: !Mentions(c, x)
  {
  }

  lemma AttemptInParts(m: Medium, d: Disk, g: Generation)
    requires NoneExisted(g) && !d.failed
    ensures var x := Existing(g);
            Exec(m, d, Attempt(m, x)) == Exec(m, Exec(m, d.(stale := {}), JournalCalls(x)), Replacements(|x|))
  {
    hide Exec, JournalCalls, Replacements;
    var x, e := Existing(g), d.(stale := {});
    NoBackups(m, g, |g.before|);
    assert Attempt(m, x) == [Sync] + (JournalCalls(x) + Replacements(|x|));
    ExecCons(m, d, Sync, JournalCalls(x) + Replacements(|x|));
    SyncStep(m, d);
    ExecAppend(m, e, JournalCalls(x), Replacements(|x|));
  }

  lemma JournalIsRenamed(m: Medium, d: Disk, existed: seq<bool>)
    requires !d.failed && JournalTemporary !in d.dir && Journal !in d.dir
    ensures JournalTemporary !in Exec(m, d, JournalCalls(existed)).dir
  {
    var c := Document(JournalItems(existed));
    var w, x, y := Create(JournalTemporary), Fill(JournalTemporary, c), Replace(JournalTemporary, Journal);
    var d1 := Step(m, d, w);
    var d2 := Step(m, d1, x);
    var d3 := Step(m, d2, y);
    assert JournalTemporary !in d3.dir;
    hide Step;
    assert JournalCalls(existed) == [w] + ([x] + ([y] + ([Sync] + [])));
    ExecCons(m, d, w, [x] + ([y] + ([Sync] + [])));
    ExecCons(m, d1, x, [y] + ([Sync] + []));
    ExecCons(m, d2, y, [Sync] + []);
    ExecCons(m, d3, Sync, []);
    ExecNil(m, Step(m, d3, Sync));
    SyncStep(m, d3);
  }

  /** The try block of a first publication leaves no debris. */
  lemma FirstAttemptLeavesNoDebris(m: Medium, d: Disk, g: Generation)
    requires Ready(d, g) && DebrisFree(d, |g.before|) && NoneExisted(g)
    ensures !SomeDebris(Exec(m, d, Attempt(m, Existing(g))), |g.before|)
  {
    var n, x := |g.before|, Existing(g);
    var h := Exec(m, d, Attempt(m, x));
    assert JournalTemporary in Debris(n);
    assert Possible(d, Journal, Look(d.dir, Journal));
    AttemptInParts(m, d, g);
    JournalIsRenamed(m, d.(stale := {}), x);
    ReplacementsMention(n, JournalTemporary);
    Unmentioned(m, Exec(m, d.(stale := {}), JournalCalls(x)), Replacements(n), JournalTemporary);
    hide Exec, Attempt, JournalCalls;
    forall y | y in Debris(n) ensures y !in h.dir {
      if y != JournalTemporary {
        AttemptMentions(m, g, y);
        Unmentioned(m, d, Attempt(m, x), y);
      }
    }
  }

  lemma CommitBegins(m: Medium, d: Disk, g: Generation)
    requires Ready(d, g)
    ensures var h := Exec(m, Exec(m, d, Cleanup(|g.before|)), Attempt(m, Existing(g)));
            && Rolling(h, g, |g.before|)
            && CommitIndex(m, g) + 1 <= |Publish(m, Existing(g))|
            && Exec(m, d, Publish(m, Existing(g))[..CommitIndex(m, g) + 1]) == Step(m, h, Unlink(Journal))
  {
    assert Legal(g);
    hide Exec, Step, Rolling, Ready, Cleanup, Attempt;
    var n, x := |g.before|, Existing(g);
    var c, a := Cleanup(n), Attempt(m, x);
    AttemptEnds(m, d, g);
    ExecAppend(m, d, c, a);
    var h := Exec(m, d, c + a);
    assert Publish(m, x)[..|c + a| + 1] == (c + a) + ([Unlink(Journal)] + []);
    ExecAppend(m, d, c + a, [Unlink(Journal)] + []);
    ExecCons(m, h, Unlink(Journal), []);
    ExecNil(m, Step(m, h, Unlink(Journal)));
  }

  /** A first publication killed between unlinking the journal and the synchronisation leaves
      such a disk, although a recovery alone would survive on it. */
  lemma KilledAtFirstCommitIsHaunted(m: Medium, d: Disk, g: Generation)
    requires Ready(d, g) && m.lossy && NoneExisted(g) && |g.before| > 0
    ensures var k := CommitIndex(m, g) + 1;
            k <= |Publish(m, Existing(g))| &&
            var e := Restart(Exec(m, d, Publish(m, Existing(g))[..k]));
            RestartSafe(e, g) && Haunted(e, g) && !StartSafe(e, g)
  {
    assert Legal(g);
    hide Exec, Step, Rolling, Ready, Cleanup, Attempt, Publish, Always;
    var n := |g.before|;
    var e := Exec(m, d, Cleanup(n));
    CleanupLeavesReady(m, d, g);
    FirstAttemptLeavesNoDebris(m, e, g);
    CommitBegins(m, d, g);
    UnlinkedIsHaunted(m, Exec(m, e, Attempt(m, Existing(g))), g);
  }

  lemma UnlinkedIsHaunted(m: Medium, h: Disk, g: Generation)
    requires Legal(g) && m.lossy && NoneExisted(g) && |g.before| > 0 && Rolling(h, g, |g.before|) && !SomeDebris(h, |g.before|)
    ensures Haunted(Restart(Step(m, h, Unlink(Journal))), g)
  {
    var r := Restart(Step(m, h, Unlink(Journal)));
    assert Possible(r, Journal, Some(h.dir[Journal]));
    assert Look(r.dir, Target(0)) == Look(h.dir, Target(0));
    assert NewAt(g, 0, Look(h.dir, Target(0))) && !Existed(g, 0);
    assert Possible(r, Target(0), Look(r.dir, Target(0))) && !OldAt(g, 0, Look(r.dir, Target(0)));
    forall x | x in Debris(|g.before|) ensures x !in r.dir {
      assert x !in h.dir;
    }
  }
}
