/** One start of the program after another: each recovers what the last one left and then
    publishes a further generation, and each may be stopped anywhere. */
module Generations {
  import opened Wrappers
  import opened Filesystem
  import opened Publication
  import opened PublicationSafety
  import opened Recovering
  import opened CrashSafety

  ghost predicate SomeDebris(d: Disk, n: nat) {
    exists x :: x in Debris(n) && x in d.dir
  }

  /** A start on `d` synchronises whatever its recovery, and the publication that follows,
      rely on before they rely on it. */
  ghost predicate StartSafe(d: Disk, g: Generation)
    requires Legal(g)
  {
    if Journal in d.dir then !NoneExisted(g) || SomeTargetPresent(d, g) || AllOld(d, g)
    else JournalGone(d) || (NoneExisted(g) && (AllOld(d, g) || SomeDebris(d, |g.before|)))
  }

  // ---- One start ---------------------------------------------------------------------

  /** `f` is `e` with publication temporaries made, filled or removed. */
  ghost predicate Scratched(e: Disk, f: Disk) {
    && (forall x: Name | !x.Temporary? :: Look(f.dir, x) == Look(e.dir, x) && NoNewEntry(e, f, x))
    && f.failed == e.failed && f.changed == e.changed
  }

  /** The targets on `e` are the old generation of `next`. */
  ghost predicate Follows(e: Disk, g: Generation, next: Generation)
    requires Legal(g)
  {
    Legal(next) && |next.before| == |g.before| && forall i: nat | i < |g.before| :: OldAt(next, i, Look(e.dir, Target(i)))
  }

  /** After the recovery from `d` ended well, all is prepared on `f` to publish `next`. */
  ghost predicate Prepared(m: Medium, d: Disk, g: Generation, f: Disk, next: Generation)
    requires Legal(g)
  {
    Recovery(d.dir, |g.before|).Some? &&
    var e := Exec(m, d, Recovery(d.dir, |g.before|).value);
    !e.failed && Scratched(e, f) && Follows(e, g, next) && TemporariesReady(f, next, 0)
  }

  /** After `k` of the calls, temporaries aside, the process was killed or the power failed. */
  ghost predicate StopsAt(m: Medium, d: Disk, calls: seq<Call>, k: nat, f: Disk, e: Disk) {
    k <= |calls| && Scratched(Exec(m, d, calls[..k]), f) && (e == Restart(f) || PowerLoss(f, e))
  }

  ghost predicate Stops(m: Medium, d: Disk, calls: seq<Call>, e: Disk) {
    exists k: nat, f :: StopsAt(m, d, calls, k, f, e)
  }

  /** A disk, and the generation whose publication was last begun on it. */
  datatype Stage = Stage(disk: Disk, generation: Generation)

  /** The program was started on `s` and stopped on `t`: while it recovered or prepared, or
      while it published a further generation. */
  ghost predicate NextStage(m: Medium, s: Stage, t: Stage)
    requires Legal(s.generation)
  {
    var calls := Recovery(s.disk.dir, |s.generation.before|);
    if calls == None then t == s
    else
      || (t.generation == s.generation && Stops(m, s.disk, calls.value, t.disk))
      || (exists f :: Prepared(m, s.disk, s.generation, f, t.generation) &&
            Stops(m, f, Publish(m, Existing(t.generation)), t.disk))
  }

  /** No journal can appear, and the targets are one generation. */
  ghost predicate Begins(s: Stage) {
    Legal(s.generation) && !s.disk.failed && !s.disk.changed && JournalGone(s.disk) && AllOld(s.disk, s.generation)
  }

  ghost predicate Stages(m: Medium, stages: seq<Stage>) {
    && |stages| > 0 && Begins(stages[0])
    && (forall j | 0 <= j < |stages| :: Legal(stages[j].generation))
    && (forall j | 0 < j < |stages| :: NextStage(m, stages[j - 1], stages[j]))
  }

  // ---- What a recovery leaves to the publication ---------------------------------------

  lemma StartSafeIsRestartSafe(d: Disk, g: Generation)
    requires Legal(g) && StartSafe(d, g)
    ensures RestartSafe(d, g)
  {
  }

  lemma {:induction false} RemovalsChange(m: Medium, d: Disk, names: seq<Name>)
    requires !d.failed
    ensures var e := Exec(m, d, Removals(names));
            && !e.failed && (e.changed <==> d.changed || exists x :: x in names && x in d.dir)
            && ((forall x | x in names :: x !in d.dir) ==> e == d)
    decreases |names|
  {
    if names != [] {
      var e := Step(m, d, Remove(names[0]));
      assert Removals(names)[0] == Remove(names[0]) && Removals(names)[1..] == Removals(names[1..]);
      RemovalsChange(m, e, names[1..]);
      assert names[0] in names && forall x :: x in names <==> x == names[0] || x in names[1..];
    }
  }

  /** A cleanup synchronises exactly if it has found something to remove. */
  lemma CleanupSynchronises(m: Medium, d: Disk, n: nat)
    requires !d.failed && !d.changed
    ensures var e := Exec(m, d, Cleanup(n)); !e.failed && !e.changed && if SomeDebris(d, n) then e.stale == {} else e == d
  {
    var e := Exec(m, d, Removals(Debris(n)));
    RemovalsChange(m, d, Debris(n));
    ExecAppend(m, d, Removals(Debris(n)), [SyncIfChanged]);
    assert [SyncIfChanged] == [SyncIfChanged] + [];
    ExecCons(m, e, SyncIfChanged, []);
    ExecNil(m, Step(m, e, SyncIfChanged));
  }

  /** Where a publication may begin: on a disk that is ready, or on one where at most the
      journal of an earlier first publication could come back, to missing targets. */
  ghost predicate Opening(f: Disk, g: Generation) {
    Ready(f, g) || Retrying(f, g)
  }

  ghost predicate Retrying(f: Disk, g: Generation) {
    && Legal(g) && !f.failed && !f.changed && Journal !in f.dir
    && NoneExisted(g) && AllOld(f, g) && BackupsHoldOld(f, g) && JournalOrNothing(f, g)
    && !SomeDebris(f, |g.before|) && TemporariesReady(f, g, 0)
  }

  /** A recovery that ends well leaves nothing behind that could come back unnoticed. */
  lemma RecoveryLeavesOpening(m: Medium, d: Disk, g: Generation)
    requires Legal(g) && Recoverable(d, g) && StartSafe(d, g) && !d.failed && !d.changed
    requires Recovery(d.dir, |g.before|).Some?
    ensures var e := Exec(m, d, Recovery(d.dir, |g.before|).value);
            !e.failed ==> Whole(e, g) && (JournalGone(e) || (e == d && Journal !in d.dir && NoneExisted(g) && AllOld(d, g) && !SomeDebris(d, |g.before|)))
  {
    hide Recoverable, Always;
    StartSafeIsRestartSafe(d, g);
    RecoveryIsSafe(m, d, g);
    if Journal !in d.dir && !JournalGone(d) {
      CleanupSynchronises(m, d, |g.before|);
      var e := Exec(m, d, Cleanup(|g.before|));
      if SomeDebris(d, |g.before|) {
        assert Look(e.dir, Journal) == None;
      }
    }
  }

  lemma VersionIsOld(e: Disk, f: Disk, g: Generation, next: Generation)
    requires Legal(g) && Whole(e, g) && Scratched(e, f) && Follows(e, g, next)
    ensures AllOld(f, next)
  {
    forall i: nat, v | i < |g.before| && Possible(f, Target(i), v) ensures OldAt(next, i, v) {
      assert NoNewEntry(e, f, Target(i));
      assert Possible(e, Target(i), v) && Possible(e, Target(i), Look(e.dir, Target(i)));
    }
  }

  /** So the next generation can be opened. */
  lemma PreparedIsOpening(m: Medium, d: Disk, g: Generation, f: Disk, next: Generation)
    requires Legal(g) && Recoverable(d, g) && StartSafe(d, g) && !d.failed && !d.changed
    requires Prepared(m, d, g, f, next)
    ensures Opening(f, next)
  {
    var e := Exec(m, d, Recovery(d.dir, |g.before|).value);
    RecoveryLeavesOpening(m, d, g);
    VersionIsOld(e, f, g, next);
    assert NoNewEntry(e, f, Journal);
    if !JournalGone(e) {
      RetryingNext(e, f, g, next);
    }
  }

  lemma RetryingNext(d: Disk, f: Disk, g: Generation, next: Generation)
    requires Legal(g) && Recoverable(d, g) && !d.failed && !d.changed && !JournalGone(d) && Journal !in d.dir
    requires NoneExisted(g) && AllOld(d, g) && !SomeDebris(d, |g.before|)
    requires Scratched(d, f) && Follows(d, g, next) && AllOld(f, next) && TemporariesReady(f, next, 0)
    ensures Retrying(f, next)
  {
    assert BackupsHoldOld(d, g) && JournalOrNothing(d, g) by {
      assert Possible(d, Journal, None);
    }
    hide Recoverable;
    forall i: nat | i < |g.before| ensures !Existed(g, i) && !Existed(next, i) {
      assert Possible(d, Target(i), Look(d.dir, Target(i)));
      assert OldAt(g, i, Look(d.dir, Target(i))) && OldAt(next, i, Look(d.dir, Target(i)));
    }
    forall i | 0 <= i < |g.before| ensures Existing(g)[i] == Existing(next)[i] {
      assert !Existed(g, i) && !Existed(next, i);
    }
    assert Existing(g) == Existing(next);
    assert NoNewEntry(d, f, Journal) && Look(f.dir, Journal) == Look(d.dir, Journal);
    forall i: nat, v | i < |g.before| && Possible(f, Backup(i), v) ensures OldAt(next, i, v) {
      assert NoNewEntry(d, f, Backup(i)) && !Existed(g, i) && !Existed(next, i);
      assert Possible(d, Backup(i), v);
      assert OldAt(g, i, v);
    }
    forall x | x in Debris(|g.before|) ensures x !in f.dir {
      assert !x.Temporary? && Look(f.dir, x) == Look(d.dir, x);
    }
  }

  // ---- Publishing from there ----------------------------------------------------------------

  lemma {:induction false} AlwaysSuffix(m: Medium, d: Disk, p: seq<Call>, q: seq<Call>, g: Generation, ph: Phase)
    requires Legal(g) && Always(m, d, p + q, g, ph)
    ensures Always(m, Exec(m, d, p), q, g, ph)
    decreases |p|
  {
    if p == [] {
      assert p + q == q;
    } else {
      assert (p + q)[0] == p[0] && (p + q)[1..] == p[1..] + q;
      AlwaysSuffix(m, Step(m, d, p[0]), p[1..], q, g, ph);
    }
  }

  lemma {:induction false} NoBackups(m: Medium, g: Generation, k: nat)
    requires NoneExisted(g) && k <= |g.before|
    ensures Backups(m, Existing(g), k) == []
  {
    if k > 0 {
      NoBackups(m, g, k - 1);
      assert !Existed(g, k - 1);
    }
  }

  /** Cleaning up where nothing is to be removed does nothing at any step. */
  lemma {:induction false} IdleRemovals(m: Medium, d: Disk, names: seq<Name>, g: Generation, ph: Phase)
    requires Legal(g) && Good(d, g, ph) && !d.failed && !d.changed && forall x | x in names :: x !in d.dir
    ensures Always(m, d, Removals(names) + [SyncIfChanged], g, ph)
    decreases |names|
  {
    var calls := Removals(names) + [SyncIfChanged];
    if names == [] {
      assert calls == [SyncIfChanged];
    } else {
      assert names[0] in names;
      assert calls[0] == Remove(names[0]) && calls[1..] == Removals(names[1..]) + [SyncIfChanged];
      IdleRemovals(m, d, names[1..], g, ph);
    }
  }

  /** The calls of a publication after its first synchronisation, if there was nothing to back up. */
  function Tail(m: Medium, existed: seq<bool>): seq<Call> {
    JournalCalls(existed) + Replacements(|existed|) + Commit(|existed|)
  }

  lemma FirstPublication(m: Medium, g: Generation)
    requires NoneExisted(g)
    ensures Publish(m, Existing(g)) == Cleanup(|g.before|) + ([Sync] + Tail(m, Existing(g)))
  {
    NoBackups(m, g, |g.before|);
  }

  lemma SynchronisedIsReady(f: Disk, g: Generation)
    requires Retrying(f, g)
    ensures Ready(f.(stale := {}), g) && Good(f, g, Ending)
  {
    var e := f.(stale := {});
    forall i: nat, v | i < |g.before| && Possible(e, Target(i), v) ensures OldAt(g, i, v) {
      assert Possible(f, Target(i), v);
    }
  }

  /** Wherever a publication may begin, it passes through recoverable disks only. */
  lemma OpeningIsSafe(m: Medium, f: Disk, g: Generation)
    requires Opening(f, g)
    ensures Always(m, f, Publish(m, Existing(g)), g, Ending)
  {
    if Ready(f, g) {
      PublishIsSafe(m, f, g);
    } else {
      hide Always, Exec, Good, Cleanup, Tail;
      RetryingIsSafe(m, f, g);
    }
  }

  lemma RetryingIsSafe(m: Medium, f: Disk, g: Generation)
    requires Retrying(f, g)
    ensures Always(m, f, Publish(m, Existing(g)), g, Ending)
  {
    assert Legal(g) && !f.failed && !f.changed && NoneExisted(g) && !SomeDebris(f, |g.before|);
    hide Always, Exec, Good, Tail, Retrying, Publish, Ready, Cleanup;
    var n, e := |g.before|, f.(stale := {});
    SynchronisedIsReady(f, g);
    FirstPublication(m, g);
    PublishIsSafe(m, e, g);
    IdleThenSafe(m, f, g, Tail(m, Existing(g)));
  }

  lemma IdleThenSafe(m: Medium, f: Disk, g: Generation, q: seq<Call>)
    requires Legal(g) && !f.failed && !f.changed && !SomeDebris(f, |g.before|) && Good(f, g, Ending)
    requires Always(m, f.(stale := {}), Cleanup(|g.before|) + ([Sync] + q), g, Ending)
    ensures Always(m, f, Cleanup(|g.before|) + ([Sync] + q), g, Ending)
  {
    hide Always, Exec, Good, Step;
    var p, e := Cleanup(|g.before|), f.(stale := {});
    assert p + ([Sync] + q) == (p + [Sync]) + q;
    AlwaysSuffix(m, e, p + [Sync], q, g, Ending);
    IdleSync(m, f, |g.before|);
    IdleSync(m, e, |g.before|);
    IdleRemovals(m, f, Debris(|g.before|), g, Ending);
    OneStep(m, f, Sync, q, g, Ending);
    AlwaysAppend(m, f, p, [Sync] + q, g, Ending);
  }

  lemma IdleSync(m: Medium, d: Disk, n: nat)
    requires !d.failed && !d.changed && !SomeDebris(d, n)
    ensures Exec(m, d, Cleanup(n)) == d && Exec(m, d, Cleanup(n) + [Sync]) == d.(stale := {}) == Step(m, d, Sync)
  {
    CleanupSynchronises(m, d, n);
    ExecAppend(m, d, Cleanup(n), [Sync]);
    assert [Sync] == [Sync] + [];
    ExecCons(m, d, Sync, []);
    ExecNil(m, Step(m, d, Sync));
  }

  // ---- Any number of generations ---------------------------------------------------------------

  lemma ScratchedIsRecoverable(e: Disk, f: Disk, g: Generation)
    requires Legal(g) && Recoverable(e, g) && Scratched(e, f)
    ensures Recoverable(f, g)
  {
    assert Look(f.dir, Journal) == Look(e.dir, Journal);
    forall x | Protected(x) ensures NoNewEntry(e, f, x) {
    }
    Shrink(e, f, g);
  }

  lemma StoppingKeepsRecoverable(m: Medium, d: Disk, calls: seq<Call>, e: Disk, g: Generation)
    requires Legal(g) && Always(m, d, calls, g, Ending) && Stops(m, d, calls, e)
    ensures Recoverable(e, g) && !e.failed && !e.changed
  {
    hide Always, Exec;
    var k: nat, f :| StopsAt(m, d, calls, k, f, e);
    AlwaysPrefix(m, d, calls, g, Ending, k);
    ScratchedIsRecoverable(Exec(m, d, calls[..k]), f, g);
    if PowerLoss(f, e) {
      PowerLossKeepsRecoverable(f, e, g);
    } else {
      assert forall x :: NoNewEntry(f, e, x);
      Shrink(f, e, g);
    }
  }

  lemma BeginningIsRecoverable(s: Stage)
    requires Begins(s)
    ensures Recoverable(s.disk, s.generation) && StartSafe(s.disk, s.generation)
  {
    assert Possible(s.disk, Journal, Look(s.disk.dir, Journal));
  }

  lemma StageKeepsRecoverable(m: Medium, s: Stage, t: Stage)
    requires Legal(s.generation) && Legal(t.generation) && NextStage(m, s, t)
    requires Recoverable(s.disk, s.generation) && StartSafe(s.disk, s.generation) && !s.disk.failed && !s.disk.changed
    ensures Recoverable(t.disk, t.generation) && !t.disk.failed && !t.disk.changed
  {
    hide Recoverable, StartSafe, Stops, Prepared, Opening, Always, Publish;
    var d, g := s.disk, s.generation;
    StartSafeIsRestartSafe(d, g);
    RecoveryIsSafe(m, d, g);
    var calls := Recovery(d.dir, |g.before|).value;
    if t.generation == g && Stops(m, d, calls, t.disk) {
      StoppingKeepsRecoverable(m, d, calls, t.disk, g);
    } else {
      var f :| Prepared(m, d, g, f, t.generation) && Stops(m, f, Publish(m, Existing(t.generation)), t.disk);
      PreparedIsOpening(m, d, g, f, t.generation);
      OpeningIsSafe(m, f, t.generation);
      StoppingKeepsRecoverable(m, f, Publish(m, Existing(t.generation)), t.disk, t.generation);
    }
  }

  /** However many starts there were, and wherever each was stopped, the next can recover. */
  lemma {:induction false} StagesKeepRecoverable(m: Medium, stages: seq<Stage>)
    requires Stages(m, stages)
    requires forall j | 0 <= j < |stages| - 1 :: StartSafe(stages[j].disk, stages[j].generation)
    ensures var s := stages[|stages| - 1]; Recoverable(s.disk, s.generation) && !s.disk.failed && !s.disk.changed
    decreases |stages|
  {
    hide Recoverable, StartSafe, NextStage;
    var n := |stages| - 1;
    if n == 0 {
      BeginningIsRecoverable(stages[0]);
    } else {
      var earlier := stages[..n];
      assert forall j | 0 <= j < n :: earlier[j] == stages[j];
      StagesKeepRecoverable(m, earlier);
      assert NextStage(m, stages[n - 1], stages[n]);
      StageKeepsRecoverable(m, earlier[n - 1], stages[n]);
    }
  }

  // ---- Which generation is left ------------------------------------------------------------------

  function Held(after: seq<Content>): (version: seq<Option<Content>>)
    ensures |version| == |after|
  {
    seq(|after|, i requires 0 <= i < |after| => Some(after[i]))
  }

  /** What the targets held at first, or what one of the starts set out to publish. */
  ghost predicate Known(stages: seq<Stage>, version: seq<Option<Content>>)
    requires |stages| > 0
  {
    version == stages[0].generation.before || exists j :: 0 <= j < |stages| && version == Held(stages[j].generation.after)
  }

  /** The targets hold the version, whatever the next power loss does. */
  ghost predicate Holds(e: Disk, version: seq<Option<Content>>) {
    forall i: nat, v | i < |version| && Possible(e, Target(i), v) ::
      match version[i] case None => v.None? case Some(c) => v.Some? && v.value.content == c
  }

  lemma WholeHolds(e: Disk, g: Generation)
    requires Legal(g)
    ensures AllOld(e, g) <==> Holds(e, g.before)
    ensures AllNew(e, g) <==> Holds(e, Held(g.after))
  {
    if Holds(e, Held(g.after)) {
      forall i: nat, v | i < |g.before| && Possible(e, Target(i), v) ensures NewAt(g, i, v) {
        assert Held(g.after)[i] == Some(g.after[i]);
      }
    }
  }

  lemma VersionIsHeld(e: Disk, g: Generation, next: Generation)
    requires Legal(g) && Whole(e, g) && Follows(e, g, next)
    ensures next.before == g.before || next.before == Held(g.after)
  {
    forall i: nat | i < |g.before| ensures OldAt(next, i, Look(e.dir, Target(i))) && Possible(e, Target(i), Look(e.dir, Target(i))) {
    }
    if AllOld(e, g) {
      forall i: nat | i < |g.before| ensures next.before[i] == g.before[i] {
        assert OldAt(g, i, Look(e.dir, Target(i)));
      }
      assert next.before == g.before;
    } else {
      forall i: nat | i < |g.before| ensures next.before[i] == Held(g.after)[i] {
        assert NewAt(g, i, Look(e.dir, Target(i)));
      }
      assert next.before == Held(g.after);
    }
  }

  /** Each start that publishes builds on what an earlier one left. */
  lemma {:induction false} OldIsKnown(m: Medium, stages: seq<Stage>, n: nat)
    requires Stages(m, stages) && n < |stages|
    requires forall j | 0 <= j < n :: StartSafe(stages[j].disk, stages[j].generation)
    ensures Known(stages, stages[n].generation.before)
    decreases n
  {
    hide Recoverable, StartSafe, Begins, Held, NextStage;
    if n > 0 {
      OldIsKnown(m, stages, n - 1);
      StagesSoFar(m, stages, n - 1);
      assert NextStage(m, stages[n - 1], stages[n]);
      OldIsNext(m, stages[n - 1], stages[n]);
    }
  }

  lemma StagesSoFar(m: Medium, stages: seq<Stage>, n: nat)
    requires Stages(m, stages) && n < |stages|
    requires forall j | 0 <= j < n :: StartSafe(stages[j].disk, stages[j].generation)
    ensures var s := stages[n]; Recoverable(s.disk, s.generation) && !s.disk.failed && !s.disk.changed
  {
    hide Recoverable, StartSafe, Begins, NextStage;
    var earlier := stages[..n + 1];
    assert forall j | 0 <= j <= n :: earlier[j] == stages[j];
    StagesKeepRecoverable(m, earlier);
  }

  lemma OldIsNext(m: Medium, s: Stage, t: Stage)
    requires Legal(s.generation) && Legal(t.generation) && NextStage(m, s, t)
    requires Recoverable(s.disk, s.generation) && StartSafe(s.disk, s.generation) && !s.disk.failed && !s.disk.changed
    ensures t.generation.before == s.generation.before || t.generation.before == Held(s.generation.after)
  {
    hide Recoverable, StartSafe, Stops, Held, Always;
    var d, g := s.disk, s.generation;
    StartSafeIsRestartSafe(d, g);
    RecoveryIsSafe(m, d, g);
    if t.generation != g {
      var f :| Prepared(m, d, g, f, t.generation);
      VersionIsHeld(Exec(m, d, Recovery(d.dir, |g.before|).value), g, t.generation);
    }
  }

  /** Atomicity over generations.  However many starts recovered and published further
      generations, wherever each of them was stopped, if each was safe then one complete
      recovery leaves all targets of one and the same generation: the first one found, or one
      that some start set out to publish.  It fails exactly if a journal is left and a backup
      that it needs cannot be hard-linked. */
  lemma GenerationsAreAtomic(m: Medium, stages: seq<Stage>)
    requires Stages(m, stages)
    requires forall j | 0 <= j < |stages| :: StartSafe(stages[j].disk, stages[j].generation)
    ensures var s := stages[|stages| - 1];
            var n := |s.generation.before|;
            var r := Recovery(s.disk.dir, n);
            && r.Some?
            && var e := Exec(m, s.disk, r.value);
            && (e.failed <==> Journal in s.disk.dir && !BackupsLinkable(m, s.generation))
            && (!e.failed ==> Journal !in e.dir && DebrisFree(e, n))
            && (!e.failed ==> exists version :: |version| == n && Known(stages, version) && Holds(e, version))
  {
    hide Recoverable, StartSafe, NextStage, Begins, Always, Held, Holds;
    var s := stages[|stages| - 1];
    StagesKeepRecoverable(m, stages);
    StartSafeIsRestartSafe(s.disk, s.generation);
    RecoveryIsSafe(m, s.disk, s.generation);
    OldIsKnown(m, stages, |stages| - 1);
    var e := Exec(m, s.disk, Recovery(s.disk.dir, |s.generation.before|).value);
    WholeHolds(e, s.generation);
    assert Known(stages, Held(s.generation.after)) && |Held(s.generation.after)| == |s.generation.after|;
  }

  /** Where every stop leaves nothing unsynchronised, as a power failure does, every start is safe. */
  lemma {:induction false} SynchronisedStagesAreSafe(m: Medium, stages: seq<Stage>, n: nat)
    requires Stages(m, stages) && n <= |stages|
    requires forall j | 0 <= j < n :: stages[j].disk.stale == {}
    ensures forall j | 0 <= j < n :: StartSafe(stages[j].disk, stages[j].generation)
    decreases n
  {
    hide Begins, NextStage;
    if n > 0 {
      SynchronisedStagesAreSafe(m, stages, n - 1);
      StagesSoFar(m, stages, n - 1);
      assert StartSafe(stages[n - 1].disk, stages[n - 1].generation);
    }
  }
}
