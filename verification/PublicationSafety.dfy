/** Every disk that publishing and recovering pass through is recoverable. */
module PublicationSafety {
  import opened Wrappers
  import opened Filesystem
  import opened Publication

  /** The names whose entries decide whether a disk is recoverable. */
  predicate Protected(x: Name) {
    x.Target? || x.Backup? || x.Journal?
  }

  /** `e` admits nothing at `x` that `d` did not. */
  ghost predicate NoNewEntry(d: Disk, e: Disk, x: Name) {
    forall v | Possible(e, x, v) :: Possible(d, x, v)
  }

  lemma Shrink(d: Disk, e: Disk, g: Generation)
    requires Legal(g) && Recoverable(d, g)
    requires forall x | Protected(x) :: NoNewEntry(d, e, x)
    requires Journal in e.dir <==> Journal in d.dir
    ensures Recoverable(e, g)
    ensures AllOld(d, g) ==> AllOld(e, g)
    ensures AllNew(d, g) ==> AllNew(e, g)
    ensures JournalGone(d) ==> JournalGone(e)
    ensures JournalSure(d) ==> JournalSure(e)
    ensures BackupsHoldOld(d, g) ==> BackupsHoldOld(e, g)
  {
    assert NoNewEntry(d, e, Journal);
    assert forall i: nat :: NoNewEntry(d, e, Target(i)) && NoNewEntry(d, e, Backup(i));
  }

  lemma PutEntries(m: Medium, d: Disk, x: Name, v: Option<File>)
    ensures var e := Put(m, d, x, v);
            && Look(e.dir, x) == v
            && (forall y | y != x :: Look(e.dir, y) == Look(d.dir, y))
            && (forall y, w :: Possible(e, y, w) ==> Possible(d, y, w) || (y == x && w == v))
  {
  }

  /** Losing power leaves a recoverable disk recoverable. */
  lemma PowerLossKeepsRecoverable(d: Disk, e: Disk, g: Generation)
    requires Legal(g) && Recoverable(d, g) && PowerLoss(d, e)
    ensures Recoverable(e, g)
  {
    assert forall x :: NoNewEntry(d, e, x) && Possible(d, x, Look(e.dir, x));
    assert NoNewEntry(d, e, Journal);
    assert forall i: nat :: NoNewEntry(d, e, Target(i)) && NoNewEntry(d, e, Backup(i));
  }

  // ---- Removing debris ---------------------------------------------------------------

  ghost predicate NoneExisted(g: Generation) {
    forall i: nat | i < |g.before| :: !Existed(g, i)
  }

  /** No journal is visible, and none that could come back would need a backup. */
  ghost predicate Calm(d: Disk, g: Generation)
    requires Legal(g)
  {
    && Journal !in d.dir && JournalOrNothing(d, g)
    && (AllOld(d, g) || AllNew(d, g))
    && (JournalGone(d) || (NoneExisted(g) && BackupsHoldOld(d, g)))
  }

  ghost predicate OnlyDebris(g: Generation, names: seq<Name>) {
    forall x | x in names ::
      x == JournalTemporary || ((x.Backup? || x.BackupCopy? || x.Restoring?) && x.index < |g.before|)
  }

  /** `e` is `d` with `names` gone and nothing else touched. */
  ghost predicate Without(d: Disk, e: Disk, names: seq<Name>) {
    && (forall x :: Look(e.dir, x) == if x in names then None else Look(d.dir, x))
    && (forall x | x !in names :: NoNewEntry(d, e, x))
    && e.failed == d.failed
  }

  lemma {:induction false} RemovalsAreSafe(m: Medium, d: Disk, names: seq<Name>, g: Generation, ph: Phase)
    requires Legal(g) && Calm(d, g) && OnlyDebris(g, names) && !d.failed
    requires ph.Attempting? ==> JournalGone(d) && AllOld(d, g)
    ensures Always(m, d, Removals(names), g, ph)
    ensures var e := Exec(m, d, Removals(names)); Calm(e, g) && Without(d, e, names)
    decreases |names|
  {
    if names != [] {
      var x := names[0];
      var e := Step(m, d, Remove(x));
      assert x in names;
      PutEntries(m, d, x, None);
      assert forall y | y != x :: NoNewEntry(d, e, y);
      assert NoNewEntry(d, e, Journal);
      assert forall i: nat :: NoNewEntry(d, e, Target(i));
      if BackupsHoldOld(d, g) && NoneExisted(g) {
        forall i: nat, v | i < |g.before| && Possible(e, Backup(i), v) ensures OldAt(g, i, v) {
          assert !Existed(g, i);
        }
      }
      assert Removals(names)[0] == Remove(x) && Removals(names)[1..] == Removals(names[1..]);
      RemovalsAreSafe(m, e, names[1..], g, ph);
      var f := Exec(m, e, Removals(names[1..]));
      assert f == Exec(m, d, Removals(names));
      forall y | y !in names ensures NoNewEntry(d, f, y) {
        assert NoNewEntry(e, f, y) && NoNewEntry(d, e, y);
      }
    }
  }

  lemma CleanupIsSafe(m: Medium, d: Disk, g: Generation, ph: Phase)
    requires Legal(g) && Calm(d, g) && !d.failed
    requires ph.Attempting? ==> JournalGone(d) && AllOld(d, g)
    ensures Always(m, d, Cleanup(|g.before|), g, ph)
    ensures var e := Exec(m, d, Cleanup(|g.before|)); Calm(e, g) && Without(d, e, Debris(|g.before|))
    ensures AllOld(d, g) ==> AllOld(Exec(m, d, Cleanup(|g.before|)), g)
    ensures AllNew(d, g) ==> AllNew(Exec(m, d, Cleanup(|g.before|)), g)
    ensures JournalGone(d) ==> JournalGone(Exec(m, d, Cleanup(|g.before|)))
  {
    hide Recoverable, GoingForward, Calm, Removals;
    var n := |g.before|;
    var names := Debris(n);
    RemovalsAreSafe(m, d, names, g, ph);
    var e := Exec(m, d, Removals(names));
    var f := Step(m, e, SyncIfChanged);
    SyncShrinks(m, e, SyncIfChanged);
    SyncKeepsCalm(e, f, g, ph);
    assert Without(d, f, names) by {
      forall x | x !in names ensures NoNewEntry(d, f, x) {
        NoNewEntryTrans(d, e, f, x);
      }
    }
    ProtectedSurvive(d, f, g);
    hide Step;
    ExecAppend(m, d, Removals(names), [SyncIfChanged]);
    ExecCons(m, e, SyncIfChanged, []);
    assert [SyncIfChanged] + [] == [SyncIfChanged];
    assert Always(m, f, [], g, ph);
    OneStep(m, e, SyncIfChanged, [], g, ph);
    AlwaysAppend(m, d, Removals(names), [SyncIfChanged], g, ph);
  }

  lemma SyncKeepsCalm(d: Disk, e: Disk, g: Generation, ph: Phase)
    requires Legal(g) && Calm(d, g) && e.dir == d.dir && forall x :: NoNewEntry(d, e, x)
    requires ph.Attempting? ==> JournalGone(d) && AllOld(d, g)
    ensures Calm(e, g) && Good(d, g, ph) && Good(e, g, ph)
  {
    ProtectedSurvive(d, e, g);
    assert forall i: nat :: NoNewEntry(d, e, Backup(i));
  }

  lemma SyncShrinks(m: Medium, d: Disk, c: Call)
    requires c.Sync? || c.SyncIfChanged?
    ensures var e := Step(m, d, c);
            e.dir == d.dir && e.failed == d.failed && forall x :: NoNewEntry(d, e, x)
  {
  }

  lemma NoNewEntryTrans(d: Disk, e: Disk, f: Disk, x: Name)
    requires NoNewEntry(d, e, x) && NoNewEntry(e, f, x)
    ensures NoNewEntry(d, f, x)
  {
  }

  /** Facts about targets and journal survive when those names gain no entry. */
  lemma ProtectedSurvive(d: Disk, e: Disk, g: Generation)
    requires Legal(g)
    requires forall x: Name | x.Target? || x.Journal? :: NoNewEntry(d, e, x)
    ensures AllOld(d, g) ==> AllOld(e, g)
    ensures AllNew(d, g) ==> AllNew(e, g)
    ensures EachOldOrNew(d, g) ==> EachOldOrNew(e, g)
    ensures JournalGone(d) ==> JournalGone(e)
    ensures JournalSure(d) ==> JournalSure(e)
    ensures JournalOrNothing(d, g) ==> JournalOrNothing(e, g)
  {
    assert NoNewEntry(d, e, Journal);
    assert forall i: nat :: NoNewEntry(d, e, Target(i));
  }

  // ---- Taking backups ----------------------------------------------------------------

  /** Only backup and backup-copy names of target `i` differ between `d` and `e`. */
  ghost predicate BacksUp(d: Disk, e: Disk, i: nat) {
    && (forall x | x != Backup(i) && x != BackupCopy(i) :: Look(e.dir, x) == Look(d.dir, x) && NoNewEntry(d, e, x))
    && e.failed == d.failed
  }

  lemma ExecCons(m: Medium, d: Disk, c: Call, rest: seq<Call>)
    ensures Exec(m, d, [c] + rest) == Exec(m, Step(m, d, c), rest)
  {
    assert ([c] + rest)[1..] == rest;
  }

  lemma OneStep(m: Medium, d: Disk, c: Call, rest: seq<Call>, g: Generation, ph: Phase)
    requires Legal(g) && Good(d, g, ph) && Always(m, Step(m, d, c), rest, g, ph)
    ensures Always(m, d, [c] + rest, g, ph)
    ensures Exec(m, d, [c] + rest) == Exec(m, Step(m, d, c), rest)
  {
    assert ([c] + rest)[1..] == rest;
  }

  lemma BackupStep(m: Medium, d: Disk, e: Disk, c: Call, g: Generation, i: nat)
    requires Legal(g) && AllOld(d, g) && JournalGone(d) && !d.failed
    requires BacksUp(d, e, i)
    requires c == Create(BackupCopy(i)) || c == Copy(Target(i), BackupCopy(i)) ||
             c == Replace(BackupCopy(i), Backup(i)) || c == Link(Target(i), Backup(i))
    requires !Step(m, e, c).failed
    ensures BacksUp(d, Step(m, e, c), i) && forall ph :: Good(e, g, ph)
  {
    hide Recoverable, GoingForward;
    var f := Step(m, e, c);
    ProtectedSurvive(d, e, g);
    forall ph ensures Good(e, g, ph) {
      IdleIsGood(e, g, ph);
    }
    forall x | x != Backup(i) && x != BackupCopy(i)
      ensures Look(f.dir, x) == Look(e.dir, x) && NoNewEntry(d, f, x)
    {
      if c.Replace? {
        PutEntries(m, e, Backup(i), Look(e.dir, BackupCopy(i)));
      }
      assert NoNewEntry(e, f, x);
      NoNewEntryTrans(d, e, f, x);
    }
  }

  lemma LinkBackupIsSafe(m: Medium, d: Disk, g: Generation, i: nat, ph: Phase)
    requires Legal(g) && AllOld(d, g) && JournalGone(d) && !d.failed && Target(i) in m.linkable
    requires i < |g.before| && Existed(g, i) && Backup(i) !in d.dir && BackupCopy(i) !in d.dir
    ensures Always(m, d, BackupCalls(m, i), g, ph)
    ensures var e := Exec(m, d, BackupCalls(m, i));
            BacksUp(d, e, i) && OldAt(g, i, Look(e.dir, Backup(i))) && BackupCopy(i) !in e.dir
  {
    assert OldAt(g, i, Look(d.dir, Target(i)));
    var link, compare := Link(Target(i), Backup(i)), Compare(Backup(i), Target(i));
    var e := Step(m, d, link);
    BackupStep(m, d, d, link, g, i);
    assert Step(m, e, compare) == e;
    ProtectedSurvive(d, e, g);
    OneStep(m, e, compare, [], g, ph);
    OneStep(m, d, link, [compare], g, ph);
    assert BackupCalls(m, i) == [link] + ([compare] + []);
  }

  /** The disks on the way of a backup by copy. */
  lemma CopySteps(m: Medium, d: Disk, i: nat) returns (d1: Disk, d2: Disk, d3: Disk)
    requires !d.failed && Target(i) in d.dir && Backup(i) !in d.dir && BackupCopy(i) !in d.dir
    ensures d1 == Step(m, d, Create(BackupCopy(i))) && !d1.failed
    ensures d2 == Step(m, d1, Copy(Target(i), BackupCopy(i))) && !d2.failed
    ensures d3 == Step(m, d2, Replace(BackupCopy(i), Backup(i))) && !d3.failed
    ensures Step(m, d3, Compare(Backup(i), Target(i))) == d3
    ensures Backup(i) in d3.dir && d3.dir[Backup(i)].content == d.dir[Target(i)].content && BackupCopy(i) !in d3.dir
  {
    d1 := Step(m, d, Create(BackupCopy(i)));
    d2 := Step(m, d1, Copy(Target(i), BackupCopy(i)));
    d3 := Step(m, d2, Replace(BackupCopy(i), Backup(i)));
  }

  lemma CopyBackupIsSafe(m: Medium, d: Disk, g: Generation, i: nat, ph: Phase)
    requires Legal(g) && AllOld(d, g) && JournalGone(d) && !d.failed && Target(i) !in m.linkable
    requires i < |g.before| && Existed(g, i) && Backup(i) !in d.dir && BackupCopy(i) !in d.dir
    ensures Always(m, d, BackupCalls(m, i), g, ph)
    ensures var e := Exec(m, d, BackupCalls(m, i));
            BacksUp(d, e, i) && OldAt(g, i, Look(e.dir, Backup(i))) && BackupCopy(i) !in e.dir
  {
    assert OldAt(g, i, Look(d.dir, Target(i)));
    var create, copy := Create(BackupCopy(i)), Copy(Target(i), BackupCopy(i));
    var replace, compare := Replace(BackupCopy(i), Backup(i)), Compare(Backup(i), Target(i));
    var d1, d2, d3 := CopySteps(m, d, i);
    assert BacksUp(d, d3, i) && Good(d, g, ph) && Good(d1, g, ph) && Good(d2, g, ph) && Good(d3, g, ph) by {
      BackupStep(m, d, d, create, g, i);
      BackupStep(m, d, d1, copy, g, i);
      BackupStep(m, d, d2, replace, g, i);
      ProtectedSurvive(d, d3, g);
    }
    FourSteps(m, d, create, copy, replace, compare, d1, d2, d3, d3, g, ph);
    assert BackupCalls(m, i) == [create, copy, replace, compare];
  }

  lemma FourSteps(m: Medium, d: Disk, c1: Call, c2: Call, c3: Call, c4: Call,
                  d1: Disk, d2: Disk, d3: Disk, d4: Disk, g: Generation, ph: Phase)
    requires d1 == Step(m, d, c1) && d2 == Step(m, d1, c2) && d3 == Step(m, d2, c3) && d4 == Step(m, d3, c4)
    requires Legal(g) && Good(d, g, ph)
    requires Good(d1, g, ph) && Good(d2, g, ph) && Good(d3, g, ph) && Good(d4, g, ph)
    ensures Always(m, d, [c1, c2, c3, c4], g, ph) && Exec(m, d, [c1, c2, c3, c4]) == d4
  {
    assert Always(m, d4, [], g, ph);
    OneStep(m, d3, c4, [], g, ph);
    OneStep(m, d2, c3, [c4], g, ph);
    OneStep(m, d1, c2, [c3, c4], g, ph);
    OneStep(m, d, c1, [c2, c3, c4], g, ph);
    assert [c4] + [] == [c4] && [c3] + [c4] == [c3, c4] && [c2] + [c3, c4] == [c2, c3, c4];
    assert [c1] + [c2, c3, c4] == [c1, c2, c3, c4];
  }

  lemma BackupIsSafe(m: Medium, d: Disk, g: Generation, i: nat, ph: Phase)
    requires Legal(g) && AllOld(d, g) && JournalGone(d) && !d.failed
    requires i < |g.before| && Existed(g, i) && Backup(i) !in d.dir && BackupCopy(i) !in d.dir
    ensures Always(m, d, BackupCalls(m, i), g, ph)
    ensures var e := Exec(m, d, BackupCalls(m, i));
            BacksUp(d, e, i) && OldAt(g, i, Look(e.dir, Backup(i))) && BackupCopy(i) !in e.dir
  {
    if Target(i) in m.linkable {
      LinkBackupIsSafe(m, d, g, i, ph);
    } else {
      CopyBackupIsSafe(m, d, g, i, ph);
    }
  }

  /** `e` is `d` with the first `k` targets backed up. */
  ghost predicate BackedUp(d: Disk, e: Disk, g: Generation, k: nat)
    requires Legal(g) && k <= |g.before|
  {
    && (forall x: Name | !x.Backup? && !x.BackupCopy? :: Look(e.dir, x) == Look(d.dir, x) && NoNewEntry(d, e, x))
    && (forall i: nat | i < k :: OldAt(g, i, Look(e.dir, Backup(i))))
    && (forall i: nat | k <= i < |g.before| :: Backup(i) !in e.dir)
    && (forall i: nat | i < |g.before| :: BackupCopy(i) !in e.dir)
    && e.failed == d.failed
  }

  ghost predicate DebrisFree(d: Disk, n: nat) {
    forall x | x in Debris(n) :: x !in d.dir
  }

  lemma {:induction false} BackupsAreSafe(m: Medium, d: Disk, g: Generation, k: nat, ph: Phase)
    requires Legal(g) && AllOld(d, g) && JournalGone(d) && !d.failed
    requires k <= |g.before| && DebrisFree(d, |g.before|)
    ensures Always(m, d, Backups(m, Existing(g), k), g, ph)
    ensures BackedUp(d, Exec(m, d, Backups(m, Existing(g), k)), g, k)
  {
    hide Step, Good, Always, AllOld, JournalGone, Exec, BackedUp, DebrisFree, BackupCalls;
    if k == 0 {
      NothingMore(m, d, g, ph);
      NothingBackedUp(d, g);
    } else {
      var i := k - 1;
      BackupsAreSafe(m, d, g, i, ph);
      BackupsNext(m, d, Backups(m, Existing(g), i), g, i, ph);
    }
  }

  lemma NothingBackedUp(d: Disk, g: Generation)
    requires Legal(g) && DebrisFree(d, |g.before|)
    ensures BackedUp(d, d, g, 0)
  {
    forall i: nat | i < |g.before| ensures Backup(i) !in d.dir && BackupCopy(i) !in d.dir {
      assert Backup(i) in Debris(|g.before|) && BackupCopy(i) in Debris(|g.before|);
    }
  }

  lemma NothingMore(m: Medium, d: Disk, g: Generation, ph: Phase)
    requires Legal(g) && AllOld(d, g) && JournalGone(d)
    ensures Always(m, d, [], g, ph) && Exec(m, d, []) == d
  {
  }

  lemma IdleIsGood(d: Disk, g: Generation, ph: Phase)
    requires Legal(g) && AllOld(d, g) && JournalGone(d)
    ensures Good(d, g, ph)
  {
  }

  lemma BackupsNext(m: Medium, d: Disk, p: seq<Call>, g: Generation, i: nat, ph: Phase)
    requires Legal(g) && AllOld(d, g) && JournalGone(d) && !d.failed && i < |g.before|
    requires Always(m, d, p, g, ph) && BackedUp(d, Exec(m, d, p), g, i)
    ensures var q := if Existed(g, i) then BackupCalls(m, i) else [];
            Always(m, d, p + q, g, ph) && BackedUp(d, Exec(m, d, p + q), g, i + 1)
  {
    var e := Exec(m, d, p);
    ProtectedSurvive(d, e, g);
    if Existed(g, i) {
      BackupIsSafe(m, e, g, i, ph);
      AlwaysAppend(m, d, p, BackupCalls(m, i), g, ph);
      ExecAppend(m, d, p, BackupCalls(m, i));
      BackedUpNext(d, e, Exec(m, e, BackupCalls(m, i)), g, i);
    } else {
      assert p + [] == p;
    }
  }

  lemma BackedUpNext(d: Disk, e: Disk, f: Disk, g: Generation, i: nat)
    requires Legal(g) && i < |g.before| && BackedUp(d, e, g, i) && BacksUp(e, f, i)
    requires OldAt(g, i, Look(f.dir, Backup(i))) && BackupCopy(i) !in f.dir
    ensures BackedUp(d, f, g, i + 1)
  {
    forall x: Name | !x.Backup? && !x.BackupCopy?
      ensures Look(f.dir, x) == Look(d.dir, x) && NoNewEntry(d, f, x)
    {
      NoNewEntryTrans(d, e, f, x);
    }
    forall j: nat | j < |g.before| && j != i
      ensures Look(f.dir, Backup(j)) == Look(e.dir, Backup(j))
      ensures Look(f.dir, BackupCopy(j)) == Look(e.dir, BackupCopy(j))
    {
    }
  }

  // ---- Writing the journal and replacing the targets ---------------------------------

  /** The publication temporaries from `k` on are complete and waiting. */
  ghost predicate TemporariesReady(d: Disk, g: Generation, k: nat)
    requires Legal(g)
  {
    forall i: nat | k <= i < |g.after| :: Temporary(i) in d.dir && d.dir[Temporary(i)].content == g.after[i]
  }

  /** The journal is durable, targets below `k` are new, the others old. */
  ghost predicate Rolling(d: Disk, g: Generation, k: nat)
    requires Legal(g)
  {
    && d.stale == {} && !d.failed
    && Journal in d.dir && d.dir[Journal].content == Record(g)
    && BackupsHoldOld(d, g)
    && (forall i: nat | i < |g.before| ::
          if i < k then NewAt(g, i, Look(d.dir, Target(i))) else OldAt(g, i, Look(d.dir, Target(i))))
    && TemporariesReady(d, g, k)
  }

  lemma RollingIsGood(d: Disk, g: Generation, k: nat)
    requires Legal(g) && k <= |g.before| && Rolling(d, g, k)
    ensures Good(d, g, Attempting) && Recoverable(d, g) && JournalSure(d)
    ensures k == 0 ==> AllOld(d, g)
    ensures k == |g.before| ==> AllNew(d, g)
  {
    if k > 0 {
      assert ReplacedUpTo(d, g, k - 1);
    }
  }

  /** `e` is `d` except that `b` may now also hold `f` and `a` may be gone. */
  ghost predicate Moves(d: Disk, e: Disk, a: Name, b: Name, f: File) {
    && e.failed == d.failed && Look(e.dir, b) == Some(f)
    && (forall x | x != a && x != b :: Look(e.dir, x) == Look(d.dir, x) && NoNewEntry(d, e, x))
    && (forall v | Possible(e, b, v) :: Possible(d, b, v) || v == Some(f))
  }

  lemma ReplaceMoves(m: Medium, d: Disk, a: Name, b: Name)
    requires !d.failed && a in d.dir && a != b
    ensures Moves(d, Step(m, d, Replace(a, b)), a, b, d.dir[a])
  {
  }

  lemma ReplacedIsGood(d: Disk, e: Disk, g: Generation, k: nat, f: File)
    requires Legal(g) && k < |g.before| && Rolling(d, g, k)
    requires Moves(d, e, Temporary(k), Target(k), f) && f.content == g.after[k]
    ensures Good(e, g, Attempting)
  {
    assert NoNewEntry(d, e, Journal) && Look(e.dir, Journal) == Look(d.dir, Journal);
    assert forall i: nat :: NoNewEntry(d, e, Backup(i)) && (i != k ==> NoNewEntry(d, e, Target(i)));
    assert ReplacedUpTo(e, g, k);
  }

  lemma RollsOn(d: Disk, e: Disk, g: Generation, k: nat, f: File)
    requires Legal(g) && k < |g.before| && Rolling(d, g, k)
    requires Moves(d, e, Temporary(k), Target(k), f) && f.content == g.after[k]
    ensures Rolling(e.(stale := {}), g, k + 1)
  {
    var h := e.(stale := {});
    assert Look(e.dir, Journal) == Look(d.dir, Journal);
    forall i: nat, v | i < |g.before| && Possible(h, Backup(i), v) ensures OldAt(g, i, v) {
      assert v == Look(e.dir, Backup(i)) == Look(d.dir, Backup(i)) && Possible(d, Backup(i), v);
    }
    forall i: nat | i != k
      ensures Look(e.dir, Target(i)) == Look(d.dir, Target(i))
      ensures Look(e.dir, Temporary(i)) == Look(d.dir, Temporary(i))
    {
    }
  }

  lemma ReplacementIsSafe(m: Medium, d: Disk, g: Generation, k: nat)
    requires Legal(g) && k < |g.before| && Rolling(d, g, k)
    ensures Always(m, d, [Replace(Temporary(k), Target(k)), Sync], g, Attempting)
    ensures Rolling(Exec(m, d, [Replace(Temporary(k), Target(k)), Sync]), g, k + 1)
  {
    var replace := Replace(Temporary(k), Target(k));
    var e := Step(m, d, replace);
    ReplaceMoves(m, d, Temporary(k), Target(k));
    RollingIsGood(d, g, k);
    ReplacedIsGood(d, e, g, k, d.dir[Temporary(k)]);
    RollsOn(d, e, g, k, d.dir[Temporary(k)]);
    RollingIsGood(e.(stale := {}), g, k + 1);
    TwoSteps(m, d, replace, Sync, e, e.(stale := {}), g, Attempting);
  }

  lemma TwoSteps(m: Medium, d: Disk, c1: Call, c2: Call, d1: Disk, d2: Disk, g: Generation, ph: Phase)
    requires d1 == Step(m, d, c1) && d2 == Step(m, d1, c2)
    requires Legal(g) && Good(d, g, ph) && Good(d1, g, ph) && Good(d2, g, ph)
    ensures Always(m, d, [c1, c2], g, ph) && Exec(m, d, [c1, c2]) == d2
  {
    assert Always(m, d2, [], g, ph);
    OneStep(m, d1, c2, [], g, ph);
    OneStep(m, d, c1, [c2], g, ph);
    assert [c2] + [] == [c2] && [c1] + [c2] == [c1, c2];
  }

  lemma ReplacementsNext(m: Medium, d: Disk, p: seq<Call>, g: Generation, k: nat)
    requires Legal(g) && k < |g.before| && Always(m, d, p, g, Attempting) && Rolling(Exec(m, d, p), g, k)
    ensures var q := [Replace(Temporary(k), Target(k)), Sync];
            Always(m, d, p + q, g, Attempting) && Rolling(Exec(m, d, p + q), g, k + 1)
  {
    var q := [Replace(Temporary(k), Target(k)), Sync];
    ReplacementIsSafe(m, Exec(m, d, p), g, k);
    AlwaysAppend(m, d, p, q, g, Attempting);
    ExecAppend(m, d, p, q);
  }

  lemma {:induction false} ReplacementsAreSafe(m: Medium, d: Disk, g: Generation, k: nat)
    requires Legal(g) && k <= |g.before| && Rolling(d, g, 0)
    ensures Always(m, d, Replacements(k), g, Attempting)
    ensures Rolling(Exec(m, d, Replacements(k)), g, k)
  {
    hide Step, Good;
    if k == 0 {
      RollingIsGood(d, g, 0);
    } else {
      ReplacementsAreSafe(m, d, g, k - 1);
      ReplacementsNext(m, d, Replacements(k - 1), g, k - 1);
    }
  }

  lemma JournalStep(d: Disk, e: Disk, g: Generation)
    requires Legal(g) && AllOld(d, g) && BackupsHoldOld(d, g)
    requires forall x | Protected(x) && x != Journal :: NoNewEntry(d, e, x)
    requires JournalOrNothing(e, g)
    ensures AllOld(e, g) && BackupsHoldOld(e, g)
    ensures JournalGone(e) || Journal in e.dir ==> Good(e, g, Attempting)
  {
    assert forall i: nat :: NoNewEntry(d, e, Target(i)) && NoNewEntry(d, e, Backup(i));
  }

  /** The disks on the way of writing the journal. */
  lemma JournalSteps(m: Medium, d: Disk, c: Content) returns (d1: Disk, d2: Disk, d3: Disk)
    requires !d.failed && JournalTemporary !in d.dir
    ensures d1 == Step(m, d, Create(JournalTemporary)) && !d1.failed
    ensures d2 == Step(m, d1, Fill(JournalTemporary, c)) && !d2.failed
    ensures d3 == Step(m, d2, Replace(JournalTemporary, Journal)) && !d3.failed
    ensures forall x | x != JournalTemporary ::
      Look(d1.dir, x) == Look(d2.dir, x) == Look(d.dir, x) && NoNewEntry(d, d1, x) && NoNewEntry(d, d2, x)
    ensures JournalTemporary in d2.dir && d2.dir[JournalTemporary].content == c
    ensures Moves(d2, d3, JournalTemporary, Journal, d2.dir[JournalTemporary])
  {
    d1 := Step(m, d, Create(JournalTemporary));
    d2 := Step(m, d1, Fill(JournalTemporary, c));
    d3 := Step(m, d2, Replace(JournalTemporary, Journal));
    ReplaceMoves(m, d2, JournalTemporary, Journal);
  }

  lemma JournalArms(d: Disk, d3: Disk, g: Generation, f: File)
    requires Legal(g) && d.stale == {} && AllOld(d, g) && BackupsHoldOld(d, g) && TemporariesReady(d, g, 0)
    requires forall x | x != Journal && x != JournalTemporary :: Look(d3.dir, x) == Look(d.dir, x)
    requires Look(d3.dir, Journal) == Some(f) && f.content == Record(g) && !d3.failed
    ensures Rolling(d3.(stale := {}), g, 0)
  {
    var h := d3.(stale := {});
    forall i: nat
      ensures Look(h.dir, Target(i)) == Look(d.dir, Target(i))
      ensures Look(h.dir, Backup(i)) == Look(d.dir, Backup(i))
      ensures Look(h.dir, Temporary(i)) == Look(d.dir, Temporary(i))
    {
    }
    forall i: nat | i < |g.before| ensures OldAt(g, i, Look(d.dir, Target(i))) {
      assert Possible(d, Target(i), Look(d.dir, Target(i)));
    }
    forall i: nat, v | i < |g.before| && Possible(h, Backup(i), v) ensures OldAt(g, i, v) {
      assert Possible(d, Backup(i), v);
    }
  }

  lemma JournalIsSafe(m: Medium, d: Disk, g: Generation)
    requires Legal(g) && d.stale == {} && !d.failed
    requires AllOld(d, g) && JournalGone(d) && BackupsHoldOld(d, g) && TemporariesReady(d, g, 0)
    requires JournalTemporary !in d.dir
    ensures Always(m, d, JournalCalls(Existing(g)), g, Attempting)
    ensures Rolling(Exec(m, d, JournalCalls(Existing(g))), g, 0)
  {
    var c := Record(g);
    var d1, d2, d3 := JournalSteps(m, d, c);
    var f := d2.dir[JournalTemporary];
    var d4 := d3.(stale := {});
    forall x | x != Journal && x != JournalTemporary
      ensures Look(d3.dir, x) == Look(d.dir, x) && NoNewEntry(d, d3, x)
    {
      NoNewEntryTrans(d, d2, d3, x);
    }
    assert NoNewEntry(d, d1, Journal) && NoNewEntry(d, d2, Journal);
    JournalStep(d, d, g);
    JournalStep(d, d1, g);
    JournalStep(d, d2, g);
    JournalStep(d, d3, g);
    JournalArms(d, d3, g, f);
    RollingIsGood(d4, g, 0);
    FourSteps(m, d, Create(JournalTemporary), Fill(JournalTemporary, c), Replace(JournalTemporary, Journal), Sync,
              d1, d2, d3, d4, g, Attempting);
  }

  // ---- The commit: unlinking the journal ---------------------------------------------

  /** What unlinking the journal, once synchronised or not, leaves. */
  lemma UnlinkJournal(m: Medium, d: Disk, g: Generation) returns (d1: Disk, d2: Disk)
    requires Legal(g) && !d.failed && Journal in d.dir && Recoverable(d, g) && BackupsHoldOld(d, g)
    requires AllOld(d, g) || AllNew(d, g)
    ensures d1 == Step(m, d, Unlink(Journal)) && Recoverable(d1, g) && Journal !in d1.dir && !d1.failed
    ensures AllNew(d, g) ==> AllNew(d1, g)
    ensures d2 == Step(m, d1, Sync) && Recoverable(d2, g) && Calm(d2, g) && JournalGone(d2) && !d2.failed
    ensures (AllOld(d, g) ==> AllOld(d2, g)) && (AllNew(d, g) ==> AllNew(d2, g))
  {
    d1 := Step(m, d, Unlink(Journal));
    PutEntries(m, d, Journal, None);
    assert forall x | x != Journal :: NoNewEntry(d, d1, x);
    assert forall i: nat :: NoNewEntry(d, d1, Target(i)) && NoNewEntry(d, d1, Backup(i));
    d2 := d1.(stale := {});
    SyncShrinks(m, d1, Sync);
    Shrink(d1, d2, g);
  }

  lemma CommitIsSafe(m: Medium, d: Disk, g: Generation)
    requires Legal(g) && !d.failed && Journal in d.dir && Recoverable(d, g) && BackupsHoldOld(d, g)
    requires AllOld(d, g) || AllNew(d, g)
    ensures Always(m, d, Commit(|g.before|), g, Ending)
    ensures var e := Exec(m, d, Commit(|g.before|));
            && !e.failed && JournalGone(e) && DebrisFree(e, |g.before|)
            && (AllOld(d, g) ==> AllOld(e, g)) && (AllNew(d, g) ==> AllNew(e, g))
  {
    var n := |g.before|;
    var d1, d2 := UnlinkJournal(m, d, g);
    CleanupIsSafe(m, d2, g, Ending);
    WithoutDebris(d2, Exec(m, d2, Cleanup(n)), n);
    OneStep(m, d1, Sync, Cleanup(n), g, Ending);
    OneStep(m, d, Unlink(Journal), [Sync] + Cleanup(n), g, Ending);
    assert Commit(n) == [Unlink(Journal)] + ([Sync] + Cleanup(n));
  }

  lemma WithoutDebris(d: Disk, e: Disk, n: nat)
    requires Without(d, e, Debris(n))
    ensures DebrisFree(e, n)
  {
    forall x | x in Debris(n) ensures x !in e.dir {
      assert Look(e.dir, x) == None;
    }
  }
}
