/** The publishing process itself: loops of filesystem calls on one output directory.  Each
    method is shown to issue exactly the calls its specification lists, in that order, so
    that "interrupted after k calls" speaks about what the loops do. */
module Publisher {
  import opened Wrappers
  import opened Filesystem
  import opened Publication
  import opened PublicationSafety
  import opened Recovering
  import opened CrashSafety

  datatype Outcome = Published | RolledBack | RecoveryFailed

  /** The calls a process gets to make: it stops at the first that fails. */
  function Issued(m: Medium, d: Disk, calls: seq<Call>): seq<Call>
    decreases |calls|
  {
    if d.failed || calls == [] then [] else [calls[0]] + Issued(m, Step(m, d, calls[0]), calls[1..])
  }

  lemma {:induction false} IssuedAppend(m: Medium, d: Disk, p: seq<Call>, q: seq<Call>)
    ensures Issued(m, d, p + q) == Issued(m, d, p) + Issued(m, Exec(m, d, p), q)
    decreases |p|
  {
    if p == [] {
      assert p + q == q;
    } else if d.failed {
      ExecFailed(m, d, p);
    } else {
      assert (p + q)[0] == p[0] && (p + q)[1..] == p[1..] + q;
      IssuedAppend(m, Step(m, d, p[0]), p[1..], q);
    }
  }

  /** A process that stopped early has made a prefix of the calls, with the same effect. */
  lemma {:induction false} IssuedIsPrefix(m: Medium, d: Disk, calls: seq<Call>)
    ensures |Issued(m, d, calls)| <= |calls|
    ensures Issued(m, d, calls) == calls[..|Issued(m, d, calls)|]
    ensures Exec(m, d, Issued(m, d, calls)) == Exec(m, d, calls)
    decreases |calls|
  {
    if d.failed {
      ExecFailed(m, d, calls);
    } else if calls != [] {
      IssuedIsPrefix(m, Step(m, d, calls[0]), calls[1..]);
    }
  }

  function Present(dir: map<Name, File>, n: nat): (existed: seq<bool>)
    ensures |existed| == n
  {
    seq(n, (i: nat) => Target(i) in dir)
  }

  lemma {:induction false} BackupsGoOn(m: Medium, existed: seq<bool>, i: nat, n: nat) returns (rest: seq<Call>)
    requires i <= n <= |existed|
    ensures Backups(m, existed, n) == Backups(m, existed, i) + rest
  {
    if i == n {
      rest := [];
    } else {
      rest := BackupsGoOn(m, existed, i, n - 1);
      rest := rest + (if existed[n - 1] then BackupCalls(m, n - 1) else []);
    }
  }

  lemma {:induction false} ReplacementsGoOn(i: nat, n: nat) returns (rest: seq<Call>)
    requires i <= n
    ensures Replacements(n) == Replacements(i) + rest
  {
    if i == n {
      rest := [];
    } else {
      rest := ReplacementsGoOn(i, n - 1);
      rest := rest + [Replace(Temporary(n - 1), Target(n - 1)), Sync];
    }
  }

  lemma {:induction false} RestoresGoOn(existed: seq<bool>, i: nat, n: nat) returns (rest: seq<Call>)
    requires i <= n <= |existed|
    ensures Restores(existed, n) == Restores(existed, i) + rest
  {
    if i == n {
      rest := [];
    } else {
      rest := RestoresGoOn(existed, i, n - 1);
      rest := rest + RestoreCalls(existed[n - 1], n - 1);
    }
  }

  class OutputDirectory {
    const medium: Medium
    var dir: map<Name, File>
    ghost var stale: set<(Name, Option<File>)>
    var next: nat
    var changed: bool  // something was removed since the last look
    var failed: bool   // an error was raised
    ghost var log: seq<Call>

    ghost function State(): Disk
      reads this
    {
      Disk(dir, stale, next, changed, failed)
    }

    /** Since the state was `d` and the log `earlier`, exactly `calls` were attempted. */
    ghost predicate Did(d: Disk, earlier: seq<Call>, calls: seq<Call>)
      reads this
    {
      State() == Exec(medium, d, calls) && log == earlier + Issued(medium, d, calls)
    }

    lemma Join(d: Disk, earlier: seq<Call>, p: seq<Call>, e: Disk, later: seq<Call>, q: seq<Call>)
      requires e == Exec(medium, d, p) && later == earlier + Issued(medium, d, p) && Did(e, later, q)
      ensures Did(d, earlier, p + q)
    {
      ExecAppend(medium, d, p, q);
      IssuedAppend(medium, d, p, q);
    }

    lemma Begin()
      ensures Did(State(), log, [])
    {
    }

    method Enter(x: Name, v: Option<File>)
      modifies `dir, `stale
      ensures State() == Put(medium, old(State()), x, v)
    {
      if medium.lossy {
        stale := stale + {(x, Look(dir, x))};
      }
      match v
      case None => dir := dir - {x};
      case Some(f) => dir := dir[x := f];
    }

    /** One call of the operating system. */
    method Do(c: Call) returns (ok: bool)
      requires !failed
      modifies `dir, `stale, `next, `changed, `failed, `log
      ensures State() == Step(medium, old(State()), c) && log == old(log) + [c]
      ensures ok == !failed
    {
      log := log + [c];
      ok := true;
      match c {
      case Remove(x) =>
        if x in dir { Enter(x, None); changed := true; }
      case Discard(x) =>
        if x in dir { Enter(x, None); }
      case Unlink(x) =>
        ok := x in dir;
        if ok { Enter(x, None); }
      case Link(a, b) =>
        ok := a in dir && b !in dir && a in medium.linkable;
        if ok { Enter(b, Some(dir[a])); }
      case Replace(a, b) =>
        ok := a in dir;
        if ok && !(b in dir && dir[b] == dir[a]) {
          Enter(b, Some(dir[a]));
          Enter(a, None);
        }
      case Create(x) =>
        ok := x !in dir;
        if ok { Enter(x, Some(File(next, Unwritten))); next := next + 1; }
      case Fill(x, content) =>
        ok := x in dir;
        if ok { Enter(x, Some(dir[x].(content := content))); }
      case Copy(a, x) =>
        ok := a in dir && x in dir;
        if ok { Enter(x, Some(dir[x].(content := dir[a].content))); }
      case Compare(a, b) =>
        ok := a in dir && b in dir && dir[a].content == dir[b].content;
      case Sync => stale := {};
      case SyncIfChanged =>
        if changed { stale := {}; changed := false; }
      }
      failed := !ok;
    }

    /** A process that has failed makes no more calls. */
    lemma Stopped(d: Disk, earlier: seq<Call>, p: seq<Call>, q: seq<Call>)
      requires Did(d, earlier, p) && failed
      ensures Did(d, earlier, p + q)
    {
      ExecAppend(medium, d, p, q);
      IssuedAppend(medium, d, p, q);
      ExecFailed(medium, State(), q);
    }

    /** One more call after those already made, unless one of them failed. */
    method DoNext(ghost d: Disk, ghost earlier: seq<Call>, ghost p: seq<Call>, c: Call)
      requires Did(d, earlier, p)
      modifies `dir, `stale, `next, `changed, `failed, `log
      ensures Did(d, earlier, p + [c])
      ensures State() == Step(medium, old(State()), c)
    {
      if failed {
        Stopped(d, earlier, p, [c]);
        return;
      }
      ghost var e, later := State(), log;
      var _ := Do(c);
      ExecCons(medium, e, c, []);
      assert [c] + [] == [c] && [c][1..] == [];
      Join(d, earlier, p, e, later, [c]);
    }

    method CleanupDebris(ghost d: Disk, ghost earlier: seq<Call>, ghost p: seq<Call>, n: nat)
      requires Did(d, earlier, p) && !failed
      modifies `dir, `stale, `next, `changed, `failed, `log
      ensures Did(d, earlier, p + Cleanup(n)) && !failed
    {
      hide Exec, Issued, Did;
      var names := Debris(n);
      var i := 0;
      assert p + Removals(names)[..0] == p;
      while i < |names|
        invariant i <= |names|
        invariant Did(d, earlier, p + Removals(names)[..i]) && !failed
      {
        DoNext(d, earlier, p + Removals(names)[..i], Remove(names[i]));
        assert p + Removals(names)[..i] + [Remove(names[i])] == p + Removals(names)[..i + 1];
        i := i + 1;
      }
      assert Removals(names)[..i] == Removals(names);
      DoNext(d, earlier, p + Removals(names), SyncIfChanged);
      assert p + Removals(names) + [SyncIfChanged] == p + Cleanup(n);
    }

    method BackUp(ghost d: Disk, ghost earlier: seq<Call>, ghost p: seq<Call>, i: nat)
      requires Did(d, earlier, p)
      modifies `dir, `stale, `next, `changed, `failed, `log
      ensures Did(d, earlier, p + BackupCalls(medium, i))
    {
      ghost var q := p;
      if Target(i) in medium.linkable {
        DoNext(d, earlier, p, Link(Target(i), Backup(i)));
        q := p + [Link(Target(i), Backup(i))];
      } else {
        DoNext(d, earlier, p, Create(BackupCopy(i)));
        q := p + [Create(BackupCopy(i))];
        DoNext(d, earlier, q, Copy(Target(i), BackupCopy(i)));
        q := q + [Copy(Target(i), BackupCopy(i))];
        DoNext(d, earlier, q, Replace(BackupCopy(i), Backup(i)));
        q := q + [Replace(BackupCopy(i), Backup(i))];
      }
      DoNext(d, earlier, q, Compare(Backup(i), Target(i)));
      assert q + [Compare(Backup(i), Target(i))] == p + BackupCalls(medium, i);
    }

    method TakeBackups(ghost d: Disk, ghost earlier: seq<Call>, ghost p: seq<Call>, existed: seq<bool>)
      requires Did(d, earlier, p) && !failed
      modifies `dir, `stale, `next, `changed, `failed, `log
      ensures Did(d, earlier, p + Backups(medium, existed, |existed|))
    {
      hide Exec, Issued, Step, Did;
      var i := 0;
      assert p + Backups(medium, existed, 0) == p;
      while i < |existed|
        invariant i <= |existed|
        invariant Did(d, earlier, p + Backups(medium, existed, i))
      {
        if failed {
          ghost var rest := BackupsGoOn(medium, existed, i, |existed|);
          Stopped(d, earlier, p + Backups(medium, existed, i), rest);
          assert p + Backups(medium, existed, i) + rest == p + Backups(medium, existed, |existed|);
          return;
        }
        if existed[i] {
          BackUp(d, earlier, p + Backups(medium, existed, i), i);
          assert p + Backups(medium, existed, i) + BackupCalls(medium, i) == p + Backups(medium, existed, i + 1);
        } else {
          assert Backups(medium, existed, i) + [] == Backups(medium, existed, i);
        }
        i := i + 1;
      }
    }

    method WriteJournal(ghost d: Disk, ghost earlier: seq<Call>, ghost p: seq<Call>, existed: seq<bool>)
      requires Did(d, earlier, p)
      modifies `dir, `stale, `next, `changed, `failed, `log
      ensures Did(d, earlier, p + JournalCalls(existed))
    {
      var document := Document(JournalItems(existed));
      DoNext(d, earlier, p, Create(JournalTemporary));
      ghost var q := p + [Create(JournalTemporary)];
      DoNext(d, earlier, q, Fill(JournalTemporary, document));
      q := q + [Fill(JournalTemporary, document)];
      DoNext(d, earlier, q, Replace(JournalTemporary, Journal));
      q := q + [Replace(JournalTemporary, Journal)];
      DoNext(d, earlier, q, Sync);
      assert q + [Sync] == p + JournalCalls(existed);
    }

    method ReplaceTargets(ghost d: Disk, ghost earlier: seq<Call>, ghost p: seq<Call>, n: nat)
      requires Did(d, earlier, p)
      modifies `dir, `stale, `next, `changed, `failed, `log
      ensures Did(d, earlier, p + Replacements(n))
    {
      hide Exec, Issued, Step, Did;
      var i := 0;
      assert p + Replacements(0) == p;
      while i < n
        invariant i <= n
        invariant Did(d, earlier, p + Replacements(i))
      {
        if failed {
          ghost var rest := ReplacementsGoOn(i, n);
          Stopped(d, earlier, p + Replacements(i), rest);
          assert p + Replacements(i) + rest == p + Replacements(n);
          return;
        }
        var replace := Replace(Temporary(i), Target(i));
        DoNext(d, earlier, p + Replacements(i), replace);
        DoNext(d, earlier, p + Replacements(i) + [replace], Sync);
        assert p + Replacements(i) + [replace] + [Sync] == p + Replacements(i + 1);
        i := i + 1;
      }
    }

    method UnlinkJournal(ghost d: Disk, ghost earlier: seq<Call>, ghost p: seq<Call>, n: nat)
      requires Did(d, earlier, p)
      modifies `dir, `stale, `next, `changed, `failed, `log
      ensures Did(d, earlier, p + Commit(n))
    {
      DoNext(d, earlier, p, Unlink(Journal));
      DoNext(d, earlier, p + [Unlink(Journal)], Sync);
      ghost var q := p + [Unlink(Journal)] + [Sync];
      if failed {
        Stopped(d, earlier, q, Cleanup(n));
      } else {
        CleanupDebris(d, earlier, q, n);
      }
      assert q + Cleanup(n) == p + Commit(n);
    }

    method RestoreTarget(ghost d: Disk, ghost earlier: seq<Call>, ghost p: seq<Call>, existed: bool, i: nat)
      requires Did(d, earlier, p)
      modifies `dir, `stale, `next, `changed, `failed, `log
      ensures Did(d, earlier, p + RestoreCalls(existed, i))
    {
      if existed {
        DoNext(d, earlier, p, Discard(Restoring(i)));
        ghost var q := p + [Discard(Restoring(i))];
        DoNext(d, earlier, q, Link(Backup(i), Restoring(i)));
        q := q + [Link(Backup(i), Restoring(i))];
        DoNext(d, earlier, q, Replace(Restoring(i), Target(i)));
        q := q + [Replace(Restoring(i), Target(i))];
        DoNext(d, earlier, q, Sync);
        assert q + [Sync] == p + RestoreCalls(existed, i);
      } else {
        DoNext(d, earlier, p, Remove(Target(i)));
        DoNext(d, earlier, p + [Remove(Target(i))], SyncIfChanged);
        assert p + [Remove(Target(i))] + [SyncIfChanged] == p + RestoreCalls(existed, i);
      }
    }

    method RestoreTargets(ghost d: Disk, ghost earlier: seq<Call>, ghost p: seq<Call>, existed: seq<bool>)
      requires Did(d, earlier, p)
      modifies `dir, `stale, `next, `changed, `failed, `log
      ensures Did(d, earlier, p + Restores(existed, |existed|))
    {
      hide Exec, Issued, Step, Did;
      var n := |existed|;
      var i := 0;
      assert p + Restores(existed, 0) == p;
      while i < n
        invariant i <= n
        invariant Did(d, earlier, p + Restores(existed, i))
      {
        if failed {
          ghost var rest := RestoresGoOn(existed, i, n);
          Stopped(d, earlier, p + Restores(existed, i), rest);
          assert p + Restores(existed, i) + rest == p + Restores(existed, n);
          return;
        }
        RestoreTarget(d, earlier, p + Restores(existed, i), existed[i], i);
        assert p + Restores(existed, i) + RestoreCalls(existed[i], i) == p + Restores(existed, i + 1);
        i := i + 1;
      }
    }

    /** Recovers from an interrupted publication, if the journal says there was one. */
    method Recover(n: nat) returns (ok: bool)
      requires !failed && !changed
      modifies `dir, `stale, `next, `changed, `failed, `log
      ensures match Recovery(old(dir), n)
              case None => failed && !ok && unchanged(`dir, `stale, `log)
              case Some(calls) => Did(old(State()), old(log), calls) && ok == !failed
    {
      ghost var d, earlier := State(), log;
      Begin();
      hide Exec, Issued, Did, Step, Cleanup, Restores, Commit;
      if Journal !in dir {
        CleanupDebris(d, earlier, [], n);
        assert [] + Cleanup(n) == Cleanup(n);
        return true;
      }
      var document := ReadJournal(dir, n);
      if document.None? || exists i | 0 <= i < n :: document.value[i] != (Backup(i) in dir) {
        failed := true;
        return false;
      }
      var existed := document.value;
      RestoreTargets(d, earlier, [], existed);
      assert [] + Restores(existed, n) == Restores(existed, n);
      UnlinkJournal(d, earlier, Restores(existed, n), n);
      ok := !failed;
    }

    /** The `try` block. */
    method MakeAttempt(ghost d: Disk, ghost earlier: seq<Call>, ghost p: seq<Call>, existed: seq<bool>)
      requires Did(d, earlier, p) && !failed
      modifies `dir, `stale, `next, `changed, `failed, `log
      ensures Did(d, earlier, p + Attempt(medium, existed))
    {
      hide Exec, Issued, Step, Did;
      var n := |existed|;
      TakeBackups(d, earlier, p, existed);
      ghost var q := p + Backups(medium, existed, n);
      DoNext(d, earlier, q, Sync);
      q := q + [Sync];
      WriteJournal(d, earlier, q, existed);
      q := q + JournalCalls(existed);
      ReplaceTargets(d, earlier, q, n);
      assert q + Replacements(n) == p + Attempt(medium, existed);
    }

    /** Publishes the waiting temporaries; on any error inside the `try` block, recovers. */
    method Publish(n: nat) returns (outcome: Outcome)
      requires !failed && !changed
      modifies `dir, `stale, `next, `changed, `failed, `log
      ensures var d, existed := old(State()), Present(old(dir), n);
              var e := Exec(medium, d, Cleanup(n) + Attempt(medium, existed));
              if !e.failed then
                Did(d, old(log), Publication.Publish(medium, existed)) && outcome == Published
              else
                match Recovery(e.dir, n)
                case None => outcome == RecoveryFailed && dir == e.dir && stale == e.stale
                case Some(calls) =>
                  && State() == Exec(medium, Restart(e), calls)
                  && outcome == if failed then RecoveryFailed else RolledBack
    {
      ghost var d, earlier := State(), log;
      Begin();
      CleanupDebris(d, earlier, [], n);
      assert [] + Cleanup(n) == Cleanup(n);
      var existed := Present(dir, n);
      assert existed == Present(d.dir, n) by {
        CleanupKeepsTargets(medium, d, n);
      }
      MakeAttempt(d, earlier, Cleanup(n), existed);
      hide Exec, Issued, Attempt;
      ghost var p := Cleanup(n) + Attempt(medium, existed);
      if failed {
        changed, failed := false, false;
        var ok := Recover(n);
        outcome := if ok then RolledBack else RecoveryFailed;
      } else {
        UnlinkJournal(d, earlier, p, n);
        assert p + Commit(n) == Publication.Publish(medium, existed);
        outcome := Published;
      }
    }
  }

  lemma CleanupKeepsTargets(m: Medium, d: Disk, n: nat)
    requires !d.failed
    ensures forall i: nat :: Target(i) in Exec(m, d, Cleanup(n)).dir <==> Target(i) in d.dir
  {
    CleanupIsQuiet(n);
    forall i: nat ensures Target(i) in Exec(m, d, Cleanup(n)).dir <==> Target(i) in d.dir {
      QuietCalls(m, d, Cleanup(n), Target(i));
    }
  }

  lemma StepForgets(m: Medium, d: Disk, c: Call)
    ensures Step(m, d, c).(stale := {}) == Step(m, d.(stale := {}), c).(stale := {})
  {
  }

  /** What could come back after a power failure plays no part in what the calls do. */
  lemma {:induction false} ExecForgets(m: Medium, d: Disk, e: Disk, calls: seq<Call>)
    requires d.(stale := {}) == e.(stale := {})
    ensures Exec(m, d, calls).(stale := {}) == Exec(m, e, calls).(stale := {})
    decreases |calls|
  {
    hide Step;
    if calls != [] {
      StepForgets(m, d, calls[0]);
      StepForgets(m, e, calls[0]);
      ExecForgets(m, Step(m, d, calls[0]), Step(m, e, calls[0]), calls[1..]);
    }
  }

  ghost predicate Synchronises(calls: seq<Call>, p: seq<Call>, q: seq<Call>) {
    calls == p + ([Sync] + q)
  }

  /** The first synchronisation makes the two disks one. */
  lemma SynchronisedForgets(m: Medium, d: Disk, calls: seq<Call>, p: seq<Call>, q: seq<Call>)
    requires Synchronises(calls, p, q) && !Exec(m, d.(stale := {}), calls).failed
    ensures Exec(m, d, calls) == Exec(m, d.(stale := {}), calls)
  {
    var e := d.(stale := {});
    ExecForgets(m, d, e, p);
    ExecAppend(m, d, p, [Sync] + q);
    ExecAppend(m, e, p, [Sync] + q);
    var f, h := Exec(m, d, p), Exec(m, e, p);
    ExecCons(m, f, Sync, q);
    ExecCons(m, h, Sync, q);
    if h.failed {
      ExecFailed(m, h, [Sync] + q);
    }
    SyncStep(m, f);
    SyncStep(m, h);
    hide Exec, Step;
    assert f.failed == f.(stale := {}).failed == h.failed;
  }

  /** What a process sees that may publish: no journal, the old targets, and its temporaries. */
  ghost predicate Visible(d: Disk, g: Generation) {
    && Legal(g) && !d.failed && Journal !in d.dir && TemporariesReady(d, g, 0)
    && forall i: nat | i < |g.before| :: OldAt(g, i, Look(d.dir, Target(i)))
  }

  /** Whatever could come back after a power failure, a process that is not stopped sees which
      targets exist, has no call of the `try` block fail, and ends with the new generation
      published for good. */
  lemma VisiblePublishes(m: Medium, d: Disk, g: Generation)
    requires Visible(d, g)
    ensures Present(d.dir, |g.before|) == Existing(g)
    ensures !Exec(m, d, Cleanup(|g.before|) + Attempt(m, Existing(g))).failed
    ensures var e := Exec(m, d, Publication.Publish(m, Existing(g)));
            !e.failed && AllNew(e, g) && JournalGone(e) && DebrisFree(e, |g.before|)
  {
    VisibleIsReady(d, g);
    hide Exec, Rolling, Always, AllNew, JournalGone, DebrisFree, Cleanup, Commit, Ready, Visible, Present, Attempt;
    var n, x, e := |g.before|, Existing(g), d.(stale := {});
    AttemptEnds(m, e, g);
    PublishIsSafe(m, e, g);
    RollingHasNotFailed(Exec(m, e, Cleanup(n) + Attempt(m, x)), g, n);
    ForgetsFailure(m, d, Cleanup(n) + Attempt(m, x));
    PublishSynchronises(m, d, e, x);
  }

  lemma VisibleIsReady(d: Disk, g: Generation)
    requires Visible(d, g)
    ensures Ready(d.(stale := {}), g) && Present(d.dir, |g.before|) == Existing(g)
  {
    forall i: nat | i < |g.before| ensures Target(i) in d.dir <==> Existed(g, i) {
      assert OldAt(g, i, Look(d.dir, Target(i)));
    }
  }

  lemma ForgetsFailure(m: Medium, d: Disk, calls: seq<Call>)
    ensures Exec(m, d, calls).failed == Exec(m, d.(stale := {}), calls).failed
  {
    hide Exec;
    var f, h := Exec(m, d, calls), Exec(m, d.(stale := {}), calls);
    ExecForgets(m, d, d.(stale := {}), calls);
    assert f.failed == f.(stale := {}).failed && h.failed == h.(stale := {}).failed;
  }

  lemma Regroup(c: seq<Call>, b: seq<Call>, s: seq<Call>, j: seq<Call>, r: seq<Call>, k: seq<Call>)
    ensures c + (b + s + j + r) + k == (c + b) + (s + (j + r + k))
  {
  }

  lemma PublishInParts(m: Medium, existed: seq<bool>) returns (p: seq<Call>, q: seq<Call>)
    ensures Synchronises(Publication.Publish(m, existed), p, q)
  {
    hide Cleanup, Commit, JournalCalls, Backups, Replacements;
    var n := |existed|;
    p, q := Cleanup(n) + Backups(m, existed, n), JournalCalls(existed) + Replacements(n) + Commit(n);
    Regroup(Cleanup(n), Backups(m, existed, n), [Sync], JournalCalls(existed), Replacements(n), Commit(n));
  }

  lemma PublishSynchronises(m: Medium, d: Disk, e: Disk, existed: seq<bool>)
    requires e == d.(stale := {}) && !Exec(m, e, Publication.Publish(m, existed)).failed
    ensures Exec(m, d, Publication.Publish(m, existed)) == Exec(m, e, Publication.Publish(m, existed))
  {
    hide Exec, Publication.Publish, Synchronises;
    var p, q := PublishInParts(m, existed);
    SynchronisedForgets(m, d, Publication.Publish(m, existed), p, q);
  }

  lemma RollingHasNotFailed(d: Disk, g: Generation, k: nat)
    requires Legal(g) && Rolling(d, g, k)
    ensures !d.failed
  {
  }
}
