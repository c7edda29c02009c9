/** One output directory, its names, and what a crash may leave of it.

    A name leads to a file: an inode and what the inode holds.  Two names that
    lead to equal files are two links to one inode.  Besides the current
    entries, a disk remembers the `stale` ones: every entry a name has had since
    the directory was last synchronised.  After a loss of power each name holds
    its current entry or one of its stale ones, independently of the others. */
module Filesystem {
  import opened Wrappers

  datatype Name =
    | Target(index: nat)
    | Backup(index: nat)
    | BackupCopy(index: nat)
    | Restoring(index: nat)
    | Temporary(index: nat)
    | Journal
    | JournalTemporary

  datatype Item = Item(backup: Name, existed: bool, name: Name)

  /** `Unwritten` is a file whose bytes have not yet been flushed. */
  datatype Content = Data(payload: seq<int>) | Document(items: seq<Item>) | Unwritten

  datatype File = File(inode: nat, content: Content)

  /** `lossy`: directory changes may be lost until the directory is synchronised.
      `linkable`: the names whose file the filesystem agrees to hard-link. */
  datatype Medium = Medium(lossy: bool, linkable: set<Name>)

  /** `changed` and `failed` belong to the process that is running: something was
      removed since it last looked, and it has raised an error. */
  datatype Disk = Disk(dir: map<Name, File>, stale: set<(Name, Option<File>)>, next: nat,
                       changed: bool, failed: bool)

  datatype Call =
    | Remove(name: Name)    // remove the file if there is one, and remember that there was
    | Discard(name: Name)   // remove the file if there is one
    | Unlink(name: Name)
    | Link(source: Name, name: Name)
    | Replace(source: Name, name: Name)
    | Create(name: Name)
    | Fill(name: Name, content: Content)
    | Copy(source: Name, name: Name)
    | Compare(left: Name, right: Name)
    | Sync
    | SyncIfChanged

  function Look(dir: map<Name, File>, x: Name): Option<File> {
    if x in dir then Some(dir[x]) else None
  }

  function Put(m: Medium, d: Disk, x: Name, v: Option<File>): Disk {
    d.(dir := match v case None => d.dir - {x} case Some(f) => d.dir[x := f],
       stale := if m.lossy then d.stale + {(x, Look(d.dir, x))} else d.stale)
  }

  function Fail(d: Disk): Disk {
    d.(failed := true)
  }

  /** What one call does.  A process that has failed makes no further call. */
  function Step(m: Medium, d: Disk, c: Call): Disk {
    if d.failed then d else
    match c
    case Remove(x) =>
      if x in d.dir then Put(m, d, x, None).(changed := true) else d
    case Discard(x) =>
      if x in d.dir then Put(m, d, x, None) else d
    case Unlink(x) =>
      if x in d.dir then Put(m, d, x, None) else Fail(d)
    case Link(a, b) =>
      if a in d.dir && b !in d.dir && a in m.linkable then Put(m, d, b, Some(d.dir[a])) else Fail(d)
    case Replace(a, b) =>
      if a !in d.dir then Fail(d)
      else if Look(d.dir, b) == Some(d.dir[a]) then d  // two links to one file: rename does nothing
      else Put(m, Put(m, d, b, Some(d.dir[a])), a, None)
    case Create(x) =>
      if x in d.dir then Fail(d) else Put(m, d, x, Some(File(d.next, Unwritten))).(next := d.next + 1)
    case Fill(x, content) =>
      if x in d.dir then Put(m, d, x, Some(d.dir[x].(content := content))) else Fail(d)
    case Copy(a, x) =>
      if a in d.dir && x in d.dir then Put(m, d, x, Some(d.dir[x].(content := d.dir[a].content))) else Fail(d)
    case Compare(a, b) =>
      if a in d.dir && b in d.dir && d.dir[a].content == d.dir[b].content then d else Fail(d)
    case Sync => d.(stale := {})
    case SyncIfChanged => if d.changed then d.(stale := {}, changed := false) else d
  }

  function Exec(m: Medium, d: Disk, calls: seq<Call>): Disk
    decreases |calls|
  {
    if calls == [] then d else Exec(m, Step(m, d, calls[0]), calls[1..])
  }

  /** Another process starts on the same directory, nothing lost. */
  function Restart(d: Disk): Disk {
    d.(changed := false, failed := false)
  }

  ghost predicate Possible(d: Disk, x: Name, v: Option<File>) {
    v == Look(d.dir, x) || (x, v) in d.stale
  }

  /** The power failed on `d` and came back on `e`. */
  ghost predicate PowerLoss(d: Disk, e: Disk) {
    && (forall x :: Possible(d, x, Look(e.dir, x)))
    && e.stale == {} && !e.changed && !e.failed
  }

  lemma {:induction false} ExecAppend(m: Medium, d: Disk, p: seq<Call>, q: seq<Call>)
    ensures Exec(m, d, p + q) == Exec(m, Exec(m, d, p), q)
    decreases |p|
  {
    if p == [] {
      assert p + q == q;
    } else {
      assert (p + q)[0] == p[0] && (p + q)[1..] == p[1..] + q;
      ExecAppend(m, Step(m, d, p[0]), p[1..], q);
    }
  }

  lemma {:induction false} ExecFailed(m: Medium, d: Disk, calls: seq<Call>)
    requires d.failed
    ensures Exec(m, d, calls) == d
    decreases |calls|
  {
    if calls != [] {
      ExecFailed(m, d, calls[1..]);
    }
  }

  // ---- The lost-update view of a power loss -------------------------------------------

  /** One directory update, as a journalling filesystem would log it. */
  datatype Update = SetEntry(name: Name, entry: Option<File>) | Rename(source: Name, name: Name, file: File)

  function Apply(dir: map<Name, File>, u: Update): map<Name, File> {
    match u
    case SetEntry(x, None) => dir - {x}
    case SetEntry(x, Some(f)) => dir[x := f]
    case Rename(a, b, f) => dir[b := f] - (if a == b then {} else {a})
  }

  function Replay(dir: map<Name, File>, log: seq<Update>): map<Name, File>
    decreases |log|
  {
    if log == [] then dir else Apply(Replay(dir, log[..|log| - 1]), log[|log| - 1])
  }

  /** `kept` of the logged updates reached the platter, the others were lost. */
  function Kept(log: seq<Update>, kept: seq<bool>): seq<Update>
    requires |kept| == |log|
    decreases |log|
  {
    if log == [] then []
    else Kept(log[..|log| - 1], kept[..|log| - 1]) + (if kept[|log| - 1] then [log[|log| - 1]] else [])
  }

  /** The updates one call makes. */
  function Updates(m: Medium, d: Disk, c: Call): seq<Update> {
    var e := Step(m, d, c);
    if e.dir == d.dir then []
    else match c
      case Remove(x) => [SetEntry(x, None)]
      case Discard(x) => [SetEntry(x, None)]
      case Unlink(x) => [SetEntry(x, None)]
      case Link(_, b) => [SetEntry(b, Look(e.dir, b))]
      case Replace(a, b) => if a in d.dir then [Rename(a, b, d.dir[a])] else []
      case Create(x) => [SetEntry(x, Look(e.dir, x))]
      case Fill(x, _) => [SetEntry(x, Look(e.dir, x))]
      case Copy(_, x) => [SetEntry(x, Look(e.dir, x))]
      case _ => []
  }

  /** `log` holds the updates made since the directory held `durable` and was synchronised. */
  ghost predicate Tracks(d: Disk, durable: map<Name, File>, log: seq<Update>) {
    && d.dir == Replay(durable, log)
    && forall n: nat, x :: n <= |log| ==> Possible(d, x, Look(Replay(durable, log[..n]), x))
  }

  lemma ReplayAppend(dir: map<Name, File>, log: seq<Update>, u: Update)
    ensures Replay(dir, log + [u]) == Apply(Replay(dir, log), u)
  {
    assert (log + [u])[..|log|] == log;
  }

  lemma PutRemembers(m: Medium, d: Disk, y: Name, w: Option<File>, x: Name, v: Option<File>)
    requires m.lossy && Possible(d, x, v)
    ensures Possible(Put(m, d, y, w), x, v)
  {
  }

  /** Until a synchronisation empties the stale entries, nothing possible becomes impossible. */
  lemma StepRemembers(m: Medium, d: Disk, c: Call, x: Name, v: Option<File>)
    requires m.lossy && Possible(d, x, v) && !c.Sync? && !c.SyncIfChanged?
    ensures Possible(Step(m, d, c), x, v)
  {
    if !d.failed && c.Replace? && c.source in d.dir {
      var f := Some(d.dir[c.source]);
      PutRemembers(m, d, c.name, f, x, v);
      PutRemembers(m, Put(m, d, c.name, f), c.source, None, x, v);
    }
  }

  lemma UpdatesAreApplied(m: Medium, d: Disk, c: Call)
    ensures var us := Updates(m, d, c);
            if us == [] then Step(m, d, c).dir == d.dir
            else |us| == 1 && Step(m, d, c).dir == Apply(d.dir, us[0])
  {
  }

  /** Every call keeps the stale entries in step with the log. */
  lemma StepTracks(m: Medium, d: Disk, c: Call, durable: map<Name, File>, log: seq<Update>)
    requires m.lossy && Tracks(d, durable, log)
    ensures var e := Step(m, d, c);
            if e.stale == {} then Tracks(e, e.dir, []) else Tracks(e, durable, log + Updates(m, d, c))
  {
    var e := Step(m, d, c);
    var us := Updates(m, d, c);
    if e.stale != {} {
      UpdatesAreApplied(m, d, c);
      if us == [] {
        assert log + us == log;
      } else {
        ReplayAppend(durable, log, us[0]);
        assert us == [us[0]];
      }
      forall n: nat, x | n <= |log + us|
        ensures Possible(e, x, Look(Replay(durable, (log + us)[..n]), x))
      {
        if n <= |log| {
          assert (log + us)[..n] == log[..n];
          var v := Look(Replay(durable, log[..n]), x);
          if c.Sync? || c.SyncIfChanged? {
            assert e.dir == d.dir && e.stale == d.stale;
          } else {
            StepRemembers(m, d, c, x, v);
          }
        } else {
          assert (log + us)[..n] == log + us;
        }
      }
    }
  }

  lemma {:induction false} KeptEntry(durable: map<Name, File>, log: seq<Update>, kept: seq<bool>, x: Name)
    returns (n: nat)
    requires |kept| == |log|
    ensures n <= |log|
    ensures Look(Replay(durable, Kept(log, kept)), x) == Look(Replay(durable, log[..n]), x)
    decreases |log|
  {
    if log == [] {
      n := 0;
    } else {
      var k := |log| - 1;
      var rest := Kept(log[..k], kept[..k]);
      assert Kept(log, kept) == if kept[k] then rest + [log[k]] else rest;
      hide Apply, Look;
      if kept[k] {
        ReplayAppend(durable, rest, log[k]);
        ApplyAt(Replay(durable, rest), Replay(durable, log[..k]), log[k], x);
      }
      if kept[k] && Touches(log[k], x) {
        n := k + 1;
        assert log[..n] == log && log == log[..k] + [log[k]];
        ReplayAppend(durable, log[..k], log[k]);
      } else {
        n := KeptEntry(durable, log[..k], kept[..k], x);
        assert log[..k][..n] == log[..n];
      }
    }
  }

  /** An update decides the entries it touches, and leaves the others alone. */
  lemma ApplyAt(dir: map<Name, File>, other: map<Name, File>, u: Update, x: Name)
    ensures if Touches(u, x) then Look(Apply(dir, u), x) == Look(Apply(other, u), x) else Look(Apply(dir, u), x) == Look(dir, x)
  {
  }

  predicate Touches(u: Update, x: Name) {
    match u
    case SetEntry(y, _) => x == y
    case Rename(a, b, _) => x == a || x == b
  }

  /** Losing any subset of the unsynchronised directory updates is one of the power losses. */
  lemma LostUpdatesArePowerLoss(d: Disk, durable: map<Name, File>, log: seq<Update>, kept: seq<bool>)
    requires Tracks(d, durable, log) && |kept| == |log|
    ensures PowerLoss(d, Disk(Replay(durable, Kept(log, kept)), {}, d.next, false, false))
  {
    forall x ensures Possible(d, x, Look(Replay(durable, Kept(log, kept)), x)) {
      var n := KeptEntry(durable, log, kept, x);
    }
  }

  lemma {:induction false} ExecTracks(m: Medium, d: Disk, calls: seq<Call>,
                                      durable: map<Name, File>, log: seq<Update>)
    returns (durable': map<Name, File>, log': seq<Update>)
    requires m.lossy && Tracks(d, durable, log)
    ensures Tracks(Exec(m, d, calls), durable', log')
    decreases |calls|
  {
    if calls == [] {
      durable', log' := durable, log;
    } else {
      var e := Step(m, d, calls[0]);
      StepTracks(m, d, calls[0], durable, log);
      if e.stale == {} {
        durable', log' := ExecTracks(m, e, calls[1..], e.dir, []);
      } else {
        durable', log' := ExecTracks(m, e, calls[1..], durable, log + Updates(m, d, calls[0]));
      }
    }
  }
}
