/** Publishing one generation of the joint role cache, and recovering from an
    interrupted publication: the calls the two procedures make, and what every
    prefix of those calls leaves on the disk. */
module Publication {
  import opened Wrappers
  import opened Filesystem

  /** What the targets hold before (absent if `None`) and what is to be published. */
  datatype Generation = Generation(before: seq<Option<Content>>, after: seq<Content>)

  ghost predicate Legal(g: Generation) {
    |g.before| == |g.after|
  }

  predicate Existed(g: Generation, i: nat)
    requires i < |g.before|
  {
    g.before[i].Some?
  }

  function Existing(g: Generation): (s: seq<bool>)
    ensures |s| == |g.before|
  {
    seq(|g.before|, i requires 0 <= i < |g.before| => g.before[i].Some?)
  }

  // ---- The calls ---------------------------------------------------------------------

  function JournalItems(existed: seq<bool>): (items: seq<Item>)
    ensures |items| == |existed|
  {
    seq(|existed|, i requires 0 <= i < |existed| => Item(Backup(i), existed[i], Target(i)))
  }

  /** The journal's answer to "did this target exist?", or `None` if it is not a journal
      of exactly these targets. */
  function ReadJournal(dir: map<Name, File>, n: nat): Option<seq<bool>> {
    if Journal in dir && dir[Journal].content.Document? && |dir[Journal].content.items| == n &&
       forall i | 0 <= i < n :: dir[Journal].content.items[i].backup == Backup(i) &&
                                dir[Journal].content.items[i].name == Target(i)
    then Some(seq(n, i requires 0 <= i < |dir[Journal].content.items| => dir[Journal].content.items[i].existed))
    else None
  }

  function Removals(names: seq<Name>): (calls: seq<Call>)
    ensures |calls| == |names|
  {
    seq(|names|, i requires 0 <= i < |names| => Remove(names[i]))
  }

  function Debris(n: nat): (names: seq<Name>)
    ensures forall x :: x in names <==>
      x == JournalTemporary || ((x.Backup? || x.BackupCopy? || x.Restoring?) && x.index < n)
  {
    [JournalTemporary] + BackupNames(n) + CopyNames(n) + RestoringNames(n)
  }

  function BackupNames(n: nat): (names: seq<Name>)
    ensures forall x :: x in names <==> x.Backup? && x.index < n
  {
    if n == 0 then [] else BackupNames(n - 1) + [Backup(n - 1)]
  }

  function CopyNames(n: nat): (names: seq<Name>)
    ensures forall x :: x in names <==> x.BackupCopy? && x.index < n
  {
    if n == 0 then [] else CopyNames(n - 1) + [BackupCopy(n - 1)]
  }

  function RestoringNames(n: nat): (names: seq<Name>)
    ensures forall x :: x in names <==> x.Restoring? && x.index < n
  {
    if n == 0 then [] else RestoringNames(n - 1) + [Restoring(n - 1)]
  }

  function Cleanup(n: nat): seq<Call> {
    Removals(Debris(n)) + [SyncIfChanged]
  }

  function BackupCalls(m: Medium, i: nat): seq<Call> {
    (if Target(i) in m.linkable then [Link(Target(i), Backup(i))]
     else [Create(BackupCopy(i)), Copy(Target(i), BackupCopy(i)), Replace(BackupCopy(i), Backup(i))]) +
    [Compare(Backup(i), Target(i))]
  }

  function Backups(m: Medium, existed: seq<bool>, k: nat): seq<Call>
    requires k <= |existed|
  {
    if k == 0 then [] else Backups(m, existed, k - 1) + (if existed[k - 1] then BackupCalls(m, k - 1) else [])
  }

  function JournalCalls(existed: seq<bool>): seq<Call> {
    [Create(JournalTemporary), Fill(JournalTemporary, Document(JournalItems(existed))),
     Replace(JournalTemporary, Journal), Sync]
  }

  function Replacements(k: nat): seq<Call> {
    if k == 0 then [] else Replacements(k - 1) + [Replace(Temporary(k - 1), Target(k - 1)), Sync]
  }

  /** The calls inside the `try` block. */
  function Attempt(m: Medium, existed: seq<bool>): seq<Call> {
    Backups(m, existed, |existed|) + [Sync] + JournalCalls(existed) + Replacements(|existed|)
  }

  function Publish(m: Medium, existed: seq<bool>): seq<Call> {
    Cleanup(|existed|) + Attempt(m, existed) + Commit(|existed|)
  }

  function Commit(n: nat): seq<Call> {
    [Unlink(Journal), Sync] + Cleanup(n)
  }

  function RestoreCalls(existed: bool, i: nat): seq<Call> {
    if existed then [Discard(Restoring(i)), Link(Backup(i), Restoring(i)), Replace(Restoring(i), Target(i)), Sync]
    else [Remove(Target(i)), SyncIfChanged]
  }

  function Restores(existed: seq<bool>, k: nat): seq<Call>
    requires k <= |existed|
  {
    if k == 0 then [] else Restores(existed, k - 1) + RestoreCalls(existed[k - 1], k - 1)
  }

  /** The calls of one recovery started on `dir`, or `None` if it refuses to touch anything. */
  function Recovery(dir: map<Name, File>, n: nat): Option<seq<Call>> {
    if Journal !in dir then Some(Cleanup(n)) else
    match ReadJournal(dir, n)
    case None => None
    case Some(existed) =>
      if forall i | 0 <= i < n :: existed[i] <==> Backup(i) in dir
      then Some(Restores(existed, n) + Commit(n))
      else None
  }

  /** A journal is acted on only if it lists these targets and their backups, one by one, and says
      of each whether it existed as the backups that are there say. */
  lemma ForeignJournalIsRefused(dir: map<Name, File>, n: nat)
    requires Journal in dir
    ensures Recovery(dir, n).Some? <==>
            && dir[Journal].content.Document? && |dir[Journal].content.items| == n
            && forall i | 0 <= i < n :: dir[Journal].content.items[i] == Item(Backup(i), Backup(i) in dir, Target(i))
  {
    if ReadJournal(dir, n).Some? {
      var items, existed := dir[Journal].content.items, ReadJournal(dir, n).value;
      assert forall i | 0 <= i < n :: existed[i] == items[i].existed;
    }
    if dir[Journal].content.Document? && |dir[Journal].content.items| == n
       && forall i | 0 <= i < n :: dir[Journal].content.items[i] == Item(Backup(i), Backup(i) in dir, Target(i)) {
      assert ReadJournal(dir, n).Some?;
    }
  }

  // ---- What must hold of every disk a crash can leave --------------------------------

  ghost predicate OldAt(g: Generation, i: nat, v: Option<File>)
    requires i < |g.before|
  {
    match g.before[i] case None => v.None? case Some(c) => v.Some? && v.value.content == c
  }

  ghost predicate NewAt(g: Generation, i: nat, v: Option<File>)
    requires i < |g.after|
  {
    v.Some? && v.value.content == g.after[i]
  }

  ghost predicate AllOld(d: Disk, g: Generation)
    requires Legal(g)
  {
    forall i: nat, v | i < |g.before| && Possible(d, Target(i), v) :: OldAt(g, i, v)
  }

  ghost predicate AllNew(d: Disk, g: Generation)
    requires Legal(g)
  {
    forall i: nat, v | i < |g.before| && Possible(d, Target(i), v) :: NewAt(g, i, v)
  }

  ghost predicate EachOldOrNew(d: Disk, g: Generation)
    requires Legal(g)
  {
    forall i: nat, v | i < |g.before| && Possible(d, Target(i), v) :: OldAt(g, i, v) || NewAt(g, i, v)
  }

  ghost predicate BackupsHoldOld(d: Disk, g: Generation)
    requires Legal(g)
  {
    forall i: nat, v | i < |g.before| && Possible(d, Backup(i), v) :: OldAt(g, i, v)
  }

  function Record(g: Generation): Content {
    Document(JournalItems(Existing(g)))
  }

  ghost predicate JournalGone(d: Disk) {
    forall v | Possible(d, Journal, v) :: v.None?
  }

  ghost predicate JournalSure(d: Disk) {
    !Possible(d, Journal, None)
  }

  ghost predicate JournalOrNothing(d: Disk, g: Generation) {
    forall v | Possible(d, Journal, v) :: v.None? || v.value.content == Record(g)
  }

  /** The recoverable disks: without a journal all targets are of one generation; with one,
      every backup holds the old content, and only a journal that cannot vanish excuses a
      mixture of generations. */
  ghost predicate Recoverable(d: Disk, g: Generation)
    requires Legal(g)
  {
    && EachOldOrNew(d, g)
    && JournalOrNothing(d, g)
    && (|| (JournalGone(d) && (AllOld(d, g) || AllNew(d, g)))
        || (BackupsHoldOld(d, g) &&
            (JournalSure(d) || AllOld(d, g) || (AllNew(d, g) && Journal !in d.dir))))
  }

  /** Targets below some `k` are new, those above are old, and `k` itself has just been replaced. */
  ghost predicate InOrder(d: Disk, g: Generation)
    requires Legal(g)
  {
    exists k: nat :: k < |g.before| && ReplacedUpTo(d, g, k)
  }

  ghost predicate ReplacedUpTo(d: Disk, g: Generation, k: nat)
    requires Legal(g) && k < |g.before|
  {
    && NewAt(g, k, Look(d.dir, Target(k)))
    && (forall i: nat, v | i < k && Possible(d, Target(i), v) :: NewAt(g, i, v))
    && (forall i: nat, v | k < i < |g.before| && Possible(d, Target(i), v) :: OldAt(g, i, v))
  }

  /** While the `try` block runs: no target is touched before the journal is in place, and
      they are replaced in order. */
  ghost predicate GoingForward(d: Disk, g: Generation)
    requires Legal(g)
  {
    (JournalGone(d) && AllOld(d, g)) || (Journal in d.dir && (AllOld(d, g) || InOrder(d, g)))
  }

  datatype Phase = Attempting | Ending

  ghost predicate Good(d: Disk, g: Generation, ph: Phase)
    requires Legal(g)
  {
    Recoverable(d, g) && (ph.Attempting? ==> GoingForward(d, g))
  }

  /** Every disk from `d` on, while the calls are made one by one, is good. */
  ghost predicate Always(m: Medium, d: Disk, calls: seq<Call>, g: Generation, ph: Phase)
    requires Legal(g)
    decreases |calls|
  {
    Good(d, g, ph) && (calls == [] || Always(m, Step(m, d, calls[0]), calls[1..], g, ph))
  }

  lemma {:induction false} AlwaysAppend(m: Medium, d: Disk, p: seq<Call>, q: seq<Call>, g: Generation, ph: Phase)
    requires Legal(g) && Always(m, d, p, g, ph) && Always(m, Exec(m, d, p), q, g, ph)
    ensures Always(m, d, p + q, g, ph)
    decreases |p|
  {
    if p == [] {
      assert p + q == q;
    } else {
      assert (p + q)[0] == p[0] && (p + q)[1..] == p[1..] + q;
      AlwaysAppend(m, Step(m, d, p[0]), p[1..], q, g, ph);
    }
  }

  /** "At every step" is "after every number of calls". */
  lemma {:induction false} AlwaysPrefix(m: Medium, d: Disk, calls: seq<Call>, g: Generation, ph: Phase, k: nat)
    requires Legal(g) && Always(m, d, calls, g, ph) && k <= |calls|
    ensures Good(Exec(m, d, calls[..k]), g, ph)
    decreases k
  {
    if k > 0 {
      assert calls[..k][0] == calls[0] && calls[..k][1..] == calls[1..][..k - 1];
      AlwaysPrefix(m, Step(m, d, calls[0]), calls[1..], g, ph, k - 1);
    }
  }

  lemma {:induction false} AlwaysFailed(m: Medium, d: Disk, calls: seq<Call>, g: Generation, ph: Phase)
    requires Legal(g) && Good(d, g, ph) && d.failed
    ensures Always(m, d, calls, g, ph)
    decreases |calls|
  {
    if calls != [] {
      AlwaysFailed(m, d, calls[1..], g, ph);
    }
  }

  lemma {:induction false} AlwaysWeaken(m: Medium, d: Disk, calls: seq<Call>, g: Generation, ph: Phase)
    requires Legal(g) && Always(m, d, calls, g, ph)
    ensures Always(m, d, calls, g, Ending)
    decreases |calls|
  {
    if calls != [] {
      AlwaysWeaken(m, Step(m, d, calls[0]), calls[1..], g, ph);
    }
  }
}
