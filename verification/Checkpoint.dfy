/**
 Checkpoints and log truncation over every run: which log records must survive, and why segments
 that partition the LSN range keep them.  A checkpoint is fuzzy: it first notes the next LSN, other
 work goes on, and only later writes it down and removes old segments.
 */
module Checkpoint {
  import opened Options

  /** A segment as truncation sees it: the LSN in its name and how many records it holds. */
  datatype Seg = Seg(start: nat, count: nat)

  datatype Log = Log(
    segs: seq<Seg>,
    next: nat,
    begun: map<nat, nat>,     // transactions whose begin record is written but that are not yet registered
    open: map<nat, nat>,      // registered transactions and the LSN of their begin record
    since: map<nat, nat>,     // the next LSN when each was registered
    noted: Option<nat>,       // the LSN a checkpoint in progress has read
    saved: nat)               // checkpoint.meta, 0 if there is none

  const NEW_LOG: Log := Log([Seg(1, 0)], 1, map[], map[], map[], None, 0)

  datatype Step =
    | Append(rotate: bool)
    | Begin(tx: nat, rotate: bool)
    | Register(tx: nat)
    | Leave(tx: nat)
    | Note
    | Truncate

  predicate Enabled(l: Log, s: Step) {
    match s
    case Append(_) => true
    case Begin(tx, _) => tx !in l.open && tx !in l.begun
    case Register(tx) => tx in l.begun
    case Leave(tx) => tx in l.open
    case Note => l.noted.None?
    case Truncate => l.noted.Some?
  }

  /** One more record, in the last segment or at the start of a new one. */
  function MoreSegs(segs: seq<Seg>, next: nat, rotate: bool): seq<Seg>
    requires segs != []
  {
    var n := |segs| - 1;
    if rotate then segs + [Seg(next, 1)] else segs[n := Seg(segs[n].start, segs[n].count + 1)]
  }

  function Appended(l: Log, rotate: bool): Log
    requires l.segs != []
  {
    l.(segs := MoreSegs(l.segs, l.next, rotate), next := l.next + 1)
  }

  /** Whether x is the smallest begin LSN of an open transaction, or there is none. */
  ghost predicate Oldest(open: map<nat, nat>, x: Option<nat>) {
    match x
    case None => open == map[]
    case Some(m) => (exists tx :: tx in open && open[tx] == m) && forall tx :: tx in open ==> m <= open[tx]
  }

  /** oldest_active_lsn: a scan over the active transactions. */
  method OldestActive(txs: seq<nat>, open: map<nat, nat>) returns (oldest: Option<nat>)
    requires forall tx :: tx in txs <==> tx in open
    ensures Oldest(open, oldest)
  {
    oldest := None;
    var i := 0;
    while i < |txs|
      invariant i <= |txs|
      invariant oldest.None? <==> i == 0
      invariant oldest.Some? ==> exists j :: 0 <= j < i && open[txs[j]] == oldest.value
      invariant oldest.Some? ==> forall j :: 0 <= j < i ==> oldest.value <= open[txs[j]]
    {
      if oldest.None? || open[txs[i]] < oldest.value { oldest := Some(open[txs[i]]); }
      i := i + 1;
    }
    if oldest.None? {
      assert open == map[] by { forall tx ensures tx !in open { assert tx in txs <==> tx in open; } }
    } else {
      forall tx | tx in open ensures oldest.value <= open[tx] {
        var j :| 0 <= j < |txs| && txs[j] == tx;
      }
    }
  }

  /** The smaller of the noted LSN and the oldest open begin. */
  ghost predicate Safe(l: Log, safe: nat)
    requires l.noted.Some?
  {
    && safe <= l.noted.value
    && (forall tx :: tx in l.open ==> safe <= l.open[tx])
    && (safe == l.noted.value || exists tx :: tx in l.open && l.open[tx] == safe)
  }

  function Removed(segs: seq<Seg>, safe: nat): (k: nat)
    requires segs != []
    ensures k < |segs|
  {
    if |segs| > 1 && segs[1].start <= safe then 1 + Removed(segs[1..], safe) else 0
  }

  /** begin has the LSN of its record, and only then takes the lock and enters the transaction. */
  function Registered(l: Log, tx: nat): Log
    requires tx in l.begun
  {
    l.(begun := l.begun - {tx}, open := l.open[tx := l.begun[tx]], since := l.since[tx := l.next])
  }

  ghost predicate Next(l: Log, s: Step, m: Log)
    requires l.segs != []
  {
    Enabled(l, s) &&
    match s
    case Append(rotate) => m == Appended(l, rotate)
    case Begin(tx, rotate) => m == Appended(l, rotate).(begun := l.begun[tx := l.next])
    case Register(tx) => m == Registered(l, tx)
    case Leave(tx) => m == l.(open := l.open - {tx}, since := l.since - {tx})
    case Note => m == l.(noted := Some(l.next))
    case Truncate => exists safe :: Safe(l, safe) && m == Cut(l, safe)
  }

  function Cut(l: Log, safe: nat): Log
    requires l.segs != [] && l.noted.Some?
  {
    l.(segs := l.segs[Removed(l.segs, safe)..], noted := None, saved := l.noted.value)
  }

  // ── The invariant ──

  ghost predicate Partition(l: Log) {
    && l.segs != []
    && (forall i :: 0 <= i < |l.segs| - 1 ==> l.segs[i + 1].start == l.segs[i].start + l.segs[i].count)
    && l.next == l.segs[|l.segs| - 1].start + l.segs[|l.segs| - 1].count
  }

  ghost predicate Inv(l: Log) {
    && Partition(l)
    && 1 <= l.segs[0].start <= l.next
    && (l.segs[0].start <= l.saved || l.segs[0].start == 1) && l.saved <= l.next
    && (l.noted.Some? ==> l.saved <= l.noted.value <= l.next && l.segs[0].start <= l.noted.value)
    && l.since.Keys == l.open.Keys
    && (forall tx :: tx in l.open ==> l.open[tx] < l.since[tx] <= l.next && l.segs[0].start <= l.since[tx])
    && (forall tx :: tx in l.begun ==> l.begun[tx] < l.next)
  }

  /** A record is on disk when some segment covers its LSN. */
  ghost predicate OnDisk(l: Log, lsn: nat) {
    exists i :: 0 <= i < |l.segs| && l.segs[i].start <= lsn < l.segs[i].start + l.segs[i].count
  }

  /** Segments that partition a range of LSNs cover all of it. */
  lemma {:induction false} Covered(l: Log, lsn: nat)
    requires Partition(l) && l.segs[0].start <= lsn < l.next
    ensures OnDisk(l, lsn)
    decreases |l.segs|
  {
    if lsn < l.segs[0].start + l.segs[0].count {
    } else {
      assert |l.segs| > 1;
      var m := l.(segs := l.segs[1..]);
      PartitionTail(l, 1);
      Covered(m, lsn);
      var i :| 0 <= i < |m.segs| && m.segs[i].start <= lsn < m.segs[i].start + m.segs[i].count;
      assert m.segs[i] == l.segs[i + 1];
    }
  }

  lemma {:induction false} PartitionTail(l: Log, k: nat)
    requires Partition(l) && k < |l.segs|
    ensures Partition(l.(segs := l.segs[k..]))
  {
    var s := l.segs[k..];
    forall i | 0 <= i < |s| - 1 ensures s[i + 1].start == s[i].start + s[i].count {
      assert l.segs[k + i + 1].start == l.segs[k + i].start + l.segs[k + i].count;
    }
  }

  lemma {:induction false} RemovedStarts(segs: seq<Seg>, safe: nat)
    requires segs != []
    ensures Removed(segs, safe) > 0 ==> segs[Removed(segs, safe)].start <= safe
    ensures Removed(segs, safe) == 0 ==> segs[Removed(segs, safe)] == segs[0]
  {
    if |segs| > 1 && segs[1].start <= safe { RemovedStarts(segs[1..], safe); }
  }

  lemma {:induction false} AppendedOk(l: Log, rotate: bool)
    requires Partition(l)
    ensures Partition(Appended(l, rotate)) && Appended(l, rotate).segs[0].start == l.segs[0].start
  {
    var m := Appended(l, rotate);
    forall i | 0 <= i < |m.segs| - 1 ensures m.segs[i + 1].start == m.segs[i].start + m.segs[i].count {
      if i < |l.segs| - 1 { assert l.segs[i + 1].start == l.segs[i].start + l.segs[i].count; }
    }
  }

  lemma {:induction false} AppendInv(l: Log, rotate: bool)
    requires Inv(l)
    ensures Inv(Appended(l, rotate))
  {
    AppendedOk(l, rotate);
  }

  lemma {:induction false} TruncateInv(l: Log, safe: nat)
    requires Inv(l) && l.noted.Some? && Safe(l, safe)
    ensures Inv(Cut(l, safe))
  {
    RemovedStarts(l.segs, safe);
    PartitionTail(l, Removed(l.segs, safe));
    StartsAscend(l, Removed(l.segs, safe));
  }

  lemma {:induction false} StartsAscend(l: Log, i: nat)
    requires Partition(l) && i < |l.segs|
    ensures l.segs[0].start <= l.segs[i].start
  {
    if i > 0 { StartsAscend(l, i - 1); }
  }

  lemma {:induction false} RegisteredInv(l: Log, s: Step, m: Log)
    requires Inv(l) && Next(l, s, m) && (s.Register? || s.Leave? || s.Note?)
    ensures Inv(m)
  {
  }

  lemma {:induction false} StepInv(l: Log, s: Step, m: Log)
    requires Inv(l) && Next(l, s, m)
    ensures Inv(m)
  {
    match s
    case Append(rotate) => AppendInv(l, rotate);
    case Begin(tx, rotate) => AppendInv(l, rotate);
    case Truncate =>
      var safe :| Safe(l, safe) && m == Cut(l, safe);
      TruncateInv(l, safe);
    case _ => RegisteredInv(l, s, m);
  }

  /** A run lists its states. */
  ghost predicate Run(states: seq<Log>, steps: seq<Step>) {
    && |states| == |steps| + 1
    && states[0] == NEW_LOG
    && forall i :: 0 <= i < |steps| ==> states[i].segs != [] && Next(states[i], steps[i], states[i + 1])
  }

  lemma {:induction false} RunInv(states: seq<Log>, steps: seq<Step>, i: nat)
    requires Run(states, steps) && i < |states|
    ensures Inv(states[i])
  {
    if i > 0 {
      RunInv(states, steps, i - 1);
      StepInv(states[i - 1], steps[i - 1], states[i]);
    }
  }

  /**
   In every state of every run, each record from the saved checkpoint LSN on, and each written since an
   open transaction was registered, is still on disk.
   */
  lemma {:induction false} TruncationSafe(states: seq<Log>, steps: seq<Step>, i: nat, lsn: nat)
    requires Run(states, steps) && i < |states| && 1 <= lsn < states[i].next
    requires states[i].saved <= lsn || exists tx :: tx in states[i].since && states[i].since[tx] <= lsn
    ensures OnDisk(states[i], lsn)
  {
    RunInv(states, steps, i);
    Covered(states[i], lsn);
  }

  /** A truncation removes all that it may: of two segments left, the second begins behind the safe LSN. */
  lemma {:induction false} RemovedAll(segs: seq<Seg>, safe: nat)
    requires segs != []
    ensures var left := segs[Removed(segs, safe)..]; |left| > 1 ==> left[1].start > safe
  {
    if |segs| > 1 && segs[1].start <= safe {
      RemovedAll(segs[1..], safe);
      assert segs[Removed(segs, safe)..] == segs[1..][Removed(segs[1..], safe)..];
    }
  }

  // ── The LSN that is saved ──

  /** Step j is the last note before step i, and no checkpoint has been finished since. */
  ghost predicate LastNote(steps: seq<Step>, j: nat, i: nat) {
    j < i <= |steps| && steps[j].Note? && forall k :: j < k < i ==> !steps[k].Note? && !steps[k].Truncate?
  }

  /** What a checkpoint in progress holds is the next LSN as it was when it began. */
  lemma {:induction false} NotedWhen(states: seq<Log>, steps: seq<Step>, i: nat) returns (j: nat)
    requires Run(states, steps) && i < |states| && states[i].noted.Some?
    ensures LastNote(steps, j, i) && states[i].noted == Some(states[j].next)
  {
    assert i > 0 && Next(states[i - 1], steps[i - 1], states[i]);
    if steps[i - 1].Note? {
      j := i - 1;
    } else {
      j := NotedWhen(states, steps, i - 1);
    }
  }

  /**
   Over every run, what a checkpoint saves is the LSN of the next record as it was when the checkpoint began,
   whatever was written while it went on; and nothing else ever changes what is saved.
   */
  lemma {:induction false} SavedIsNoted(states: seq<Log>, steps: seq<Step>, i: nat) returns (j: nat)
    requires Run(states, steps) && i < |steps|
    ensures steps[i].Truncate? ==> LastNote(steps, j, i) && states[i + 1].saved == states[j].next && states[i + 1].noted == None
    ensures !steps[i].Truncate? ==> states[i + 1].saved == states[i].saved
  {
    j := 0;
    assert Next(states[i], steps[i], states[i + 1]);
    if steps[i].Truncate? { j := NotedWhen(states, steps, i); }
  }

  /**
   Over every run, a checkpoint leaves nothing behind that could go: if more than one segment is left, then the
   second begins behind the saved LSN or behind the begin record of an open transaction.
   */
  lemma {:induction false} NothingSpare(states: seq<Log>, steps: seq<Step>, i: nat)
    requires Run(states, steps) && i < |steps| && steps[i].Truncate?
    ensures var m := states[i + 1];
            |m.segs| > 1 ==> m.saved < m.segs[1].start || exists tx :: tx in m.open && m.open[tx] < m.segs[1].start
  {
    var l, m := states[i], states[i + 1];
    assert Next(l, steps[i], m);
    var safe :| Safe(l, safe) && m == Cut(l, safe);
    RemovedAll(l.segs, safe);
  }

  // ── Begin records ──

  /** The begin record of every transaction that is not finished is still on disk. */
  ghost predicate BeginsKept(l: Log)
    requires l.segs != []
  {
    && (forall tx :: tx in l.open ==> l.segs[0].start <= l.open[tx])
    && (forall tx :: tx in l.begun ==> l.segs[0].start <= l.begun[tx])
  }

  /** No transaction waits to be registered whose begin record is in a segment that goes. */
  ghost predicate Spares(l: Log, safe: nat)
    requires l.segs != []
  {
    forall tx :: tx in l.begun ==> l.segs[Removed(l.segs, safe)].start <= l.begun[tx]
  }

  /** A truncation keeps all begin records if and only if it spares the transactions about to be registered. */
  lemma {:induction false} BeginsExact(l: Log, safe: nat)
    requires Inv(l) && BeginsKept(l) && l.noted.Some? && Safe(l, safe)
    ensures BeginsKept(Cut(l, safe)) <==> Spares(l, safe)
  {
    RemovedStarts(l.segs, safe);
    var k := Removed(l.segs, safe);
    forall tx | tx in l.open ensures l.segs[k].start <= l.open[tx] {
      if k > 0 { assert l.segs[k].start <= safe; }
    }
  }

  /** Every truncation of the run spares the transactions about to be registered. */
  ghost predicate Careful(states: seq<Log>, steps: seq<Step>)
    requires Run(states, steps)
  {
    forall i :: 0 <= i < |steps| && steps[i].Truncate? ==> CarefulAt(states[i])
  }

  ghost predicate CarefulAt(l: Log)
    requires l.segs != []
  {
    l.noted.Some? && forall safe :: Safe(l, safe) ==> Spares(l, safe)
  }

  lemma {:induction false} BeginsStep(l: Log, s: Step, m: Log)
    requires Inv(l) && BeginsKept(l) && Next(l, s, m) && (s.Truncate? ==> CarefulAt(l))
    ensures m.segs != [] && BeginsKept(m)
  {
    match s
    case Append(rotate) => AppendedOk(l, rotate);
    case Begin(tx, rotate) => AppendedOk(l, rotate);
    case Register(tx) =>
    case Leave(tx) =>
    case Note =>
    case Truncate =>
      var safe :| Safe(l, safe) && m == Cut(l, safe);
      BeginsExact(l, safe);
  }

  /** In a run of such truncations, each record from the begin record of an open transaction on is on disk. */
  lemma {:induction false} BeginsSafe(states: seq<Log>, steps: seq<Step>, i: nat, lsn: nat)
    requires Run(states, steps) && Careful(states, steps) && i < |states| && 1 <= lsn < states[i].next
    requires exists tx :: tx in states[i].open && states[i].open[tx] <= lsn
    ensures OnDisk(states[i], lsn)
  {
    BeginsRun(states, steps, i);
    Covered(states[i], lsn);
  }

  lemma {:induction false} BeginsRun(states: seq<Log>, steps: seq<Step>, i: nat)
    requires Run(states, steps) && Careful(states, steps) && i < |states|
    ensures Inv(states[i]) && BeginsKept(states[i])
  {
    RunInv(states, steps, i);
    if i > 0 {
      BeginsRun(states, steps, i - 1);
      assert Next(states[i - 1], steps[i - 1], states[i]);
      BeginsStep(states[i - 1], steps[i - 1], states[i]);
    }
  }

  /**
   A run in which it is not: the begin record is written, the log goes on in a new segment, a checkpoint
   starts and finishes, and only then the transaction is registered.
   */
  lemma {:induction false} BeginLost() returns (states: seq<Log>, steps: seq<Step>)
    ensures Run(states, steps) && |steps| == 5
    ensures states[5].open == map[1 := 1] && !OnDisk(states[5], 1)
  {
    var a := Appended(NEW_LOG, false).(begun := map[1 := 1]);
    var b := Appended(a, true);
    var c := b.(noted := Some(3));
    var d := Cut(c, 3);
    steps := [Begin(1, false), Append(true), Note, Truncate, Register(1)];
    states := [NEW_LOG, a, b, c, d, Registered(d, 1)];
    assert b.segs == [Seg(1, 1), Seg(2, 1)] && b.next == 3;
    assert b.segs[1..] == [Seg(2, 1)] && Removed(b.segs[1..], 3) == 0 && Removed(c.segs, 3) == 1;
    assert Safe(c, 3) && Next(c, Truncate, d);
  }
}
