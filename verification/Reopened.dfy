/**
 Recovery as the program runs it.  The second pass reads through the reader left over from the first,
 whose list of segments then names every segment twice, each next to itself once sorted.  Reading ends
 for good where a segment is torn, and a pass also ends at the recovery target.
 */
module Reopened {
  import opened Options
  import opened Sequences
  import opened Mvcc
  import opened Replay

  /** What one segment yields: its whole records, and whether garbage follows them. */
  datatype Seg<T> = Seg(entries: seq<T>, torn: bool)

  /** Everything a fresh reader of these segments returns. */
  function Read<T>(segs: seq<Seg<T>>): seq<T> {
    if segs == [] then []
    else if segs[0].torn then segs[0].entries
    else segs[0].entries + Read(segs[1..])
  }

  /** The list after the reader was opened a second time. */
  function Doubled<T>(segs: seq<Seg<T>>): seq<Seg<T>> {
    if segs == [] then [] else [segs[0], segs[0]] + Doubled(segs[1..])
  }

  function RecoverAsCoded(segs: seq<Seg<Entry>>, ckpt: nat, target: Option<nat>, tables: nat): seq<Redo> {
    var commits := Commits(Prefix(Read(segs), ckpt, target), ckpt);
    Redos(Prefix(Read(Doubled(segs)), ckpt, target), ckpt, commits, tables)
  }

  /** Both passes, over what the reader returns in each. */
  method RecoverLog(segs: seq<Seg<Entry>>, ckpt: nat, target: Option<nat>, tables: nat) returns (redos: seq<Redo>)
    ensures redos == RecoverAsCoded(segs, ckpt, target, tables)
  {
    var commits := CollectCommits(Read(segs), ckpt, target);
    redos := ApplyInserts(Read(Doubled(segs)), ckpt, target, commits, tables);
  }

  // ── Where a pass ends ──

  /** A pass ends inside this segment. */
  predicate EndsIn(s: Seg<Entry>, ckpt: nat, target: Option<nat>) {
    s.torn || exists e :: e in s.entries && Stops(e, ckpt, target)
  }

  /** The segments before the one in which the pass ends; all of them if it ends in none. */
  function Passed(segs: seq<Seg<Entry>>, ckpt: nat, target: Option<nat>): seq<Seg<Entry>> {
    if segs == [] || EndsIn(segs[0], ckpt, target) then [] else [segs[0]] + Passed(segs[1..], ckpt, target)
  }

  /** The records of segments read through. */
  function Flat(segs: seq<Seg<Entry>>): seq<Entry> { if segs == [] then [] else segs[0].entries + Flat(segs[1..]) }

  /** What is read of the segment in which the pass ends. */
  function Rest(segs: seq<Seg<Entry>>, ckpt: nat, target: Option<nat>): seq<Entry> {
    if segs == [] then []
    else if EndsIn(segs[0], ckpt, target) then Prefix(segs[0].entries, ckpt, target)
    else Rest(segs[1..], ckpt, target)
  }

  lemma {:induction false} PrefixThrough(a: seq<Entry>, b: seq<Entry>, ckpt: nat, target: Option<nat>)
    requires forall e :: e in a ==> !Stops(e, ckpt, target)
    ensures Prefix(a + b, ckpt, target) == a + Prefix(b, ckpt, target)
  {
    if a == [] {
      assert a + b == b;
    } else {
      assert a[0] in a && (a + b)[1..] == a[1..] + b;
      PrefixThrough(a[1..], b, ckpt, target);
      ConcatAssoc([a[0]], a[1..], Prefix(b, ckpt, target));
      assert a == [a[0]] + a[1..];
    }
  }

  lemma {:induction false} PrefixEnds(a: seq<Entry>, b: seq<Entry>, ckpt: nat, target: Option<nat>)
    requires exists e :: e in a && Stops(e, ckpt, target)
    ensures Prefix(a + b, ckpt, target) == Prefix(a, ckpt, target)
  {
    assert (a + b)[0] == a[0];
    if !Stops(a[0], ckpt, target) {
      assert (a + b)[1..] == a[1..] + b && a == [a[0]] + a[1..];
      PrefixEnds(a[1..], b, ckpt, target);
    }
  }

  /** One pass over a list of segments. */
  lemma {:induction false} FirstPass(segs: seq<Seg<Entry>>, ckpt: nat, target: Option<nat>)
    ensures Prefix(Read(segs), ckpt, target) == Flat(Passed(segs, ckpt, target)) + Rest(segs, ckpt, target)
  {
    if segs != [] {
      var s, tail := segs[0], segs[1..];
      if EndsIn(s, ckpt, target) {
        if !s.torn { PrefixEnds(s.entries, Read(tail), ckpt, target); }
      } else {
        FirstPass(tail, ckpt, target);
        PrefixThrough(s.entries, Read(tail), ckpt, target);
        FlatCons(s, Passed(tail, ckpt, target));
        ConcatAssoc(s.entries, Flat(Passed(tail, ckpt, target)), Rest(tail, ckpt, target));
      }
    }
  }

  lemma FlatCons(s: Seg<Entry>, segs: seq<Seg<Entry>>)
    ensures Flat([s] + segs) == s.entries + Flat(segs)
  {
    assert ([s] + segs)[1..] == segs;
  }

  /** The second pass reads every segment passed twice and the last one once. */
  lemma {:induction false} SecondPass(segs: seq<Seg<Entry>>, ckpt: nat, target: Option<nat>)
    ensures Prefix(Read(Doubled(segs)), ckpt, target) ==
            Flat(Doubled(Passed(segs, ckpt, target))) + Rest(segs, ckpt, target)
  {
    if segs != [] {
      var s, tail := segs[0], segs[1..];
      assert segs == [s] + tail;
      DoubledRead(s, tail);
      if EndsIn(s, ckpt, target) {
        if !s.torn { PrefixEnds(s.entries, s.entries + Read(Doubled(tail)), ckpt, target); }
      } else {
        var p, r := Passed(tail, ckpt, target), Rest(tail, ckpt, target);
        SecondPass(tail, ckpt, target);
        PrefixThrough(s.entries, s.entries + Read(Doubled(tail)), ckpt, target);
        PrefixThrough(s.entries, Read(Doubled(tail)), ckpt, target);
        DoubledFlat(s, p);
        ConcatAssoc(s.entries, Flat(Doubled(p)), r);
        ConcatAssoc(s.entries, s.entries + Flat(Doubled(p)), r);
      }
    }
  }

  lemma DoubledRead(s: Seg<Entry>, tail: seq<Seg<Entry>>)
    ensures Read(Doubled([s] + tail)) ==
            if s.torn then s.entries else s.entries + (s.entries + Read(Doubled(tail)))
  {
    assert ([s] + tail)[1..] == tail;
    var d := [s, s] + Doubled(tail);
    assert d[1..] == [s] + Doubled(tail);
    assert d[1..][0] == s && d[1..][1..] == Doubled(tail);
  }

  lemma DoubledFlat(s: Seg<Entry>, p: seq<Seg<Entry>>)
    ensures Flat(Doubled([s] + p)) == s.entries + (s.entries + Flat(Doubled(p)))
  {
    assert ([s] + p)[1..] == p;
    var d := [s, s] + Doubled(p);
    assert d[1..] == [s] + Doubled(p);
    FlatCons(s, Doubled(p));
  }

  // ── What is applied, and how often ──

  lemma {:induction false} DoubledRedos(segs: seq<Seg<Entry>>, ckpt: nat, commits: map<nat, nat>, tables: nat)
    ensures multiset(Redos(Flat(Doubled(segs)), ckpt, commits, tables)) ==
            multiset(Redos(Flat(segs), ckpt, commits, tables)) + multiset(Redos(Flat(segs), ckpt, commits, tables))
  {
    if segs != [] {
      var s, tail := segs[0], segs[1..];
      assert segs == [s] + tail;
      DoubledFlat(s, tail);
      DoubledRedos(tail, ckpt, commits, tables);
      RedosConcat(s.entries, s.entries + Flat(Doubled(tail)), ckpt, commits, tables);
      RedosConcat(s.entries, Flat(Doubled(tail)), ckpt, commits, tables);
      RedosConcat(s.entries, Flat(tail), ckpt, commits, tables);
    }
  }

  /** What the second pass applies beyond what it should: the redos of all segments it passed. */
  function Again(segs: seq<Seg<Entry>>, ckpt: nat, target: Option<nat>, tables: nat): seq<Redo> {
    Redos(Flat(Passed(segs, ckpt, target)), ckpt, Commits(Prefix(Read(segs), ckpt, target), ckpt), tables)
  }

  lemma {:induction false} CodedBag(segs: seq<Seg<Entry>>, ckpt: nat, target: Option<nat>, tables: nat)
    ensures multiset(RecoverAsCoded(segs, ckpt, target, tables)) ==
            multiset(Recover(Read(segs), ckpt, target, tables)) + multiset(Again(segs, ckpt, target, tables))
    ensures Again(segs, ckpt, target, tables) <= Recover(Read(segs), ckpt, target, tables)
  {
    var p, r := Passed(segs, ckpt, target), Rest(segs, ckpt, target);
    var commits := Commits(Prefix(Read(segs), ckpt, target), ckpt);
    FirstPass(segs, ckpt, target);
    SecondPass(segs, ckpt, target);
    RedosConcat(Flat(p), r, ckpt, commits, tables);
    RedosConcat(Flat(Doubled(p)), r, ckpt, commits, tables);
    DoubledRedos(p, ckpt, commits, tables);
  }

  lemma SameMembers(got: seq<Redo>, want: seq<Redo>, again: seq<Redo>)
    requires multiset(got) == multiset(want) + multiset(again) && again <= want
    ensures forall r :: r in got <==> r in want
    ensures multiset(got) == multiset(want) <==> again == []
  {
    forall r ensures r in got <==> r in want {
      assert r in got <==> r in multiset(got);
      assert r in want <==> r in multiset(want);
      assert r in again ==> r in want;
      assert r in again <==> r in multiset(again);
    }
    if again != [] { assert multiset(again)[again[0]] > 0; }
  }

  /**
   As coded, and for every target time and torn log, replay applies the right insertions, but those in
   segments read to their end are applied twice.  It is right if and only if no insertion that
   replay applies lies in a segment before the one in which the pass ends.
   */
  lemma {:induction false} AppliedTwice(segs: seq<Seg<Entry>>, ckpt: nat, target: Option<nat>, tables: nat)
    ensures var got, want := RecoverAsCoded(segs, ckpt, target, tables), Recover(Read(segs), ckpt, target, tables);
            var p := Prefix(Read(segs), ckpt, target);
            && (forall r :: r in got <==> r in want)
            && Again(segs, ckpt, target, tables) <= want
            && multiset(got) == multiset(want) + multiset(Again(segs, ckpt, target, tables))
            && (multiset(got) == multiset(want) <==>
                  forall e :: e in Flat(Passed(segs, ckpt, target)) ==> !Applies(e, p, ckpt, tables))
  {
    var got, want := RecoverAsCoded(segs, ckpt, target, tables), Recover(Read(segs), ckpt, target, tables);
    CodedBag(segs, ckpt, target, tables);
    SameMembers(got, want, Again(segs, ckpt, target, tables));
    AgainEmpty(segs, ckpt, target, tables);
  }

  lemma {:induction false} AgainEmpty(segs: seq<Seg<Entry>>, ckpt: nat, target: Option<nat>, tables: nat)
    ensures Again(segs, ckpt, target, tables) == [] <==>
            forall e :: e in Flat(Passed(segs, ckpt, target)) ==> !Applies(e, Prefix(Read(segs), ckpt, target), ckpt, tables)
  {
    var p := Prefix(Read(segs), ckpt, target);
    var commits, passed := Commits(p, ckpt), Flat(Passed(segs, ckpt, target));
    NoRedos(passed, ckpt, commits, tables);
    if Again(segs, ckpt, target, tables) == [] {
      forall e | e in passed ensures !Applies(e, p, ckpt, tables) { AppliesMeans(e, p, ckpt, tables); }
    } else {
      var e :| e in passed && Redone(e, ckpt, commits, tables);
      AppliesMeans(e, p, ckpt, tables);
      assert e in Flat(Passed(segs, ckpt, target)) && Applies(e, p, ckpt, tables);
    }
  }

  // ── What holds of recovery as coded ──

  /** Recovery to a target time applies what recovery of the log before the first later record would. */
  lemma {:induction false} TargetAsCoded(segs: seq<Seg<Entry>>, ckpt: nat, target: Option<nat>, tables: nat, r: Redo)
    ensures r in RecoverAsCoded(segs, ckpt, target, tables) <==>
            r in Recover(Prefix(Read(segs), ckpt, target), ckpt, None, tables)
  {
    AppliedTwice(segs, ckpt, target, tables);
    TargetIsPrefix(Read(segs), ckpt, target, tables);
  }

  /** And in terms of LSNs and times: just the insertions in time whose transactions have committed in time. */
  lemma {:induction false} CodedInTime(segs: seq<Seg<Entry>>, ckpt: nat, target: Option<nat>, tables: nat, r: Redo)
    requires Closed(Read(segs)) && TimesAscend(Read(segs))
    ensures r in RecoverAsCoded(segs, ckpt, target, tables) <==>
            exists i, j :: Replays(Read(segs), ckpt, target, tables, i, j, r)
  {
    AppliedTwice(segs, ckpt, target, tables);
    RecoverInTime(Read(segs), ckpt, target, tables, r);
  }

  lemma {:induction false} InPick(rs: seq<Redo>, tx: nat, r: Redo)
    ensures r in Pick(rs, tx) <==> r in rs && r.tx == tx
  {
    if rs != [] {
      var n := |rs| - 1;
      InPick(rs[..n], tx, r);
      assert rs == rs[..n] + [rs[n]];
    }
  }

  /** Transactions are applied all or none: each insertion, with its commit timestamp, at least once. */
  lemma {:induction false} AllOrNoneAsCoded(segs: seq<Seg<Entry>>, ckpt: nat, target: Option<nat>, tables: nat, tx: nat, r: Redo)
    requires Closed(Read(segs)) && AllLater(Read(segs), ckpt, tx) && r.tx == tx
    ensures var es, p := Read(segs), Prefix(Read(segs), ckpt, target);
            && (forall i :: 0 <= i < |p| && IsCommit(p[i], tx) ==>
                  (r in RecoverAsCoded(segs, ckpt, target, tables) <==> r in Own(es, tx, p[i].rec.ts, tables)))
            && ((forall e :: e in p ==> !IsCommit(e, tx)) ==> r !in RecoverAsCoded(segs, ckpt, target, tables))
  {
    AppliedTwice(segs, ckpt, target, tables);
    AllOrNone(Read(segs), ckpt, target, tables, tx);
    InPick(Recover(Read(segs), ckpt, target, tables), tx, r);
  }

  // ── A row recovered twice ──

  function OneRow(row: Tables.Row): seq<Entry> {
    [Entry(1, 0, BeginRec(1)), Entry(2, 0, InsertRec(1, 0, row)), Entry(3, 0, CommitRec(1, 1))]
  }

  /** One transaction with one insertion, in one whole segment: recovery does not give what it should. */
  lemma {:induction false} RowTwice(row: Tables.Row)
    ensures var segs := [Seg(OneRow(row), false)];
            multiset(RecoverAsCoded(segs, 0, None, 1)) != multiset(Recover(Read(segs), 0, None, 1))
  {
    var es := OneRow(row);
    var segs := [Seg(es, false)];
    assert segs[1..] == [] && es + [] == es;
    PrefixPlain(es, 0);
    assert es[1] in es && es[2] in es && IsCommit(es[2], 1);
    assert Applies(es[1], es, 0, 1);
    assert !EndsIn(segs[0], 0, None);
    FlatCons(segs[0], []);
    assert Passed(segs, 0, None) == [segs[0]] + [];
    AppliedTwice(segs, 0, None, 1);
  }
}
