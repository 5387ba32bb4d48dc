/**
 Every index that a sequence of insertions can build, duplicates included: its shape, its contents,
 and what a search in it returns.
 */
module IndexHistory {
  import opened Options
  import opened BPlusTree

  /** The height of the leftmost leaf; all leaves of an ordered tree share it. */
  function Height(t: Tree): nat
    requires Shaped(t)
  {
    if t.Leaf? then 0 else 1 + Height(t.kids[0])
  }

  lemma {:induction false} OrderedHeight(t: Tree, h: nat)
    requires Ordered(t, h) && Shaped(t)
    ensures h == Height(t)
  {
    if t.Inner? { OrderedHeight(t.kids[0], h - 1); }
  }

  /** The index after inserting the entries of hist in order, starting from one empty leaf. */
  function Build(hist: seq<Entry>): (x: Index)
    ensures Shaped(x.tree)
  {
    if hist == [] then
      EMPTY
    else
      var n := |hist| - 1;
      var x := Build(hist[..n]);
      InsertShaped(x.tree, hist[n].key, hist[n].row, x.pages);
      InsertRoot(x, hist[n].key, hist[n].row)
  }

  /** Ordered, balanced and well filled, on pages that are each used exactly once. */
  ghost predicate Sound(x: Index) {
    && Shaped(x.tree)
    && Ordered(x.tree, Height(x.tree))
    && Filled(x.tree, true)
    && forall p :: Uses(x.tree, p) == Between(0, x.pages, p)
  }

  /** The tree a root insertion makes of its (possibly split) result. */
  function Rooted(r: Ins): Index {
    if r.split.None? then Index(r.left, r.next)
    else Index(Inner(r.next, [r.left, r.split.value.right], [r.split.value.sep]), r.next + 1)
  }

  lemma {:induction false} RootedOrdered(r: Ins, h: nat)
    requires OrderedIns(r, h) && ShapedIns(r)
    ensures Shaped(Rooted(r).tree)
    ensures Ordered(Rooted(r).tree, Height(Rooted(r).tree))
    ensures Ents(Rooted(r).tree) == InsEnts(r)
  {
    var t := Rooted(r).tree;
    if r.split.Some? {
      PartsEnts(r);
      assert t.kids == Parts(r);
      assert Links(t.kids, t.seps);
      assert Ordered(t, h + 1);
      OrderedHeight(t, h + 1);
    } else {
      OrderedHeight(t, h);
    }
  }

  lemma {:induction false} RootedUses(r: Ins, p: nat)
    ensures var x := Rooted(r);
            r.next <= x.pages && Uses(x.tree, p) == InsUses(r, p) + Between(r.next, x.pages, p)
  {
    if r.split.Some? {
      PartsUses(r, p);
      assert Rooted(r).tree.kids == Parts(r);
    }
  }

  lemma {:induction false} RootedFind(r: Ins, q: int)
    requires ShapedIns(r) && Shaped(Rooted(r).tree)
    ensures Find(Rooted(r).tree, q) == FindIns(r, q)
  {
    if r.split.Some? {
      RouteUnique([r.split.value.sep], q, if r.split.value.sep <= q then 1 else 0);
    }
  }

  /** One root insertion keeps the index sound and adds one entry. */
  lemma {:induction false} InsertRootSound(x: Index, k: int, v: nat)
    requires Sound(x)
    ensures Sound(InsertRoot(x, k, v))
    ensures Added(Ents(x.tree), Ents(InsertRoot(x, k, v).tree), Entry(k, v))
  {
    var t, h := x.tree, Height(x.tree);
    var r := Insert(t, k, v, x.pages);
    assert InsertRoot(x, k, v) == Rooted(r);
    InsertShaped(t, k, v, x.pages);
    InsertOrdered(t, h, k, v, x.pages);
    RootedOrdered(r, h);
    forall p ensures Uses(Rooted(r).tree, p) == Between(0, Rooted(r).pages, p) {
      InsertUses(t, k, v, x.pages, p);
      RootedUses(r, p);
    }
    InsertFilled(t, true, k, v, x.pages);
    RootedFilled(r);
  }

  lemma {:induction false} RootedFilled(r: Ins)
    requires FilledIns(r, true)
    ensures Filled(Rooted(r).tree, true)
  {
  }

  /** One root insertion keeps every search result, up to its front. */
  lemma {:induction false} InsertRootFind(x: Index, k: int, v: nat, q: int)
    requires Sound(x) && Shaped(InsertRoot(x, k, v).tree)
    ensures Kept((if q == k then [v] else []) + Find(x.tree, q), Find(InsertRoot(x, k, v).tree, q))
  {
    var r := Insert(x.tree, k, v, x.pages);
    assert InsertRoot(x, k, v) == Rooted(r);
    InsertShaped(x.tree, k, v, x.pages);
    InsertFind(x.tree, Height(x.tree), k, v, x.pages, q);
    RootedFind(r, q);
  }

  /** Every index that insertions can build is sound and holds exactly what was inserted. */
  lemma {:induction false} BuildSound(hist: seq<Entry>)
    ensures Sound(Build(hist))
    ensures multiset(Ents(Build(hist).tree)) == multiset(hist)
  {
    if hist != [] {
      var n := |hist| - 1;
      var pre, e := hist[..n], hist[n];
      assert hist == pre + [e];
      BuildSound(pre);
      BuildStep(pre, e);
      InsertRootSound(Build(pre), e.key, e.row);
    }
  }

  lemma {:induction false} BuildStep(hist: seq<Entry>, e: Entry)
    ensures Build(hist + [e]) == InsertRoot(Build(hist), e.key, e.row)
  {
    assert (hist + [e])[..|hist|] == hist;
  }

  /** found is what a search may answer when rows were inserted under its key, oldest first. */
  ghost predicate Answers(found: seq<nat>, rows: seq<nat>) {
    && (found != [] <==> rows != [])
    && multiset(found) <= multiset(rows)
    && (rows != [] ==> found[|found| - 1] == rows[0])
  }

  lemma {:induction false} AnswersStep(found: seq<nat>, rows: seq<nat>, d: seq<nat>, now: seq<nat>)
    requires Answers(found, rows) && |d| <= 1 && Kept(d + found, now)
    ensures Answers(now, rows + d)
  {
    AnswersLast(found, rows, d, now);
    assert multiset(now) <= multiset(rows + d) by {
      SuffixLess(d + found, now);
      assert multiset(d + found) == multiset(d) + multiset(found);
      assert multiset(rows + d) == multiset(rows) + multiset(d);
    }
  }

  lemma {:induction false} AnswersLast(found: seq<nat>, rows: seq<nat>, d: seq<nat>, now: seq<nat>)
    requires (found != [] <==> rows != []) && |d| <= 1 && Kept(d + found, now)
    requires rows != [] ==> found[|found| - 1] == rows[0]
    ensures now != [] <==> rows + d != []
    ensures rows + d != [] ==> now[|now| - 1] == (rows + d)[0]
  {
    if rows == [] {
      assert rows + d == d && d + found == d;
    }
  }

  lemma {:induction false} SuffixLess(was: seq<nat>, now: seq<nat>)
    requires |now| <= |was| && was[|was| - |now|..] == now
    ensures multiset(now) <= multiset(was)
    ensures now != [] ==> now[|now| - 1] == was[|was| - 1]
  {
    var cut := |was| - |now|;
    assert was == was[..cut] + now;
    assert multiset(was) == multiset(was[..cut]) + multiset(now);
  }

  lemma {:induction false} RunStep(hist: seq<Entry>, e: Entry, k: int)
    ensures Run(hist + [e], k) == Run(hist, k) + if k == e.key then [e.row] else []
  {
    RunConcat(hist, [e], k);
    assert [e][1..] == [];
  }

  /**
   A search for k succeeds exactly when k was ever inserted.  It returns only rows inserted under
   k, none more often than it was inserted, and always the one inserted first, in last place.
   */
  lemma {:induction false} SearchMeaning(hist: seq<Entry>, k: int)
    ensures Find(Build(hist).tree, k) != [] <==> HasKey(hist, k)
    ensures forall r :: r in Find(Build(hist).tree, k) ==> Entry(k, r) in hist
    ensures Answers(Find(Build(hist).tree, k), Run(hist, k))
  {
    SearchAnswers(hist, k);
    RunHasKey(hist, k);
    forall r | r in Find(Build(hist).tree, k) ensures r in Run(hist, k) {
      assert r in multiset(Find(Build(hist).tree, k));
    }
  }

  lemma {:induction false} SearchAnswers(hist: seq<Entry>, k: int)
    ensures Answers(Find(Build(hist).tree, k), Run(hist, k))
  {
    if hist != [] {
      var n := |hist| - 1;
      var e, pre := hist[n], hist[..n];
      assert hist == pre + [e];
      SearchAnswers(pre, k);
      BuildSound(pre);
      BuildStep(pre, e);
      InsertRootFind(Build(pre), e.key, e.row, k);
      RunStep(pre, e, k);
      AnswersStep(Find(Build(pre).tree, k), Run(pre, k), if k == e.key then [e.row] else [],
                  Find(Build(hist).tree, k));
    }
  }


  lemma {:induction false} RunUnique(hist: seq<Entry>, i: nat)
    requires i < |hist|
    requires forall j :: 0 <= j < |hist| && j != i ==> hist[j].key != hist[i].key
    ensures Run(hist, hist[i].key) == [hist[i].row]
  {
    var k := hist[i].key;
    assert hist == hist[..i] + [hist[i]] + hist[i + 1..];
    RunConcat(hist[..i] + [hist[i]], hist[i + 1..], k);
    RunStep(hist[..i], hist[i], k);
    RunHasKey(hist[..i], k);
    RunHasKey(hist[i + 1..], k);
  }

  /** With keys inserted once each, a search returns exactly the row of its key. */
  lemma {:induction false} SearchUnique(hist: seq<Entry>, i: nat)
    requires i < |hist|
    requires forall j :: 0 <= j < |hist| && j != i ==> hist[j].key != hist[i].key
    ensures Find(Build(hist).tree, hist[i].key) == [hist[i].row]
  {
    SearchAnswers(hist, hist[i].key);
    RunUnique(hist, i);
    OneAnswer(Find(Build(hist).tree, hist[i].key), hist[i].row);
  }

  lemma {:induction false} OneAnswer(found: seq<nat>, r: nat)
    requires Answers(found, [r])
    ensures found == [r]
  {
    assert multiset(found) + (multiset([r]) - multiset(found)) == multiset([r]);
    assert |multiset(found)| == |found|;
  }

  /** A tree of height h >= 1 holds at least 2 * 16^h entries, so a search descends that many levels. */
  lemma {:induction false} HeightBound(hist: seq<Entry>)
    ensures var h := Height(Build(hist).tree); h >= 1 ==> 2 * Pow16(h) <= |hist|
  {
    BuildSound(hist);
    var t := Build(hist).tree;
    var h := Height(t);
    if h >= 1 {
      assert OrderedKids(t.kids, t.seps, h);
      forall i | 0 <= i < |t.kids| ensures Pow16(h) <= |Ents(t.kids[i])| {
        SubtreeSize(t.kids[i], h - 1);
      }
      FlatAtLeast(t.kids, Pow16(h));
      MulMono(2, |t.kids|, Pow16(h));
      assert |multiset(Ents(t))| == |multiset(hist)|;
    }
  }

  // ── When a search returns every row of its key ──

  /** Some separator equal to k has entries of k on its left too. */
  ghost predicate Straddles(t: Tree, k: int)
    requires Shaped(t)
  {
    t.Inner? &&
    ((exists i :: 0 <= i < |t.seps| && t.seps[i] == k && HasKey(Ents(t.kids[i]), k)) ||
     (exists i :: 0 <= i < |t.kids| && Straddles(t.kids[i], k)))
  }

  lemma {:induction false} StraddlesHasKey(t: Tree, k: int)
    requires Shaped(t) && Straddles(t, k)
    ensures HasKey(Ents(t), k)
  {
    var i :| 0 <= i < |t.kids| &&
      ((i < |t.seps| && t.seps[i] == k && HasKey(Ents(t.kids[i]), k)) || Straddles(t.kids[i], k));
    if Straddles(t.kids[i], k) { StraddlesHasKey(t.kids[i], k); }
    var e :| e in Ents(t.kids[i]) && e.key == k;
    FlatMember(t.kids, e);
  }

  /** Left of the routed child lies nothing of k unless a separator straddles; right of it, nothing. */
  lemma {:induction false} Siblings(kids: seq<Tree>, seps: seq<int>, k: int, j: nat)
    requires Links(kids, seps) && j < |kids| && j != Route(seps, k)
    requires HasKey(Ents(kids[j]), k)
    ensures j < Route(seps, k) && seps[j] == k
  {
    var ci := Route(seps, k);
    var e :| e in Ents(kids[j]) && e.key == k;
    if j > ci {
      KidBounds(kids, seps, ci, j);
    } else {
      assert Link(kids[j], seps[j], kids[j + 1]);
    }
  }

  /** A search returns every row of k if and only if k straddles no separator. */
  lemma {:induction false} SearchComplete(t: Tree, h: nat, k: int)
    requires Ordered(t, h) && Shaped(t)
    ensures |Find(t, k)| <= |Run(Ents(t), k)|
    ensures |Find(t, k)| == |Run(Ents(t), k)| <==> !Straddles(t, k)
  {
    if t.Inner? {
      var ci := Route(t.seps, k);
      var l, r := Flat(t.kids[..ci]), Flat(t.kids[ci + 1..]);
      SearchComplete(t.kids[ci], h - 1, k);
      FlatAt(t.kids, ci);
      RunConcat(l + Ents(t.kids[ci]), r, k);
      RunConcat(l, Ents(t.kids[ci]), k);
      RunHasKey(l, k);
      RunHasKey(r, k);
      NothingRight(t, k);
      if HasKey(l, k) {
        LeftStraddles(t, k);
      } else {
        NoLeftNoStraddle(t, k);
      }
    }
  }

  lemma {:induction false} NothingRight(t: Tree, k: int)
    requires t.Inner? && Links(t.kids, t.seps)
    ensures !HasKey(Flat(t.kids[Route(t.seps, k) + 1..]), k)
  {
    var ci := Route(t.seps, k);
    forall e | e in Flat(t.kids[ci + 1..]) ensures e.key != k {
      FlatMember(t.kids[ci + 1..], e);
      var j :| 0 <= j < |t.kids[ci + 1..]| && e in Ents(t.kids[ci + 1..][j]);
      KidBounds(t.kids, t.seps, ci, ci + 1 + j);
    }
  }

  lemma {:induction false} LeftStraddles(t: Tree, k: int)
    requires t.Inner? && Links(t.kids, t.seps) && Shaped(t)
    requires HasKey(Flat(t.kids[..Route(t.seps, k)]), k)
    ensures Straddles(t, k)
  {
    var ci := Route(t.seps, k);
    var e :| e in Flat(t.kids[..ci]) && e.key == k;
    FlatMember(t.kids[..ci], e);
    var j :| 0 <= j < ci && e in Ents(t.kids[..ci][j]);
    assert HasKey(Ents(t.kids[j]), k);
    Siblings(t.kids, t.seps, k, j);
  }

  lemma {:induction false} NoLeftNoStraddle(t: Tree, k: int)
    requires t.Inner? && Links(t.kids, t.seps) && Shaped(t)
    requires !HasKey(Flat(t.kids[..Route(t.seps, k)]), k)
    ensures Straddles(t, k) <==> Straddles(t.kids[Route(t.seps, k)], k)
  {
    var ci := Route(t.seps, k);
    forall j | 0 <= j < |t.kids| && j != ci ensures !HasKey(Ents(t.kids[j]), k) {
      if HasKey(Ents(t.kids[j]), k) {
        Siblings(t.kids, t.seps, k, j);
        var e :| e in Ents(t.kids[j]) && e.key == k;
        FlatMember(t.kids[..ci], e);
      }
    }
    forall j | 0 <= j < |t.kids| && Straddles(t.kids[j], k) ensures j == ci {
      StraddlesHasKey(t.kids[j], k);
    }
    forall i | 0 <= i < |t.seps| && t.seps[i] == k ensures !HasKey(Ents(t.kids[i]), k) {
      if i >= ci { SepsSorted(t.kids, t.seps, ci, i); }
    }
  }

  // ── Duplicates are lost once a leaf of them splits ──

  /** Rows 0..n-1, all inserted under the same key. */
  function SameKey(k: int, n: nat): seq<Entry> {
    if n == 0 then [] else SameKey(k, n - 1) + [Entry(k, n - 1)]
  }

  ghost predicate OneLeaf(x: Index, k: int, n: nat) {
    && x.pages == 1 && x.tree.Leaf? && x.tree.page == 0
    && |x.tree.entries| == n && forall e :: e in x.tree.entries ==> e.key == k
  }

  lemma {:induction false} SameKeyLeaf(k: int, n: nat)
    requires n <= MAX_KEYS
    ensures OneLeaf(Build(SameKey(k, n)), k, n)
  {
    if n > 0 {
      SameKeyLeaf(k, n - 1);
      BuildStep(SameKey(k, n - 1), Entry(k, n - 1));
      OneLeafStep(Build(SameKey(k, n - 1)), k, n - 1);
    }
  }

  lemma {:induction false} OneLeafStep(x: Index, k: int, n: nat)
    requires OneLeaf(x, k, n) && n < MAX_KEYS
    ensures OneLeaf(InsertRoot(x, k, n), k, n + 1)
  {
    SameKeyPut(x.tree.entries, k, n);
    assert Insert(x.tree, k, n, 1) == Ins(Leaf(0, LeafPut(x.tree.entries, k, n)), None, 1);
  }

  lemma {:induction false} SameKeyPut(es: seq<Entry>, k: int, v: nat)
    requires forall e :: e in es ==> e.key == k
    ensures |LeafPut(es, k, v)| == |es| + 1
    ensures forall e :: e in LeafPut(es, k, v) ==> e.key == k
  {
  }

  lemma {:induction false} RunAll(es: seq<Entry>, k: int)
    requires forall e :: e in es ==> e.key == k
    ensures |Run(es, k)| == |es|
  {
    if es != [] { RunAll(es[1..], k); }
  }

  /** Thirty-two rows inserted under one key: the search returns sixteen of them. */
  lemma {:induction false} DuplicatesLost(k: int)
    ensures |Run(SameKey(k, 32), k)| == 32
    ensures |Find(Build(SameKey(k, 32)).tree, k)| == 16
  {
    SameKeyAll(k, 32);
    RunAll(SameKey(k, 32), k);
    SameKeyLeaf(k, 31);
    BuildStep(SameKey(k, 31), Entry(k, 31));
    var es := Build(SameKey(k, 31)).tree.entries;
    SameKeyPut(es, k, 31);
    var all := LeafPut(es, k, 31);
    RootedFind(CutLeaf(0, all, 1), k);
    RunAll(all[16..], k);
  }

  lemma {:induction false} SameKeyAll(k: int, n: nat)
    ensures |SameKey(k, n)| == n && forall e :: e in SameKey(k, n) ==> e.key == k
  {
    if n > 0 { SameKeyAll(k, n - 1); }
  }
}
