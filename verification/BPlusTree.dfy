/**
 The index tree as a value: what a file of pages means, how an insertion rebuilds it, and why
 routing by upper bound still finds every key.  Every node remembers the page that holds it.
 */
module BPlusTree {
  import opened Options
  import opened Sequences

  const MAX_KEYS := 31

  datatype Entry = Entry(key: int, row: nat)

  datatype Tree =
    | Leaf(page: nat, entries: seq<Entry>)
    | Inner(page: nat, kids: seq<Tree>, seps: seq<int>)

  datatype Split = Split(sep: int, right: Tree)

  /** What is left in place, what was split off to the right, and the next unused page. */
  datatype Ins = Ins(left: Tree, split: Option<Split>, next: nat)

  // ── Contents ──

  function Ents(t: Tree): seq<Entry>
    decreases t, 1
  {
    match t
    case Leaf(_, es) => es
    case Inner(_, kids, _) => Flat(kids)
  }

  function Flat(ks: seq<Tree>): seq<Entry>
    decreases ks, 0
  {
    if ks == [] then [] else Ents(ks[0]) + Flat(ks[1..])
  }

  lemma {:induction false} FlatConcat(a: seq<Tree>, b: seq<Tree>)
    ensures Flat(a + b) == Flat(a) + Flat(b)
  {
    if a == [] {
      assert a + b == b;
    } else {
      FlatConcat(a[1..], b);
      var ab := a + b;
      assert ab[0] == a[0] && ab[1..] == a[1..] + b;
      assert Flat(ab) == Ents(a[0]) + Flat(ab[1..]);
      ConcatAssoc(Ents(a[0]), Flat(a[1..]), Flat(b));
    }
  }

  lemma {:induction false} FlatMember(ks: seq<Tree>, e: Entry)
    ensures e in Flat(ks) <==> exists i :: 0 <= i < |ks| && e in Ents(ks[i])
  {
    if ks != [] {
      FlatMember(ks[1..], e);
      if e in Flat(ks[1..]) {
        var i :| 0 <= i < |ks[1..]| && e in Ents(ks[1..][i]);
        assert e in Ents(ks[i + 1]);
      }
      forall i | 0 <= i < |ks| && e in Ents(ks[i])
        ensures e in Flat(ks)
      {
        if i > 0 { assert ks[1..][i - 1] == ks[i]; }
      }
    }
  }

  ghost predicate AllLe(s: seq<Entry>, k: int) { forall e :: e in s ==> e.key <= k }
  ghost predicate AllGe(s: seq<Entry>, k: int) { forall e :: e in s ==> k <= e.key }
  ghost predicate HasKey(s: seq<Entry>, k: int) { exists e :: e in s && e.key == k }
  ghost predicate Sorted(s: seq<Entry>) { forall i, j :: 0 <= i < j < |s| ==> s[i].key <= s[j].key }

  // ── Routing and search ──

  /** The first separator greater than k, by scanning: the reference for the binary search. */
  function Route(seps: seq<int>, k: int): (r: nat)
    ensures r <= |seps|
    ensures forall i :: 0 <= i < r ==> seps[i] <= k
    ensures r < |seps| ==> k < seps[r]
  {
    if seps == [] || k < seps[0] then 0 else 1 + Route(seps[1..], k)
  }

  lemma {:induction false} RouteUnique(seps: seq<int>, k: int, r: nat)
    requires r <= |seps|
    requires forall i :: 0 <= i < r ==> seps[i] <= k
    requires r < |seps| ==> k < seps[r]
    ensures Route(seps, k) == r
  {
    var q := Route(seps, k);
    assert !(q < r) && !(r < q);
  }

  /** The first entry whose key is not below k. */
  function LowerBound(es: seq<Entry>, k: int): (r: nat)
    ensures r <= |es|
    ensures forall i :: 0 <= i < r ==> es[i].key < k
    ensures r < |es| ==> k <= es[r].key
  {
    if es == [] || k <= es[0].key then 0 else 1 + LowerBound(es[1..], k)
  }

  /** The rows stored under k, in order. */
  function Run(es: seq<Entry>, k: int): seq<nat> {
    if es == [] then [] else (if es[0].key == k then [es[0].row] else []) + Run(es[1..], k)
  }

  /** What a search returns: the run of k in the one leaf the upper-bound route reaches. */
  function Find(t: Tree, k: int): seq<nat>
    requires Shaped(t)
  {
    match t
    case Leaf(_, es) => Run(es, k)
    case Inner(_, kids, seps) => Find(kids[Route(seps, k)], k)
  }

  /** Every inner node has one child more than separators. */
  predicate Shaped(t: Tree) {
    t.Inner? ==> |t.kids| == |t.seps| + 1 && forall i :: 0 <= i < |t.kids| ==> Shaped(t.kids[i])
  }

  lemma {:induction false} RunConcat(a: seq<Entry>, b: seq<Entry>, k: int)
    ensures Run(a + b, k) == Run(a, k) + Run(b, k)
  {
    if a == [] {
      assert a + b == b;
    } else {
      RunConcat(a[1..], b, k);
      assert (a + b)[0] == a[0] && (a + b)[1..] == a[1..] + b;
      ConcatAssoc(if a[0].key == k then [a[0].row] else [], Run(a[1..], k), Run(b, k));
    }
  }

  lemma {:induction false} RunHasKey(es: seq<Entry>, k: int)
    ensures Run(es, k) != [] <==> HasKey(es, k)
    ensures forall r :: r in Run(es, k) <==> Entry(k, r) in es
  {
    if es != [] {
      RunHasKey(es[1..], k);
      assert es == [es[0]] + es[1..];
      if HasKey(es, k) {
        var e :| e in es && e.key == k;
        assert e == es[0] || e in es[1..];
      }
    }
  }

  // ── Insertion ──

  function LeafPut(es: seq<Entry>, k: int, v: nat): seq<Entry> {
    var p := LowerBound(es, k);
    es[..p] + [Entry(k, v)] + es[p..]
  }

  /** A leaf that overflowed by one is halved, and the first key on the right is copied up. */
  function CutLeaf(page: nat, es: seq<Entry>, next: nat): Ins {
    if |es| <= MAX_KEYS then
      Ins(Leaf(page, es), None, next)
    else
      var half := |es| / 2;
      Ins(Leaf(page, es[..half]), Some(Split(es[half].key, Leaf(next, es[half..]))), next + 1)
  }

  /** An inner node that overflowed by one is halved, and the middle separator moves up. */
  function CutInner(page: nat, kids: seq<Tree>, seps: seq<int>, next: nat): Ins
    requires |kids| == |seps| + 1
  {
    if |seps| <= MAX_KEYS then
      Ins(Inner(page, kids, seps), None, next)
    else
      var half := |seps| / 2;
      Ins(Inner(page, kids[..half + 1], seps[..half]),
          Some(Split(seps[half], Inner(next, kids[half + 1..], seps[half + 1..]))),
          next + 1)
  }

  function Parts(r: Ins): seq<Tree> {
    if r.split.None? then [r.left] else [r.left, r.split.value.right]
  }

  function PutKids(kids: seq<Tree>, ci: nat, r: Ins): seq<Tree>
    requires ci < |kids|
  {
    kids[..ci] + Parts(r) + kids[ci + 1..]
  }

  function PutSeps(seps: seq<int>, ci: nat, r: Ins): seq<int>
    requires ci <= |seps|
  {
    if r.split.None? then seps else seps[..ci] + [r.split.value.sep] + seps[ci..]
  }

  function Insert(t: Tree, k: int, v: nat, next: nat): Ins
    requires Shaped(t)
    decreases t
  {
    match t
    case Leaf(page, es) => CutLeaf(page, LeafPut(es, k, v), next)
    case Inner(page, kids, seps) =>
      var ci := Route(seps, k);
      var r := Insert(kids[ci], k, v, next);
      CutInner(page, PutKids(kids, ci, r), PutSeps(seps, ci, r), r.next)
  }

  /** The whole tree and the number of pages its file holds. */
  datatype Index = Index(tree: Tree, pages: nat)

  const EMPTY: Index := Index(Leaf(0, []), 1)

  /** Insertion at the root; a split root is put under a new one on the next page. */
  function InsertRoot(x: Index, k: int, v: nat): Index
    requires Shaped(x.tree)
  {
    var r := Insert(x.tree, k, v, x.pages);
    if r.split.None? then
      Index(r.left, r.next)
    else
      Index(Inner(r.next, [r.left, r.split.value.right], [r.split.value.sep]), r.next + 1)
  }

  ghost predicate ShapedIns(r: Ins) {
    Shaped(r.left) && (r.split.Some? ==> Shaped(r.split.value.right))
  }

  lemma {:induction false} PutShaped(kids: seq<Tree>, ci: nat, r: Ins)
    requires ci < |kids| && ShapedIns(r)
    requires forall i :: 0 <= i < |kids| ==> Shaped(kids[i])
    ensures forall i :: 0 <= i < |PutKids(kids, ci, r)| ==> Shaped(PutKids(kids, ci, r)[i])
  {
    assert forall t :: t in PutKids(kids, ci, r) ==> t in kids || t in Parts(r);
  }

  lemma {:induction false} CutInnerShaped(page: nat, kids: seq<Tree>, seps: seq<int>, next: nat)
    requires |kids| == |seps| + 1
    requires forall i :: 0 <= i < |kids| ==> Shaped(kids[i])
    ensures ShapedIns(CutInner(page, kids, seps, next))
  {
  }

  lemma {:induction false} InsertShaped(t: Tree, k: int, v: nat, next: nat)
    requires Shaped(t)
    ensures ShapedIns(Insert(t, k, v, next))
    decreases t
  {
    if t.Inner? {
      var ci := Route(t.seps, k);
      var r := Insert(t.kids[ci], k, v, next);
      InsertShaped(t.kids[ci], k, v, next);
      PutShaped(t.kids, ci, r);
      CutInnerShaped(t.page, PutKids(t.kids, ci, r), PutSeps(t.seps, ci, r), r.next);
    }
  }

  // ── Order: separators bound both sides and are attained on the right ──

  ghost predicate Link(l: Tree, sep: int, r: Tree) {
    AllLe(Ents(l), sep) && AllGe(Ents(r), sep) && HasKey(Ents(r), sep)
  }

  ghost predicate Links(kids: seq<Tree>, seps: seq<int>) {
    && |kids| == |seps| + 1
    && forall i :: 0 <= i < |seps| ==> Link(kids[i], seps[i], kids[i + 1])
  }

  /** Balanced at height h, with sorted leaves and linked children throughout. */
  ghost predicate Ordered(t: Tree, h: nat) {
    match t
    case Leaf(_, es) => h == 0 && Sorted(es)
    case Inner(_, kids, seps) => h > 0 && OrderedKids(kids, seps, h)
  }

  ghost predicate OrderedKids(kids: seq<Tree>, seps: seq<int>, h: nat)
    requires h > 0
  {
    && Links(kids, seps)
    && forall i :: 0 <= i < |kids| ==> Ordered(kids[i], h - 1)
  }

  lemma {:induction false} OrderedShaped(t: Tree, h: nat)
    requires Ordered(t, h)
    ensures Shaped(t)
  {
    if t.Inner? {
      forall i | 0 <= i < |t.kids| ensures Shaped(t.kids[i]) { OrderedShaped(t.kids[i], h - 1); }
    }
  }

  lemma {:induction false} SepsSorted(kids: seq<Tree>, seps: seq<int>, i: nat, j: nat)
    requires Links(kids, seps) && i <= j < |seps|
    ensures seps[i] <= seps[j]
    decreases j
  {
    if i < j {
      SepsSorted(kids, seps, i, j - 1);
      assert Link(kids[j - 1], seps[j - 1], kids[j]) && Link(kids[j], seps[j], kids[j + 1]);
    }
  }

  /** Children up to i lie at or below separator i, those after it at or above. */
  lemma {:induction false} KidBounds(kids: seq<Tree>, seps: seq<int>, i: nat, j: nat)
    requires Links(kids, seps) && i < |seps| && j < |kids|
    ensures j <= i ==> AllLe(Ents(kids[j]), seps[i])
    ensures j > i ==> AllGe(Ents(kids[j]), seps[i])
  {
    if j <= i {
      SepsSorted(kids, seps, j, i);
      assert Link(kids[j], seps[j], kids[j + 1]);
    } else {
      SepsSorted(kids, seps, i, j - 1);
      assert Link(kids[j - 1], seps[j - 1], kids[j]);
    }
  }

  /** All entries of the tree, read left to right, are in key order. */
  lemma {:induction false} EntriesSorted(t: Tree, h: nat)
    requires Ordered(t, h)
    ensures Sorted(Ents(t))
    decreases t, 1
  {
    if t.Inner? { FlatSorted(t.kids, t.seps, h); }
  }

  lemma {:induction false} FlatSorted(kids: seq<Tree>, seps: seq<int>, h: nat)
    requires h > 0 && OrderedKids(kids, seps, h)
    ensures Sorted(Flat(kids))
    decreases kids, 0
  {
    EntriesSorted(kids[0], h - 1);
    if seps != [] {
      forall i | 0 <= i < |seps[1..]|
        ensures Link(kids[1..][i], seps[1..][i], kids[1..][i + 1])
      {
        assert Link(kids[i + 1], seps[i + 1], kids[i + 2]);
      }
      FlatSorted(kids[1..], seps[1..], h);
      forall e | e in Flat(kids[1..]) ensures seps[0] <= e.key {
        FlatMember(kids[1..], e);
        var i :| 0 <= i < |kids[1..]| && e in Ents(kids[1..][i]);
        KidBounds(kids, seps, 0, i + 1);
      }
      assert Link(kids[0], seps[0], kids[1]);
      AppendSorted(Ents(kids[0]), Flat(kids[1..]), seps[0]);
    } else {
      assert Flat(kids[1..]) == [];
      assert Flat(kids) == Ents(kids[0]);
    }
  }

  lemma {:induction false} AppendSorted(a: seq<Entry>, b: seq<Entry>, k: int)
    requires Sorted(a) && Sorted(b) && AllLe(a, k) && AllGe(b, k)
    ensures Sorted(a + b)
  {
    forall i, j | 0 <= i < j < |a + b| ensures (a + b)[i].key <= (a + b)[j].key {
      if i < |a| { assert (a + b)[i] in a; }
      if j >= |a| { assert (a + b)[j] in b; }
    }
  }

  // ── Insertion keeps the order and adds exactly one entry ──

  function InsEnts(r: Ins): seq<Entry> {
    Ents(r.left) + if r.split.None? then [] else Ents(r.split.value.right)
  }

  ghost predicate Added(before: seq<Entry>, after: seq<Entry>, e: Entry) {
    multiset(after) == multiset(before) + multiset{e}
  }

  lemma {:induction false} AddedMembers(before: seq<Entry>, after: seq<Entry>, e: Entry)
    requires Added(before, after, e)
    ensures forall x :: x in after <==> x in before || x == e
  {
    forall x ensures x in after <==> x in before || x == e {
      assert x in after <==> x in multiset(after);
      assert x in before <==> x in multiset(before);
    }
  }

  ghost predicate OrderedIns(r: Ins, h: nat) {
    && Ordered(r.left, h)
    && (r.split.Some? ==> Ordered(r.split.value.right, h))
    && LinkedIns(r)
  }

  lemma {:induction false} LeafPutAdded(a: seq<Entry>, b: seq<Entry>, e: Entry)
    ensures multiset(a + [e] + b) == multiset(a + b) + multiset{e}
  {
  }

  lemma {:induction false} LeafPutSorted(es: seq<Entry>, k: int, v: nat)
    requires Sorted(es)
    ensures Sorted(LeafPut(es, k, v))
  {
  }

  lemma {:induction false} LeafPutOrdered(es: seq<Entry>, k: int, v: nat)
    requires Sorted(es)
    ensures Sorted(LeafPut(es, k, v))
    ensures Added(es, LeafPut(es, k, v), Entry(k, v))
  {
    var p := LowerBound(es, k);
    assert es == es[..p] + es[p..];
    LeafPutSorted(es, k, v);
    LeafPutAdded(es[..p], es[p..], Entry(k, v));
  }

  lemma {:induction false} CutLeafOrdered(page: nat, es: seq<Entry>, next: nat)
    requires Sorted(es)
    ensures OrderedIns(CutLeaf(page, es, next), 0)
    ensures InsEnts(CutLeaf(page, es, next)) == es
  {
    if |es| > MAX_KEYS {
      var half := |es| / 2;
      var r := CutLeaf(page, es, next);
      assert es[half..][0] == es[half];
      assert es == es[..half] + es[half..];
      assert es[half] in Ents(r.split.value.right);
      assert HasKey(Ents(r.split.value.right), es[half].key);
      SortedHalves(es, half);
    }
  }

  lemma {:induction false} SortedHalves(es: seq<Entry>, half: nat)
    requires Sorted(es) && half < |es|
    ensures forall e :: e in es[..half] ==> e.key <= es[half].key
    ensures forall e :: e in es[half..] ==> es[half].key <= e.key
  {
    forall e | e in es[..half] ensures e.key <= es[half].key {
      var i :| 0 <= i < half && es[i] == e;
    }
    forall e | e in es[half..] ensures es[half].key <= e.key {
      var i :| half <= i < |es| && es[i] == e;
    }
  }

  lemma {:induction false} CutInnerOrdered(page: nat, kids: seq<Tree>, seps: seq<int>, h: nat, next: nat)
    requires h > 0 && OrderedKids(kids, seps, h)
    ensures OrderedIns(CutInner(page, kids, seps, next), h)
    ensures InsEnts(CutInner(page, kids, seps, next)) == Flat(kids)
  {
    if |seps| > MAX_KEYS {
      var half := |seps| / 2;
      var lk, rk := kids[..half + 1], kids[half + 1..];
      assert kids == lk + rk;
      FlatConcat(lk, rk);
      assert forall i :: 0 <= i < half ==> Link(kids[i], seps[i], kids[i + 1]);
      assert Links(lk, seps[..half]);
      var rs := seps[half + 1..];
      forall i | 0 <= i < |rs| ensures Link(rk[i], rs[i], rk[i + 1]) {
        assert Link(kids[half + 1 + i], seps[half + 1 + i], kids[half + 2 + i]);
      }
      assert Links(rk, rs);
      CutLink(kids, seps, half);
      LeftNonempty(lk, seps[..half]);
    }
  }

  lemma {:induction false} LeftNonempty(kids: seq<Tree>, seps: seq<int>)
    requires Links(kids, seps) && seps != []
    ensures Flat(kids) != []
  {
    assert Link(kids[0], seps[0], kids[1]);
    var e :| e in Ents(kids[1]) && e.key == seps[0];
    FlatMember(kids, e);
  }

  lemma {:induction false} CutLink(kids: seq<Tree>, seps: seq<int>, half: nat)
    requires Links(kids, seps) && half < |seps|
    ensures AllLe(Flat(kids[..half + 1]), seps[half])
    ensures AllGe(Flat(kids[half + 1..]), seps[half])
    ensures HasKey(Flat(kids[half + 1..]), seps[half])
  {
    var lk, rk := kids[..half + 1], kids[half + 1..];
    forall e | e in Flat(lk) ensures e.key <= seps[half] {
      FlatMember(lk, e);
      var i :| 0 <= i < |lk| && e in Ents(lk[i]);
      KidBounds(kids, seps, half, i);
    }
    forall e | e in Flat(rk) ensures seps[half] <= e.key {
      FlatMember(rk, e);
      var i :| 0 <= i < |rk| && e in Ents(rk[i]);
      KidBounds(kids, seps, half, half + 1 + i);
    }
    assert Link(kids[half], seps[half], kids[half + 1]);
    var e :| e in Ents(kids[half + 1]) && e.key == seps[half];
    FlatMember(rk, e);
    assert e in Ents(rk[0]);
  }

  /** Putting the result of an insertion back among the children keeps them linked. */
  lemma {:induction false} PutOrdered(kids: seq<Tree>, seps: seq<int>, h: nat, k: int, v: nat, r: Ins)
    requires h > 0 && OrderedKids(kids, seps, h)
    requires OrderedIns(r, h - 1)
    requires Added(Ents(kids[Route(seps, k)]), InsEnts(r), Entry(k, v))
    ensures var ci := Route(seps, k);
            OrderedKids(PutKids(kids, ci, r), PutSeps(seps, ci, r), h)
  {
    var ci := Route(seps, k);
    PutLinks(kids, seps, k, v, r);
    assert forall x :: x in PutKids(kids, ci, r) ==> x in kids || x in Parts(r);
  }

  ghost predicate LinkedIns(r: Ins) {
    r.split.Some? ==> Ents(r.left) != [] && Link(r.left, r.split.value.sep, r.split.value.right)
  }

  lemma {:induction false} PutLinks(kids: seq<Tree>, seps: seq<int>, k: int, v: nat, r: Ins)
    requires Links(kids, seps) && LinkedIns(r)
    requires Added(Ents(kids[Route(seps, k)]), InsEnts(r), Entry(k, v))
    ensures var ci := Route(seps, k);
            Links(PutKids(kids, ci, r), PutSeps(seps, ci, r))
  {
    var ci := Route(seps, k);
    var ks, ss := PutKids(kids, ci, r), PutSeps(seps, ci, r);
    var d := |Parts(r)| - 1;
    forall i | 0 <= i < |ss| ensures Link(ks[i], ss[i], ks[i + 1]) {
      if i < ci {
        assert Link(kids[i], seps[i], kids[i + 1]);
        if i == ci - 1 { PutAfter(kids[i], seps[i], kids[ci], r, k, v); }
      } else if i >= ci + d {
        assert Link(kids[i - d], seps[i - d], kids[i - d + 1]);
        if i == ci + d { PutBefore(kids[ci], seps[ci], kids[ci + 1], r, k, v); }
      }
    }
  }

  /** The right neighbour of the child that changed stays linked to its new last part. */
  lemma {:induction false} PutBefore(kid: Tree, sep: int, right: Tree, r: Ins, k: int, v: nat)
    requires Link(kid, sep, right) && k < sep
    requires Added(Ents(kid), InsEnts(r), Entry(k, v))
    ensures Link(Parts(r)[|Parts(r)| - 1], sep, right)
  {
    AddedMembers(Ents(kid), InsEnts(r), Entry(k, v));
  }

  /** The left neighbour of the child that changed stays linked to its new first part. */
  lemma {:induction false} PutAfter(l: Tree, sep: int, kid: Tree, r: Ins, k: int, v: nat)
    requires Link(l, sep, kid) && sep <= k
    requires Added(Ents(kid), InsEnts(r), Entry(k, v))
    requires LinkedIns(r)
    ensures Link(l, sep, r.left)
  {
    AddedMembers(Ents(kid), InsEnts(r), Entry(k, v));
    var e :| e in Ents(kid) && e.key == sep;
    assert e in InsEnts(r);
    if e !in Ents(r.left) {
      // sep is the least key, so the nonempty left part, all at or below the split, attains it too
      var x := Ents(r.left)[0];
      assert x in Ents(r.left) && x in InsEnts(r);
      assert x.key == sep;
    }
  }

  /** Insertion keeps order and balance, and what it holds afterwards is what it held plus (k, v). */
  lemma {:induction false} InsertOrdered(t: Tree, h: nat, k: int, v: nat, next: nat)
    requires Ordered(t, h) && Shaped(t)
    ensures OrderedIns(Insert(t, k, v, next), h)
    ensures Added(Ents(t), InsEnts(Insert(t, k, v, next)), Entry(k, v))
    decreases t
  {
    match t {
      case Leaf(page, es) =>
        LeafPutOrdered(es, k, v);
        CutLeafOrdered(page, LeafPut(es, k, v), next);
      case Inner(page, kids, seps) =>
        var ci := Route(seps, k);
        InsertOrdered(kids[ci], h - 1, k, v, next);
        InnerOrdered(t, h, k, v, Insert(kids[ci], k, v, next));
    }
  }

  lemma {:induction false} InnerOrdered(t: Tree, h: nat, k: int, v: nat, r: Ins)
    requires t.Inner? && Ordered(t, h) && Shaped(t)
    requires OrderedIns(r, h - 1)
    requires Added(Ents(t.kids[Route(t.seps, k)]), InsEnts(r), Entry(k, v))
    ensures var ci := Route(t.seps, k);
            var u := CutInner(t.page, PutKids(t.kids, ci, r), PutSeps(t.seps, ci, r), r.next);
            OrderedIns(u, h) && Added(Ents(t), InsEnts(u), Entry(k, v))
  {
    var ci := Route(t.seps, k);
    PutOrdered(t.kids, t.seps, h, k, v, r);
    CutInnerOrdered(t.page, PutKids(t.kids, ci, r), PutSeps(t.seps, ci, r), h, r.next);
    PutEnts(t.kids, ci, r);
    FlatAt(t.kids, ci);
    AddedInside(Flat(t.kids[..ci]), Ents(t.kids[ci]), InsEnts(r), Flat(t.kids[ci + 1..]), Entry(k, v));
  }

  lemma {:induction false} FlatOne(t: Tree)
    ensures Flat([t]) == Ents(t)
  {
    assert [t][1..] == [];
  }

  lemma {:induction false} PartsEnts(r: Ins)
    ensures Flat(Parts(r)) == InsEnts(r)
  {
    FlatOne(r.left);
    if r.split.Some? {
      FlatOne(r.split.value.right);
      assert Parts(r) == [r.left] + [r.split.value.right];
      FlatConcat([r.left], [r.split.value.right]);
    }
  }

  lemma {:induction false} FlatAt(kids: seq<Tree>, ci: nat)
    requires ci < |kids|
    ensures Flat(kids) == Flat(kids[..ci]) + Ents(kids[ci]) + Flat(kids[ci + 1..])
  {
    assert kids == kids[..ci] + [kids[ci]] + kids[ci + 1..];
    FlatConcat(kids[..ci] + [kids[ci]], kids[ci + 1..]);
    FlatConcat(kids[..ci], [kids[ci]]);
    FlatOne(kids[ci]);
  }

  lemma AddedInside(a: seq<Entry>, before: seq<Entry>, after: seq<Entry>, b: seq<Entry>, e: Entry)
    requires Added(before, after, e)
    ensures Added(a + before + b, a + after + b, e)
  {
  }

  lemma {:induction false} PutEnts(kids: seq<Tree>, ci: nat, r: Ins)
    requires ci < |kids|
    ensures Flat(PutKids(kids, ci, r)) == Flat(kids[..ci]) + InsEnts(r) + Flat(kids[ci + 1..])
  {
    FlatConcat(kids[..ci] + Parts(r), kids[ci + 1..]);
    FlatConcat(kids[..ci], Parts(r));
    PartsEnts(r);
  }

  // ── Search after insertion ──

  /** The result of routing once more between the two halves of an insertion. */
  function FindIns(r: Ins, k: int): seq<nat>
    requires ShapedIns(r)
  {
    if r.split.Some? && r.split.value.sep <= k then Find(r.split.value.right, k) else Find(r.left, k)
  }

  /** now is a suffix of was, and is empty only if was is. */
  ghost predicate Kept(was: seq<nat>, now: seq<nat>) {
    && |now| <= |was|
    && was[|was| - |now|..] == now
    && (was != [] ==> now != [])
  }

  lemma {:induction false} CutLeafFind(page: nat, es: seq<Entry>, next: nat, q: int)
    requires Sorted(es)
    ensures Kept(Run(es, q), FindIns(CutLeaf(page, es, next), q))
  {
    if |es| > MAX_KEYS {
      var half := |es| / 2;
      assert es == es[..half] + es[half..];
      RunConcat(es[..half], es[half..], q);
      RunHasKey(es[..half], q);
      RunHasKey(es[half..], q);
      assert es[half] in es[half..];
      if es[half].key <= q {
        if q == es[half].key {
          assert HasKey(es[half..], q);
        } else {
          assert !HasKey(es[..half], q);
        }
      } else {
        assert !HasKey(es[half..], q);
      }
    }
  }

  lemma {:induction false} CutInnerFind(page: nat, kids: seq<Tree>, seps: seq<int>, next: nat, q: int)
    requires Links(kids, seps)
    requires forall i :: 0 <= i < |kids| ==> Shaped(kids[i])
    ensures ShapedIns(CutInner(page, kids, seps, next))
    ensures FindIns(CutInner(page, kids, seps, next), q) == Find(kids[Route(seps, q)], q)
  {
    CutInnerShaped(page, kids, seps, next);
    if |seps| > MAX_KEYS {
      RouteCut(kids, seps, |seps| / 2, q);
    }
  }

  /** Routing in one half of a cut node, chosen by the separator that moved up, is routing in all of it. */
  lemma {:induction false} RouteCut(kids: seq<Tree>, seps: seq<int>, half: nat, q: int)
    requires Links(kids, seps) && half < |seps|
    ensures seps[half] <= q ==> Route(seps, q) == half + 1 + Route(seps[half + 1..], q)
    ensures q < seps[half] ==> Route(seps, q) == Route(seps[..half], q)
  {
    if seps[half] <= q {
      forall i | 0 <= i < half ensures seps[i] <= q { SepsSorted(kids, seps, i, half); }
      var r := Route(seps[half + 1..], q);
      forall i | half < i < half + 1 + r ensures seps[i] <= q {
        assert seps[i] == seps[half + 1..][i - half - 1];
      }
      RouteUnique(seps, q, half + 1 + r);
    } else {
      RouteUnique(seps, q, Route(seps[..half], q));
    }
  }

  /** Routing among the separators after one was added is routing before, then past the new one. */
  lemma {:induction false} RoutePut(seps: seq<int>, ci: nat, sep: int, q: int)
    requires ci <= |seps|
    requires (ci > 0 ==> seps[ci - 1] <= sep) && (ci < |seps| ==> sep <= seps[ci])
    ensures var at := Route(seps, q);
            Route(seps[..ci] + [sep] + seps[ci..], q) ==
            if at < ci || (at == ci && q < sep) then at else at + 1
    decreases |seps|
  {
    var ss := seps[..ci] + [sep] + seps[ci..];
    if ci == 0 {
      assert ss[0] == sep && ss[1..] == seps;
    } else {
      assert ss[0] == seps[0] && ss[1..] == seps[1..][..ci - 1] + [sep] + seps[1..][ci - 1..];
      RoutePut(seps[1..], ci - 1, sep, q);
    }
  }

  lemma {:induction false} PutAt(kids: seq<Tree>, ci: nat, r: Ins, i: nat)
    requires ci < |kids| && i < |PutKids(kids, ci, r)|
    ensures var d := |Parts(r)| - 1;
            PutKids(kids, ci, r)[i] ==
            if i < ci then kids[i] else if i <= ci + d then Parts(r)[i - ci] else kids[i - d]
  {
  }

  lemma {:induction false} PutRoute(kids: seq<Tree>, seps: seq<int>, ci: nat, r: Ins, q: int)
    requires |kids| == |seps| + 1 && r.split.Some? && ci <= |seps|
    requires Links(PutKids(kids, ci, r), PutSeps(seps, ci, r))
    ensures var at := Route(seps, q);
            Route(PutSeps(seps, ci, r), q) == if at < ci || (at == ci && q < r.split.value.sep) then at else at + 1
  {
    var ks, ss := PutKids(kids, ci, r), PutSeps(seps, ci, r);
    if ci > 0 { SepsSorted(ks, ss, ci - 1, ci); }
    if ci < |seps| { SepsSorted(ks, ss, ci, ci + 1); }
    RoutePut(seps, ci, r.split.value.sep, q);
  }

  lemma {:induction false} PutFindSplit(kids: seq<Tree>, seps: seq<int>, ci: nat, r: Ins, q: int)
    requires forall i :: 0 <= i < |kids| ==> Shaped(kids[i])
    requires ShapedIns(r) && |kids| == |seps| + 1 && r.split.Some? && ci <= |seps|
    requires Links(PutKids(kids, ci, r), PutSeps(seps, ci, r))
    requires forall i :: 0 <= i < |PutKids(kids, ci, r)| ==> Shaped(PutKids(kids, ci, r)[i])
    ensures var at := Route(seps, q);
            Find(PutKids(kids, ci, r)[Route(PutSeps(seps, ci, r), q)], q) ==
            if at == ci then FindIns(r, q) else Find(kids[at], q)
  {
    PutRoute(kids, seps, ci, r, q);
    PutAt(kids, ci, r, Route(PutSeps(seps, ci, r), q));
  }

  lemma {:induction false} PutFind(kids: seq<Tree>, seps: seq<int>, k: int, r: Ins, q: int)
    requires forall i :: 0 <= i < |kids| ==> Shaped(kids[i])
    requires ShapedIns(r) && |kids| == |seps| + 1
    requires Links(PutKids(kids, Route(seps, k), r), PutSeps(seps, Route(seps, k), r))
    requires forall i :: 0 <= i < |PutKids(kids, Route(seps, k), r)| ==>
               Shaped(PutKids(kids, Route(seps, k), r)[i])
    ensures var ci, at := Route(seps, k), Route(seps, q);
            Find(PutKids(kids, ci, r)[Route(PutSeps(seps, ci, r), q)], q) ==
            if at == ci then FindIns(r, q) else Find(kids[at], q)
  {
    var ci := Route(seps, k);
    if r.split.Some? { PutFindSplit(kids, seps, ci, r, q); } else { PutAt(kids, ci, r, Route(seps, q)); }
  }

  /** A search after one insertion: the run grows in front by v, and only its front can be cut off. */
  lemma {:induction false} InsertFind(t: Tree, h: nat, k: int, v: nat, next: nat, q: int)
    requires Ordered(t, h) && Shaped(t) && ShapedIns(Insert(t, k, v, next))
    ensures Kept((if q == k then [v] else []) + Find(t, q), FindIns(Insert(t, k, v, next), q))
    decreases t
  {
    match t {
      case Leaf(page, es) =>
        LeafPutOrdered(es, k, v);
        CutLeafFind(page, LeafPut(es, k, v), next, q);
        LeafPutRun(es, k, v, q);
      case Inner(page, kids, seps) =>
        var ci := Route(seps, k);
        InsertOrdered(kids[ci], h - 1, k, v, next);
        InsertShaped(kids[ci], k, v, next);
        InsertFind(kids[ci], h - 1, k, v, next, q);
        InnerKept(t, h, k, v, Insert(kids[ci], k, v, next), q);
    }
  }

  lemma {:induction false} InnerKept(t: Tree, h: nat, k: int, v: nat, r: Ins, q: int)
    requires t.Inner? && Ordered(t, h) && Shaped(t)
    requires OrderedIns(r, h - 1) && ShapedIns(r)
    requires Added(Ents(t.kids[Route(t.seps, k)]), InsEnts(r), Entry(k, v))
    requires Kept((if q == k then [v] else []) + Find(t.kids[Route(t.seps, k)], q), FindIns(r, q))
    ensures var ci := Route(t.seps, k);
            var u := CutInner(t.page, PutKids(t.kids, ci, r), PutSeps(t.seps, ci, r), r.next);
            ShapedIns(u) && Kept((if q == k then [v] else []) + Find(t, q), FindIns(u, q))
  {
    InnerFind(t, h, k, v, r, q);
    KeptSame(Find(t, q));
  }

  lemma KeptSame(was: seq<nat>)
    ensures Kept([] + was, was)
  {
    assert [] + was == was;
  }

  /** A search below the rebuilt node is a search among the replaced child's parts, or unchanged. */
  lemma {:induction false} InnerFind(t: Tree, h: nat, k: int, v: nat, r: Ins, q: int)
    requires t.Inner? && Ordered(t, h) && Shaped(t)
    requires OrderedIns(r, h - 1) && ShapedIns(r)
    requires Added(Ents(t.kids[Route(t.seps, k)]), InsEnts(r), Entry(k, v))
    ensures var ci, at := Route(t.seps, k), Route(t.seps, q);
            var u := CutInner(t.page, PutKids(t.kids, ci, r), PutSeps(t.seps, ci, r), r.next);
            ShapedIns(u) && FindIns(u, q) == if at == ci then FindIns(r, q) else Find(t.kids[at], q)
  {
    var ci := Route(t.seps, k);
    PutLinks(t.kids, t.seps, k, v, r);
    PutShaped(t.kids, ci, r);
    PutFind(t.kids, t.seps, k, r, q);
    CutInnerFind(t.page, PutKids(t.kids, ci, r), PutSeps(t.seps, ci, r), r.next, q);
  }

  lemma {:induction false} LeafPutRun(es: seq<Entry>, k: int, v: nat, q: int)
    ensures Run(LeafPut(es, k, v), q) == (if q == k then [v] else []) + Run(es, q)
  {
    if es != [] && es[0].key < k {
      var p := LowerBound(es[1..], k);
      assert LowerBound(es, k) == p + 1;
      assert LeafPut(es, k, v) == [es[0]] + LeafPut(es[1..], k, v);
      LeafPutRun(es[1..], k, v, q);
    } else {
      assert LeafPut(es, k, v) == [Entry(k, v)] + es;
      assert LeafPut(es, k, v)[1..] == es;
    }
  }

  // ── Occupancy ──

  ghost predicate Filled(t: Tree, root: bool) {
    match t
    case Leaf(_, es) => |es| <= MAX_KEYS && (!root ==> 16 <= |es|)
    case Inner(_, kids, seps) =>
      && |kids| == |seps| + 1
      && |seps| <= MAX_KEYS
      && (if root then 1 else 15) <= |seps|
      && forall i :: 0 <= i < |kids| ==> Filled(kids[i], false)
  }

  ghost predicate FilledIns(r: Ins, root: bool) {
    if r.split.None? then Filled(r.left, root)
    else Filled(r.left, false) && Filled(r.split.value.right, false)
  }

  lemma {:induction false} CutInnerFilled(page: nat, kids: seq<Tree>, seps: seq<int>, root: bool, next: nat)
    requires |kids| == |seps| + 1 && (if root then 1 else 15) <= |seps| <= MAX_KEYS + 1
    requires forall i :: 0 <= i < |kids| ==> Filled(kids[i], false)
    ensures FilledIns(CutInner(page, kids, seps, next), root)
  {
  }

  /** A split leaves two well filled halves; without a split the node is as filled as it was. */
  lemma {:induction false} InsertFilled(t: Tree, root: bool, k: int, v: nat, next: nat)
    requires Filled(t, root) && Shaped(t)
    ensures FilledIns(Insert(t, k, v, next), root)
    decreases t
  {
    if t.Inner? {
      var ci := Route(t.seps, k);
      var r := Insert(t.kids[ci], k, v, next);
      InsertFilled(t.kids[ci], false, k, v, next);
      var ks := PutKids(t.kids, ci, r);
      assert forall x :: x in ks ==> x in t.kids || x in Parts(r);
      CutInnerFilled(t.page, ks, PutSeps(t.seps, ci, r), root, r.next);
    }
  }

  function Pow16(h: nat): nat { if h == 0 then 1 else 16 * Pow16(h - 1) }

  lemma {:induction false} FlatAtLeast(kids: seq<Tree>, m: nat)
    requires forall i :: 0 <= i < |kids| ==> m <= |Ents(kids[i])|
    ensures |kids| * m <= |Flat(kids)|
  {
    if kids != [] {
      assert forall i :: 0 <= i < |kids[1..]| ==> kids[1..][i] == kids[i + 1];
      FlatAtLeast(kids[1..], m);
      assert |kids| * m == m + (|kids| - 1) * m;
    }
  }

  /** A tree below the root of height h holds at least 16^(h+1) entries. */
  lemma {:induction false} SubtreeSize(t: Tree, h: nat)
    requires Ordered(t, h) && Filled(t, false)
    ensures Pow16(h + 1) <= |Ents(t)|
  {
    if t.Inner? {
      forall i | 0 <= i < |t.kids| ensures Pow16(h) <= |Ents(t.kids[i])| {
        SubtreeSize(t.kids[i], h - 1);
      }
      FlatAtLeast(t.kids, Pow16(h));
      MulMono(16, |t.kids|, Pow16(h));
    }
  }

  lemma MulMono(a: nat, b: nat, m: nat)
    requires a <= b
    ensures a * m <= b * m
  {
  }

  // ── Pages ──

  /** How many nodes of the tree lie on page p. */
  function Uses(t: Tree, p: nat): nat
    decreases t, 1
  {
    (if t.page == p then 1 else 0) + if t.Leaf? then 0 else FlatUses(t.kids, p)
  }

  function FlatUses(ks: seq<Tree>, p: nat): nat
    decreases ks, 0
  {
    if ks == [] then 0 else Uses(ks[0], p) + FlatUses(ks[1..], p)
  }

  lemma {:induction false} FlatUsesConcat(a: seq<Tree>, b: seq<Tree>, p: nat)
    ensures FlatUses(a + b, p) == FlatUses(a, p) + FlatUses(b, p)
  {
    if a == [] {
      assert a + b == b;
    } else {
      FlatUsesConcat(a[1..], b, p);
      assert (a + b)[1..] == a[1..] + b;
    }
  }

  function InsUses(r: Ins, p: nat): nat {
    Uses(r.left, p) + if r.split.None? then 0 else Uses(r.split.value.right, p)
  }

  lemma {:induction false} UsesOne(t: Tree, p: nat)
    ensures FlatUses([t], p) == Uses(t, p)
  {
    assert [t][1..] == [];
  }

  lemma {:induction false} FlatUsesAt(kids: seq<Tree>, ci: nat, p: nat)
    requires ci < |kids|
    ensures FlatUses(kids, p) ==
            FlatUses(kids[..ci], p) + Uses(kids[ci], p) + FlatUses(kids[ci + 1..], p)
  {
    assert kids == kids[..ci] + [kids[ci]] + kids[ci + 1..];
    FlatUsesConcat(kids[..ci] + [kids[ci]], kids[ci + 1..], p);
    FlatUsesConcat(kids[..ci], [kids[ci]], p);
    UsesOne(kids[ci], p);
  }

  lemma {:induction false} PartsUses(r: Ins, p: nat)
    ensures FlatUses(Parts(r), p) == InsUses(r, p)
  {
    UsesOne(r.left, p);
    if r.split.Some? {
      UsesOne(r.split.value.right, p);
      assert Parts(r) == [r.left] + [r.split.value.right];
      FlatUsesConcat([r.left], [r.split.value.right], p);
    }
  }

  lemma {:induction false} PutUses(kids: seq<Tree>, ci: nat, r: Ins, p: nat)
    requires ci < |kids|
    ensures FlatUses(PutKids(kids, ci, r), p) ==
            FlatUses(kids, p) - Uses(kids[ci], p) + InsUses(r, p)
  {
    FlatUsesConcat(kids[..ci] + Parts(r), kids[ci + 1..], p);
    FlatUsesConcat(kids[..ci], Parts(r), p);
    PartsUses(r, p);
    FlatUsesAt(kids, ci, p);
  }

  lemma {:induction false} CutInnerUses(page: nat, kids: seq<Tree>, seps: seq<int>, next: nat, p: nat)
    requires |kids| == |seps| + 1
    ensures var r := CutInner(page, kids, seps, next);
            && next <= r.next
            && InsUses(r, p) == (if p == page then 1 else 0) + FlatUses(kids, p) + Between(next, r.next, p)
  {
    if |seps| > MAX_KEYS {
      var half := |seps| / 2;
      assert kids == kids[..half + 1] + kids[half + 1..];
      FlatUsesConcat(kids[..half + 1], kids[half + 1..], p);
    }
  }

  function Between(a: nat, b: nat, p: nat): nat { if a <= p < b then 1 else 0 }

  /** An insertion uses the pages the tree used, plus exactly the ones it appends to the file. */
  lemma {:induction false} InsertUses(t: Tree, k: int, v: nat, next: nat, p: nat)
    requires Shaped(t)
    ensures var r := Insert(t, k, v, next);
            next <= r.next && InsUses(r, p) == Uses(t, p) + Between(next, r.next, p)
    decreases t
  {
    if t.Inner? {
      var ci := Route(t.seps, k);
      var r := Insert(t.kids[ci], k, v, next);
      InsertUses(t.kids[ci], k, v, next, p);
      PutUses(t.kids, ci, r, p);
      CutInnerUses(t.page, PutKids(t.kids, ci, r), PutSeps(t.seps, ci, r), r.next, p);
    }
  }

  /** Different children share no page when no page is used twice. */
  lemma {:induction false} KidsDisjoint(kids: seq<Tree>, i: nat, j: nat, p: nat)
    requires i < j < |kids|
    ensures Uses(kids[i], p) + Uses(kids[j], p) <= FlatUses(kids, p)
  {
    FlatUsesAt(kids, i, p);
    FlatUsesAt(kids[i + 1..], j - i - 1, p);
  }
}
