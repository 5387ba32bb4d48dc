/** The index file: nodes on equally sized pages, searched and updated in place. */
module PagedIndex {
  import opened Options
  import opened BPlusTree
  import opened IndexHistory

  // ── Layout ──

  datatype KeyType = Int32 | Int64 | Timestamp | Bool

  const HEADER_SIZE := 16
  const NODE_HEADER := 8
  const PAGE_ID_SIZE := 8
  const VALUE_SIZE := 8

  function SlotKeySize(kt: KeyType): nat {
    match kt
    case Int32 => 4
    case Int64 => 8
    case Timestamp => 8
    case Bool => 1
  }

  function NodeSize(kt: KeyType): nat {
    NODE_HEADER + PAGE_ID_SIZE + MAX_KEYS * (SlotKeySize(kt) + VALUE_SIZE)
  }

  /** The byte offset of a page; a file of n pages is as long as the offset of page n. */
  function Offset(kt: KeyType, page: nat): nat { HEADER_SIZE + page * NodeSize(kt) }

  /** Pages do not overlap, and read_node's bounds check accepts exactly the pages of the file. */
  lemma PagesDisjoint(kt: KeyType, p: nat, q: nat)
    ensures p < q ==> Offset(kt, p) + NodeSize(kt) <= Offset(kt, q)
    ensures Offset(kt, p) + NodeSize(kt) <= Offset(kt, q) ==> p < q
  {
    var n := NodeSize(kt);
    if p < q {
      MulMono(p + 1, q, n);
    } else {
      MulMono(q, p, n);
    }
  }

  /** The pages of the nodes of a tree, node by node. */
  function PagesOf(t: Tree): seq<nat> { [t.page] + if t.Leaf? then [] else PagesOfAll(t.kids) }

  function PagesOfAll(ks: seq<Tree>): seq<nat> { if ks == [] then [] else PagesOf(ks[0]) + PagesOfAll(ks[1..]) }

  lemma {:induction false} PagesCount(t: Tree, p: nat)
    ensures multiset(PagesOf(t))[p] == Uses(t, p)
    decreases t, 1
  {
    if t.Inner? { PagesCountAll(t.kids, p); }
  }

  lemma {:induction false} PagesCountAll(ks: seq<Tree>, p: nat)
    ensures multiset(PagesOfAll(ks))[p] == FlatUses(ks, p)
    decreases ks, 0
  {
    if ks != [] {
      PagesCount(ks[0], p);
      PagesCountAll(ks[1..], p);
    }
  }

  lemma CountTwice(s: seq<nat>, i: nat, j: nat)
    requires i < j < |s| && s[i] == s[j]
    ensures multiset(s)[s[i]] >= 2
  {
    assert s == s[..j] + [s[j]] + s[j + 1..];
    assert s[i] in s[..j];
  }

  /** Whether the bytes of two pages do not meet. */
  predicate Apart(kt: KeyType, p: nat, q: nat) {
    Offset(kt, p) + NodeSize(kt) <= Offset(kt, q) || Offset(kt, q) + NodeSize(kt) <= Offset(kt, p)
  }

  /**
   Whatever has been inserted, any two nodes of the tree have separate bytes, all within the file, and
   every page of the file belongs to a node.
   */
  lemma {:induction false} NodesDisjoint(kt: KeyType, h: seq<Entry>)
    ensures var x := Build(h); var ps := PagesOf(x.tree);
            && (forall i, j :: 0 <= i < j < |ps| ==> Apart(kt, ps[i], ps[j]))
            && (forall p: nat :: p in ps <==> Offset(kt, p) + NodeSize(kt) <= Offset(kt, x.pages))
  {
    var x := Build(h);
    var ps := PagesOf(x.tree);
    BuildSound(h);
    forall p: nat ensures multiset(ps)[p] == Between(0, x.pages, p) { PagesCount(x.tree, p); }
    forall p: nat ensures p in ps <==> Offset(kt, p) + NodeSize(kt) <= Offset(kt, x.pages) {
      assert p in ps <==> p in multiset(ps);
      PagesDisjoint(kt, p, x.pages);
    }
    forall i, j | 0 <= i < j < |ps| ensures Apart(kt, ps[i], ps[j]) {
      if ps[i] == ps[j] { CountTwice(ps, i, j); }
      PagesDisjoint(kt, ps[i], ps[j]);
      PagesDisjoint(kt, ps[j], ps[i]);
    }
  }

  // ── Nodes on pages ──

  datatype Node = Node(isLeaf: bool, firstChild: nat, keys: seq<int>, vals: seq<nat>)

  function Keys(es: seq<Entry>): seq<int> { seq(|es|, i requires 0 <= i < |es| => es[i].key) }
  function Rows(es: seq<Entry>): seq<nat> { seq(|es|, i requires 0 <= i < |es| => es[i].row) }
  function KidPages(ks: seq<Tree>): seq<nat> { seq(|ks|, i requires 0 <= i < |ks| => ks[i].page) }

  function NodeOf(t: Tree): Node
    requires Shaped(t)
  {
    match t
    case Leaf(_, es) => Node(true, 0, Keys(es), Rows(es))
    case Inner(_, kids, seps) => Node(false, kids[0].page, seps, KidPages(kids)[1..])
  }

  /** The file holds the tree: each node, in its on-page form, on the page it names. */
  ghost predicate Rep(file: seq<Node>, t: Tree)
    requires Shaped(t)
  {
    && t.page < |file|
    && file[t.page] == NodeOf(t)
    && (t.Inner? ==> forall i :: 0 <= i < |t.kids| ==> Rep(file, t.kids[i]))
  }

  lemma {:induction false} KidUses(t: Tree, i: nat, p: nat)
    requires t.Inner? && i < |t.kids|
    ensures Uses(t.kids[i], p) + (if p == t.page then 1 else 0) <= Uses(t, p)
  {
    FlatUsesAt(t.kids, i, p);
  }

  /** Outside the pages of t the file only grew. */
  ghost predicate SameOutside(f: seq<Node>, g: seq<Node>, t: Tree) {
    |f| <= |g| && forall p :: 0 <= p < |f| && Uses(t, p) == 0 ==> g[p] == f[p]
  }

  lemma {:induction false} RepFrame(f: seq<Node>, g: seq<Node>, t: Tree)
    requires Shaped(t) && Rep(f, t) && |f| <= |g|
    requires forall p :: 0 <= p < |f| && Uses(t, p) > 0 ==> g[p] == f[p]
    ensures Rep(g, t)
  {
    assert Uses(t, t.page) > 0;
    if t.Inner? {
      forall i | 0 <= i < |t.kids| ensures Rep(g, t.kids[i]) {
        forall p | 0 <= p < |f| && Uses(t.kids[i], p) > 0 ensures g[p] == f[p] { KidUses(t, i, p); }
        RepFrame(f, g, t.kids[i]);
      }
    }
  }

  // ── Binary searches ──

  ghost predicate Ascending(s: seq<int>) { forall i, j :: 0 <= i < j < |s| ==> s[i] <= s[j] }

  method FindChildBinary(keys: seq<int>, key: int) returns (lo: nat)
    requires Ascending(keys)
    ensures lo == Route(keys, key)
  {
    lo := 0;
    var hi := |keys|;
    while lo < hi
      invariant lo <= hi <= |keys|
      invariant forall i :: 0 <= i < lo ==> keys[i] <= key
      invariant forall i :: hi <= i < |keys| ==> key < keys[i]
    {
      var mid := lo + (hi - lo) / 2;
      if key < keys[mid] { hi := mid; } else { lo := mid + 1; }
    }
    RouteUnique(keys, key, lo);
  }

  /** The first slot holding key, or -1. */
  method SearchKeyBinary(keys: seq<int>, key: int) returns (idx: int)
    requires Ascending(keys)
    ensures idx == -1 ==> key !in keys
    ensures idx != -1 ==> 0 <= idx < |keys| && keys[idx] == key && key !in keys[..idx]
  {
    var lo, hi := 0, |keys|;
    while lo < hi
      invariant 0 <= lo <= hi <= |keys|
      invariant forall i :: 0 <= i < lo ==> keys[i] < key
      invariant forall i :: hi <= i < |keys| ==> key < keys[i]
    {
      var mid := lo + (hi - lo) / 2;
      if key == keys[mid] {
        while mid > 0 && keys[mid - 1] == key
          invariant 0 <= mid < |keys| && keys[mid] == key
        {
          mid := mid - 1;
        }
        return mid;
      }
      if key < keys[mid] { hi := mid; } else { lo := mid + 1; }
    }
    return -1;
  }

  method LeafLowerBound(keys: seq<int>, key: int, ghost es: seq<Entry>) returns (lo: nat)
    requires Sorted(es) && keys == Keys(es)
    ensures lo == LowerBound(es, key)
  {
    lo := 0;
    var hi := |keys|;
    while lo < hi
      invariant lo <= hi <= |keys|
      invariant forall i :: 0 <= i < lo ==> keys[i] < key
      invariant forall i :: hi <= i < |keys| ==> key <= keys[i]
    {
      var mid := lo + (hi - lo) / 2;
      if key <= keys[mid] { hi := mid; } else { lo := mid + 1; }
    }
    assert forall i :: 0 <= i < |es| ==> keys[i] == es[i].key;
    LowerBoundUnique(es, key, lo);
  }

  lemma LowerBoundUnique(es: seq<Entry>, k: int, r: nat)
    requires r <= |es|
    requires forall i :: 0 <= i < r ==> es[i].key < k
    requires r < |es| ==> k <= es[r].key
    ensures LowerBound(es, k) == r
  {
    var q := LowerBound(es, k);
    assert !(q < r) && !(r < q);
  }

  /** The rows under key in a leaf: from the first match while keys still match. */
  method CollectRun(nr: Node, key: int, ghost es: seq<Entry>) returns (found: seq<nat>)
    requires Sorted(es) && nr.keys == Keys(es) && nr.vals == Rows(es)
    ensures found == Run(es, key)
  {
    var idx := SearchKeyBinary(nr.keys, key);
    found := [];
    assert forall i :: 0 <= i < |es| ==> nr.keys[i] == es[i].key;
    if idx < 0 {
      NoKeyNoRun(es, key);
      return;
    }
    assert forall i :: 0 <= i < idx ==> es[i].key != key by {
      assert forall i :: 0 <= i < idx ==> nr.keys[..idx][i] == es[i].key;
    }
    NoKeyNoRun(es[..idx], key);
    ghost var start := idx;
    assert es[start].key == key;
    while idx < |nr.keys| && nr.keys[idx] == key
      invariant start <= idx <= |nr.keys| && (idx == start ==> nr.keys[idx] == key)
      invariant found == Run(es[..idx], key)
    {
      assert es[..idx + 1] == es[..idx] + [es[idx]];
      RunStep(es[..idx], es[idx], key);
      found := found + [nr.vals[idx]];
      idx := idx + 1;
    }
    RunEnds(es, key, start, idx);
  }

  lemma {:induction false} RunEnds(es: seq<Entry>, key: int, start: nat, end: nat)
    requires Sorted(es) && start < end <= |es| && es[start].key == key
    requires end < |es| ==> es[end].key != key
    ensures Run(es, key) == Run(es[..end], key)
  {
    assert es == es[..end] + es[end..];
    RunConcat(es[..end], es[end..], key);
    forall i | 0 <= i < |es[end..]| ensures es[end..][i].key != key {
      assert es[start].key <= es[end].key && es[end..][i] == es[end + i];
    }
    NoKeyNoRun(es[end..], key);
  }

  lemma {:induction false} NoKeyNoRun(es: seq<Entry>, key: int)
    requires forall i :: 0 <= i < |es| ==> es[i].key != key
    ensures Run(es, key) == []
  {
    RunHasKey(es, key);
  }

  lemma {:induction false} SepsAscending(kids: seq<Tree>, seps: seq<int>)
    requires Links(kids, seps)
    ensures Ascending(seps)
  {
    forall i, j | 0 <= i < j < |seps| ensures seps[i] <= seps[j] { SepsSorted(kids, seps, i, j); }
  }

  // ── The on-page form of an insertion ──

  function InsertAt<T>(s: seq<T>, p: nat, x: T): seq<T>
    requires p <= |s|
  {
    s[..p] + [x] + s[p..]
  }

  lemma {:induction false} LeafPutPage(es: seq<Entry>, k: int, v: nat)
    ensures var p := LowerBound(es, k);
            && Keys(LeafPut(es, k, v)) == InsertAt(Keys(es), p, k)
            && Rows(LeafPut(es, k, v)) == InsertAt(Rows(es), p, v)
  {
  }

  lemma {:induction false} PutKidsPage(kids: seq<Tree>, ci: nat, r: Ins)
    requires ci < |kids| && r.left.page == kids[ci].page && r.split.Some?
    ensures KidPages(PutKids(kids, ci, r)) == InsertAt(KidPages(kids), ci + 1, r.split.value.right.page)
    ensures KidPages(PutKids(kids, ci, r))[1..] ==
            InsertAt(KidPages(kids)[1..], ci, r.split.value.right.page)
  {
  }

  lemma {:induction false} SamePages(kids: seq<Tree>, ci: nat, r: Ins)
    requires ci < |kids| && r.left.page == kids[ci].page && r.split.None?
    ensures KidPages(PutKids(kids, ci, r)) == KidPages(kids)
  {
  }

  /** The children after an insertion, still on the pages the file gives them. */
  ghost predicate RepKids(file: seq<Node>, kids: seq<Tree>)
    requires forall i :: 0 <= i < |kids| ==> Shaped(kids[i])
  {
    forall i :: 0 <= i < |kids| ==> Rep(file, kids[i])
  }

  /** No page twice, and none beyond the n pages of the file. */
  ghost predicate Owned(t: Tree, n: nat) {
    forall p :: Uses(t, p) <= Between(0, n, p)
  }

  lemma {:induction false} KidOwned(t: Tree, i: nat, n: nat)
    requires t.Inner? && i < |t.kids| && Owned(t, n)
    ensures Owned(t.kids[i], n)
    ensures Uses(t.kids[i], t.page) == 0
  {
    forall p ensures Uses(t.kids[i], p) <= Between(0, n, p) { KidUses(t, i, p); }
    KidUses(t, i, t.page);
  }

  /** What an insertion into the subtree t did to the file, and what it reported. */
  ghost predicate Done(was: seq<Node>, now: seq<Node>, t: Tree, r: Ins, split: Option<(int, nat)>) {
    && ShapedIns(r) && |now| == r.next && SameOutside(was, now, t)
    && Rep(now, r.left) && r.left.page == t.page
    && (split.Some? <==> r.split.Some?)
    && (split.Some? ==>
          && split.value == (r.split.value.sep, r.split.value.right.page)
          && Rep(now, r.split.value.right))
  }

  /** After the child on the route was updated, every sibling is still on its pages. */
  lemma {:induction false} SiblingRep(f: seq<Node>, g: seq<Node>, t: Tree, ci: nat, j: nat)
    requires Shaped(t) && t.Inner? && Rep(f, t) && Owned(t, |f|)
    requires ci < |t.kids| && j < |t.kids| && j != ci
    requires SameOutside(f, g, t.kids[ci])
    ensures Rep(g, t.kids[j])
  {
    forall p | 0 <= p < |f| && Uses(t.kids[j], p) > 0 ensures g[p] == f[p] {
      assert Uses(t, p) <= Between(0, |f|, p);
      if ci < j { KidsDisjoint(t.kids, ci, j, p); } else { KidsDisjoint(t.kids, j, ci, p); }
    }
    RepFrame(f, g, t.kids[j]);
  }

  lemma {:induction false} KidsRep(f: seq<Node>, g: seq<Node>, t: Tree, ci: nat, r: Ins, split: Option<(int, nat)>)
    requires Shaped(t) && t.Inner? && Rep(f, t) && Owned(t, |f|) && ci < |t.kids|
    requires Done(f, g, t.kids[ci], r, split)
    ensures forall i :: 0 <= i < |PutKids(t.kids, ci, r)| ==> Shaped(PutKids(t.kids, ci, r)[i])
    ensures RepKids(g, PutKids(t.kids, ci, r))
  {
    PutShaped(t.kids, ci, r);
    var ks := PutKids(t.kids, ci, r);
    forall j | 0 <= j < |t.kids| && j != ci ensures Rep(g, t.kids[j]) { SiblingRep(f, g, t, ci, j); }
    var d := |Parts(r)| - 1;
    forall i | 0 <= i < |ks| ensures Rep(g, ks[i]) {
      if i < ci {
        assert ks[i] == t.kids[i];
      } else if i > ci + d {
        assert ks[i] == t.kids[i - d];
      } else {
        assert ks[i] == Parts(r)[i - ci];
      }
    }
  }

  /** Where the pages of the updated children lie: none is the parent's, none is yet to be added. */
  lemma {:induction false} KidsPages(t: Tree, ci: nat, r: Ins, n: nat)
    requires t.Inner? && ci < |t.kids| && Owned(t, n) && t.page < n
    requires n <= r.next && forall p :: InsUses(r, p) == Uses(t.kids[ci], p) + Between(n, r.next, p)
    ensures var ks := PutKids(t.kids, ci, r);
            forall p: nat :: FlatUses(ks, p) > 0 ==> p != t.page && p < r.next
  {
    var ks := PutKids(t.kids, ci, r);
    forall p: nat | FlatUses(ks, p) > 0 ensures p != t.page && p < r.next {
      PutUses(t.kids, ci, r, p);
      assert InsUses(r, p) == Uses(t.kids[ci], p) + Between(n, r.next, p);
      assert Uses(t, p) <= Between(0, n, p);
    }
  }

  lemma {:induction false} RepKidsFrame(f: seq<Node>, g: seq<Node>, kids: seq<Tree>)
    requires forall i :: 0 <= i < |kids| ==> Shaped(kids[i])
    requires RepKids(f, kids) && |f| <= |g|
    requires forall p :: 0 <= p < |f| && FlatUses(kids, p) > 0 ==> g[p] == f[p]
    ensures RepKids(g, kids)
  {
    forall i | 0 <= i < |kids| ensures Rep(g, kids[i]) {
      forall p | 0 <= p < |f| && Uses(kids[i], p) > 0 ensures g[p] == f[p] { FlatUsesAt(kids, i, p); }
      RepFrame(f, g, kids[i]);
    }
  }

  /** How the rebuilt inner node is written: over its page and, if cut, onto one new page. */
  function WriteInner(f: seq<Node>, page: nat, first: nat, keys: seq<int>, vals: seq<nat>): seq<Node>
    requires page < |f| && |keys| == |vals|
  {
    var half := |keys| / 2;
    if |keys| <= MAX_KEYS then
      f[page := Node(false, first, keys, vals)]
    else
      f[page := Node(false, first, keys[..half], vals[..half])] +
      [Node(false, vals[half], keys[half + 1..], vals[half + 1..])]
  }

  lemma {:induction false} CutInnerRep(f: seq<Node>, page: nat, kids: seq<Tree>, seps: seq<int>)
    requires |kids| == |seps| + 1 && page < |f|
    requires forall i :: 0 <= i < |kids| ==> Shaped(kids[i])
    requires RepKids(f, kids)
    requires forall p: nat :: FlatUses(kids, p) > 0 ==> p != page && p < |f|
    ensures var r := CutInner(page, kids, seps, |f|);
            var g := WriteInner(f, page, kids[0].page, seps, KidPages(kids)[1..]);
            && ShapedIns(r) && Rep(g, r.left) && r.left.page == page && |g| == r.next
            && (r.split.Some? ==> Rep(g, r.split.value.right) && r.split.value.right.page == |f|)
  {
    var vals := KidPages(kids)[1..];
    var g := WriteInner(f, page, kids[0].page, seps, vals);
    RepKidsFrame(f, g, kids);
    CutInnerShaped(page, kids, seps, |f|);
    if |seps| > MAX_KEYS {
      var half := |seps| / 2;
      assert KidPages(kids[..half + 1])[1..] == vals[..half];
      assert KidPages(kids[half + 1..])[1..] == vals[half + 1..];
      assert vals[half] == kids[half + 1].page;
      var rk := kids[half + 1..];
      forall i | 0 <= i < |rk| ensures Rep(g, rk[i]) { assert rk[i] == kids[half + 1 + i]; }
    }
  }

  /** One level of the search: the page number found in the node is the page of the routed child. */
  lemma {:induction false} Descend(file: seq<Node>, t: Tree, h: nat, key: int)
    requires t.Inner? && Shaped(t) && Rep(file, t) && Ordered(t, h)
    ensures h > 0 && Ascending(t.seps)
    ensures var ci := Route(t.seps, key);
            var kid, nr := t.kids[ci], file[t.page];
            && nr.keys == t.seps && |nr.vals| == |t.seps|
            && Shaped(kid) && Rep(file, kid) && Ordered(kid, h - 1)
            && Find(kid, key) == Find(t, key)
            && kid.page == if ci == 0 then nr.firstChild else nr.vals[ci - 1]
  {
    SepsAscending(t.kids, t.seps);
  }

  lemma {:induction false} BuildOrdered(hist: seq<Entry>)
    ensures Ordered(Build(hist).tree, Height(Build(hist).tree))
  {
    BuildSound(hist);
  }

  // ── The index ──

  class BTree {
    const keyType: KeyType
    var file: seq<Node>
    var root: nat
    ghost var tree: Tree
    ghost var hist: seq<Entry>

    /** The file holds the tree that the inserted entries build, and nothing else. */
    ghost predicate Valid()
      reads this
    {
      && Index(tree, |file|) == Build(hist)
      && Shaped(tree)
      && Rep(file, tree)
      && root == tree.page
    }

    constructor (kt: KeyType)
      ensures Valid() && hist == []
    {
      keyType := kt;
      file := [Node(true, 0, [], [])];
      root := 0;
      tree := Leaf(0, []);
      hist := [];
    }

    /** The leaf that routing by upper bound reaches. */
    method FindLeaf(key: int, ghost h: nat) returns (off: nat, ghost t: Tree)
      requires Shaped(tree) && Rep(file, tree) && root == tree.page && Ordered(tree, h)
      ensures t.Leaf? && Rep(file, t) && off == t.page && Sorted(t.entries)
      ensures Find(t, key) == Find(tree, key)
    {
      off, t := root, tree;
      ghost var g := h;
      while !file[off].isLeaf
        invariant Shaped(t) && Rep(file, t) && off == t.page && Ordered(t, g)
        invariant Find(t, key) == Find(tree, key)
        decreases t
      {
        var nr := file[off];
        Descend(file, t, g, key);
        var ci := FindChildBinary(nr.keys, key);
        t, g := t.kids[ci], g - 1;
        off := if ci == 0 then nr.firstChild else nr.vals[ci - 1];
      }
    }

    /** None is the source's not-found status. */
    method Search(key: int) returns (r: Option<seq<nat>>)
      requires Valid()
      ensures r.Some? <==> HasKey(hist, key)
      ensures r.Some? ==> r.value == Find(tree, key) && Answers(r.value, Run(hist, key))
    {
      BuildOrdered(hist);
      ghost var t;
      var off;
      off, t := FindLeaf(key, Height(tree));
      var found := CollectRun(file[off], key, t.entries);
      SearchMeaning(hist, key);
      r := if found == [] then None else Some(found);
    }

    /**
     Insertion into a leaf: in place while there is room, otherwise the upper half moves to a new
     page and its first key is reported with that page.
     */
    method InsertIntoLeafNode(page: nat, key: int, row: nat, ghost t: Tree)
      returns (split: Option<(int, nat)>)
      requires t.Leaf? && Rep(file, t) && t.page == page && Sorted(t.entries)
      modifies this`file
      ensures Done(old(file), file, t, BPlusTree.Insert(t, key, row, |old(file)|), split)
    {
      var nr := file[page];
      var ipos := LeafLowerBound(nr.keys, key, t.entries);
      LeafPutPage(t.entries, key, row);
      var keys, vals := InsertAt(nr.keys, ipos, key), InsertAt(nr.vals, ipos, row);
      ghost var es := LeafPut(t.entries, key, row);
      if |nr.keys| < MAX_KEYS {
        file := file[page := Node(true, 0, keys, vals)];
        return None;
      }
      var half := |keys| / 2;
      assert Keys(es[..half]) == keys[..half] && Rows(es[..half]) == vals[..half];
      assert Keys(es[half..]) == keys[half..] && Rows(es[half..]) == vals[half..];
      file := file[page := Node(true, 0, keys[..half], vals[..half])];
      var newOff := |file|;
      file := file + [Node(true, 0, keys[half..], vals[half..])];
      return Some((keys[half], newOff));
    }

    /** Insertion at the root; a split root is put under a new root on the next page. */
    method Insert(key: int, row: nat)
      requires Valid()
      modifies this
      ensures Valid() && hist == old(hist) + [Entry(key, row)]
      ensures |old(file)| <= |file|
    {
      ghost var e := Entry(key, row);
      BuildSound(hist);
      BuildStep(hist, e);
      ghost var r := BPlusTree.Insert(tree, key, row, |file|);
      assert InsertRoot(Index(tree, |file|), key, row) == Rooted(r);
      var split := InsertIntoSubtree(root, key, row, tree, Height(tree), true);
      if split.Some? {
        NewRoot(file, r);
        var newRoot := |file|;
        file := file + [Node(false, root, [split.value.0], [split.value.1])];
        root := newRoot;
      }
      tree, hist := Rooted(r).tree, hist + [e];
    }

    method InsertIntoSubtree(page: nat, key: int, row: nat, ghost t: Tree, ghost h: nat, ghost top: bool)
      returns (split: Option<(int, nat)>)
      requires Shaped(t) && Rep(file, t) && t.page == page && Ordered(t, h) && Owned(t, |file|)
      requires Filled(t, top)
      modifies this`file
      ensures Done(old(file), file, t, BPlusTree.Insert(t, key, row, |old(file)|), split)
      decreases t
    {
      var nr := file[page];
      if nr.isLeaf {
        split := InsertIntoLeafNode(page, key, row, t);
        return;
      }
      Descend(file, t, h, key);
      var ci := FindChildBinary(nr.keys, key);
      var childOff := if ci == 0 then nr.firstChild else nr.vals[ci - 1];
      KidOwned(t, ci, |file|);
      ghost var r := BPlusTree.Insert(t.kids[ci], key, row, |file|);
      forall p ensures InsUses(r, p) == Uses(t.kids[ci], p) + Between(|file|, r.next, p) && |file| <= r.next {
        InsertUses(t.kids[ci], key, row, |file|, p);
      }
      var below := InsertIntoSubtree(childOff, key, row, t.kids[ci], h - 1, false);
      if below.None? {
        SubtreeNoSplit(old(file), file, t, ci, r);
        return None;
      }
      split := PutSeparator(page, ci, below.value.0, below.value.1, old(file), t, r);
    }

    /** The separator and page reported by a child go into this node, which splits when full. */
    method PutSeparator(page: nat, ci: nat, sepKey: int, newPage: nat,
                        ghost was: seq<Node>, ghost t: Tree, ghost r: Ins)
      returns (split: Option<(int, nat)>)
      requires Nested(was, file, t, ci, r, Some((sepKey, newPage))) && page == t.page
      modifies this`file
      ensures Done(was, file, t, CutInner(page, PutKids(t.kids, ci, r), PutSeps(t.seps, ci, r), r.next), split)
    {
      SubtreeSplit(was, file, t, ci, r, (sepKey, newPage));
      var nr := file[page];
      var keys, vals := InsertAt(nr.keys, ci, sepKey), InsertAt(nr.vals, ci, newPage);
      ghost var mid := file;
      if |nr.keys| < MAX_KEYS {
        file := file[page := Node(false, nr.firstChild, keys, vals)];
        split := None;
      } else {
        var half := |keys| / 2;
        file := file[page := Node(false, nr.firstChild, keys[..half], vals[..half])];
        var newOff := |file|;
        file := file + [Node(false, vals[half], keys[half + 1..], vals[half + 1..])];
        split := Some((keys[half], newOff));
      }
      assert file == WriteInner(mid, page, nr.firstChild, keys, vals);
    }
  }

  lemma {:induction false} NewRoot(file: seq<Node>, r: Ins)
    requires ShapedIns(r) && r.split.Some? && |file| == r.next
    requires Rep(file, r.left) && Rep(file, r.split.value.right)
    ensures Shaped(Rooted(r).tree)
    ensures Rep(file + [Node(false, r.left.page, [r.split.value.sep], [r.split.value.right.page])],
                Rooted(r).tree)
  {
    var t := Rooted(r).tree;
    var g := file + [Node(false, r.left.page, [r.split.value.sep], [r.split.value.right.page])];
    RepFrame(file, g, r.left);
    RepFrame(file, g, r.split.value.right);
    assert KidPages(t.kids)[1..] == [r.split.value.right.page];
  }

  /** The state between the insertion into child ci and the update of the node t above it. */
  ghost predicate Nested(was: seq<Node>, now: seq<Node>, t: Tree, ci: nat, r: Ins, split: Option<(int, nat)>) {
    && t.Inner? && Shaped(t) && Rep(was, t) && Owned(t, |was|) && ci < |t.kids|
    && Done(was, now, t.kids[ci], r, split)
    && forall p :: InsUses(r, p) == Uses(t.kids[ci], p) + Between(|was|, r.next, p)
  }

  lemma {:induction false} NestedOutside(was: seq<Node>, now: seq<Node>, t: Tree, ci: nat)
    requires t.Inner? && ci < |t.kids| && SameOutside(was, now, t.kids[ci])
    ensures SameOutside(was, now, t)
  {
    forall p | 0 <= p < |was| && Uses(t, p) == 0 ensures now[p] == was[p] { KidUses(t, ci, p); }
  }

  /** The child did not split: with its part in place of it, the node reads as before. */
  lemma {:induction false} SubtreeNoSplit(was: seq<Node>, now: seq<Node>, t: Tree, ci: nat, r: Ins)
    requires Nested(was, now, t, ci, r, None) && |t.seps| <= MAX_KEYS
    ensures Done(was, now, t, CutInner(t.page, PutKids(t.kids, ci, r), PutSeps(t.seps, ci, r), r.next), None)
  {
    KidOwned(t, ci, |was|);
    KidsRep(was, now, t, ci, r, None);
    SamePages(t.kids, ci, r);
    NestedOutside(was, now, t, ci);
    assert PutKids(t.kids, ci, r)[0].page == KidPages(PutKids(t.kids, ci, r))[0] == t.kids[0].page;
  }

  /** The child split: writing the node with the new separator and page completes the insertion. */
  lemma {:induction false} SubtreeSplit(was: seq<Node>, mid: seq<Node>, t: Tree, ci: nat, r: Ins, below: (int, nat))
    requires Nested(was, mid, t, ci, r, Some(below))
    ensures t.page < |mid| && mid[t.page] == NodeOf(t)
    ensures var ks, ss := PutKids(t.kids, ci, r), PutSeps(t.seps, ci, r);
            var u := CutInner(t.page, ks, ss, r.next);
            var nr := NodeOf(t);
            var keys, vals := InsertAt(nr.keys, ci, below.0), InsertAt(nr.vals, ci, below.1);
            Done(was, WriteInner(mid, t.page, nr.firstChild, keys, vals), t, u,
                 if |keys| <= MAX_KEYS then None else Some((keys[|keys| / 2], |mid|)))
  {
    var ks, ss := PutKids(t.kids, ci, r), PutSeps(t.seps, ci, r);
    KidOwned(t, ci, |was|);
    KidsRep(was, mid, t, ci, r, Some(below));
    KidsPages(t, ci, r, |was|);
    PutKidsPage(t.kids, ci, r);
    CutInnerRep(mid, t.page, ks, ss);
    NestedOutside(was, mid, t, ci);
    assert Uses(t, t.page) > 0;
  }
}
