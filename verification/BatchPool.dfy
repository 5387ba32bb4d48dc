/**
 The pending-batch protocol under every interleaving.  Threads run insert_row, insert_rows and
 flush_pending; each step is one atomic load, compare-and-swap, mutex operation, critical section
 of the pool mutex, or one unshared action on a batch the thread owns or has locked.
 */
module BatchPool {
  import opened Options

  const BATCHES: nat := 64
  const CAPACITY: nat := 8192

  /** Where a thread stands.  left is the number of rows it still has to insert. */
  datatype Pc =
    | Idle
    | Load(left: nat, single: bool)                     // about to read the active pointer
    | Get(left: nat, single: bool)                      // it was null: about to take a free batch
    | Install(left: nat, single: bool, b: nat)          // owns b: about to swap null for b
    | Return(left: nat, single: bool, b: nat)           // the swap failed: about to give b back
    | Lock(left: nat, single: bool, b: nat)             // read b: about to lock it
    | Check(left: nat, single: bool, b: nat)            // locked b: about to reread the active pointer
    | Start(left: nat, single: bool, b: nat)            // b is active: about to fix its first row id
    | Fill(left: nat, single: bool, b: nat)             // about to append rows
    | Bump(left: nat, b: nat, n: nat)                   // appended n rows: about to add n to the row count
    | Full(left: nat, b: nat)                           // about to swap b for null if it is full
    | Push(left: nat, b: nat)                           // owns b, still locked: about to queue it
    | Unlock(left: nat, single: bool, b: nat)           // about to unlock b
    | FLoad                                             // flush: about to read the active pointer
    | FLock(b: nat)
    | FCheck(b: nat)                                    // locked b: about to test it is active and has rows
    | FSwap(b: nat)                                     // about to swap b for null
    | FUnlock(b: nat, own: bool)                        // about to unlock b, which it may own
    | FPush(b: nat)
    | FPop                                              // about to take the head of the flush queue
    | FWrite(b: nat)                                    // owns b: about to write it to a page
    | FRequeue(b: nat)                                  // the write failed: about to queue b again
    | FClear(b: nat)                                    // written: about to empty b
    | FFree(b: nat)                                     // about to give b back

  /** Who has a batch, and where a row is: bookkeeping that no step reads. */
  datatype Loc = IsFree | IsActive | IsQueued | Held(t: nat)
  datatype Place = InBatch(b: nat) | OnPage(k: nat)

  datatype State = State(
    threads: seq<Pc>,
    free: seq<nat>,
    active: Option<nat>,
    queue: seq<nat>,
    count: seq<nat>,
    start: seq<nat>,
    lock: seq<Option<nat>>,
    rowCount: nat,
    pages: seq<(nat, nat)>,
    issued: seq<nat>,
    loc: seq<Loc>,
    place: seq<Place>)

  /** What the environment decides: which call an idle thread makes, and whether a write succeeds. */
  datatype Choice = InsertRow | InsertRows(n: nat) | FlushPending | WriteOk | WriteFails

  function Move(s: State, t: nat, pc: Pc): State
    requires t < |s.threads|
  {
    s.(threads := s.threads[t := pc])
  }

  predicate Shape(s: State) {
    && |s.count| == |s.start| == |s.lock| == |s.loc| == BATCHES
    && |s.issued| == |s.place|
    && (forall t :: 0 <= t < |s.threads| ==> BatchOf(s.threads[t]) < BATCHES)
    && (forall i :: 0 <= i < |s.free| ==> s.free[i] < BATCHES)
    && (forall i :: 0 <= i < |s.queue| ==> s.queue[i] < BATCHES)
    && (s.active.Some? ==> s.active.value < BATCHES)
  }

  /** The batch a thread's position mentions, 0 if none. */
  function BatchOf(pc: Pc): nat {
    match pc
    case Install(_, _, b) => b case Return(_, _, b) => b case Lock(_, _, b) => b case Check(_, _, b) => b
    case Start(_, _, b) => b case Fill(_, _, b) => b case Bump(_, b, _) => b case Full(_, b) => b
    case Push(_, b) => b case Unlock(_, _, b) => b case FLock(b) => b case FCheck(b) => b case FSwap(b) => b
    case FUnlock(b, _) => b case FPush(b) => b case FWrite(b) => b case FRequeue(b) => b case FClear(b) => b
    case FFree(b) => b
    case _ => 0
  }

  predicate Enabled(s: State, t: nat, c: Choice)
    requires Shape(s)
  {
    && t < |s.threads|
    && match s.threads[t]
       case Idle => c.InsertRow? || c.InsertRows? || c.FlushPending?
       case Get(_, _) => s.free != []
       case Lock(_, _, b) => s.lock[b] == None
       case FLock(b) => s.lock[b] == None
       case FWrite(_) => c.WriteOk? || c.WriteFails?
       case _ => true
  }

  function Ids(from: nat, n: nat): seq<nat> { seq(n, i requires 0 <= i < n => from + i) }
  function Places(n: nat, b: nat): seq<Place> { seq(n, _ => InBatch(b)) }

  /** The rows of batch b, now on page k. */
  function Moved(place: seq<Place>, b: nat, k: nat): seq<Place> {
    seq(|place|, i requires 0 <= i < |place| => if place[i] == InBatch(b) then OnPage(k) else place[i])
  }

  function Again(left: nat, single: bool): Pc { if left == 0 then Idle else Load(left, single) }

  function Do(s: State, t: nat, c: Choice): State
    requires Shape(s) && Enabled(s, t, c)
  {
    match s.threads[t]
    case Idle =>
      if c.InsertRow? then Move(s, t, Load(1, true))
      else if c.InsertRows? then Move(s, t, Again(c.n, false))
      else Move(s, t, FLoad)
    case Load(left, single) =>
      Move(s, t, if s.active.None? then Get(left, single) else Lock(left, single, s.active.value))
    case Get(left, single) =>
      var b := s.free[|s.free| - 1];
      Move(s, t, Install(left, single, b)).(free := s.free[..|s.free| - 1], loc := s.loc[b := Held(t)])
    case Install(left, single, b) =>
      if s.active.None? then Move(s, t, Load(left, single)).(active := Some(b), loc := s.loc[b := IsActive])
      else Move(s, t, Return(left, single, b))
    case Return(left, single, b) =>
      Move(s, t, Load(left, single)).(count := s.count[b := 0], free := s.free + [b], loc := s.loc[b := IsFree])
    case Lock(left, single, b) =>
      Move(s, t, Check(left, single, b)).(lock := s.lock[b := Some(t)])
    case Check(left, single, b) =>
      Move(s, t, if s.active == Some(b) then Start(left, single, b) else Unlock(left, single, b))
    case Start(left, single, b) =>
      var u := Move(s, t, Fill(left, single, b));
      if s.count[b] == 0 then u.(start := s.start[b := s.rowCount]) else u
    case Fill(left, single, b) =>
      var room := if s.count[b] <= CAPACITY then CAPACITY - s.count[b] else 0;
      var n := if single then 1 else if left < room then left else room;
      if n == 0 then Move(s, t, Full(left, b))
      else
        Move(s, t, Bump(if n <= left then left - n else 0, b, n)).(
          issued := s.issued + Ids(s.start[b] + s.count[b], n),
          count := s.count[b := s.count[b] + n],
          place := s.place + Places(n, b))
    case Bump(left, b, n) =>
      Move(s, t, Full(left, b)).(rowCount := s.rowCount + n)
    case Full(left, b) =>
      if s.count[b] >= CAPACITY && s.active == Some(b) then
        Move(s, t, Push(left, b)).(active := None, loc := s.loc[b := Held(t)])
      else Move(s, t, Unlock(left, false, b))
    case Push(left, b) =>
      Move(s, t, Unlock(left, false, b)).(queue := s.queue + [b], loc := s.loc[b := IsQueued])
    case Unlock(left, single, b) =>
      Move(s, t, Again(left, single)).(lock := s.lock[b := None])
    case FLoad => Move(s, t, if s.active.None? then FPop else FLock(s.active.value))
    case FLock(b) => Move(s, t, FCheck(b)).(lock := s.lock[b := Some(t)])
    case FCheck(b) =>
      Move(s, t, if s.active == Some(b) && s.count[b] > 0 then FSwap(b) else FUnlock(b, false))
    case FSwap(b) =>
      if s.active == Some(b) then
        Move(s, t, FUnlock(b, true)).(active := None, loc := s.loc[b := Held(t)])
      else Move(s, t, FUnlock(b, false))
    case FUnlock(b, own) => Move(s, t, if own then FPush(b) else FPop).(lock := s.lock[b := None])
    case FPush(b) => Move(s, t, FPop).(queue := s.queue + [b], loc := s.loc[b := IsQueued])
    case FPop =>
      if s.queue == [] then Move(s, t, Idle)
      else Move(s, t, FWrite(s.queue[0])).(queue := s.queue[1..], loc := s.loc[s.queue[0] := Held(t)])
    case FWrite(b) =>
      if c.WriteFails? then Move(s, t, FRequeue(b))
      else if s.count[b] == 0 then Move(s, t, FClear(b))
      else
        Move(s, t, FClear(b)).(
          pages := s.pages + [(s.start[b], s.count[b])],
          place := Moved(s.place, b, |s.pages|))
    case FRequeue(b) => Move(s, t, Idle).(queue := s.queue + [b], loc := s.loc[b := IsQueued])
    case FClear(b) => Move(s, t, FFree(b)).(count := s.count[b := 0])
    case FFree(b) => Move(s, t, FPop).(free := s.free + [b], loc := s.loc[b := IsFree])
  }

  // ── The invariant ──

  /** The batch a thread owns outright. */
  function Owns(pc: Pc): Option<nat> {
    match pc
    case Install(_, _, b) => Some(b) case Return(_, _, b) => Some(b) case Push(_, b) => Some(b)
    case FUnlock(b, own) => if own then Some(b) else None
    case FPush(b) => Some(b) case FWrite(b) => Some(b) case FRequeue(b) => Some(b)
    case FClear(b) => Some(b) case FFree(b) => Some(b)
    case _ => None
  }

  /** The batch whose mutex a thread holds. */
  function Locks(pc: Pc): Option<nat> {
    match pc
    case Check(_, _, b) => Some(b) case Start(_, _, b) => Some(b) case Fill(_, _, b) => Some(b)
    case Bump(_, b, _) => Some(b) case Full(_, b) => Some(b) case Push(_, b) => Some(b)
    case Unlock(_, _, b) => Some(b) case FCheck(b) => Some(b) case FSwap(b) => Some(b)
    case FUnlock(b, _) => Some(b)
    case _ => None
  }

  /** Positions reached only after finding b active under its lock, before giving it up. */
  predicate Inside(pc: Pc) { pc.Start? || pc.Fill? || pc.Bump? || pc.Full? || pc.FSwap? }

  /** Every batch is where its location says: one place each. */
  ghost predicate Located(s: State)
    requires Shape(s)
  {
    && (forall i, j :: 0 <= i < j < |s.free| ==> s.free[i] != s.free[j])
    && (forall i, j :: 0 <= i < j < |s.queue| ==> s.queue[i] != s.queue[j])
    && (forall b :: 0 <= b < BATCHES ==> (b in s.free <==> s.loc[b] == IsFree))
    && (forall b :: 0 <= b < BATCHES ==> (b in s.queue <==> s.loc[b] == IsQueued))
    && (forall b :: 0 <= b < BATCHES ==> (s.active == Some(b) <==> s.loc[b] == IsActive))
    && (forall t :: 0 <= t < |s.threads| && Owns(s.threads[t]).Some? ==> s.loc[Owns(s.threads[t]).value] == Held(t))
    && (forall b :: 0 <= b < BATCHES && s.loc[b].Held? ==>
          s.loc[b].t < |s.threads| && Owns(s.threads[s.loc[b].t]) == Some(b))
  }

  /** Mutexes are held by the threads whose positions say so; inside, the batch is the active one. */
  ghost predicate Locked(s: State)
    requires Shape(s)
  {
    && (forall t :: 0 <= t < |s.threads| && Locks(s.threads[t]).Some? ==> s.lock[Locks(s.threads[t]).value] == Some(t))
    && (forall b :: 0 <= b < BATCHES && s.lock[b].Some? ==>
          s.lock[b].value < |s.threads| && Locks(s.threads[s.lock[b].value]) == Some(b))
    && (forall t :: 0 <= t < |s.threads| && Inside(s.threads[t]) ==> s.active == Some(BatchOf(s.threads[t])))
  }

  /** Rows handed out but not yet added to the row count. */
  function InFlight(s: State): nat
    requires Shape(s)
  {
    if s.active.Some? && s.lock[s.active.value].Some? && s.lock[s.active.value].value < |s.threads| then
      var pc := s.threads[s.lock[s.active.value].value];
      if pc.Bump? then pc.n else 0
    else 0
  }

  /** Between filling a batch and giving it up, its lock holder may have it at capacity. */
  predicate Filling(s: State)
    requires Shape(s)
  {
    s.active.Some? && s.lock[s.active.value].Some? && s.lock[s.active.value].value < |s.threads| &&
    var pc := s.threads[s.lock[s.active.value].value];
    pc.Bump? || pc.Full?
  }

  /** What a thread's position says about the rows of its batch. */
  ghost predicate CountedThread(s: State, t: nat)
    requires Shape(s) && t < |s.threads|
  {
    var pc := s.threads[t];
    && (pc.Install? || pc.Return? || pc.FFree? ==> s.count[BatchOf(pc)] == 0)
    && (pc.Fill? && s.count[pc.b] == 0 ==> s.start[pc.b] == s.rowCount)
    && (pc.Bump? ==> pc.n <= s.count[pc.b])
  }

  /** The active batch has room, unless it was just filled, and ends where the row count does. */
  ghost predicate CountedActive(s: State)
    requires Shape(s)
  {
    s.active.Some? ==>
      && (s.count[s.active.value] < CAPACITY || Filling(s))
      && (s.count[s.active.value] > 0 ==>
            s.start[s.active.value] + s.count[s.active.value] == s.rowCount + InFlight(s))
  }

  ghost predicate Counted(s: State)
    requires Shape(s)
  {
    && CountedActive(s)
    && (forall b :: 0 <= b < BATCHES ==> s.count[b] <= CAPACITY && (s.loc[b] == IsFree ==> s.count[b] == 0))
    && (forall t :: 0 <= t < |s.threads| ==> CountedThread(s, t))
  }

  /** Row ids are handed out in order, without gaps or repeats. */
  ghost predicate Issued(s: State)
    requires Shape(s)
  {
    && |s.issued| == s.rowCount + InFlight(s)
    && forall i :: 0 <= i < |s.issued| ==> s.issued[i] == i
  }

  /** A batch holds rows that are not on a page yet. */
  predicate Live(s: State, b: nat)
    requires Shape(s) && b < BATCHES
  {
    s.count[b] > 0 && !(s.loc[b].Held? && s.loc[b].t < |s.threads| && s.threads[s.loc[b].t].FClear?)
  }

  /** Every issued row is in exactly the place recorded for it: one batch or one page. */
  ghost predicate Placed(s: State)
    requires Shape(s)
  {
    && (forall i, b :: 0 <= i < |s.place| && 0 <= b < BATCHES ==>
          (s.place[i] == InBatch(b) <==> Live(s, b) && s.start[b] <= i < s.start[b] + s.count[b]))
    && (forall i, k :: 0 <= i < |s.place| && 0 <= k < |s.pages| ==>
          (s.place[i] == OnPage(k) <==> s.pages[k].0 <= i < s.pages[k].0 + s.pages[k].1))
    && (forall i :: 0 <= i < |s.place| ==>
          match s.place[i] case InBatch(b) => b < BATCHES case OnPage(k) => k < |s.pages|)
    && (forall b :: 0 <= b < BATCHES && Live(s, b) ==> s.start[b] + s.count[b] <= |s.place|)
    && (forall k :: 0 <= k < |s.pages| ==> s.pages[k].0 + s.pages[k].1 <= |s.place|)
  }

  ghost predicate Inv(s: State) {
    Shape(s) && Located(s) && Locked(s) && Counted(s) && Issued(s) && Placed(s)
  }

  // ── Steps that only move a thread ──

  /** The new position owns and locks what the old one did, and claims no more than the state grants. */
  ghost predicate Quiet(s: State, t: nat, pc: Pc)
    requires Shape(s) && t < |s.threads|
  {
    && BatchOf(pc) < BATCHES
    && Owns(pc) == Owns(s.threads[t]) && Locks(pc) == Locks(s.threads[t])
    && (Inside(pc) ==> s.active == Some(BatchOf(pc)))
    && (Locks(pc).Some? && s.active == Locks(pc) && s.threads[t].Full? ==> s.count[BatchOf(pc)] < CAPACITY || pc.Full?)
    && !s.threads[t].Bump? && !pc.Bump? && !s.threads[t].FClear? && !pc.FClear?
    && ((pc.Install? || pc.Return? || pc.FFree?) ==> s.count[BatchOf(pc)] == 0)
    && !pc.Fill?
  }

  lemma {:induction false} QuietLocated(s: State, t: nat, pc: Pc)
    requires Shape(s) && Located(s) && t < |s.threads|
    requires BatchOf(pc) < BATCHES && Owns(pc) == Owns(s.threads[t])
    ensures Located(Move(s, t, pc))
  {
  }

  lemma {:induction false} QuietLocked(s: State, t: nat, pc: Pc)
    requires Shape(s) && Locked(s) && t < |s.threads|
    requires BatchOf(pc) < BATCHES && Locks(pc) == Locks(s.threads[t])
    requires Inside(pc) ==> s.active == Some(BatchOf(pc))
    ensures Locked(Move(s, t, pc))
  {
  }

  lemma {:induction false} QuietFlight(s: State, t: nat, pc: Pc)
    requires Shape(s) && t < |s.threads| && BatchOf(pc) < BATCHES
    requires !s.threads[t].Bump? && !pc.Bump?
    ensures InFlight(Move(s, t, pc)) == InFlight(s)
  {
  }

  lemma {:induction false} QuietPlaced(s: State, t: nat, pc: Pc)
    requires Shape(s) && Placed(s) && t < |s.threads| && BatchOf(pc) < BATCHES
    requires !s.threads[t].FClear? && !pc.FClear?
    ensures Placed(Move(s, t, pc))
  {
    var u := Move(s, t, pc);
    assert forall b :: 0 <= b < BATCHES ==> Live(u, b) == Live(s, b);
  }

  lemma {:induction false} QuietCounted(s: State, t: nat, pc: Pc)
    requires Shape(s) && Locked(s) && Counted(s) && t < |s.threads| && Quiet(s, t, pc)
    ensures Counted(Move(s, t, pc))
  {
    var u := Move(s, t, pc);
    QuietFlight(s, t, pc);
    forall x | 0 <= x < |u.threads| ensures CountedThread(u, x) { assert CountedThread(s, x); }
    assert CountedActive(u);
  }

  lemma {:induction false} QuietInv(s: State, t: nat, pc: Pc)
    requires Inv(s) && t < |s.threads| && Quiet(s, t, pc)
    ensures Inv(Move(s, t, pc))
  {
    QuietLocated(s, t, pc);
    QuietLocked(s, t, pc);
    QuietFlight(s, t, pc);
    QuietCounted(s, t, pc);
    QuietPlaced(s, t, pc);
  }

  // ── Batches change hands ──

  ghost predicate NoRepeats(s: seq<nat>) { forall i, j :: 0 <= i < j < |s| ==> s[i] != s[j] }

  /** Only thread t and batch b changed place, each list gained or lost b and nothing else. */
  ghost predicate Handed(s: State, u: State, t: nat, b: nat)
    requires Shape(s) && Shape(u)
  {
    && t < |s.threads| == |u.threads| && b < BATCHES
    && (forall x :: 0 <= x < |s.threads| && x != t ==> u.threads[x] == s.threads[x])
    && (forall x :: 0 <= x < BATCHES && x != b ==> u.loc[x] == s.loc[x])
    && NoRepeats(u.free) && NoRepeats(u.queue)
    && (forall x :: 0 <= x < BATCHES && x != b ==>
          (x in u.free <==> x in s.free) && (x in u.queue <==> x in s.queue) && (u.active == Some(x) <==> s.active == Some(x)))
    && (b in u.free <==> u.loc[b] == IsFree)
    && (b in u.queue <==> u.loc[b] == IsQueued)
    && (u.active == Some(b) <==> u.loc[b] == IsActive)
    && (s.loc[b].Held? ==> s.loc[b] == Held(t))
    && (u.loc[b].Held? ==> u.loc[b] == Held(t))
    && (Owns(s.threads[t]).Some? ==> Owns(s.threads[t]) == Some(b))
    && Owns(u.threads[t]) == if u.loc[b].Held? then Some(b) else None
  }

  lemma {:induction false} HandedLocated(s: State, u: State, t: nat, b: nat)
    requires Shape(s) && Shape(u) && Located(s) && Handed(s, u, t, b)
    ensures Located(u)
  {
    forall x | 0 <= x < |u.threads| && Owns(u.threads[x]).Some?
      ensures u.loc[Owns(u.threads[x]).value] == Held(x)
    {
      if x != t { assert s.loc[Owns(s.threads[x]).value] == Held(x); }
    }
    forall x | 0 <= x < BATCHES && u.loc[x].Held?
      ensures u.loc[x].t < |u.threads| && Owns(u.threads[u.loc[x].t]) == Some(x)
    {
      if x != b { assert Owns(s.threads[s.loc[x].t]) == Some(x); }
    }
  }

  /** The locks stay, and only the holder of the active batch's lock may be changing the pointer. */
  lemma {:induction false} KeepsLocked(s: State, u: State, t: nat)
    requires Shape(s) && Shape(u) && Locked(s) && t < |s.threads| == |u.threads|
    requires forall x :: 0 <= x < |s.threads| && x != t ==> u.threads[x] == s.threads[x]
    requires u.lock == s.lock && Locks(u.threads[t]) == Locks(s.threads[t])
    requires Inside(u.threads[t]) ==> u.active == Some(BatchOf(u.threads[t]))
    requires u.active == s.active || s.active.None? || Locks(s.threads[t]) == s.active
    ensures Locked(u)
  {
    forall x | 0 <= x < |u.threads| && Inside(u.threads[x]) ensures u.active == Some(BatchOf(u.threads[x])) {
      if x != t {
        assert s.active == Some(BatchOf(s.threads[x]));
        InsideLocks(s.threads[x]);
        assert s.lock[BatchOf(s.threads[x])] == Some(x);
      }
    }
  }

  lemma InsideLocks(pc: Pc)
    requires Inside(pc)
    ensures Locks(pc) == Some(BatchOf(pc))
  {
  }

  /** Rows, ids, locks and counters stay; a batch passes between places where it counts the same. */
  ghost predicate SameRows(s: State, u: State) {
    u.count == s.count && u.start == s.start && u.rowCount == s.rowCount &&
    u.pages == s.pages && u.issued == s.issued && u.place == s.place
  }

  lemma {:induction false} HandedCounted(s: State, u: State, t: nat, b: nat)
    requires Shape(s) && Shape(u) && Counted(s) && Handed(s, u, t, b) && SameRows(s, u)
    requires CountedActive(u) && CountedThread(u, t)
    requires u.loc[b] == IsFree ==> s.count[b] == 0
    ensures Counted(u)
  {
    forall x | 0 <= x < |u.threads| ensures CountedThread(u, x) {
      if x != t { assert CountedThread(s, x); }
    }
  }

  lemma {:induction false} HandedPlaced(s: State, u: State, t: nat, b: nat)
    requires Shape(s) && Shape(u) && Located(s) && Placed(s) && Handed(s, u, t, b) && SameRows(s, u)
    requires !s.threads[t].FClear? && !u.threads[t].FClear?
    ensures Placed(u)
  {
    forall x | 0 <= x < BATCHES ensures Live(u, x) == Live(s, x) {
      if s.loc[x].Held? && s.loc[x].t == t { assert Owns(s.threads[t]) == Some(x); }
    }
  }

  /** A hand-over that changes no row, with the active pointer's own conditions given. */
  lemma {:induction false} HandedInv(s: State, u: State, t: nat, b: nat)
    requires Inv(s) && Shape(u) && Handed(s, u, t, b) && SameRows(s, u)
    requires u.lock == s.lock && Locks(u.threads[t]) == Locks(s.threads[t]) && !Inside(u.threads[t])
    requires u.active == s.active || s.active.None? || Locks(s.threads[t]) == s.active
    requires !s.threads[t].FClear? && !u.threads[t].FClear?
    requires CountedActive(u) && CountedThread(u, t) && InFlight(u) == InFlight(s)
    requires u.loc[b] == IsFree ==> s.count[b] == 0
    ensures Inv(u)
  {
    HandedLocated(s, u, t, b);
    KeepsLocked(s, u, t);
    HandedCounted(s, u, t, b);
    HandedPlaced(s, u, t, b);
  }

  lemma NoFlight(s: State, t: nat)
    requires Shape(s) && Locked(s) && t < |s.threads|
    requires s.active.None? || (Locks(s.threads[t]) == s.active && !s.threads[t].Bump?)
    ensures InFlight(s) == 0
  {
  }

  lemma {:induction false} SameFlight(s: State, u: State, t: nat)
    requires Shape(s) && Shape(u) && t < |s.threads| == |u.threads|
    requires forall x :: 0 <= x < |s.threads| && x != t ==> u.threads[x] == s.threads[x]
    requires u.lock == s.lock && u.active == s.active && SameRows(s, u)
    requires !s.threads[t].Bump? && !u.threads[t].Bump? && !s.threads[t].Full?
    requires CountedActive(s)
    ensures InFlight(u) == InFlight(s) && CountedActive(u)
  {
  }

  lemma DropLast(s: seq<nat>)
    requires s != [] && NoRepeats(s)
    ensures var n := |s| - 1;
            NoRepeats(s[..n]) && s[n] !in s[..n] && forall x :: x in s <==> x in s[..n] || x == s[n]
  {
    assert s == s[..|s| - 1] + [s[|s| - 1]];
  }

  lemma DropFirst(s: seq<nat>)
    requires s != [] && NoRepeats(s)
    ensures NoRepeats(s[1..]) && s[0] !in s[1..] && forall x :: x in s <==> x in s[1..] || x == s[0]
  {
    assert s == [s[0]] + s[1..];
  }

  // ── Each kind of step: first what it hands over, then the invariant ──

  function Taken(s: State, t: nat, left: nat, single: bool): State
    requires t < |s.threads| && s.free != [] && s.free[|s.free| - 1] < |s.loc|
  {
    var n := |s.free| - 1;
    Move(s, t, Install(left, single, s.free[n])).(free := s.free[..n], loc := s.loc[s.free[n] := Held(t)])
  }

  lemma {:induction false} GetHanded(s: State, t: nat, left: nat, single: bool)
    requires Shape(s) && Located(s) && t < |s.threads| && s.threads[t] == Get(left, single) && s.free != []
    ensures Shape(Taken(s, t, left, single)) && Handed(s, Taken(s, t, left, single), t, s.free[|s.free| - 1])
    ensures s.loc[s.free[|s.free| - 1]] == IsFree
  {
    assert s.free[|s.free| - 1] in s.free;
    DropLast(s.free);
  }

  lemma {:induction false} GetInv(s: State, t: nat, left: nat, single: bool)
    requires Inv(s) && t < |s.threads| && s.threads[t] == Get(left, single) && s.free != []
    ensures Inv(Taken(s, t, left, single))
  {
    var u := Taken(s, t, left, single);
    GetHanded(s, t, left, single);
    SameFlight(s, u, t);
    HandedInv(s, u, t, s.free[|s.free| - 1]);
  }

  function Installed(s: State, t: nat, left: nat, single: bool, b: nat): State
    requires t < |s.threads| && b < |s.loc|
  {
    Move(s, t, Load(left, single)).(active := Some(b), loc := s.loc[b := IsActive])
  }

  lemma {:induction false} InstallHanded(s: State, t: nat, left: nat, single: bool, b: nat)
    requires Shape(s) && Located(s) && t < |s.threads| && s.threads[t] == Install(left, single, b) && s.active.None?
    ensures Shape(Installed(s, t, left, single, b)) && Handed(s, Installed(s, t, left, single, b), t, b)
  {
    assert s.loc[b] == Held(t);
  }

  lemma {:induction false} InstallInv(s: State, t: nat, left: nat, single: bool, b: nat)
    requires Inv(s) && t < |s.threads| && s.threads[t] == Install(left, single, b) && s.active.None?
    ensures Inv(Installed(s, t, left, single, b))
  {
    var u := Installed(s, t, left, single, b);
    InstallHanded(s, t, left, single, b);
    NoFlight(s, t);
    InstallFlight(s, t, left, single, b);
    HandedInv(s, u, t, b);
  }

  lemma {:induction false} InstallFlight(s: State, t: nat, left: nat, single: bool, b: nat)
    requires Shape(s) && Locked(s) && Counted(s)
    requires t < |s.threads| && s.threads[t] == Install(left, single, b) && s.active.None?
    ensures var u := Installed(s, t, left, single, b);
            Shape(u) && InFlight(u) == 0 && CountedActive(u)
  {
    assert CountedThread(s, t);
    if s.lock[b].Some? { NotBump(s, b); }
  }

  /** The holder of the lock of a batch that is not active is not adding to the row count. */
  lemma NotBump(s: State, b: nat)
    requires Shape(s) && Locked(s) && b < BATCHES && s.lock[b].Some? && s.active != Some(b)
    ensures s.lock[b].value < |s.threads| && !s.threads[s.lock[b].value].Bump?
  {
  }

  function Freed(s: State, t: nat, pc: Pc, b: nat): State
    requires t < |s.threads| && b < |s.loc|
  {
    Move(s, t, pc).(free := s.free + [b], loc := s.loc[b := IsFree])
  }

  predicate Frees(pc: Pc, b: nat, next: Pc) {
    (pc.Return? && pc.b == b && next == Load(pc.left, pc.single)) || (pc == FFree(b) && next == FPop)
  }

  lemma {:induction false} FreeHanded(s: State, t: nat, pc: Pc, b: nat)
    requires Shape(s) && Located(s) && t < |s.threads| && Frees(s.threads[t], b, pc) && b < BATCHES
    ensures Shape(Freed(s, t, pc, b)) && Handed(s, Freed(s, t, pc, b), t, b)
  {
    assert s.loc[b] == Held(t) && b !in s.free;
  }

  lemma {:induction false} FreeInv(s: State, t: nat, pc: Pc, b: nat)
    requires Inv(s) && t < |s.threads| && Frees(s.threads[t], b, pc) && b < BATCHES
    ensures Inv(Freed(s, t, pc, b)) && s.count[b] == 0
  {
    var u := Freed(s, t, pc, b);
    FreeHanded(s, t, pc, b);
    SameFlight(s, u, t);
    assert CountedThread(s, t);
    HandedInv(s, u, t, b);
  }

  function Queued(s: State, t: nat, pc: Pc, b: nat): State
    requires t < |s.threads| && b < |s.loc|
  {
    Move(s, t, pc).(queue := s.queue + [b], loc := s.loc[b := IsQueued])
  }

  predicate Queues(pc: Pc, b: nat, next: Pc) {
    (pc.Push? && pc.b == b && next == Unlock(pc.left, false, b)) ||
    (pc == FPush(b) && next == FPop) || (pc == FRequeue(b) && next == Idle)
  }

  lemma {:induction false} QueueHanded(s: State, t: nat, pc: Pc, b: nat)
    requires Shape(s) && Located(s) && t < |s.threads| && Queues(s.threads[t], b, pc) && b < BATCHES
    ensures Shape(Queued(s, t, pc, b)) && Handed(s, Queued(s, t, pc, b), t, b)
  {
    assert s.loc[b] == Held(t) && b !in s.queue;
  }

  lemma {:induction false} QueueInv(s: State, t: nat, pc: Pc, b: nat)
    requires Inv(s) && t < |s.threads| && Queues(s.threads[t], b, pc) && b < BATCHES
    ensures Inv(Queued(s, t, pc, b))
  {
    var u := Queued(s, t, pc, b);
    QueueHanded(s, t, pc, b);
    SameFlight(s, u, t);
    HandedInv(s, u, t, b);
  }

  function Popped(s: State, t: nat): State
    requires t < |s.threads| && s.queue != [] && s.queue[0] < |s.loc|
  {
    Move(s, t, FWrite(s.queue[0])).(queue := s.queue[1..], loc := s.loc[s.queue[0] := Held(t)])
  }

  lemma {:induction false} PopHanded(s: State, t: nat)
    requires Shape(s) && Located(s) && t < |s.threads| && s.threads[t] == FPop && s.queue != []
    ensures Shape(Popped(s, t)) && Handed(s, Popped(s, t), t, s.queue[0])
  {
    assert s.queue[0] in s.queue;
    DropFirst(s.queue);
  }

  lemma {:induction false} PopInv(s: State, t: nat)
    requires Inv(s) && t < |s.threads| && s.threads[t] == FPop && s.queue != []
    ensures Inv(Popped(s, t))
  {
    PopHanded(s, t);
    SameFlight(s, Popped(s, t), t);
    HandedInv(s, Popped(s, t), t, s.queue[0]);
  }

  function Swapped(s: State, t: nat, pc: Pc, b: nat): State
    requires t < |s.threads| && b < |s.loc|
  {
    Move(s, t, pc).(active := None, loc := s.loc[b := Held(t)])
  }

  predicate Swaps(pc: Pc, b: nat, next: Pc) {
    (pc.Full? && pc.b == b && next == Push(pc.left, b)) || (pc == FSwap(b) && next == FUnlock(b, true))
  }

  lemma {:induction false} SwapHanded(s: State, t: nat, pc: Pc, b: nat)
    requires Shape(s) && Located(s) && t < |s.threads| && Swaps(s.threads[t], b, pc) && s.active == Some(b)
    ensures Shape(Swapped(s, t, pc, b)) && Handed(s, Swapped(s, t, pc, b), t, b)
  {
    assert s.loc[b] == IsActive;
  }

  lemma {:induction false} SwapInv(s: State, t: nat, pc: Pc, b: nat)
    requires Inv(s) && t < |s.threads| && Swaps(s.threads[t], b, pc) && s.active == Some(b)
    ensures Inv(Swapped(s, t, pc, b))
  {
    SwapHanded(s, t, pc, b);
    NoFlight(s, t);
    HandedInv(s, Swapped(s, t, pc, b), t, b);
  }

  // ── Locking ──

  function WithLock(s: State, t: nat, pc: Pc, b: nat, who: Option<nat>): State
    requires t < |s.threads| && b < |s.lock|
  {
    Move(s, t, pc).(lock := s.lock[b := who])
  }

  /** A position from which only the lock of b is taken or released. */
  predicate Plain(pc: Pc) {
    !Inside(pc) && !pc.FClear? && !pc.Install? && !pc.Return? && !pc.FFree? && BatchOf(pc) < BATCHES
  }

  predicate LocksNow(pc: Pc, b: nat, next: Pc) {
    Plain(pc) && Plain(next) && Owns(next) == Owns(pc) && Locks(pc) == None && Locks(next) == Some(b)
  }

  predicate UnlocksNow(pc: Pc, b: nat, next: Pc) {
    Plain(pc) && Plain(next) && Owns(next) == Owns(pc) && Locks(pc) == Some(b) && Locks(next) == None
  }

  lemma {:induction false} LockLocked(s: State, t: nat, pc: Pc, b: nat)
    requires Shape(s) && Locked(s) && t < |s.threads| && b < BATCHES
    requires LocksNow(s.threads[t], b, pc) && s.lock[b].None?
    ensures Shape(WithLock(s, t, pc, b, Some(t))) && Locked(WithLock(s, t, pc, b, Some(t)))
  {
    var u := WithLock(s, t, pc, b, Some(t));
    forall x | 0 <= x < |u.threads| && Locks(u.threads[x]).Some?
      ensures u.lock[Locks(u.threads[x]).value] == Some(x)
    {
      if x != t { assert s.lock[Locks(s.threads[x]).value] == Some(x); }
    }
  }

  lemma {:induction false} UnlockLocked(s: State, t: nat, pc: Pc, b: nat)
    requires Shape(s) && Locked(s) && t < |s.threads| && b < BATCHES && UnlocksNow(s.threads[t], b, pc)
    ensures Shape(WithLock(s, t, pc, b, None)) && Locked(WithLock(s, t, pc, b, None))
  {
    var u := WithLock(s, t, pc, b, None);
    assert s.lock[b] == Some(t);
    forall x | 0 <= x < |u.threads| && Locks(u.threads[x]).Some?
      ensures u.lock[Locks(u.threads[x]).value] == Some(x)
    {
      assert x != t && s.lock[Locks(s.threads[x]).value] == Some(x);
    }
  }

  lemma {:induction false} LockFlight(s: State, t: nat, pc: Pc, b: nat, who: Option<nat>)
    requires Shape(s) && Locked(s) && t < |s.threads| && b < BATCHES
    requires (LocksNow(s.threads[t], b, pc) && s.lock[b].None? && who == Some(t)) ||
             (UnlocksNow(s.threads[t], b, pc) && who == None)
    ensures var u := WithLock(s, t, pc, b, who);
            Shape(u) && InFlight(u) == InFlight(s) && Filling(u) == Filling(s)
  {
    assert UnlocksNow(s.threads[t], b, pc) ==> s.lock[b] == Some(t);
  }

  lemma {:induction false} LockCounted(s: State, t: nat, pc: Pc, b: nat, who: Option<nat>)
    requires Shape(s) && Counted(s) && t < |s.threads| && b < BATCHES && Plain(pc)
    requires var u := WithLock(s, t, pc, b, who);
             Shape(u) && InFlight(u) == InFlight(s) && Filling(u) == Filling(s)
    ensures Counted(WithLock(s, t, pc, b, who))
  {
    var u := WithLock(s, t, pc, b, who);
    forall x | 0 <= x < |u.threads| ensures CountedThread(u, x) { assert CountedThread(s, x); }
  }

  lemma {:induction false} LockPlaced(s: State, t: nat, pc: Pc, b: nat, who: Option<nat>)
    requires Shape(s) && Placed(s) && t < |s.threads| && b < BATCHES
    requires Plain(s.threads[t]) && Plain(pc)
    ensures var u := WithLock(s, t, pc, b, who);
            Shape(u) && Placed(u)
  {
    var u := WithLock(s, t, pc, b, who);
    assert forall x :: 0 <= x < BATCHES ==> Live(u, x) == Live(s, x);
  }

  lemma {:induction false} LockLocated(s: State, t: nat, pc: Pc, b: nat, who: Option<nat>)
    requires Shape(s) && Located(s) && t < |s.threads| && b < BATCHES
    requires Plain(pc) && Owns(pc) == Owns(s.threads[t])
    ensures var u := WithLock(s, t, pc, b, who);
            Shape(u) && Located(u)
  {
    QuietLocated(s, t, pc);
  }

  lemma {:induction false} LockInv(s: State, t: nat, pc: Pc, b: nat)
    requires Inv(s) && t < |s.threads| && b < BATCHES && LocksNow(s.threads[t], b, pc) && s.lock[b].None?
    ensures Inv(WithLock(s, t, pc, b, Some(t)))
  {
    LockLocated(s, t, pc, b, Some(t));
    LockLocked(s, t, pc, b);
    LockFlight(s, t, pc, b, Some(t));
    LockCounted(s, t, pc, b, Some(t));
    LockPlaced(s, t, pc, b, Some(t));
  }

  lemma {:induction false} UnlockInv(s: State, t: nat, pc: Pc, b: nat)
    requires Inv(s) && t < |s.threads| && b < BATCHES && UnlocksNow(s.threads[t], b, pc)
    ensures Inv(WithLock(s, t, pc, b, None))
  {
    LockLocated(s, t, pc, b, None);
    UnlockLocked(s, t, pc, b);
    LockFlight(s, t, pc, b, None);
    LockCounted(s, t, pc, b, None);
    LockPlaced(s, t, pc, b, None);
  }

  // ── Filling the active batch ──

  /** No two threads are inside at once. */
  lemma InsideAlone(s: State, t: nat, x: nat)
    requires Shape(s) && Locked(s) && t < |s.threads| && x < |s.threads|
    requires Inside(s.threads[t]) && Inside(s.threads[x])
    ensures x == t
  {
    InsideLocks(s.threads[t]);
    InsideLocks(s.threads[x]);
  }

  function Started(s: State, t: nat, left: nat, single: bool, b: nat): State
    requires t < |s.threads| && b < |s.count| == |s.start|
  {
    var u := Move(s, t, Fill(left, single, b));
    if s.count[b] == 0 then u.(start := s.start[b := s.rowCount]) else u
  }

  lemma {:induction false} StartCounted(s: State, t: nat, left: nat, single: bool, b: nat)
    requires Shape(s) && Locked(s) && Counted(s) && t < |s.threads| && s.threads[t] == Start(left, single, b)
    ensures var u := Started(s, t, left, single, b);
            Shape(u) && InFlight(u) == InFlight(s) && Counted(u)
  {
    var u := Started(s, t, left, single, b);
    assert s.active == Some(b) && s.lock[b] == Some(t);
    NoFlight(s, t);
    forall x | 0 <= x < |u.threads| ensures CountedThread(u, x) {
      assert CountedThread(s, x);
      if s.threads[x].Fill? { InsideAlone(s, t, x); }
    }
  }

  lemma {:induction false} StartPlaced(s: State, t: nat, left: nat, single: bool, b: nat)
    requires Shape(s) && Placed(s) && t < |s.threads| && s.threads[t] == Start(left, single, b)
    ensures var u := Started(s, t, left, single, b);
            Shape(u) && Placed(u)
  {
    var u := Started(s, t, left, single, b);
    assert forall x :: 0 <= x < BATCHES ==> Live(u, x) == Live(s, x);
    assert forall x :: 0 <= x < BATCHES && Live(s, x) ==> u.start[x] == s.start[x];
  }

  lemma {:induction false} StartInv(s: State, t: nat, left: nat, single: bool, b: nat)
    requires Inv(s) && t < |s.threads| && s.threads[t] == Start(left, single, b)
    ensures Inv(Started(s, t, left, single, b))
  {
    var u := Started(s, t, left, single, b);
    QuietLocated(s, t, Fill(left, single, b));
    QuietLocked(s, t, Fill(left, single, b));
    StartCounted(s, t, left, single, b);
    StartPlaced(s, t, left, single, b);
  }

  function FilledBy(s: State, t: nat, left: nat, b: nat, n: nat): State
    requires t < |s.threads| && b < |s.count| == |s.start|
  {
    Move(s, t, Bump(left, b, n)).(
      issued := s.issued + Ids(s.start[b] + s.count[b], n),
      count := s.count[b := s.count[b] + n],
      place := s.place + Places(n, b))
  }

  /** When rows are appended, the batch ends at the row count and has room. */
  lemma {:induction false} FillStarts(s: State, t: nat)
    requires Shape(s) && Locked(s) && Counted(s) && Issued(s) && t < |s.threads| && s.threads[t].Fill?
    ensures var b := s.threads[t].b;
            && s.active == Some(b) && s.lock[b] == Some(t) && s.count[b] < CAPACITY
            && s.start[b] + s.count[b] == s.rowCount == |s.issued|
  {
    NoFlight(s, t);
    assert CountedThread(s, t);
  }

  lemma {:induction false} FillCounted(s: State, t: nat, left: nat, n: nat)
    requires Shape(s) && Located(s) && Locked(s) && Counted(s) && Issued(s)
    requires t < |s.threads| && s.threads[t].Fill? && 0 < n && s.count[s.threads[t].b] + n <= CAPACITY
    ensures var u := FilledBy(s, t, left, s.threads[t].b, n);
            Shape(u) && Counted(u) && InFlight(u) == n && Issued(u)
  {
    var b := s.threads[t].b;
    var u := FilledBy(s, t, left, b, n);
    FillStarts(s, t);
    forall x | 0 <= x < |u.threads| ensures CountedThread(u, x) {
      assert CountedThread(s, x);
      if x != t && (s.threads[x].Fill? || s.threads[x].Bump?) { InsideAlone(s, t, x); }
      if Owns(s.threads[x]).Some? { assert s.loc[Owns(s.threads[x]).value] == Held(x); }
    }
  }

  lemma {:induction false} FillPlaced(s: State, t: nat, left: nat, n: nat)
    requires Shape(s) && Placed(s) && t < |s.threads| && s.threads[t].Fill? && 0 < n
    requires var b := s.threads[t].b;
             s.loc[b] == IsActive && s.start[b] + s.count[b] == |s.place|
    ensures var u := FilledBy(s, t, left, s.threads[t].b, n);
            Shape(u) && Placed(u)
  {
    var b := s.threads[t].b;
    var u := FilledBy(s, t, left, b, n);
    assert forall x :: 0 <= x < BATCHES && x != b ==> Live(u, x) == Live(s, x);
    assert Live(u, b) && (Live(s, b) <==> s.count[b] > 0);
    forall i, x | 0 <= i < |u.place| && 0 <= x < BATCHES
      ensures u.place[i] == InBatch(x) <==> Live(u, x) && u.start[x] <= i < u.start[x] + u.count[x]
    {
      if i < |s.place| {
        assert u.place[i] == s.place[i];
      } else {
        assert u.place[i] == InBatch(b);
      }
    }
  }

  /** In the middle of a call the batch may not be active for others; here only t changes. */
  lemma {:induction false} FillInv(s: State, t: nat, left: nat, n: nat)
    requires Inv(s) && t < |s.threads| && s.threads[t].Fill?
    requires 0 < n && s.count[s.threads[t].b] + n <= CAPACITY
    ensures Inv(FilledBy(s, t, left, s.threads[t].b, n))
  {
    var b := s.threads[t].b;
    FillStarts(s, t);
    assert s.loc[b] == IsActive;
    FillCounted(s, t, left, n);
    FillPlaced(s, t, left, n);
    QuietLocated(s, t, Bump(left, b, n));
    QuietLocked(s, t, Bump(left, b, n));
  }

  function Bumped(s: State, t: nat, left: nat, b: nat, n: nat): State
    requires t < |s.threads|
  {
    Move(s, t, Full(left, b)).(rowCount := s.rowCount + n)
  }

  lemma {:induction false} BumpOrder(s: State, t: nat, left: nat, b: nat, n: nat)
    requires Shape(s) && Located(s) && Locked(s) && t < |s.threads| && s.threads[t] == Bump(left, b, n)
    ensures var u := Bumped(s, t, left, b, n);
            Shape(u) && Located(u) && Locked(u)
  {
    QuietLocated(s, t, Full(left, b));
    QuietLocked(s, t, Full(left, b));
  }

  lemma {:induction false} BumpCounted(s: State, t: nat, left: nat, b: nat, n: nat)
    requires Shape(s) && Locked(s) && Counted(s) && Issued(s) && t < |s.threads| && s.threads[t] == Bump(left, b, n)
    ensures var u := Bumped(s, t, left, b, n);
            Shape(u) && Counted(u) && Issued(u)
  {
    var u := Bumped(s, t, left, b, n);
    assert s.active == Some(b) && s.lock[b] == Some(t);
    assert InFlight(s) == n && InFlight(u) == 0;
    forall x | 0 <= x < |u.threads| ensures CountedThread(u, x) {
      assert CountedThread(s, x);
      if s.threads[x].Fill? { InsideAlone(s, t, x); }
    }
  }

  lemma {:induction false} BumpInv(s: State, t: nat, left: nat, b: nat, n: nat)
    requires Inv(s) && t < |s.threads| && s.threads[t] == Bump(left, b, n)
    ensures Inv(Bumped(s, t, left, b, n))
  {
    BumpCounted(s, t, left, b, n);
    BumpOrder(s, t, left, b, n);
    BumpPlaced(s, t, left, b, n);
  }

  lemma {:induction false} BumpPlaced(s: State, t: nat, left: nat, b: nat, n: nat)
    requires Shape(s) && Placed(s) && t < |s.threads| && s.threads[t] == Bump(left, b, n)
    ensures var u := Bumped(s, t, left, b, n);
            Shape(u) && Placed(u)
  {
    var u := Bumped(s, t, left, b, n);
    assert forall x :: 0 <= x < BATCHES ==> Live(u, x) == Live(s, x);
  }

  // ── Writing a batch to a page ──

  function Written(s: State, t: nat, b: nat): State
    requires t < |s.threads| && b < |s.count| == |s.start|
  {
    Move(s, t, FClear(b)).(pages := s.pages + [(s.start[b], s.count[b])], place := Moved(s.place, b, |s.pages|))
  }

  lemma {:induction false} WriteLive(s: State, t: nat, b: nat)
    requires Shape(s) && Located(s) && t < |s.threads| && s.threads[t] == FWrite(b)
    ensures var u := Written(s, t, b);
            && Shape(u) && s.loc[b] == Held(t) && !Live(u, b) && (Live(s, b) <==> s.count[b] > 0)
            && forall x :: 0 <= x < BATCHES && x != b ==> Live(u, x) == Live(s, x)
  {
    assert s.loc[b] == Held(t);
    forall x | 0 <= x < BATCHES && x != b ensures Live(Written(s, t, b), x) == Live(s, x) {
      assert s.loc[x].Held? ==> Owns(s.threads[s.loc[x].t]) == Some(x);
    }
  }

  lemma {:induction false} WritePlaced(s: State, t: nat, b: nat)
    requires Shape(s) && Located(s) && Placed(s) && t < |s.threads| && s.threads[t] == FWrite(b) && s.count[b] > 0
    ensures Shape(Written(s, t, b)) && Placed(Written(s, t, b))
  {
    var u := Written(s, t, b);
    WriteLive(s, t, b);
    forall i, x | 0 <= i < |u.place| && 0 <= x < BATCHES
      ensures u.place[i] == InBatch(x) <==> Live(u, x) && u.start[x] <= i < u.start[x] + u.count[x]
    {
      assert s.place[i] == InBatch(x) <==> Live(s, x) && s.start[x] <= i < s.start[x] + s.count[x];
    }
    forall i, k | 0 <= i < |u.place| && 0 <= k < |u.pages|
      ensures u.place[i] == OnPage(k) <==> u.pages[k].0 <= i < u.pages[k].0 + u.pages[k].1
    {
      assert s.place[i] == InBatch(b) <==> Live(s, b) && s.start[b] <= i < s.start[b] + s.count[b];
    }
  }

  lemma {:induction false} WriteCounted(s: State, t: nat, b: nat, u: State)
    requires Shape(s) && Counted(s) && Issued(s) && t < |s.threads| && s.threads[t] == FWrite(b)
    requires u == Written(s, t, b) || u == Move(s, t, FClear(b))
    ensures Shape(u) && Counted(u) && Issued(u)
  {
    QuietFlight(s, t, FClear(b));
    assert InFlight(u) == InFlight(s);
    forall x | 0 <= x < |u.threads| ensures CountedThread(u, x) { assert CountedThread(s, x); }
  }

  lemma {:induction false} WriteOrder(s: State, t: nat, b: nat, u: State)
    requires Shape(s) && Located(s) && Locked(s) && t < |s.threads| && s.threads[t] == FWrite(b)
    requires u == Written(s, t, b) || u == Move(s, t, FClear(b))
    ensures Shape(u) && Located(u) && Locked(u)
  {
    QuietLocated(s, t, FClear(b));
    QuietLocked(s, t, FClear(b));
  }

  lemma {:induction false} EmptyPlaced(s: State, t: nat, b: nat)
    requires Shape(s) && Located(s) && Placed(s) && t < |s.threads| && s.threads[t] == FWrite(b) && s.count[b] == 0
    ensures Shape(Move(s, t, FClear(b))) && Placed(Move(s, t, FClear(b)))
  {
    var u := Move(s, t, FClear(b));
    forall x | 0 <= x < BATCHES ensures Live(u, x) == Live(s, x) {
      assert s.loc[x].Held? ==> Owns(s.threads[s.loc[x].t]) == Some(x);
    }
  }

  lemma {:induction false} WriteInv(s: State, t: nat, b: nat)
    requires Inv(s) && t < |s.threads| && s.threads[t] == FWrite(b)
    ensures Inv(if s.count[b] > 0 then Written(s, t, b) else Move(s, t, FClear(b)))
  {
    var u := if s.count[b] > 0 then Written(s, t, b) else Move(s, t, FClear(b));
    WriteOrder(s, t, b, u);
    WriteCounted(s, t, b, u);
    if s.count[b] > 0 { WritePlaced(s, t, b); } else { EmptyPlaced(s, t, b); }
  }

  function Cleared(s: State, t: nat, b: nat): State
    requires t < |s.threads| && b < |s.count|
  {
    Move(s, t, FFree(b)).(count := s.count[b := 0])
  }

  lemma {:induction false} ClearThread(s: State, t: nat, b: nat, x: nat)
    requires Shape(s) && Located(s) && Locked(s) && Counted(s) && t < |s.threads| && s.threads[t] == FClear(b)
    requires x < |s.threads|
    ensures Shape(Cleared(s, t, b)) && CountedThread(Cleared(s, t, b), x)
  {
    assert s.loc[b] == Held(t) && s.active != Some(b);
    assert CountedThread(s, x);
  }

  lemma {:induction false} ClearCounted(s: State, t: nat, b: nat)
    requires Shape(s) && Located(s) && Locked(s) && Counted(s) && Issued(s) && t < |s.threads| && s.threads[t] == FClear(b)
    ensures Shape(Cleared(s, t, b)) && Counted(Cleared(s, t, b)) && Issued(Cleared(s, t, b))
  {
    var u := Cleared(s, t, b);
    assert s.loc[b] == Held(t) && s.active != Some(b);
    QuietFlight(s, t, FFree(b));
    assert InFlight(u) == InFlight(s) && Filling(u) == Filling(s);
    forall x | 0 <= x < |u.threads| ensures CountedThread(u, x) { ClearThread(s, t, b, x); }
  }

  lemma {:induction false} ClearPlaced(s: State, t: nat, b: nat)
    requires Shape(s) && Located(s) && Placed(s) && t < |s.threads| && s.threads[t] == FClear(b)
    ensures Shape(Cleared(s, t, b)) && Placed(Cleared(s, t, b))
  {
    var u := Cleared(s, t, b);
    assert s.loc[b] == Held(t);
    forall x | 0 <= x < BATCHES ensures Live(u, x) == Live(s, x) {
      if s.loc[x] == Held(t) { assert Owns(s.threads[t]) == Some(x); }
    }
  }

  lemma {:induction false} ClearInv(s: State, t: nat, b: nat)
    requires Inv(s) && t < |s.threads| && s.threads[t] == FClear(b)
    ensures Inv(Cleared(s, t, b))
  {
    QuietLocated(s, t, FFree(b));
    QuietLocked(s, t, FFree(b));
    ClearCounted(s, t, b);
    ClearPlaced(s, t, b);
  }

  // ── Every step, every run ──

  lemma {:induction false} TakeStepInv(s: State, t: nat, c: Choice)
    requires Inv(s) && Enabled(s, t, c) && (s.threads[t].Get? || s.threads[t].Install?)
    ensures Inv(Do(s, t, c))
  {
    var pc := s.threads[t];
    if pc.Get? {
      GetInv(s, t, pc.left, pc.single);
    } else if s.active.None? {
      InstallInv(s, t, pc.left, pc.single, pc.b);
    } else {
      ReturnQuiet(s, t);
      QuietInv(s, t, Return(pc.left, pc.single, pc.b));
    }
  }

  lemma {:induction false} ReturnQuiet(s: State, t: nat)
    requires Shape(s) && Counted(s) && t < |s.threads| && s.threads[t].Install?
    ensures var pc := s.threads[t]; Quiet(s, t, Return(pc.left, pc.single, pc.b))
  {
    assert CountedThread(s, t);
  }

  lemma {:induction false} ReturnStepInv(s: State, t: nat, c: Choice)
    requires Inv(s) && Enabled(s, t, c) && s.threads[t].Return?
    ensures Inv(Do(s, t, c))
  {
    var pc := s.threads[t];
    FreeInv(s, t, Load(pc.left, pc.single), pc.b);
    assert s.count[pc.b := 0] == s.count;
  }

  lemma {:induction false} CountDoes(s: State, t: nat, c: Choice)
    requires Shape(s) && Enabled(s, t, c) && (s.threads[t].Start? || s.threads[t].Bump?)
    ensures var pc := s.threads[t];
            Do(s, t, c) == if pc.Start? then Started(s, t, pc.left, pc.single, pc.b)
                           else Bumped(s, t, pc.left, pc.b, pc.n)
  {
  }

  lemma {:induction false} StartStepInv(s: State, t: nat, c: Choice)
    requires Inv(s) && Enabled(s, t, c) && s.threads[t].Start?
    ensures Inv(Do(s, t, c))
  {
    CountDoes(s, t, c);
    StartInv(s, t, s.threads[t].left, s.threads[t].single, s.threads[t].b);
  }

  lemma {:induction false} BumpStepInv(s: State, t: nat, c: Choice)
    requires Inv(s) && Enabled(s, t, c) && s.threads[t].Bump?
    ensures Inv(Do(s, t, c))
  {
    CountDoes(s, t, c);
    BumpInv(s, t, s.threads[t].left, s.threads[t].b, s.threads[t].n);
  }

  lemma {:induction false} FullStepInv(s: State, t: nat, c: Choice)
    requires Inv(s) && Enabled(s, t, c) && (s.threads[t].Full? || s.threads[t].Push?)
    ensures Inv(Do(s, t, c))
  {
    var left, b := s.threads[t].left, s.threads[t].b;
    if s.threads[t].Push? {
      QueueInv(s, t, Unlock(left, false, b), b);
    } else if s.count[b] >= CAPACITY && s.active == Some(b) {
      SwapInv(s, t, Push(left, b), b);
    } else {
      QuietInv(s, t, Unlock(left, false, b));
    }
  }

  /** How many rows one round of an insertion appends. */
  function Portion(s: State, t: nat): nat
    requires Shape(s) && t < |s.threads| && s.threads[t].Fill?
  {
    var pc := s.threads[t];
    var room := if s.count[pc.b] <= CAPACITY then CAPACITY - s.count[pc.b] else 0;
    if pc.single then 1 else if pc.left < room then pc.left else room
  }

  lemma {:induction false} FillDoes(s: State, t: nat, c: Choice)
    requires Shape(s) && Enabled(s, t, c) && s.threads[t].Fill?
    ensures var pc, n := s.threads[t], Portion(s, t);
            Do(s, t, c) == if n == 0 then Move(s, t, Full(pc.left, pc.b))
                           else FilledBy(s, t, if n <= pc.left then pc.left - n else 0, pc.b, n)
  {
  }

  lemma {:induction false} FillFits(s: State, t: nat)
    requires Shape(s) && Locked(s) && Counted(s) && Issued(s) && t < |s.threads| && s.threads[t].Fill?
    ensures s.count[s.threads[t].b] + Portion(s, t) <= CAPACITY
    ensures Portion(s, t) == 0 ==> Quiet(s, t, Full(s.threads[t].left, s.threads[t].b))
  {
    FillStarts(s, t);
  }

  lemma {:induction false} FillStepInv(s: State, t: nat, c: Choice)
    requires Inv(s) && Enabled(s, t, c) && s.threads[t].Fill?
    ensures Inv(Do(s, t, c))
  {
    var pc, n := s.threads[t], Portion(s, t);
    FillFits(s, t);
    FillDoes(s, t, c);
    if n == 0 {
      QuietInv(s, t, Full(pc.left, pc.b));
    } else {
      FillInv(s, t, if n <= pc.left then pc.left - n else 0, n);
    }
  }

  lemma {:induction false} MoveQuiet(s: State, t: nat, c: Choice)
    requires Shape(s) && Enabled(s, t, c)
    requires var pc := s.threads[t]; pc.Idle? || pc.Load? || pc.FLoad?
    ensures var u := Do(s, t, c);
            |u.threads| == |s.threads| && u == Move(s, t, u.threads[t]) && Quiet(s, t, u.threads[t])
  {
  }

  lemma {:induction false} CheckQuiet(s: State, t: nat, c: Choice)
    requires Shape(s) && Enabled(s, t, c) && (s.threads[t].Check? || s.threads[t].FCheck?)
    ensures var u := Do(s, t, c);
            |u.threads| == |s.threads| && u == Move(s, t, u.threads[t]) && Quiet(s, t, u.threads[t])
  {
  }

  lemma {:induction false} MoveStepInv(s: State, t: nat, c: Choice)
    requires Inv(s) && Enabled(s, t, c)
    requires var pc := s.threads[t]; pc.Idle? || pc.Load? || pc.Check? || pc.FLoad? || pc.FCheck?
    ensures Inv(Do(s, t, c))
  {
    if s.threads[t].Check? || s.threads[t].FCheck? { CheckQuiet(s, t, c); } else { MoveQuiet(s, t, c); }
    QuietInv(s, t, Do(s, t, c).threads[t]);
  }

  lemma {:induction false} LockDoes(s: State, t: nat, c: Choice)
    requires Shape(s) && Enabled(s, t, c)
    requires var pc := s.threads[t]; pc.Lock? || pc.FLock? || pc.Unlock? || pc.FUnlock?
    ensures var pc, b, u := s.threads[t], BatchOf(s.threads[t]), Do(s, t, c);
            && |u.threads| == |s.threads|
            && (if pc.Lock? || pc.FLock?
                then LocksNow(pc, b, u.threads[t]) && s.lock[b].None? && u == WithLock(s, t, u.threads[t], b, Some(t))
                else UnlocksNow(pc, b, u.threads[t]) && u == WithLock(s, t, u.threads[t], b, None))
  {
  }

  lemma {:induction false} LockStepInv(s: State, t: nat, c: Choice)
    requires Inv(s) && Enabled(s, t, c)
    requires var pc := s.threads[t]; pc.Lock? || pc.FLock? || pc.Unlock? || pc.FUnlock?
    ensures Inv(Do(s, t, c))
  {
    var b, next := BatchOf(s.threads[t]), Do(s, t, c).threads;
    LockDoes(s, t, c);
    if s.threads[t].Lock? || s.threads[t].FLock? { LockInv(s, t, next[t], b); } else { UnlockInv(s, t, next[t], b); }
  }

  lemma {:induction false} QueueStepInv(s: State, t: nat, c: Choice)
    requires Inv(s) && Enabled(s, t, c)
    requires var pc := s.threads[t]; pc.FSwap? || pc.FPush? || pc.FRequeue? || pc.FFree?
    ensures Inv(Do(s, t, c))
  {
    match s.threads[t]
    case FSwap(b) => SwapInv(s, t, FUnlock(b, true), b);
    case FPush(b) => QueueInv(s, t, FPop, b);
    case FRequeue(b) => QueueInv(s, t, Idle, b);
    case FFree(b) => FreeInv(s, t, FPop, b);
  }

  lemma {:induction false} PopStepInv(s: State, t: nat, c: Choice)
    requires Inv(s) && Enabled(s, t, c) && (s.threads[t].FPop? || s.threads[t].FClear?)
    ensures Inv(Do(s, t, c))
  {
    match s.threads[t]
    case FPop => if s.queue == [] { QuietInv(s, t, Idle); } else { PopInv(s, t); }
    case FClear(b) => ClearInv(s, t, b);
  }

  lemma {:induction false} WriteStepInv(s: State, t: nat, c: Choice)
    requires Inv(s) && Enabled(s, t, c) && s.threads[t].FWrite?
    ensures Inv(Do(s, t, c))
  {
    var b := s.threads[t].b;
    if c.WriteFails? { QuietInv(s, t, FRequeue(b)); } else { WriteInv(s, t, b); }
  }

  /** One step of any thread keeps the invariant. */
  lemma {:induction false} StepInv(s: State, t: nat, c: Choice)
    requires Inv(s) && Enabled(s, t, c)
    ensures Inv(Do(s, t, c))
  {
    var pc := s.threads[t];
    if pc.Idle? || pc.Load? || pc.Check? || pc.FLoad? || pc.FCheck? { MoveStepInv(s, t, c); }
    else if pc.Lock? || pc.FLock? || pc.Unlock? || pc.FUnlock? { LockStepInv(s, t, c); }
    else if pc.Get? || pc.Install? { TakeStepInv(s, t, c); }
    else if pc.Return? { ReturnStepInv(s, t, c); }
    else if pc.Start? { StartStepInv(s, t, c); }
    else if pc.Bump? { BumpStepInv(s, t, c); }
    else if pc.Fill? { FillStepInv(s, t, c); }
    else if pc.Full? || pc.Push? { FullStepInv(s, t, c); }
    else if pc.FPop? || pc.FClear? { PopStepInv(s, t, c); }
    else if pc.FWrite? { WriteStepInv(s, t, c); }
    else { QueueStepInv(s, t, c); }
  }

  /** A new table: 64 empty batches in the free list, any number of threads at rest. */
  function NewTable(n: nat): State {
    State(seq(n, _ => Idle), seq(BATCHES, i => i), None, [], seq(BATCHES, _ => 0), seq(BATCHES, _ => 0),
          seq(BATCHES, _ => None), 0, [], [], seq(BATCHES, _ => IsFree), [])
  }

  lemma NewTableInv(n: nat)
    ensures Inv(NewTable(n))
  {
    var s := NewTable(n);
    forall b | 0 <= b < BATCHES ensures b in s.free { assert s.free[b] == b; }
  }

  ghost function Initial(n: nat): (s: State)
    ensures Inv(s)
  {
    NewTableInv(n);
    NewTable(n)
  }

  /** A run is a schedule: which thread steps next, and what its environment decides. */
  ghost predicate Runs(s: State, sched: seq<(nat, Choice)>)
    requires Inv(s)
    decreases |sched|
  {
    sched == [] ||
    (Enabled(s, sched[0].0, sched[0].1) &&
     (StepInv(s, sched[0].0, sched[0].1); Runs(Do(s, sched[0].0, sched[0].1), sched[1..])))
  }

  ghost function End(s: State, sched: seq<(nat, Choice)>): (e: State)
    requires Inv(s) && Runs(s, sched)
    ensures Inv(e)
    decreases |sched|
  {
    if sched == [] then s
    else
      StepInv(s, sched[0].0, sched[0].1);
      End(Do(s, sched[0].0, sched[0].1), sched[1..])
  }

  // ── What it means, without the bookkeeping ──

  /** The places where a batch can be: how often it occurs in the lists, the pointer and the threads. */
  function Times(s: seq<nat>, b: nat): nat {
    if s == [] then 0 else Times(s[1..], b) + if s[0] == b then 1 else 0
  }

  function Owners(ts: seq<Pc>, b: nat): nat {
    if ts == [] then 0 else Owners(ts[1..], b) + if Owns(ts[0]) == Some(b) then 1 else 0
  }

  function Holders(s: State, b: nat): nat {
    Times(s.free, b) + Times(s.queue, b) + (if s.active == Some(b) then 1 else 0) + Owners(s.threads, b)
  }

  lemma {:induction false} TimesOnce(s: seq<nat>, b: nat)
    requires NoRepeats(s)
    ensures Times(s, b) == if b in s then 1 else 0
  {
    if s != [] {
      DropFirst(s);
      TimesOnce(s[1..], b);
    }
  }

  lemma {:induction false} OwnersOnce(ts: seq<Pc>, b: nat, t: nat)
    requires forall x :: 0 <= x < |ts| ==> (Owns(ts[x]) == Some(b) <==> x == t)
    ensures Owners(ts, b) == if t < |ts| then 1 else 0
  {
    if ts != [] {
      if t == 0 {
        OwnersNone(ts[1..], b);
      } else {
        OwnersOnce(ts[1..], b, t - 1);
      }
    }
  }

  lemma {:induction false} OwnersNone(ts: seq<Pc>, b: nat)
    requires forall x :: 0 <= x < |ts| ==> Owns(ts[x]) != Some(b)
    ensures Owners(ts, b) == 0
  {
    if ts != [] { OwnersNone(ts[1..], b); }
  }

  lemma {:induction false} OneHolder(s: State, b: nat)
    requires Shape(s) && Located(s) && b < BATCHES
    ensures Holders(s, b) == 1
  {
    TimesOnce(s.free, b);
    TimesOnce(s.queue, b);
    if s.loc[b].Held? {
      forall x | 0 <= x < |s.threads| ensures Owns(s.threads[x]) == Some(b) <==> x == s.loc[b].t {
        if Owns(s.threads[x]) == Some(b) { assert s.loc[b] == Held(x); }
      }
      OwnersOnce(s.threads, b, s.loc[b].t);
    } else {
      assert forall x :: 0 <= x < |s.threads| ==> Owns(s.threads[x]) != Some(b);
      OwnersNone(s.threads, b);
    }
  }

  /** No thread is between taking row ids and adding them to the row count. */
  predicate Settled(s: State) { forall t :: 0 <= t < |s.threads| ==> !s.threads[t].Bump? }

  /**
   In every state of every interleaving: each batch has exactly one holder and at most 8192 rows;
   the row ids handed out are 0, 1, 2, ... in order, hence all different; every such row is in exactly
   one live batch or on exactly one page; and when no insertion is under way the ids number row_count.
   */
  lemma {:induction false} EveryInterleaving(n: nat, sched: seq<(nat, Choice)>)
    requires Runs(Initial(n), sched)
    ensures var s := End(Initial(n), sched);
            && Shape(s)
            && (forall b :: 0 <= b < BATCHES ==> Holders(s, b) == 1 && s.count[b] <= CAPACITY)
            && (forall i :: 0 <= i < |s.issued| ==> s.issued[i] == i)
            && (Settled(s) ==> |s.issued| == s.rowCount)
            && Placed(s)
  {
    var s := End(Initial(n), sched);
    forall b | 0 <= b < BATCHES ensures Holders(s, b) == 1 { OneHolder(s, b); }
  }

  // ── Every call inserts all its rows ──

  /** The rows that a thread still has to insert. */
  function Left(pc: Pc): nat {
    match pc
    case Load(n, _) => n case Get(n, _) => n case Install(n, _, _) => n case Return(n, _, _) => n
    case Lock(n, _, _) => n case Check(n, _, _) => n case Start(n, _, _) => n case Fill(n, _, _) => n
    case Bump(n, _, _) => n case Full(n, _) => n case Push(n, _) => n case Unlock(n, _, _) => n
    case _ => 0
  }

  function AllLeft(ts: seq<Pc>): nat { if ts == [] then 0 else AllLeft(ts[..|ts| - 1]) + Left(ts[|ts| - 1]) }

  /** The rows that a step asks to be inserted: those of a call that it begins. */
  function Asks(s: State, t: nat, c: Choice): nat
    requires t < |s.threads|
  {
    if !s.threads[t].Idle? then 0
    else match c
         case InsertRow => 1
         case InsertRows(n) => n
         case _ => 0
  }

  ghost function Asked(s: State, sched: seq<(nat, Choice)>): nat
    requires Inv(s) && Runs(s, sched)
    decreases |sched|
  {
    if sched == [] then 0
    else
      StepInv(s, sched[0].0, sched[0].1);
      Asks(s, sched[0].0, sched[0].1) + Asked(Do(s, sched[0].0, sched[0].1), sched[1..])
  }

  /** insert_row has one row to insert until it has inserted it. */
  predicate SingleOk(pc: Pc) {
    match pc
    case Load(n, single) => single ==> n == 1
    case Get(n, single) => single ==> n == 1
    case Install(n, single, _) => single ==> n == 1
    case Return(n, single, _) => single ==> n == 1
    case Lock(n, single, _) => single ==> n == 1
    case Check(n, single, _) => single ==> n == 1
    case Start(n, single, _) => single ==> n == 1
    case Fill(n, single, _) => single ==> n == 1
    case Unlock(n, single, _) => single ==> n == 1
    case _ => true
  }

  ghost predicate Singles(s: State) { forall t :: 0 <= t < |s.threads| ==> SingleOk(s.threads[t]) }

  lemma {:induction false} AllLeftMoved(ts: seq<Pc>, t: nat, pc: Pc)
    requires t < |ts|
    ensures AllLeft(ts[t := pc]) + Left(ts[t]) == AllLeft(ts) + Left(pc)
  {
    var n := |ts| - 1;
    if t < n {
      AllLeftMoved(ts[..n], t, pc);
      assert ts[t := pc][..n] == ts[..n][t := pc];
    } else {
      assert ts[t := pc][..n] == ts[..n];
    }
  }

  /** A step of a thread changes what it has left by the rows it hands out and the rows it is asked for. */
  lemma {:induction false} StepLeft(s: State, t: nat, c: Choice)
    requires Shape(s) && Enabled(s, t, c) && SingleOk(s.threads[t])
    ensures var u := Do(s, t, c);
            && t < |u.threads| && u.threads == s.threads[t := u.threads[t]] && SingleOk(u.threads[t])
            && |u.issued| + Left(u.threads[t]) == |s.issued| + Left(s.threads[t]) + Asks(s, t, c)
  {
    if s.threads[t].Fill? { FillLeft(s, t, c); } else if Flushes(s.threads[t]) { FlushLeft(s, t, c); } else { MoveLeft(s, t, c); }
  }

  predicate Flushes(pc: Pc) {
    pc.FLoad? || pc.FLock? || pc.FCheck? || pc.FSwap? || pc.FUnlock? || pc.FPush? || pc.FPop? || pc.FWrite? || pc.FRequeue? || pc.FClear? ||
    pc.FFree?
  }

  lemma {:induction false} FlushLeft(s: State, t: nat, c: Choice)
    requires Shape(s) && Enabled(s, t, c) && Flushes(s.threads[t])
    ensures var u := Do(s, t, c);
            && t < |u.threads| && u.threads == s.threads[t := u.threads[t]] && SingleOk(u.threads[t])
            && u.issued == s.issued && Left(u.threads[t]) == 0
  {
  }

  lemma {:induction false} MoveLeft(s: State, t: nat, c: Choice)
    requires Shape(s) && Enabled(s, t, c) && SingleOk(s.threads[t]) && !s.threads[t].Fill? && !Flushes(s.threads[t])
    ensures var u := Do(s, t, c);
            && t < |u.threads| && u.threads == s.threads[t := u.threads[t]] && SingleOk(u.threads[t])
            && u.issued == s.issued && Left(u.threads[t]) == Left(s.threads[t]) + Asks(s, t, c)
  {
  }

  lemma {:induction false} FillLeft(s: State, t: nat, c: Choice)
    requires Shape(s) && Enabled(s, t, c) && SingleOk(s.threads[t]) && s.threads[t].Fill?
    ensures var u := Do(s, t, c);
            && t < |u.threads| && u.threads == s.threads[t := u.threads[t]] && SingleOk(u.threads[t])
            && |u.issued| + Left(u.threads[t]) == |s.issued| + Left(s.threads[t])
  {
    FillDoes(s, t, c);
  }

  lemma {:induction false} StepConserves(s: State, t: nat, c: Choice)
    requires Inv(s) && Enabled(s, t, c) && Singles(s)
    ensures Singles(Do(s, t, c))
    ensures |Do(s, t, c).issued| + AllLeft(Do(s, t, c).threads) == |s.issued| + AllLeft(s.threads) + Asks(s, t, c)
  {
    StepLeft(s, t, c);
    AllLeftMoved(s.threads, t, Do(s, t, c).threads[t]);
  }

  lemma {:induction false} RunConserves(s: State, sched: seq<(nat, Choice)>)
    requires Inv(s) && Runs(s, sched) && Singles(s)
    ensures |End(s, sched).issued| + AllLeft(End(s, sched).threads) == |s.issued| + AllLeft(s.threads) + Asked(s, sched)
    decreases |sched|
  {
    if sched != [] {
      StepInv(s, sched[0].0, sched[0].1);
      StepConserves(s, sched[0].0, sched[0].1);
      RunConserves(Do(s, sched[0].0, sched[0].1), sched[1..]);
    }
  }

  lemma {:induction false} NothingLeft(ts: seq<Pc>)
    requires forall t :: 0 <= t < |ts| ==> ts[t].Idle?
    ensures AllLeft(ts) == 0
  {
    if ts != [] { NothingLeft(ts[..|ts| - 1]); }
  }

  /**
   In every interleaving, the rows handed out and those still to be inserted are the rows that were asked for:
   no call drops one or inserts one twice.  When all calls have returned, the row count is their number.
   */
  lemma {:induction false} AllInserted(n: nat, sched: seq<(nat, Choice)>)
    requires Runs(Initial(n), sched)
    ensures var s := End(Initial(n), sched);
            && |s.issued| + AllLeft(s.threads) == Asked(Initial(n), sched)
            && ((forall t :: 0 <= t < |s.threads| ==> s.threads[t].Idle?) ==> s.rowCount == |s.issued| == Asked(Initial(n), sched))
  {
    var s := End(Initial(n), sched);
    NothingLeft(Initial(n).threads);
    RunConserves(Initial(n), sched);
    if forall t :: 0 <= t < |s.threads| ==> s.threads[t].Idle? {
      NothingLeft(s.threads);
      EveryInterleaving(n, sched);
    }
  }

  // ── A flush writes everything ──

  /** Only this thread is doing anything. */
  ghost predicate Alone(s: State, t: nat) { t < |s.threads| && forall x :: 0 <= x < |s.threads| && x != t ==> s.threads[x].Idle? }

  predicate NoneActive(s: State)
    requires Shape(s)
  {
    s.active.Some? ==> s.count[s.active.value] == 0
  }

  /** What a flush has found out by the time it gets somewhere. */
  predicate Flushing(s: State, pc: Pc)
    requires Shape(s) && BatchOf(pc) < BATCHES
  {
    match pc
    case FLoad => true
    case FLock(b) => s.active == Some(b)
    case FCheck(b) => s.active == Some(b)
    case FSwap(b) => s.active == Some(b)
    case FUnlock(b, own) => NoneActive(s)
    case FPush(_) => NoneActive(s)
    case FPop => NoneActive(s)
    case FWrite(_) => NoneActive(s)
    case FClear(_) => NoneActive(s)
    case FFree(_) => NoneActive(s)
    case Idle => NoneActive(s) && s.queue == []
    case _ => false
  }

  lemma {:induction false} FlushStep(s: State, t: nat, u: State)
    requires Shape(s) && Alone(s, t) && Enabled(s, t, WriteOk) && Flushes(s.threads[t]) && Flushing(s, s.threads[t])
    requires u == Do(s, t, WriteOk) && Shape(u)
    ensures Alone(u, t) && Flushing(u, u.threads[t]) && u.issued == s.issued && s.pages <= u.pages
  {
    FlushLeft(s, t, WriteOk);
    if s.threads[t].FLoad? || s.threads[t].FLock? || s.threads[t].FCheck? || s.threads[t].FSwap? {
      FlushFinds(s, t, u);
    } else {
      FlushWrites(s, t, u);
    }
  }

  lemma {:induction false} FlushFinds(s: State, t: nat, u: State)
    requires Shape(s) && Enabled(s, t, WriteOk) && Flushing(s, s.threads[t]) && u == Do(s, t, WriteOk) && Shape(u)
    requires s.threads[t].FLoad? || s.threads[t].FLock? || s.threads[t].FCheck? || s.threads[t].FSwap?
    ensures t < |u.threads| && Flushing(u, u.threads[t]) && s.pages == u.pages
  {
  }

  lemma {:induction false} FlushWrites(s: State, t: nat, u: State)
    requires Shape(s) && Enabled(s, t, WriteOk) && Flushing(s, s.threads[t]) && u == Do(s, t, WriteOk) && Shape(u)
    requires Flushes(s.threads[t]) && !s.threads[t].FLoad? && !s.threads[t].FLock? && !s.threads[t].FCheck? && !s.threads[t].FSwap?
    ensures t < |u.threads| && Flushing(u, u.threads[t]) && s.pages <= u.pages
  {
  }

  ghost predicate OnlyFlushes(t: nat, sched: seq<(nat, Choice)>) { forall i :: 0 <= i < |sched| ==> sched[i] == (t, WriteOk) }

  lemma {:induction false} FlushRuns(s: State, t: nat, sched: seq<(nat, Choice)>)
    requires Inv(s) && Runs(s, sched) && Alone(s, t) && Flushing(s, s.threads[t]) && OnlyFlushes(t, sched)
    ensures var e := End(s, sched);
            Inv(e) && Alone(e, t) && Flushing(e, e.threads[t]) && e.issued == s.issued && s.pages <= e.pages
    decreases |sched|
  {
    if sched != [] {
      StepInv(s, t, WriteOk);
      FlushStep(s, t, Do(s, t, WriteOk));
      FlushRuns(Do(s, t, WriteOk), t, sched[1..]);
    }
  }

  /** With all threads idle and nothing active or queued, no batch holds a row. */
  lemma {:induction false} NothingPending(s: State, t: nat)
    requires Inv(s) && Alone(s, t) && s.threads[t].Idle? && NoneActive(s) && s.queue == []
    ensures forall i :: 0 <= i < |s.place| ==> s.place[i].OnPage?
  {
    forall b | 0 <= b < BATCHES ensures s.count[b] == 0 {
      assert s.loc[b] == IsQueued <==> b in s.queue;
      assert s.active == Some(b) <==> s.loc[b] == IsActive;
    }
  }

  /**
   flush_pending with no other call under way and no failing write: when it returns, every row ever inserted is
   on exactly one page, and no row has been added.
   */
  lemma {:induction false} FlushAll(s: State, t: nat, sched: seq<(nat, Choice)>)
    requires Inv(s) && Alone(s, t) && s.threads[t] == FLoad && Runs(s, sched) && OnlyFlushes(t, sched)
    requires t < |End(s, sched).threads| && End(s, sched).threads[t].Idle?
    ensures var e := End(s, sched);
            && e.issued == s.issued && s.pages <= e.pages && e.queue == []
            && (forall i :: 0 <= i < |e.issued| ==> i < |e.place| && e.place[i].OnPage?)
            && Shape(e) && Placed(e)
  {
    FlushRuns(s, t, sched);
    NothingPending(End(s, sched), t);
  }
}
