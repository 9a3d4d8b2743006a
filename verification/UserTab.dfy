/**
 The table of registered users: 32 slots holding pids, 0 meaning free, and the
 separate counter usrcnt that user_join and user_leave guard themselves with.
 */
module UserTab {
  import opened Prelude
  import opened Bytes

  const SIZE: nat := 32

  datatype Table = Table(slots: seq<u32>, count: int) {
    predicate Shaped() { |slots| == SIZE }
  }

  /** The first slot holding `pid`, or the number of slots. */
  function Find(slots: seq<u32>, pid: u32): (i: nat)
    ensures i <= |slots|
    ensures i < |slots| ==> slots[i] == pid
    ensures forall j | 0 <= j < i :: slots[j] != pid
  {
    if slots == [] || slots[0] == pid then 0 else 1 + Find(slots[1..], pid)
  }

  /** user_join: the new table and whether 1 is returned. */
  function Join(t: Table, pid: u32): (r: (Table, bool))
    requires t.Shaped()
    ensures r.0.Shaped()
  {
    var i := Find(t.slots, 0);
    if t.count >= SIZE || i == SIZE then (t, false)
    else (Table(t.slots[i := pid], t.count + 1), true)
  }

  /** user_leave: the new table and whether 1 is returned. */
  function Leave(t: Table, pid: u32): (r: (Table, bool))
    requires t.Shaped()
    ensures r.0.Shaped()
  {
    var i := Find(t.slots, pid);
    if t.count <= 0 || i == SIZE then (t, false)
    else (Table(t.slots[i := 0], t.count - 1), true)
  }

  // ---- the abstract view: the multiset of registered pids ----

  ghost function Held(slots: seq<u32>): (m: multiset<u32>)
  {
    multiset(slots)[0 := 0]
  }

  ghost function Occupied(t: Table): (n: nat) { |Held(t.slots)| }

  lemma HeldUpdate(slots: seq<u32>, i: nat, pid: u32)
    requires i < |slots|
    ensures multiset(slots[i := pid]) == multiset(slots) - multiset{slots[i]} + multiset{pid}
    ensures Held(slots[i := pid])
            == (if slots[i] == 0 then Held(slots) else Held(slots) - multiset{slots[i]})
               + (if pid == 0 then multiset{} else multiset{pid})
  {
  }

  lemma HeldSize(slots: seq<u32>)
    ensures |Held(slots)| == |slots| - multiset(slots)[0]
    ensures |Held(slots)| < |slots| <==> 0 in slots
  {
    var m := multiset(slots);
    assert |m| == |slots|;
    assert m == Held(slots) + multiset{}[0 := m[0]];
    assert 0 in m <==> 0 in slots;
  }

  lemma HeldMember(slots: seq<u32>, pid: u32)
    ensures pid != 0 ==> (pid in Held(slots) <==> pid in slots)
  {
    assert pid in slots <==> pid in multiset(slots);
  }

  /** The first slot holding `was`, and no other, now holds `now`. */
  ghost predicate FirstSlotSet(slots: seq<u32>, was: u32, slots': seq<u32>, now: u32)
  {
    exists i :: 0 <= i < |slots| && slots[i] == was && slots' == slots[i := now]
                && forall j | 0 <= j < i :: slots[j] != was
  }

  /**
   user_join against the bounded multiset, for every table and pid: exactly when
   it returns 1, what it then adds, and that nothing else ever changes.
   */
  lemma JoinRefines(t: Table, pid: u32)
    requires t.Shaped()
    ensures var (t', ok) := Join(t, pid);
            && (ok <==> t.count < 32 && Occupied(t) < 32)
            && (ok ==> && t'.count == t.count + 1 && FirstSlotSet(t.slots, 0, t'.slots, pid)
                       && Held(t'.slots) == Held(t.slots) + if pid == 0 then multiset{} else multiset{pid})
            && (!ok ==> t' == t)
  {
    hide Held;
    HeldSize(t.slots);
    var i := Find(t.slots, 0);
    if i < SIZE {
      HeldUpdate(t.slots, i, pid);
    }
  }

  /** user_leave against the bounded multiset, for every table and pid. */
  lemma LeaveRefines(t: Table, pid: u32)
    requires t.Shaped()
    ensures var (t', ok) := Leave(t, pid);
            && (ok <==> t.count > 0 && (if pid == 0 then Occupied(t) < 32 else pid in Held(t.slots)))
            && (ok ==> && t'.count == t.count - 1 && FirstSlotSet(t.slots, pid, t'.slots, 0)
                       && Held(t'.slots) == Held(t.slots) - if pid == 0 then multiset{} else multiset{pid})
            && (!ok ==> t' == t)
  {
    hide Held;
    HeldSize(t.slots);
    var i := Find(t.slots, pid);
    HeldMember(t.slots, pid);
    if i < SIZE {
      HeldUpdate(t.slots, i, 0);
    }
  }

  /** The fall-through return of user_join: the guard passed but no slot was free. */
  predicate FallsThrough(t: Table)
    requires t.Shaped()
  {
    t.count < SIZE && Find(t.slots, 0) == SIZE
  }

  // ---- the broadcasting hook ----

  /** What becomes of the copy made for one slot. */
  datatype Fate = NoMemory | Delivered | Refused

  type Fates = f: seq<Fate> | |f| == SIZE witness seq(SIZE, i => Delivered)

  /** The first slot at or after `i` whose user refuses the copy sent to it. */
  function FirstRefusal(slots: seq<u32>, fates: Fates, i: nat): (k: nat)
    requires |slots| == SIZE && i <= SIZE
    ensures i <= k <= SIZE
    ensures k < SIZE ==> slots[k] != 0 && fates[k] == Refused
    ensures forall j | i <= j < k :: slots[j] == 0 || fates[j] != Refused
    decreases SIZE - i
  {
    if i == SIZE || (slots[i] != 0 && fates[i] == Refused) then i else FirstRefusal(slots, fates, i + 1)
  }

  /** The users among the first `n` slots that a copy is sent to, in slot order. */
  function Attempts(slots: seq<u32>, fates: Fates, n: nat): (a: seq<u32>)
    requires |slots| == SIZE && n <= SIZE
  {
    if n == 0 then []
    else Attempts(slots, fates, n - 1)
         + if slots[n - 1] != 0 && fates[n - 1] != NoMemory then [slots[n - 1]] else []
  }

  function Free(): (s: seq<u32>)
    ensures |s| == SIZE && forall i | 0 <= i < SIZE :: s[i] == 0
  {
    seq(SIZE, i => 0)
  }

  /** hook_func: a refusal wipes the slots, but leaves the counter alone. */
  function Broadcast(t: Table, fates: Fates): (r: (Table, seq<u32>))
    requires t.Shaped()
    ensures r.0.Shaped()
  {
    var k := FirstRefusal(t.slots, fates, 0);
    if k < SIZE then (t.(slots := Free()), Attempts(t.slots, fates, k + 1))
    else (t, Attempts(t.slots, fates, SIZE))
  }

  /** The user in slot `j` refuses the copy sent to it. */
  predicate RefusedAt(slots: seq<u32>, fates: Fates, j: nat)
    requires |slots| == SIZE && j < SIZE
  {
    slots[j] != 0 && fates[j] == Refused
  }

  lemma {:induction false} AttemptsExactly(slots: seq<u32>, fates: Fates, n: nat) returns (idx: seq<nat>)
    requires |slots| == SIZE && n <= SIZE
    ensures Increasing(idx) && |idx| == |Attempts(slots, fates, n)|
    ensures forall k | 0 <= k < |idx| :: idx[k] < n && Attempts(slots, fates, n)[k] == slots[idx[k]]
    ensures forall i | 0 <= i < n :: i in idx <==> slots[i] != 0 && fates[i] != NoMemory
  {
    idx := [];
    if n > 0 {
      idx := AttemptsExactly(slots, fates, n - 1);
      hide Increasing;
      PickNext(idx, n - 1);
      assert Attempts(slots, fates, n - 1) + [] == Attempts(slots, fates, n - 1);
      if slots[n - 1] != 0 && fates[n - 1] != NoMemory {
        idx := idx + [n - 1];
      }
    }
  }

  /**
   The broadcast, slot by slot: a copy goes out for exactly the occupied slots
   whose allocation works and that no refusal precedes, in slot order; the first
   refusal frees all slots, and the counter never moves.
   */
  lemma BroadcastExactly(t: Table, fates: Fates) returns (idx: seq<nat>)
    requires t.Shaped()
    ensures var (t', sent) := Broadcast(t, fates);
            && Increasing(idx) && |idx| == |sent|
            && (forall k | 0 <= k < |idx| :: idx[k] < 32 && sent[k] == t.slots[idx[k]])
            && (forall i | 0 <= i < 32 ::
                  i in idx <==> && t.slots[i] != 0 && fates[i] != NoMemory
                                && (forall j | 0 <= j < i :: !RefusedAt(t.slots, fates, j)))
            && t'.count == t.count && |t'.slots| == 32
            && ((exists j :: 0 <= j < 32 && RefusedAt(t.slots, fates, j)) ==>
                  forall i | 0 <= i < 32 :: t'.slots[i] == 0)
            && ((forall j | 0 <= j < 32 :: !RefusedAt(t.slots, fates, j)) ==> t'.slots == t.slots)
  {
    var k := FirstRefusal(t.slots, fates, 0);
    idx := AttemptsExactly(t.slots, fates, if k < SIZE then k + 1 else SIZE);
    hide Attempts, FirstRefusal;
    if k < SIZE {
      assert RefusedAt(t.slots, fates, k);
    }
  }

  /** Without failures every registered user gets exactly one copy per registration. */
  lemma BroadcastReachesAll(t: Table, fates: Fates)
    requires t.Shaped() && forall f | f in fates :: f == Delivered
    ensures Broadcast(t, fates).0 == t
    ensures multiset(Broadcast(t, fates).1) == Held(t.slots)
  {
    assert forall i | 0 <= i < SIZE :: fates[i] in fates;
    AttemptsAreHeld(t.slots, fates, SIZE);
    assert t.slots[..SIZE] == t.slots;
  }

  lemma {:induction false} AttemptsAreHeld(slots: seq<u32>, fates: Fates, n: nat)
    requires |slots| == SIZE && n <= SIZE && forall i | 0 <= i < n :: fates[i] == Delivered
    ensures multiset(Attempts(slots, fates, n)) == Held(slots[..n])
  {
    hide Held, Attempts;
    if n == 0 {
      NoneHeld();
      NoAttempts(slots, fates);
    } else {
      AttemptsAreHeld(slots, fates, n - 1);
      HeldAppend(slots[..n - 1], slots[n - 1]);
      assert slots[..n] == slots[..n - 1] + [slots[n - 1]];
      OneMore(slots, fates, n);
    }
  }

  lemma NoAttempts(slots: seq<u32>, fates: Fates)
    requires |slots| == SIZE
    ensures Attempts(slots, fates, 0) == [] && multiset(Attempts(slots, fates, 0)) == multiset{}
  {
  }

  lemma OneMore(slots: seq<u32>, fates: Fates, n: nat)
    requires |slots| == SIZE && 0 < n <= SIZE && fates[n - 1] == Delivered
    ensures multiset(Attempts(slots, fates, n))
            == multiset(Attempts(slots, fates, n - 1))
               + if slots[n - 1] == 0 then multiset{} else multiset{slots[n - 1]}
  {
  }

  lemma NoneHeld()
    ensures Held([]) == multiset{}
  {
  }

  lemma HeldAppend(slots: seq<u32>, pid: u32)
    ensures Held(slots + [pid]) == Held(slots) + if pid == 0 then multiset{} else multiset{pid}
  {
  }

  lemma FreeIsEmpty()
    ensures Held(Free()) == multiset{}
  {
    assert forall p: u32 :: p in multiset(Free()) ==> p in Free();
  }

  // ---- runs ----

  datatype Event = Joined(pid: u32) | Left(pid: u32) | Sent(fates: Fates)

  function After(t: Table, e: Event): (t': Table)
    requires t.Shaped()
    ensures t'.Shaped()
  {
    match e
    case Joined(pid) => Join(t, pid).0
    case Left(pid) => Leave(t, pid).0
    case Sent(fates) => Broadcast(t, fates).0
  }

  function Run(t: Table, es: seq<Event>): (t': Table)
    requires t.Shaped()
    ensures t'.Shaped()
    decreases |es|
  {
    if es == [] then t else Run(After(t, es[0]), es[1..])
  }

  function Empty(): (t: Table)
    ensures t.Shaped()
  {
    Table(Free(), 0)
  }

  /** How far one event moves the counter away from the number of occupied slots. */
  ghost function Slip(t: Table, e: Event): (d: int)
    requires t.Shaped()
  {
    match e
    case Joined(pid) => if pid == 0 && Join(t, pid).1 then 1 else 0
    case Left(pid) => if pid == 0 && Leave(t, pid).1 then -1 else 0
    case Sent(fates) => if FirstRefusal(t.slots, fates, 0) < SIZE then Occupied(t) else 0
  }

  ghost function TotalSlip(t: Table, es: seq<Event>): (d: int)
    requires t.Shaped()
    decreases |es|
  {
    if es == [] then 0 else Slip(t, es[0]) + TotalSlip(After(t, es[0]), es[1..])
  }

  lemma SlipIsExact(t: Table, e: Event)
    requires t.Shaped()
    ensures After(t, e).count - Occupied(After(t, e)) == t.count - Occupied(t) + Slip(t, e)
  {
    match e
    case Joined(pid) => JoinRefines(t, pid);
    case Left(pid) => LeaveRefines(t, pid);
    case Sent(fates) => FreeIsEmpty();
  }

  /**
   Counter drift, over every run: the counter exceeds the occupied slots by the
   entries refusals erased, plus the joins and minus the leaves of pid 0.
   */
  lemma {:induction false} Drift(t: Table, es: seq<Event>)
    requires t.Shaped()
    ensures Run(t, es).count - Occupied(Run(t, es)) == t.count - Occupied(t) + TotalSlip(t, es)
    decreases |es|
  {
    if es != [] {
      SlipIsExact(t, es[0]);
      Drift(After(t, es[0]), es[1..]);
    }
  }

  ghost predicate RealPids(es: seq<Event>)
  {
    forall i | 0 <= i < |es| :: es[i].Sent? || es[i].pid != 0
  }

  ghost predicate NoBroadcasts(es: seq<Event>) { forall i | 0 <= i < |es| :: !es[i].Sent? }

  /** The entries that refusals erased during the run. */
  ghost function Erased(t: Table, es: seq<Event>): (n: nat)
    requires t.Shaped()
    decreases |es|
  {
    if es == [] then 0
    else Erased(After(t, es[0]), es[1..])
         + if es[0].Sent? && FirstRefusal(t.slots, es[0].fates, 0) < SIZE then Occupied(t) else 0
  }

  lemma {:induction false} ErasedIsSlip(t: Table, es: seq<Event>)
    requires t.Shaped() && RealPids(es)
    ensures TotalSlip(t, es) == Erased(t, es)
    decreases |es|
  {
    if es != [] {
      ErasedIsSlip(After(t, es[0]), es[1..]);
    }
  }

  /**
   Runs with non-zero pids from the empty table: the counter is the occupied
   slots plus the erased entries, a join succeeds exactly while fewer than
   32 minus the erased entries are occupied, a leave exactly when the pid is
   present, and the fall-through return of user_join is never taken.
   */
  lemma CapacityShrinks(es: seq<Event>, pid: u32)
    requires RealPids(es) && pid != 0
    ensures var t := Run(Empty(), es);
            && t.count == Occupied(t) + Erased(Empty(), es)
            && (Join(t, pid).1 <==> Occupied(t) < SIZE - Erased(Empty(), es))
            && (Leave(t, pid).1 <==> pid in Held(t.slots))
            && !FallsThrough(t)
  {
    var t := Run(Empty(), es);
    FreeIsEmpty();
    Drift(Empty(), es);
    ErasedIsSlip(Empty(), es);
    JoinRefines(t, pid);
    LeaveRefines(t, pid);
    HeldSize(t.slots);
    assert pid in Held(t.slots) ==> |Held(t.slots)| > 0;
  }

  /** Once refusals have erased 32 entries no join succeeds any more. */
  lemma {:induction false} DeadTable(es: seq<Event>, more: seq<Event>, pid: u32)
    requires RealPids(es + more) && pid != 0 && Erased(Empty(), es) >= SIZE
    ensures !Join(Run(Empty(), es + more), pid).1
  {
    ErasedGrows(Empty(), es, more);
    CapacityShrinks(es + more, pid);
  }

  lemma {:induction false} ErasedGrows(t: Table, es: seq<Event>, more: seq<Event>)
    requires t.Shaped()
    ensures Erased(t, es + more) >= Erased(t, es)
    decreases |es|
  {
    if es != [] {
      assert (es + more)[1..] == es[1..] + more;
      ErasedGrows(After(t, es[0]), es[1..], more);
    }
  }

  /** No free slot means 32 registrations, and no more than that fit. */
  lemma FullExactly(t: Table)
    requires t.Shaped()
    ensures Occupied(t) <= SIZE && (Occupied(t) == SIZE <==> 0 !in t.slots)
  {
    HeldSize(t.slots);
  }

  /** The fall-through return is taken exactly when the counter lags behind a full table. */
  lemma FallThroughExact(t: Table)
    requires t.Shaped()
    ensures FallsThrough(t) <==> t.count < SIZE && Occupied(t) == SIZE
  {
    HeldSize(t.slots);
  }

  lemma {:induction false} RunAppend(t: Table, es: seq<Event>, more: seq<Event>)
    requires t.Shaped()
    ensures Run(t, es + more) == Run(Run(t, es), more)
    decreases |es|
  {
    if es == [] {
      assert es + more == more;
    } else {
      assert (es + more)[1..] == es[1..] + more;
      RunAppend(After(t, es[0]), es[1..], more);
    }
  }

  function Filled(n: nat, count: int): (t: Table)
    ensures t.Shaped()
  {
    Table(seq(SIZE, i => if i < n then 1 else 0), count)
  }

  lemma FillOne(n: nat, count: int)
    requires n < SIZE
    ensures Find(Filled(n, count).slots, 0) == n
    ensures count < SIZE ==> Join(Filled(n, count), 1).0 == Filled(n + 1, count + 1)
    ensures 0 < count ==> Leave(Filled(n, count), 0).0 == Filled(n, count - 1)
  {
    var slots := Filled(n, count).slots;
    assert slots[n] == 0;
    assert slots[n := 1] == Filled(n + 1, count).slots && slots[n := 0] == slots;
  }

  /** Client 1 registers `k` times. */
  function Joins(k: nat): (es: seq<Event>)
    ensures |es| == k && forall i | 0 <= i < k :: es[i] == Joined(1)
  {
    seq(k, i => Joined(1))
  }

  lemma {:induction false} Filling(n: nat, k: nat)
    requires n + k <= SIZE
    ensures Run(Filled(n, n), Joins(k)) == Filled(n + k, n + k)
    decreases k
  {
    hide Filled, Joins, Join;
    if k > 0 {
      assert Joins(k)[1..] == Joins(k - 1);
      FillOne(n, n);
      Filling(n + 1, k - 1);
    }
  }

  lemma LagsBehind()
    ensures Run(Filled(31, 31), [Left(0), Joined(1)]) == Filled(32, 31)
    ensures FallsThrough(Filled(32, 31))
  {
    FillOne(31, 31);
    FillOne(31, 30);
    hide Filled, Find;
    var more := [Left(0), Joined(1)];
    assert more[1..] == [Joined(1)] && more[1..][1..] == [];
    assert After(Filled(31, 31), Left(0)) == Filled(31, 30);
    assert Run(Filled(31, 30), [Joined(1)]) == Filled(32, 31);
  }

  lemma NothingFilled()
    ensures Empty() == Filled(0, 0)
  {
  }

  /** With pid 0 allowed the return can be taken: 31 joins, a leave of pid 0, and a join. */
  lemma ZeroPidFallsThrough()
    ensures FallsThrough(Run(Empty(), Joins(31) + [Left(0), Joined(1)]))
  {
    hide Filled, Find, Run, FallsThrough, Empty, Joins;
    var es, more := Joins(31), [Left(0), Joined(1)];
    NothingFilled();
    Filling(0, 31);
    RunAppend(Empty(), es, more);
    LagsBehind();
  }

  function AllRefuse(): (fates: Fates) { seq(SIZE, i => Refused) }

  /** One broadcast nobody accepts empties a full table and leaves its counter at 32. */
  lemma WipeFull()
    ensures After(Filled(SIZE, SIZE), Sent(AllRefuse())) == Table(Free(), SIZE)
  {
    var full := Filled(SIZE, SIZE);
    assert full.slots[0] == 1 && FirstRefusal(full.slots, AllRefuse(), 0) == 0;
  }

  /** The capacity can be lost altogether: 32 joins, and one broadcast nobody accepts. */
  lemma AllErased(pid: u32)
    requires pid != 0
    ensures var es := Joins(SIZE) + [Sent(AllRefuse())];
            && RealPids(es) && Run(Empty(), es) == Table(Free(), SIZE)
            && Erased(Empty(), es) == SIZE && !Join(Run(Empty(), es), pid).1
  {
    hide Filled, AllRefuse, Erased, Run, Join, Leave, Joins;
    var joins, last := Joins(SIZE), Sent(AllRefuse());
    NothingFilled();
    Filling(0, SIZE);
    RunAppend(Empty(), joins, [last]);
    RunOne(Filled(SIZE, SIZE), last);
    WipeFull();
    CapacityShrinks(joins + [last], pid);
    FreeIsEmpty();
  }

  lemma RunOne(t: Table, e: Event)
    requires t.Shaped()
    ensures Run(t, [e]) == After(t, e) && Run(t, []) == t
  {
    assert [e][1..] == [];
  }

  // ---- client sessions ----

  /** Sessions of `p` still open after the events, when `n` were open before. */
  function Open(n: nat, es: seq<Event>, p: u32): (k: nat)
    decreases |es|
  {
    if es == [] then n
    else
      var n' := if es[0] == Joined(p) then n + 1 else if es[0] == Left(p) && n > 0 then n - 1 else n;
      Open(n', es[1..], p)
  }

  lemma RegisteredStep(t: Table, e: Event, p: u32, n: nat)
    requires t.Shaped() && p != 0 && (e.Sent? || e.pid != 0)
    requires t.count >= Occupied(t) && Held(t.slots)[p] <= n
    ensures After(t, e).count >= Occupied(After(t, e))
    ensures Held(After(t, e).slots)[p]
            <= if e == Joined(p) then n + 1 else if e == Left(p) && n > 0 then n - 1 else n
  {
    hide Held, Join, Leave, Broadcast;
    SlipIsExact(t, e);
    match e {
      case Joined(q) => JoinRefines(t, q);
      case Left(q) =>
        LeaveRefines(t, q);
        assert q in Held(t.slots) ==> |Held(t.slots)| > 0;
      case Sent(_) =>
        BroadcastErases(t, e.fates, p);
    }
  }

  lemma BroadcastErases(t: Table, fates: Fates, p: u32)
    requires t.Shaped()
    ensures Held(Broadcast(t, fates).0.slots)[p] <= Held(t.slots)[p]
  {
    hide Held;
    FreeIsEmpty();
  }

  /** A pid is never registered more often than it has open sessions, refused joins included. */
  lemma {:induction false} RegisteredAtMostOpen(t: Table, es: seq<Event>, p: u32, n: nat)
    requires t.Shaped() && RealPids(es) && p != 0
    requires t.count >= Occupied(t) && Held(t.slots)[p] <= n
    ensures Held(Run(t, es).slots)[p] <= Open(n, es, p)
    decreases |es|
  {
    if es != [] {
      hide Held, After;
      var e, t' := es[0], After(t, es[0]);
      RegisteredStep(t, e, p, n);
      var n' := if e == Joined(p) then n + 1 else if e == Left(p) && n > 0 then n - 1 else n;
      RegisteredAtMostOpen(t', es[1..], p, n');
    }
  }

  /** The events of one client, in order. */
  function Of(es: seq<Event>, p: u32): (mine: seq<Event>)
    decreases |es|
  {
    if es == [] then []
    else (if es[0] == Joined(p) || es[0] == Left(p) then [es[0]] else []) + Of(es[1..], p)
  }

  lemma {:induction false} OpenDependsOnOwnEvents(n: nat, es: seq<Event>, p: u32)
    ensures Open(n, es, p) == Open(n, Of(es, p), p)
    decreases |es|
  {
    if es != [] {
      var rest := Of(es[1..], p);
      var n' := if es[0] == Joined(p) then n + 1 else if es[0] == Left(p) && n > 0 then n - 1 else n;
      OpenDependsOnOwnEvents(n', es[1..], p);
      if es[0] == Joined(p) || es[0] == Left(p) {
        assert Of(es, p)[1..] == rest;
      } else {
        assert Of(es, p) == rest;
      }
    }
  }

  /** Joins and leaves of real pids after which no session is open. */
  ghost predicate AllOver(es: seq<Event>)
  {
    RealPids(es) && NoBroadcasts(es) && forall p: u32 | p != 0 :: Open(0, es, p) == 0
  }

  /** However often clients come back: once every session is over the table is empty and the counter zero. */
  lemma AllOverLeavesNothing(es: seq<Event>)
    requires AllOver(es)
    ensures Run(Empty(), es) == Empty()
  {
    var t := Run(Empty(), es);
    FreeIsEmpty();
    forall p: u32 ensures p !in Held(t.slots) {
      if p != 0 {
        RegisteredAtMostOpen(Empty(), es, p, 0);
      }
    }
    OnlyFreeSlots(t.slots);
    CapacityShrinks(es, 1);
    NoBroadcastErasesNothing(Empty(), es);
  }

  /** Any interleaving of complete sessions: each client joins once and then leaves once. */
  ghost predicate CompleteSessions(es: seq<Event>)
  {
    && RealPids(es) && NoBroadcasts(es)
    && forall p: u32 :: Of(es, p) == [] || Of(es, p) == [Joined(p), Left(p)]
  }

  lemma CompleteAreOver(es: seq<Event>)
    requires CompleteSessions(es)
    ensures AllOver(es)
  {
    forall p: u32 | p != 0 ensures Open(0, es, p) == 0 {
      OpenDependsOnOwnEvents(0, es, p);
      var mine := [Joined(p), Left(p)];
      assert mine[1..] == [Left(p)] && mine[1..][1..] == [];
      assert Open(0, mine, p) == Open(1, [Left(p)], p) == 0;
    }
  }

  /**
   Every interleaving of complete sessions leaves the table empty and the
   counter at zero, even when some joins were refused because it was full.
   */
  lemma SessionsLeaveNothing(es: seq<Event>)
    requires CompleteSessions(es)
    ensures Run(Empty(), es) == Empty()
  {
    CompleteAreOver(es);
    AllOverLeavesNothing(es);
  }

  /** More sessions open before, at least as many open after. */
  lemma {:induction false} OpenMonotone(n: nat, m: nat, es: seq<Event>, p: u32)
    requires n <= m
    ensures Open(n, es, p) <= Open(m, es, p)
    decreases |es|
  {
    if es != [] {
      var n' := if es[0] == Joined(p) then n + 1 else if es[0] == Left(p) && n > 0 then n - 1 else n;
      var m' := if es[0] == Joined(p) then m + 1 else if es[0] == Left(p) && m > 0 then m - 1 else m;
      OpenMonotone(n', m', es[1..], p);
    }
  }

  lemma {:induction false} OpenFrom(n: nat, es: seq<Event>, k: nat, p: u32)
    requires k <= |es|
    ensures Open(0, es[k..], p) <= Open(n, es, p)
    decreases k
  {
    if k == 0 {
      assert es[k..] == es;
      OpenMonotone(0, n, es, p);
    } else {
      assert es[k..] == es[1..][k - 1..];
      OpenFrom(if es[0] == Joined(p) then n + 1 else if es[0] == Left(p) && n > 0 then n - 1 else n, es[1..], k - 1, p);
    }
  }

  /** Missing the first events of sessions that all end leaves sessions that all end. */
  lemma SuffixOver(es: seq<Event>, k: nat)
    requires AllOver(es) && k <= |es|
    ensures AllOver(es[k..])
  {
    forall p: u32 | p != 0 ensures Open(0, es[k..], p) == 0 {
      OpenFrom(0, es, k, p);
    }
  }

  lemma OnlyFreeSlots(slots: seq<u32>)
    requires |slots| == SIZE && forall p: u32 :: p !in Held(slots)
    ensures slots == Free() && Held(slots) == multiset{}
  {
    forall i | 0 <= i < SIZE ensures slots[i] == 0 {
      assert slots[i] in multiset(slots);
      assert slots[i] !in Held(slots);
    }
  }

  lemma {:induction false} NoBroadcastErasesNothing(t: Table, es: seq<Event>)
    requires t.Shaped() && NoBroadcasts(es)
    ensures Erased(t, es) == 0
    decreases |es|
  {
    if es != [] {
      NoBroadcastErasesNothing(After(t, es[0]), es[1..]);
    }
  }

  // ---- the table itself ----

  class UserTable {
    const pids: array<u32>
    var usrcnt: int

    ghost predicate Valid() { pids.Length == SIZE }

    ghost function View(): (t: Table)
      requires Valid()
      reads this, pids
      ensures t.Shaped()
    {
      Table(pids[..], usrcnt)
    }

    constructor ()
      ensures Valid() && View() == Empty() && fresh(pids)
    {
      pids := new u32[SIZE](i => 0);
      usrcnt := 0;
      new;
      assert pids[..] == Free();
    }

    method Clear()
      requires Valid()
      modifies pids
      ensures View() == old(View()).(slots := Free())
    {
      for i := 0 to SIZE
        invariant forall j | 0 <= j < i :: pids[j] == 0
      {
        pids[i] := 0;
      }
      assert pids[..] == Free();
    }

    method UserLeave(pid: u32) returns (ok: bool)
      requires Valid()
      modifies this, pids
      ensures (View(), ok) == Leave(old(View()), pid)
    {
      if usrcnt <= 0 {
        return false;
      }
      for i := 0 to SIZE
        invariant forall j | 0 <= j < i :: pids[j] != pid
        invariant pids[..] == old(pids[..]) && usrcnt == old(usrcnt)
      {
        if pids[i] == pid {
          pids[i] := 0;
          usrcnt := usrcnt - 1;
          return true;
        }
      }
      return false;
    }

    method UserJoin(pid: u32) returns (ok: bool)
      requires Valid()
      modifies this, pids
      ensures (View(), ok) == Join(old(View()), pid)
    {
      if usrcnt >= SIZE {
        return false;
      }
      for i := 0 to SIZE
        invariant forall j | 0 <= j < i :: pids[j] != 0
        invariant pids[..] == old(pids[..]) && usrcnt == old(usrcnt)
      {
        if pids[i] == 0 {
          pids[i] := pid;
          usrcnt := usrcnt + 1;
          return true;
        }
      }
      return false;
    }

    /** hook_func: one copy per registered user; a refusal deletes all users while the scan goes on. */
    method HookFunc(fates: Fates) returns (sent: seq<u32>)
      requires Valid()
      modifies pids
      ensures (View(), sent) == Broadcast(old(View()), fates)
    {
      sent := [];
      ghost var was := pids[..];
      ghost var k := FirstRefusal(was, fates, 0);
      for i := 0 to SIZE
        invariant i <= k ==> pids[..] == was && sent == Attempts(was, fates, i)
        invariant i > k ==> pids[..] == Free() && sent == Attempts(was, fates, k + 1)
      {
        var pid := pids[i];
        if pid != 0 && fates[i] != NoMemory {
          sent := sent + [pid];
          if fates[i] == Refused {
            Clear();
          }
        }
      }
    }
  }
}
