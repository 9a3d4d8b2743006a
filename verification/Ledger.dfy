/**
 Conservation laws of the pipeline: buffers and skb references as equations
 between sums that every step keeps.
 */
module Ledger {
  import opened Prelude
  import opened Machine
  import opened Pool

  function NextPc(c: Config, s: State, h: nat, ok: bool): (pc: HookPc)
    requires h < |s.hooks|
  {
    var hooks := HookStep(c, s, h, ok).hooks;
    if h < |hooks| then hooks[h] else s.hooks[h]
  }

  lemma OneHookMoves(c: Config, s: State, h: nat, ok: bool)
    requires h < |s.hooks|
    ensures HookStep(c, s, h, ok).hooks == s.hooks[h := NextPc(c, s, h, ok)]
  {
    hide Fits, PutBytes, Rewritten, Ref, SetField, Kill, PacketOf, Woken;
    match s.hooks[h]
    case PortTest(_) =>
    case TakeBuffer(_) =>
    case Kmalloc(_) =>
    case NewSkb(_, _) =>
    case PutMsg(_, _) =>
    case _ =>
  }

  // ---- sums ----

  function Live(bufs: seq<Buffer>): (n: nat)
  {
    if bufs == [] then 0 else One(bufs[0].live) + Live(bufs[1..])
  }

  function TotalRefs(skbs: seq<Skb>): (n: int)
  {
    if skbs == [] then 0 else skbs[0].refs + TotalRefs(skbs[1..])
  }

  lemma {:induction false} LiveUpdate(bufs: seq<Buffer>, i: nat, b: Buffer)
    requires i < |bufs|
    ensures Live(bufs[i := b]) == Live(bufs) - One(bufs[i].live) + One(b.live)
  {
    if i == 0 {
      assert bufs[i := b][1..] == bufs[1..];
    } else {
      assert bufs[i := b][1..] == bufs[1..][i - 1 := b];
      LiveUpdate(bufs[1..], i - 1, b);
    }
  }

  lemma {:induction false} LiveAppend(bufs: seq<Buffer>, b: Buffer)
    ensures Live(bufs + [b]) == Live(bufs) + One(b.live)
  {
    if bufs == [] {
      assert bufs + [b] == [b] && [b][1..] == [];
    } else {
      assert (bufs + [b])[1..] == bufs[1..] + [b];
      LiveAppend(bufs[1..], b);
    }
  }

  lemma {:induction false} RefsUpdate(skbs: seq<Skb>, i: nat, k: Skb)
    requires i < |skbs|
    ensures TotalRefs(skbs[i := k]) == TotalRefs(skbs) - skbs[i].refs + k.refs
  {
    if i == 0 {
      assert skbs[i := k][1..] == skbs[1..];
    } else {
      assert skbs[i := k][1..] == skbs[1..][i - 1 := k];
      RefsUpdate(skbs[1..], i - 1, k);
    }
  }

  lemma {:induction false} RefsAppend(skbs: seq<Skb>, k: Skb)
    ensures TotalRefs(skbs + [k]) == TotalRefs(skbs) + k.refs
  {
    if skbs == [] {
      assert skbs + [k] == [k] && [k][1..] == [];
    } else {
      assert (skbs + [k])[1..] == skbs[1..] + [k];
      RefsAppend(skbs[1..], k);
    }
  }

  // ---- buffers ----

  /** Every live buffer is on the list or in the hands of a hook: none is lost, none counted twice. */
  ghost predicate BuffersConserved(freelist: seq<nat>, bufs: seq<Buffer>, hooks: seq<HookPc>)
  {
    Live(bufs) == |freelist| + Count(hooks, HasCb)
  }

  ghost predicate BuffersOk(s: State) { BuffersConserved(s.freelist, s.bufs, s.hooks) }

  lemma BuffersAt(s: State, h: nat, pc: HookPc)
    requires BuffersOk(s) && h < |s.hooks| && HasCb(pc) == HasCb(s.hooks[h])
    ensures BuffersConserved(s.freelist, s.bufs, s.hooks[h := pc])
  {
    CountUpdate(s.hooks, h, pc, HasCb);
  }

  lemma BuffersField(s: State, h: nat, pc: HookPc, cb: nat, field: Option<nat>)
    requires BuffersOk(s) && h < |s.hooks| && HasCb(pc) && HasCb(s.hooks[h])
    ensures BuffersConserved(s.freelist, SetField(s.bufs, cb, field), s.hooks[h := pc])
  {
    CountUpdate(s.hooks, h, pc, HasCb);
    if cb < |s.bufs| {
      LiveUpdate(s.bufs, cb, s.bufs[cb].(skb := field));
    }
  }

  lemma BuffersTake(s: State, h: nat, pkt: Packet)
    requires BuffersOk(s) && h < |s.hooks| && !HasCb(s.hooks[h])
    ensures s.freelist != [] ==> BuffersConserved(s.freelist[1..], s.bufs, s.hooks[h := NewSkb(pkt, s.freelist[0])])
    ensures BuffersConserved(s.freelist, s.bufs + [Buffer(None, true)], s.hooks[h := NewSkb(pkt, |s.bufs|)])
  {
    if s.freelist != [] {
      CountUpdate(s.hooks, h, NewSkb(pkt, s.freelist[0]), HasCb);
    }
    CountUpdate(s.hooks, h, NewSkb(pkt, |s.bufs|), HasCb);
    LiveAppend(s.bufs, Buffer(None, true));
  }

  lemma BuffersFree(s: State, h: nat, cb: nat)
    requires PoolOk(s) && BuffersOk(s) && h < |s.hooks| && s.hooks[h] == FreeBuffer(Some(cb))
    ensures BuffersConserved([cb] + s.freelist, s.bufs, s.hooks[h := Returned])
    ensures BuffersConserved(s.freelist, Kill(s.bufs, cb), s.hooks[h := Returned])
  {
    Instance(s, h);
    CountUpdate(s.hooks, h, Returned, HasCb);
    LiveUpdate(s.bufs, cb, s.bufs[cb].(live := false));
  }

  lemma BuffersHook(c: Config, s: State, h: nat, ok: bool)
    requires PoolOk(s) && BuffersOk(s) && h < |s.hooks|
    ensures var s' := HookStep(c, s, h, ok); BuffersConserved(s'.freelist, s'.bufs, s'.hooks)
  {
    hide BuffersConserved, PoolOk, SetField, Kill;
    match s.hooks[h] {
      case PortTest(pkt) => BuffersAt(s, h, if s.portId == 0 then Returned else TakeBuffer(pkt));
      case TakeBuffer(pkt) => BuffersTake(s, h, pkt); BuffersAt(s, h, Kmalloc(pkt));
      case Kmalloc(pkt) => BuffersTake(s, h, pkt); BuffersAt(s, h, FreeBuffer(None));
      case NewSkb(pkt, cb) =>
        BuffersField(s, h, PutMsg(cb, |s.skbs|), cb, Some(|s.skbs|));
        BuffersField(s, h, FreeBuffer(Some(cb)), cb, None);
      case PutMsg(cb, skb) => BuffersAt(s, h, RateCheck(cb, skb)); BuffersField(s, h, FreeBuffer(Some(cb)), cb, None);
      case RateCheck(cb, skb) => BuffersAt(s, h, Enqueue(cb, skb)); BuffersAt(s, h, RateLimited(cb, skb));
      case Enqueue(cb, skb) => BuffersAt(s, h, Wake(cb));
      case Wake(cb) => BuffersAt(s, h, ClearSkb(cb));
      case ClearSkb(cb) => BuffersField(s, h, FreeBuffer(Some(cb)), cb, None);
      case FreeBuffer(cb) => if cb == None { BuffersAt(s, h, Faulted); } else { BuffersFree(s, h, cb.value); }
      case _ =>
    }
  }

  lemma BuffersStep(c: Config, s: State, step: Step)
    requires PoolOk(s) && BuffersOk(s)
    ensures BuffersOk(Apply(c, s, step))
  {
    match step
    case Arrive(pkt) =>
      CountAppend(s.hooks, PortTest(pkt), HasCb);
    case Hook(h, ok) =>
      hide PoolOk, BuffersConserved, HookStep;
      if h < |s.hooks| {
        BuffersHook(c, s, h, ok);
      }
    case _ =>
  }

  // ---- the size of the pool ----

  /** Listed buffers, and those held or about to be allocated. */
  function PoolSize(s: State): (n: nat) { |s.freelist| + Count(s.hooks, Holds) }

  lemma ListShrinks(c: Config, s: State, h: nat, ok: bool)
    requires h < |s.hooks|
    ensures var s', pc' := HookStep(c, s, h, ok), NextPc(c, s, h, ok);
            s'.freelist == [] || |s'.freelist| + One(Holds(pc')) <= |s.freelist| + One(Holds(s.hooks[h]))
  {
    hide Fits, PutBytes, Rewritten, Ref, SetField, Kill, PacketOf, Woken;
    match s.hooks[h]
    case PortTest(_) =>
    case TakeBuffer(_) =>
    case Kmalloc(_) =>
    case NewSkb(_, _) =>
    case PutMsg(_, _) =>
    case _ =>
  }

  /** The pool grows only in steps that leave the freelist empty. */
  lemma PoolSizeStep(c: Config, s: State, step: Step)
    ensures var s' := Apply(c, s, step); s'.freelist == [] || PoolSize(s') <= PoolSize(s)
  {
    match step
    case Arrive(pkt) => CountAppend(s.hooks, PortTest(pkt), Holds);
    case Hook(h, ok) =>
      if h < |s.hooks| {
        OneHookMoves(c, s, h, ok);
        ListShrinks(c, s, h, ok);
        hide HookStep, NextPc, Count;
        CountUpdate(s.hooks, h, NextPc(c, s, h, ok), Holds);
      }
    case _ =>
  }

  // ---- buffers go back to the list ----

  /** A buffer given back while fewer than 1024 are listed is listed first. */
  lemma ListedAgain(c: Config, s: State, h: nat, ok: bool, cb: nat)
    requires PoolOk(s) && h < |s.hooks| && s.hooks[h] == FreeBuffer(Some(cb))
    ensures var s' := Apply(c, s, Hook(h, ok));
            && s'.hooks[h] == Returned
            && (|s.freelist| < 1024 ==> s'.freelist == [cb] + s.freelist && s'.bufs == s.bufs)
            && (|s.freelist| >= 1024 ==> s'.freelist == s.freelist && cb < |s'.bufs| && !s'.bufs[cb].live)
  {
    Instance(s, h);
  }

  /** The buffer last given back is the next to be taken, and the list is as before. */
  lemma LastInFirstOut(c: Config, s: State, h: nat, cb: nat, k: nat, pkt: Packet)
    requires PoolOk(s) && h < |s.hooks| && s.hooks[h] == FreeBuffer(Some(cb)) && |s.freelist| < 1024
    requires k < |s.hooks| && s.hooks[k] == TakeBuffer(pkt)
    ensures var s' := Apply(c, Apply(c, s, Hook(h, true)), Hook(k, true));
            s'.hooks[k] == NewSkb(pkt, cb) && s'.freelist == s.freelist && s'.freeCount == s.freeCount
  {
    ListedAgain(c, s, h, true, cb);
  }

  lemma LiveField(bufs: seq<Buffer>, cb: nat, field: Option<nat>)
    ensures Live(SetField(bufs, cb, field)) == Live(bufs)
  {
    if cb < |bufs| {
      LiveUpdate(bufs, cb, bufs[cb].(skb := field));
    }
  }

  /** A buffer goes to kfree only when 1024 are listed. */
  lemma KfreedOnlyWhenFull(c: Config, s: State, step: Step)
    requires PoolOk(s) && Live(Apply(c, s, step).bufs) < Live(s.bufs)
    ensures |s.freelist| == 1024
  {
    hide Live, SetField, PoolOk, Fits, PutBytes, Rewritten, Ref, Woken, PacketOf;
    FullList(s);
    if step.Hook? && step.h < |s.hooks| {
      match s.hooks[step.h]
      case Kmalloc(_) => LiveAppend(s.bufs, Buffer(None, true));
      case NewSkb(_, cb) =>
        LiveField(s.bufs, cb, Some(|s.skbs|));
        LiveField(s.bufs, cb, None);
      case PutMsg(cb, _) => LiveField(s.bufs, cb, None);
      case ClearSkb(cb) => LiveField(s.bufs, cb, None);
      case _ =>
    }
  }

  lemma FullList(s: State)
    requires PoolOk(s)
    ensures s.freeCount == |s.freelist| <= 1024
  {
  }
}
