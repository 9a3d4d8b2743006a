/**
 The pool of capture buffers under every interleaving: the freelist, its
 counter, the buffers hooks hold, and how large the pool can grow.
 */
module Pool {
  import opened Prelude
  import opened Machine

  // ---- counting hooks ----

  lemma {:induction false} CountUpdate(hs: seq<HookPc>, h: nat, pc: HookPc, p: HookPc -> bool)
    requires h < |hs|
    ensures Count(hs[h := pc], p) == Count(hs, p) - One(p(hs[h])) + One(p(pc))
  {
    if h == 0 {
      assert hs[h := pc][1..] == hs[1..];
    } else {
      assert hs[h := pc][1..] == hs[1..][h - 1 := pc];
      CountUpdate(hs[1..], h - 1, pc, p);
    }
  }

  lemma {:induction false} CountAppend(hs: seq<HookPc>, pc: HookPc, p: HookPc -> bool)
    ensures Count(hs + [pc], p) == Count(hs, p) + One(p(pc))
  {
    if hs == [] {
      assert hs + [pc] == [pc] && [pc][1..] == [];
    } else {
      assert (hs + [pc])[1..] == hs[1..] + [pc];
      CountAppend(hs[1..], pc, p);
    }
  }

  // ---- structure ----

  /** What cb->skb holds while a hook stands at `pc`. */
  ghost predicate FieldOk(pc: HookPc, field: Option<nat>)
  {
    match pc
    case NewSkb(_, _) => field == None
    case FreeBuffer(_) => field == None
    case Wake(_) => field.Some?
    case ClearSkb(_) => field.Some?
    case _ => field == SkbOf(pc)
  }

  /** The freelist: counted, bounded, distinct, and of live buffers with a null skb. */
  ghost predicate ListOk(freelist: seq<nat>, freeCount: int, bufs: seq<Buffer>)
  {
    && freeCount == |freelist| <= MAX_FREE
    && (forall i, j | 0 <= i < j < |freelist| :: freelist[i] != freelist[j])
    && (forall i | 0 <= i < |freelist| :: freelist[i] < |bufs| && bufs[freelist[i]] == Buffer(None, true))
  }

  /** A buffer in a hook's hands: live, off the list, with the field the hook expects. */
  ghost predicate HeldOk(freelist: seq<nat>, bufs: seq<Buffer>, pc: HookPc)
  {
    HasCb(pc) ==>
      var cb := CbOf(pc).value;
      cb < |bufs| && bufs[cb].live && cb !in freelist && FieldOk(pc, bufs[cb].skb)
  }

  ghost predicate AllHeldOk(freelist: seq<nat>, bufs: seq<Buffer>, hooks: seq<HookPc>)
  {
    forall h | 0 <= h < |hooks| :: HeldOk(freelist, bufs, hooks[h])
  }

  ghost predicate Exclusive(hooks: seq<HookPc>)
  {
    forall h, k | 0 <= h < k < |hooks| && HasCb(hooks[h]) && HasCb(hooks[k]) :: CbOf(hooks[h]) != CbOf(hooks[k])
  }

  ghost predicate PoolOk(s: State)
  {
    && ListOk(s.freelist, s.freeCount, s.bufs)
    && AllHeldOk(s.freelist, s.bufs, s.hooks)
    && Exclusive(s.hooks)
  }

  /** A hook that keeps its buffer, or lets go of it, disturbs no other. */
  lemma KeepBuffer(s: State, h: nat, pc: HookPc)
    requires PoolOk(s) && h < |s.hooks|
    requires CbOf(pc) == CbOf(s.hooks[h]) || CbOf(pc) == None
    requires HeldOk(s.freelist, s.bufs, pc)
    ensures PoolOk(At(s, h, pc))
  {
  }

  lemma FieldChange(s: State, h: nat, pc: HookPc, field: Option<nat>)
    requires PoolOk(s) && h < |s.hooks| && HasCb(s.hooks[h])
    requires CbOf(pc) == CbOf(s.hooks[h]) && FieldOk(pc, field)
    ensures PoolOk(At(s, h, pc).(bufs := SetField(s.bufs, CbOf(pc).value, field)))
  {
    var cb := CbOf(pc).value;
    var s' := At(s, h, pc).(bufs := SetField(s.bufs, cb, field));
    assert HeldOk(s.freelist, s.bufs, s.hooks[h]);
    forall k | 0 <= k < |s'.hooks| ensures HeldOk(s'.freelist, s'.bufs, s'.hooks[k]) {
      assert HeldOk(s.freelist, s.bufs, s.hooks[k]);
    }
  }

  lemma TakeFromList(s: State, h: nat, pkt: Packet)
    requires PoolOk(s) && h < |s.hooks| && !HasCb(s.hooks[h]) && s.freelist != []
    ensures PoolOk(StepTake(s, h, pkt))
  {
    var s' := StepTake(s, h, pkt);
    forall k | 0 <= k < |s'.hooks| ensures HeldOk(s'.freelist, s'.bufs, s'.hooks[k]) {
      assert HeldOk(s.freelist, s.bufs, s.hooks[k]);
    }
    forall k | 0 <= k < |s.hooks| && HasCb(s.hooks[k]) ensures CbOf(s.hooks[k]).value != s.freelist[0] {
      assert HeldOk(s.freelist, s.bufs, s.hooks[k]);
    }
  }

  lemma TakeFromKmalloc(s: State, h: nat, pkt: Packet)
    requires PoolOk(s) && h < |s.hooks| && !HasCb(s.hooks[h])
    ensures PoolOk(StepKmalloc(s, h, pkt, true))
  {
    var s' := StepKmalloc(s, h, pkt, true);
    forall k | 0 <= k < |s'.hooks| ensures HeldOk(s'.freelist, s'.bufs, s'.hooks[k]) {
      assert HeldOk(s.freelist, s.bufs, s.hooks[k]);
    }
    forall k | 0 <= k < |s.hooks| && HasCb(s.hooks[k]) ensures CbOf(s.hooks[k]).value != |s.bufs| {
      assert HeldOk(s.freelist, s.bufs, s.hooks[k]);
    }
  }

  lemma GiveBack(s: State, h: nat, cb: nat)
    requires PoolOk(s) && h < |s.hooks| && s.hooks[h] == FreeBuffer(Some(cb))
    ensures PoolOk(StepFree(s, h, Some(cb)))
  {
    var s' := StepFree(s, h, Some(cb));
    assert HeldOk(s.freelist, s.bufs, s.hooks[h]);
    forall k | 0 <= k < |s'.hooks| ensures HeldOk(s'.freelist, s'.bufs, s'.hooks[k]) {
      assert HeldOk(s.freelist, s.bufs, s.hooks[k]);
      assert k != h && HasCb(s.hooks[k]) ==> CbOf(s.hooks[k]) != CbOf(s.hooks[h]);
    }
  }

  lemma PoolHook(c: Config, s: State, h: nat, ok: bool)
    requires PoolOk(s) && h < |s.hooks|
    ensures PoolOk(HookStep(c, s, h, ok))
  {
    hide ListOk, AllHeldOk, Exclusive, Fits, PutBytes, Rewritten, Ref, SetField, Kill, PacketOf, Woken;
    assert HeldOk(s.freelist, s.bufs, s.hooks[h]) by { Instance(s, h); }
    match s.hooks[h] {
      case PortTest(pkt) => KeepBuffer(s, h, if s.portId == 0 then Returned else TakeBuffer(pkt));
      case TakeBuffer(pkt) => if s.freelist != [] { TakeFromList(s, h, pkt); } else { KeepBuffer(s, h, Kmalloc(pkt)); }
      case Kmalloc(pkt) => if ok { TakeFromKmalloc(s, h, pkt); } else { KeepBuffer(s, h, FreeBuffer(None)); }
      case NewSkb(pkt, cb) =>
        FieldChange(s, h, PutMsg(cb, |s.skbs|), Some(|s.skbs|));
        FieldChange(s, h, FreeBuffer(Some(cb)), None);
      case PutMsg(cb, skb) =>
        KeepBuffer(s, h, RateCheck(cb, skb));
        FieldChange(s, h, FreeBuffer(Some(cb)), None);
      case RateCheck(cb, skb) =>
        KeepBuffer(s, h, Enqueue(cb, skb));
        KeepBuffer(s, h, RateLimited(cb, skb));
      case Enqueue(cb, skb) => KeepBuffer(s, h, Wake(cb));
      case Wake(cb) => KeepBuffer(s, h, ClearSkb(cb));
      case ClearSkb(cb) => FieldChange(s, h, FreeBuffer(Some(cb)), None);
      case FreeBuffer(cb) => if cb == None { KeepBuffer(s, h, Faulted); } else { GiveBack(s, h, cb.value); }
      case _ =>
    }
  }

  lemma Instance(s: State, h: nat)
    requires PoolOk(s) && h < |s.hooks|
    ensures HeldOk(s.freelist, s.bufs, s.hooks[h])
  {
  }

  lemma PoolStep(c: Config, s: State, step: Step)
    requires PoolOk(s)
    ensures PoolOk(Apply(c, s, step))
  {
    hide HookStep;
    if step.Hook? && step.h < |s.hooks| {
      PoolHook(c, s, step.h, step.ok);
    }
  }
}
