/** The wrapper operations and trampolines as code that updates the heap in place, each
    proved to be the step of the same name of the lifetime protocol. */
module Bufferevents {
  import opened Options
  import opened Lifetime
  import opened LifetimeProofs

  ghost predicate CanStep(s: State, step: Step) {
    Inv(s) && Enabled(s, step)
  }

  ghost function Next(s: State, step: Step): State
    requires CanStep(s, step)
  {
    InvInRange(s);
    Apply(s, step)
  }

  class Heap {
    var wrappers: seq<Wrapper>
    var counts: seq<int>
    var opaques: seq<Opaque>
    var raws: seq<Raw>
    var held: multiset<Id>
    var frames: seq<Frame>
    var pending: multiset<Id>

    ghost function View(): State
      reads this
    {
      State(wrappers, counts, opaques, raws, held, frames, pending)
    }

    constructor ()
      ensures View() == INITIAL && Inv(View())
    {
      wrappers, counts, opaques, raws, frames := [], [], [], [], [];
      held, pending := multiset{}, multiset{};
    }

    /** Copies a closure: each captured Var is copied. */
    method Copy(c: Option<Closure>)
      requires forall h | h in Handles(c) :: h < |counts|
      modifies `counts
      ensures counts == Plus(old(counts), Handles(c))
    {
      if c.None? { return; }
      var i := 0;
      while i < |c.value|
        invariant i <= |c.value| && |counts| == old(|counts|)
        invariant forall w | 0 <= w < |counts| :: counts[w] == old(counts)[w] + multiset(c.value[..i])[w]
      {
        var h := c.value[i];
        assert h in Handles(c);
        assert c.value[..i + 1] == c.value[..i] + [h];
        counts := counts[h := counts[h] + 1];
        i := i + 1;
      }
      assert c.value[..i] == c.value;
    }

    /** Destroys a closure. The precondition says that no count comes down to zero, so no
        wrapper is destroyed by releasing handles from C++ code. */
    method Destroy(c: Option<Closure>)
      requires Spares(counts, Handles(c))
      modifies `counts
      ensures counts == Minus(old(counts), Handles(c))
    {
      if c.None? { return; }
      var i := 0;
      while i < |c.value|
        invariant i <= |c.value| && |counts| == old(|counts|)
        invariant forall w | 0 <= w < |counts| :: counts[w] == old(counts)[w] - multiset(c.value[..i])[w]
      {
        var h := c.value[i];
        assert h in Handles(c);
        assert c.value[..i + 1] == c.value[..i] + [h];
        counts := counts[h := counts[h] - 1];
        i := i + 1;
      }
      assert c.value[..i] == c.value;
    }

    /** Func::operator= on one slot: the new closure is copied in, then the old one destroyed. */
    method Assign(w: Id, kind: Kind, c: Option<Closure>)
      requires CountsOk(View()) && MayCapture(View(), w, Handles(c))
      modifies `wrappers, `counts
      ensures w < |old(wrappers)| && View() == WithSlot(old(View()), w, kind, c)
      ensures CountsOk(View()) && |counts| == |old(counts)|
    {
      hide CountsOk;
      AssignCounts(View(), w, kind, c);
      var was := wrappers[w].slots.Of(kind);
      Copy(c);
      wrappers := wrappers[w := Replace(wrappers[w], kind, c)];
      Destroy(was);
    }

    /** The body of setcb: the three assignments in its order. */
    method AssignAll(w: Id, slots: Slots)
      requires CountsOk(View()) && MayCapture(View(), w, slots.Refs())
      modifies `wrappers, `counts
      ensures w < |old(wrappers)| && View() == WithSlots(old(View()), w, slots)
    {
      hide CountsOk, WithSlot;
      MayCaptureAssigned(View(), w, slots);
      ghost var s0 := View();
      Assign(w, Event, slots.event);
      ghost var s1 := View();
      Assign(w, Read, slots.read);
      ghost var s2 := View();
      Assign(w, Write, slots.write);
      ThreeAssignments(s0, w, slots);
    }

    method Setcb(w: Id, read: Option<Closure>, write: Option<Closure>, event: Option<Closure>)
      requires CanStep(View(), SetCb(w, Slots(read, write, event)))
      modifies `wrappers, `counts
      ensures View() == Next(old(View()), SetCb(w, Slots(read, write, event))) && Inv(View())
    {
      hide CanStep, Next, Inv, CountsOk, MayCapture;
      SetCbNext(View(), w, Slots(read, write, event));
      AssignAll(w, Slots(read, write, event));
    }

    method SocketNew(ok: bool) returns (r: Option<Id>)
      requires CanStep(View(), New(ok))
      modifies this
      ensures View() == Next(old(View()), New(ok)) && Inv(View())
      ensures r == if ok then Some(|old(wrappers)|) else None
    {
      hide CanStep, Next, Inv;
      NewNext(View(), ok);
      if !ok { return None; }
      r := Some(|wrappers|);
      AddWrapper(Raw(Wrapped(|wrappers|), Some(|wrappers|), None, false, 0));
    }

    /** The raw handle, the object, the `varp` of a new wrapper, and the copy returned. */
    method AddWrapper(raw: Raw)
      modifies this
      ensures View() == Wrap(old(View()), raw)
    {
      held := held + multiset{|wrappers|};
      wrappers := wrappers + [Wrapper(Some(|raws|), NO_SLOTS)];
      counts := counts + [2];
      opaques := opaques + [Held];
      raws := raws + [raw];
    }

    method OpensslFilterNew(underlying: Id, ok: bool, closes: bool) returns (r: Option<Id>)
      requires CanStep(View(), Steal(underlying, ok, closes)) && underlying < |wrappers|
      modifies this
      ensures View() == Next(old(View()), Steal(underlying, ok, closes)) && Inv(View())
      ensures r == if ok && old(wrappers)[underlying].bevp.Some? then Some(|old(wrappers)|) else None
    {
      hide CanStep, Next, Inv, CountsOk, MayCapture;
      StealNext(View(), underlying, ok, closes);
      var bevp := wrappers[underlying].bevp;
      if !ok || bevp.None? { return None; }
      r := Some(|wrappers|);
      var u := bevp.value;
      raws := raws[u := raws[u].(owner := Filtered(|raws|), trampoline := None)];
      wrappers := wrappers[underlying := wrappers[underlying].(bevp := None)];
      AssignAll(underlying, NO_SLOTS);
      AddWrapper(Raw(Wrapped(|wrappers|), Some(|wrappers|), Some(u), closes, 0));
    }

    /** is_ignored_by_cxx */
    method IsIgnoredByCxx(w: Id)
      requires InRange(View()) && w < |wrappers| && counts[w] == 1
      modifies `raws, `opaques, `pending
      ensures View() == AfterCallback(old(View()), w)
    {
      if wrappers[w].bevp.Some? {
        var r := wrappers[w].bevp.value;
        raws := raws[r := raws[r].(trampoline := None)];
      }
      opaques := opaques[w := Condemned];
      pending := pending + multiset{w};
    }

    /** A trampoline up to the point where the callback runs, if one runs: Func copies the
        closure first. */
    method Trampoline(r: RawId, kind: Kind)
      requires CanStep(View(), Lifetime.BeginCallback(r, kind))
      modifies this
      ensures View() == Next(old(View()), Lifetime.BeginCallback(r, kind)) && Inv(View())
    {
      hide CanStep, Next, Inv, InRange, AfterCallback;
      BeginNext(View(), r, kind);
      var w := raws[r].trampoline.value;
      var slot := wrappers[w].slots.Of(kind);
      if counts[w] != 1 && slot.Some? {
        Copy(slot);
        frames := frames + [Frame(w, r, slot.value)];
      } else if counts[w] == 1 {
        IsIgnoredByCxx(w);
      }
    }

    /** The rest of the trampoline on top of the stack. */
    method Return()
      requires CanStep(View(), EndCallback)
      modifies this
      ensures View() == Next(old(View()), EndCallback) && Inv(View())
    {
      hide CanStep, Next, Inv, InRange, AfterCallback;
      EndNext(View());
      var top := frames[|frames| - 1];
      frames := frames[..|frames| - 1];
      Destroy(Some(top.backup));
      if counts[top.wrapper] == 1 {
        IsIgnoredByCxx(top.wrapper);
      }
    }

    /** The timer that is_ignored_by_cxx started. The count of `varp` is the last one, so
        the deleter always runs, and it destroys no other wrapper. */
    method Delete(w: Id)
      requires CanStep(View(), LoopTick(w))
      modifies this
      ensures View() == Next(old(View()), LoopTick(w)) && Inv(View())
      ensures w < |wrappers| && wrappers[w].bevp == None
    {
      hide CanStep, Next, Inv, Spares, Unwrapped;
      TickNext(View(), w);
      ForgetVarp(w);
      DestroyWrapper(w);
    }

    /** `delete varp`, as far as the control block and the timer go. */
    method ForgetVarp(w: Id)
      requires w < |counts| == |opaques|
      modifies `counts, `opaques, `pending
      ensures pending == old(pending) - multiset{w} && opaques == old(opaques)[w := Deleted]
      ensures counts == Minus(old(counts), multiset{w})
    {
      pending := pending - multiset{w};
      opaques := opaques[w := Deleted];
      counts := counts[w := counts[w] - 1];
    }

    /** The deleter given to `varp`: the raw handle first, then the object. */
    method DestroyWrapper(w: Id)
      requires w < |wrappers| && Spares(counts, wrappers[w].slots.Refs())
      modifies `wrappers, `raws, `counts
      ensures wrappers == old(wrappers)[w := Wrapper(None, NO_SLOTS)]
      ensures raws == Unwrapped(old(wrappers)[w], old(raws))
      ensures counts == Minus(old(counts), old(wrappers)[w].slots.Refs())
    {
      hide Spares, FreeRaw;
      var slots := wrappers[w].slots;
      if wrappers[w].bevp.Some? {
        raws := FreeRaw(raws, wrappers[w].bevp.value);
      }
      wrappers := wrappers[w := Wrapper(None, NO_SLOTS)];
      DestroyAll(slots);
    }

    /** The destructor of a wrapper destroys its closures. */
    method DestroyAll(slots: Slots)
      requires Spares(counts, slots.Refs())
      modifies `counts
      ensures counts == Minus(old(counts), slots.Refs())
    {
      hide Spares;
      SparesParts(counts, slots);
      Destroy(slots.write);
      Destroy(slots.read);
      Destroy(slots.event);
    }
  }

  function Replace(wrapper: Wrapper, kind: Kind, c: Option<Closure>): Wrapper {
    match kind
    case Read => wrapper.(slots := wrapper.slots.(read := c))
    case Write => wrapper.(slots := wrapper.slots.(write := c))
    case Event => wrapper.(slots := wrapper.slots.(event := c))
  }

  ghost function WithSlot(s: State, w: Id, kind: Kind, c: Option<Closure>): State
    requires w < |s.wrappers|
  {
    s.(wrappers := s.wrappers[w := Replace(s.wrappers[w], kind, c)],
       counts := Minus(Plus(s.counts, Handles(c)), Handles(s.wrappers[w].slots.Of(kind))))
  }

  ghost function WithSlots(s: State, w: Id, slots: Slots): State
    requires w < |s.wrappers|
  {
    s.(wrappers := s.wrappers[w := s.wrappers[w].(slots := slots)],
       counts := Minus(Plus(s.counts, slots.Refs()), s.wrappers[w].slots.Refs()))
  }

  /** Releasing the handles leaves every wrapper a count. */
  ghost predicate Spares(counts: seq<int>, handles: multiset<Id>) {
    forall h | h in handles :: h < |counts| && counts[h] - handles[h] >= 1
  }

  /** A live wrapper, and live handles for its slots. */
  ghost predicate MayCapture(s: State, w: Id, handles: multiset<Id>) {
    && w < |s.wrappers| == |s.opaques| == |s.counts| && s.opaques[w] == Held
    && forall h | h in handles :: h < |s.wrappers| && s.opaques[h] == Held
  }

  lemma MayCaptureAssigned(s: State, w: Id, slots: Slots)
    requires MayCapture(s, w, slots.Refs())
    ensures MayCapture(s, w, Handles(slots.event))
    ensures MayCapture(WithSlot(s, w, Event, slots.event), w, Handles(slots.read))
    ensures MayCapture(WithSlot(WithSlot(s, w, Event, slots.event), w, Read, slots.read), w, Handles(slots.write))
  {}

  lemma ThreeAssignments(s: State, w: Id, slots: Slots)
    requires w < |s.wrappers|
    ensures WithSlot(WithSlot(WithSlot(s, w, Event, slots.event), w, Read, slots.read), w, Write, slots.write)
         == WithSlots(s, w, slots)
  {
    hide Handles;
    var s3 := WithSlot(WithSlot(WithSlot(s, w, Event, slots.event), w, Read, slots.read), w, Write, slots.write);
    assert s3.counts == WithSlots(s, w, slots).counts;
  }

  lemma SparesParts(counts: seq<int>, slots: Slots)
    requires Spares(counts, slots.Refs())
    ensures Spares(counts, Handles(slots.write))
    ensures var c1 := Minus(counts, Handles(slots.write));
            Spares(c1, Handles(slots.read)) && Spares(Minus(c1, Handles(slots.read)), Handles(slots.event))
            && Minus(Minus(c1, Handles(slots.read)), Handles(slots.event)) == Minus(counts, slots.Refs())
  {
    hide Handles;
    forall h | h in Handles(slots.read) || h in Handles(slots.write) || h in Handles(slots.event)
      ensures h in slots.Refs()
      ensures slots.Refs()[h] == Handles(slots.read)[h] + Handles(slots.write)[h] + Handles(slots.event)[h]
    {
    }
  }

  /** Replacing one closure keeps the control blocks right, and leaves a count to each
      handle that the old closure releases. */
  lemma AssignCounts(s: State, w: Id, kind: Kind, c: Option<Closure>)
    requires CountsOk(s) && MayCapture(s, w, Handles(c))
    ensures CountsOk(WithSlot(s, w, kind, c))
    ensures Spares(Plus(s.counts, Handles(c)), Handles(s.wrappers[w].slots.Of(kind)))
  {
    hide Fit, Refs, Handles;
    var s', after := WithSlot(s, w, kind, c), Replace(s.wrappers[w], kind, c);
    var was := s.wrappers[w].slots.Of(kind);
    forall h: Id ensures after.slots.Refs()[h] + Handles(was)[h] == s.wrappers[w].slots.Refs()[h] + Handles(c)[h] {
      ReplaceRefs(s.wrappers[w], kind, c, h);
    }
    SetSlotsRefs(s, s', w, after);
    assert forall h: Id :: Refs(s')[h] + Handles(was)[h] == Refs(s)[h] + Handles(c)[h];
    ReplacedFit(Refs(s), Refs(s'), s.counts, s.opaques, s.pending, Handles(c), Handles(was));
  }

  lemma ReplaceRefs(wrapper: Wrapper, kind: Kind, c: Option<Closure>, h: Id)
    ensures Replace(wrapper, kind, c).slots.Refs()[h] + Handles(wrapper.slots.Of(kind))[h]
         == wrapper.slots.Refs()[h] + Handles(c)[h]
  {
    hide Handles;
  }

  lemma ReplacedFit(refs: imap<Id, nat>, refs': imap<Id, nat>, counts: seq<int>, opaques: seq<Opaque>,
                    pending: multiset<Id>, copied: multiset<Id>, dropped: multiset<Id>)
    requires (forall h: Id :: h in refs) && (forall h: Id :: h in refs')
    requires Fit(refs, counts, opaques, pending)
    requires forall h | h in copied :: h < |opaques| && opaques[h] == Held
    requires forall h: Id :: refs'[h] + dropped[h] == refs[h] + copied[h]
    ensures Fit(refs', Minus(Plus(counts, copied), dropped), opaques, pending)
    ensures Spares(Plus(counts, copied), dropped)
  {
    FitMove(refs, refs', counts, opaques, pending, copied, dropped);
    forall h | h in dropped ensures h < |counts| && Plus(counts, copied)[h] - dropped[h] >= 1 {
      if h !in copied {
        FitHeld(refs, counts, opaques, pending, h);
      }
    }
  }

  lemma SetCbNext(s: State, w: Id, slots: Slots)
    requires CanStep(s, SetCb(w, slots))
    ensures CountsOk(s) && MayCapture(s, w, slots.Refs())
    ensures Next(s, SetCb(w, slots)) == WithSlots(s, w, slots) && Inv(WithSlots(s, w, slots))
  {
    hide CountsOk, FramesOk, ChainOk, HandlesOk, CxxRefs;
    StepKeepsInv(s, SetCb(w, slots));
    Lengths(s);
    AccessibleHeld(s, w);
    forall h | h in slots.Refs() ensures h < |s.wrappers| && s.opaques[h] == Held {
      AccessibleHeld(s, h);
    }
  }

  lemma NewNext(s: State, ok: bool)
    requires CanStep(s, New(ok))
    ensures Inv(Next(s, New(ok)))
    ensures Next(s, New(ok)) ==
            if ok then Wrap(s, Raw(Wrapped(|s.wrappers|), Some(|s.wrappers|), None, false, 0)) else s
  {
    hide Inv;
    StepKeepsInv(s, New(ok));
  }

  /** Between the two halves of a steal the object has lost its raw handle and still has its
      slots. */
  ghost function Robbed(s: State, w: Id): State
    requires w < |s.wrappers| && s.wrappers[w].bevp.Some? && s.wrappers[w].bevp.value < |s.raws|
  {
    var u := s.wrappers[w].bevp.value;
    s.(raws := s.raws[u := s.raws[u].(owner := Filtered(|s.raws|), trampoline := None)],
       wrappers := s.wrappers[w := s.wrappers[w].(bevp := None)])
  }

  lemma StealNext(s: State, w: Id, ok: bool, closes: bool)
    requires CanStep(s, Steal(w, ok, closes))
    ensures w < |s.wrappers| && Inv(Next(s, Steal(w, ok, closes)))
    ensures !ok || s.wrappers[w].bevp.None? ==> Next(s, Steal(w, ok, closes)) == s
    ensures ok && s.wrappers[w].bevp.Some? ==>
              && s.wrappers[w].bevp.value < |s.raws|
              && CountsOk(Robbed(s, w)) && MayCapture(Robbed(s, w), w, NO_SLOTS.Refs())
              && Next(s, Steal(w, ok, closes)) ==
                 Wrap(WithSlots(Robbed(s, w), w, NO_SLOTS),
                      Raw(Wrapped(|s.wrappers|), Some(|s.wrappers|), s.wrappers[w].bevp, closes, 0))
  {
    hide Inv, CountsOk;
    StepKeepsInv(s, Steal(w, ok, closes));
    StealFacts(s, w);
    if ok && s.wrappers[w].bevp.Some? {
      StealValue(s, w, closes);
      RobbedCounts(s, w);
      hide InRange, Apply, Wrap, WithSlots, Robbed;
    }
  }

  lemma StealValue(s: State, w: Id, closes: bool)
    requires InRange(s) && Accessible(s, w) && w < |s.wrappers| && s.wrappers[w].bevp.Some?
    ensures Apply(s, Steal(w, true, closes)) ==
            Wrap(WithSlots(Robbed(s, w), w, NO_SLOTS),
                 Raw(Wrapped(|s.wrappers|), Some(|s.wrappers|), s.wrappers[w].bevp, closes, 0))
  {
    var u, robbed := s.wrappers[w].bevp.value, Robbed(s, w);
    assert u < |s.raws|;
    hide InRange, Accessible, Handles;
    assert Plus(s.counts, NO_SLOTS.Refs()) == s.counts by { assert NO_SLOTS.Refs() == multiset{} by { NoRefs(); } }
    assert robbed.wrappers[w := Wrapper(None, NO_SLOTS)] == s.wrappers[w := Wrapper(None, NO_SLOTS)];
    hide Wrap;
  }

  lemma NoRefs()
    ensures NO_SLOTS.Refs() == multiset{}
  {}

  lemma StealFacts(s: State, w: Id)
    requires Inv(s) && Accessible(s, w)
    ensures CountsOk(s) && |s.counts| == |s.opaques| == |s.wrappers|
    ensures w < |s.wrappers| && s.opaques[w] == Held
  {
    hide CountsOk, FramesOk, ChainOk, HandlesOk;
    AccessibleHeld(s, w);
    Lengths(s);
  }

  lemma RobbedCounts(s: State, w: Id)
    requires CountsOk(s) && InRange(s) && w < |s.wrappers| && s.opaques[w] == Held && s.wrappers[w].bevp.Some?
    ensures CountsOk(Robbed(s, w))
  {
    hide Fit, Refs;
    SetSlotsRefs(s, Robbed(s, w), w, s.wrappers[w].(bevp := None));
    assert Refs(Robbed(s, w)) == Refs(s);
  }

  lemma BeginNext(s: State, r: RawId, kind: Kind)
    requires CanStep(s, Lifetime.BeginCallback(r, kind))
    ensures InRange(s) && r < |s.raws| && s.raws[r].trampoline.Some?
    ensures var w := s.raws[r].trampoline.value;
            && w < |s.wrappers| == |s.counts|
            && (var slot := s.wrappers[w].slots.Of(kind);
                && (forall h | h in Handles(slot) :: h < |s.counts|)
                && Inv(Next(s, Lifetime.BeginCallback(r, kind)))
                && Next(s, Lifetime.BeginCallback(r, kind)) ==
                   if s.counts[w] != 1 && slot.Some?
                   then s.(frames := s.frames + [Frame(w, r, slot.value)], counts := Plus(s.counts, Handles(slot)))
                   else if s.counts[w] == 1 then AfterCallback(s, w) else s)
  {
    hide CountsOk, FramesOk, ChainOk, HandlesOk, CxxRefs;
    StepKeepsInv(s, Lifetime.BeginCallback(r, kind));
    Lengths(s);
    var w := s.raws[r].trampoline.value;
    if s.wrappers[w].slots.Of(kind).Some? {
      SlotIsHeld(s, w, kind);
    }
  }

  lemma EndNext(s: State)
    requires CanStep(s, EndCallback)
    ensures s.frames != []
    ensures var top := s.frames[|s.frames| - 1];
            && InRange(Popped(s)) && top.wrapper < |s.wrappers| == |s.counts|
            && Spares(s.counts, Handles(Some(top.backup)))
            && Inv(Next(s, EndCallback))
            && Next(s, EndCallback) ==
               if Popped(s).counts[top.wrapper] == 1 then AfterCallback(Popped(s), top.wrapper) else Popped(s)
  {
    hide CountsOk, FramesOk, ChainOk, HandlesOk, CxxRefs;
    StepKeepsInv(s, EndCallback);
    Lengths(s);
    SparesBackup(s);
  }

  lemma SparesBackup(s: State)
    requires CountsOk(s) && s.frames != []
    ensures Spares(s.counts, multiset(s.frames[|s.frames| - 1].backup))
  {
    var m := multiset(s.frames[|s.frames| - 1].backup);
    forall h | h in m ensures h < |s.counts| && s.counts[h] - m[h] >= 1 {
      FrameRefsHas(s.frames, |s.frames| - 1, h);
      assert Refs(s)[h] >= m[h];
    }
  }

  lemma TickNext(s: State, w: Id)
    requires CanStep(s, LoopTick(w))
    ensures w < |s.wrappers| == |s.counts| == |s.opaques| && s.counts[w] == 1
    ensures Spares(Minus(s.counts, multiset{w}), s.wrappers[w].slots.Refs())
    ensures Inv(Next(s, LoopTick(w)))
    ensures Next(s, LoopTick(w)) ==
            s.(pending := s.pending - multiset{w}, opaques := s.opaques[w := Deleted],
               wrappers := s.wrappers[w := Wrapper(None, NO_SLOTS)], raws := Unwrapped(s.wrappers[w], s.raws),
               counts := Minus(Minus(s.counts, multiset{w}), s.wrappers[w].slots.Refs()))
  {
    hide CountsOk, FramesOk, ChainOk, HandlesOk, CxxRefs, FreeRaw;
    InvInRange(s);
    LoopTickOk(s, w);
    Lengths(s);
    SparesSlots(s, w);
  }

  lemma SparesSlots(s: State, w: Id)
    requires CountsOk(s) && w in s.pending
    ensures w < |s.wrappers| == |s.counts| && Spares(Minus(s.counts, multiset{w}), s.wrappers[w].slots.Refs())
  {
    hide Fit, Refs;
    FitDelete(Refs(s), s.counts, s.opaques, s.pending, w);
    forall h | h in s.wrappers[w].slots.Refs()
      ensures h < |s.counts| && h != w && s.counts[h] - s.wrappers[w].slots.Refs()[h] >= 1
    {
      SlotInRefs(s, w, h);
      FitHeld(Refs(s), s.counts, s.opaques, s.pending, h);
    }
  }
}
