/** Safety of the lifetime protocol over every run. */
module LifetimeProofs {
  import opened Options
  import opened Lifetime

  // ----- Who holds references -----

  ghost function SlotRefs(ws: seq<Wrapper>, h: Id): nat {
    if ws == [] then 0 else SlotRefs(ws[..|ws| - 1], h) + ws[|ws| - 1].slots.Refs()[h]
  }

  ghost function FrameRefs(frames: seq<Frame>, h: Id): nat {
    if frames == [] then 0
    else FrameRefs(frames[..|frames| - 1], h) + multiset(frames[|frames| - 1].backup)[h]
  }

  /** The references to `h` on the C++ side: variables, stored closures, running copies. */
  ghost function CxxRefs(s: State, h: Id): nat {
    s.held[h] + SlotRefs(s.wrappers, h) + FrameRefs(s.frames, h)
  }

  lemma {:induction false} SlotRefsUpdate(ws: seq<Wrapper>, i: nat, w: Wrapper, h: Id)
    requires i < |ws|
    ensures SlotRefs(ws[i := w], h) + ws[i].slots.Refs()[h] == SlotRefs(ws, h) + w.slots.Refs()[h]
  {
    var n := |ws| - 1;
    if i == n {
      assert ws[i := w][..n] == ws[..n];
    } else {
      assert ws[i := w][..n] == ws[..n][i := w];
      SlotRefsUpdate(ws[..n], i, w, h);
    }
  }

  lemma SlotRefsSnoc(ws: seq<Wrapper>, w: Wrapper, h: Id)
    ensures SlotRefs(ws + [w], h) == SlotRefs(ws, h) + w.slots.Refs()[h]
  {
    assert (ws + [w])[..|ws|] == ws;
  }

  lemma {:induction false} SlotRefsHas(ws: seq<Wrapper>, i: nat, h: Id)
    requires i < |ws|
    ensures ws[i].slots.Refs()[h] <= SlotRefs(ws, h)
  {
    if i < |ws| - 1 {
      SlotRefsHas(ws[..|ws| - 1], i, h);
    }
  }

  lemma {:induction false} FrameRefsHas(frames: seq<Frame>, i: nat, h: Id)
    requires i < |frames|
    ensures multiset(frames[i].backup)[h] <= FrameRefs(frames, h)
  {
    if i < |frames| - 1 {
      FrameRefsHas(frames[..|frames| - 1], i, h);
    }
  }

  lemma FrameRefsSnoc(frames: seq<Frame>, f: Frame, h: Id)
    ensures FrameRefs(frames + [f], h) == FrameRefs(frames, h) + multiset(f.backup)[h]
  {
    assert (frames + [f])[..|frames|] == frames;
  }

  // ----- The invariant -----

  /** All reference totals at once. */
  ghost function Refs(s: State): (refs: imap<Id, nat>)
    ensures forall h: Id :: h in refs
  {
    imap h: Id | true :: CxxRefs(s, h)
  }

  /** The control blocks fit the references: a count is the number of C++ references, plus
      one while `varp` exists; what is condemned or deleted has no C++ reference; and exactly
      the condemned have a deletion pending, one each. */
  ghost predicate Fit(refs: imap<Id, nat>, counts: seq<int>, opaques: seq<Opaque>, pending: multiset<Id>)
    requires forall h: Id :: h in refs
  {
    && |counts| == |opaques|
    && (forall w: Id | refs[w] > 0 :: w < |opaques| && opaques[w] == Held)
    && (forall w: Id | w < |counts| :: counts[w] == refs[w] + (if opaques[w] == Deleted then 0 else 1))
    && (forall w: Id | w in pending :: w < |opaques|)
    && (forall w: Id | w < |opaques| :: pending[w] == if opaques[w] == Condemned then 1 else 0)
  }

  ghost predicate CountsOk(s: State) {
    && |s.wrappers| == |s.opaques|
    && Fit(Refs(s), s.counts, s.opaques, s.pending)
    && (forall w | 0 <= w < |s.wrappers| && s.opaques[w] == Deleted :: s.wrappers[w] == Wrapper(None, NO_SLOTS))
  }

  /** A trampoline runs at most once per wrapper, on a wrapper that is not condemned. */
  ghost predicate FramesOk(frames: seq<Frame>, opaques: seq<Opaque>, raws: nat) {
    && (forall i | 0 <= i < |frames| ::
          frames[i].wrapper < |opaques| && frames[i].raw < raws && opaques[frames[i].wrapper] == Held)
    && (forall i, j | 0 <= i < j < |frames| :: frames[i].wrapper != frames[j].wrapper)
  }

  /** Filters and the raw handles they took point at each other; `frees` is right. The raw
      handle `except`, if any, may have lost its filter. */
  ghost predicate ChainOk(raws: seq<Raw>, except: Option<RawId>) {
    && (forall f | 0 <= f < |raws| && raws[f].under.Some? ::
          raws[f].under.value < f && (raws[f].owner != Freed ==> raws[raws[f].under.value].owner == Filtered(f)))
    && (forall u | 0 <= u < |raws| && raws[u].owner.Filtered? && except != Some(u) ::
          var f := raws[u].owner.filter;
          u < f < |raws| && raws[f].under == Some(u) && raws[f].owner != Freed)
    && (forall r | 0 <= r < |raws| :: raws[r].frees == if raws[r].owner == Freed then 1 else 0)
  }

  /** A wrapper and its raw handle point at each other; only a raw handle whose wrapper is
      not condemned can call our trampolines. */
  ghost predicate HandlesOk(wrappers: seq<Wrapper>, opaques: seq<Opaque>, raws: seq<Raw>) {
    && |opaques| == |wrappers|
    && (forall w | 0 <= w < |wrappers| && wrappers[w].bevp.Some? ::
          wrappers[w].bevp.value < |raws| && raws[wrappers[w].bevp.value].owner == Wrapped(w))
    && (forall r | 0 <= r < |raws| && raws[r].owner.Wrapped? ::
          raws[r].owner.wrapper < |wrappers| && wrappers[raws[r].owner.wrapper].bevp == Some(r))
    && (forall r | 0 <= r < |raws| && raws[r].trampoline.Some? ::
          raws[r].owner == Wrapped(raws[r].trampoline.value)
          && raws[r].trampoline.value < |wrappers| && opaques[raws[r].trampoline.value] == Held)
  }

  ghost predicate Inv(s: State) {
    CountsOk(s) && FramesOk(s.frames, s.opaques, |s.raws|) && ChainOk(s.raws, None) && HandlesOk(s.wrappers, s.opaques, s.raws)
  }

  lemma Lengths(s: State)
    requires CountsOk(s)
    ensures |s.counts| == |s.opaques| == |s.wrappers|
  {
    hide Refs;
  }

  lemma BackupCounts(s: State, i: nat, h: Id)
    requires i < |s.frames| && h in s.frames[i].backup
    ensures Refs(s)[h] > 0
  {
    FrameRefsHas(s.frames, i, h);
    assert h in multiset(s.frames[i].backup);
  }

  lemma AccessibleCounts(s: State, w: Id)
    requires Accessible(s, w)
    ensures Refs(s)[w] > 0
  {
    if w !in s.held {
      var i :| 0 <= i < |s.frames| && w in s.frames[i].backup;
      BackupCounts(s, i, w);
    }
  }

  lemma InvInRange(s: State)
    requires Inv(s)
    ensures InRange(s)
  {
    forall w | w in s.held ensures w < |s.wrappers| {
      AccessibleCounts(s, w);
    }
    forall i, h | 0 <= i < |s.frames| && h in s.frames[i].backup ensures h < |s.wrappers| {
      BackupCounts(s, i, h);
    }
  }

  // ----- Freeing raw handles -----

  /** Freeing goes down only: handles made later stay as they are. */
  lemma {:induction false} FreeRawDown(raws: seq<Raw>, r: RawId)
    requires r < |raws|
    ensures forall q | r < q < |raws| :: FreeRaw(raws, r)[q] == raws[q]
    ensures FreeRaw(raws, r)[r] == raws[r].(owner := Freed, trampoline := None, frees := raws[r].frees + 1)
    decreases r
  {
    var raw := raws[r];
    var after := raws[r := raw.(owner := Freed, trampoline := None, frees := raw.frees + 1)];
    if raw.under.Some? && raw.under.value < r && raw.closesUnder {
      FreeRawDown(after, raw.under.value);
    }
  }

  /** The handle `r` right after its own destructor, before what it took is dealt with. */
  ghost function Destroyed(raws: seq<Raw>, r: RawId): seq<Raw>
    requires r < |raws|
  {
    raws[r := raws[r].(owner := Freed, trampoline := None, frees := raws[r].frees + 1)]
  }

  lemma DestroyedOk(raws: seq<Raw>, r: RawId)
    requires r < |raws| && raws[r].owner != Freed && ChainOk(raws, Some(r))
    requires raws[r].owner.Filtered? ==>
               raws[r].owner.filter < |raws| && raws[raws[r].owner.filter].owner == Freed
    ensures raws[r].under == None ==> ChainOk(Destroyed(raws, r), None)
    ensures raws[r].under.Some? ==>
              var u := raws[r].under.value;
              u < r && raws[u].owner == Filtered(r) && ChainOk(Destroyed(raws, r), Some(u))
  {}

  lemma OrphanOk(raws: seq<Raw>, u: RawId)
    requires u < |raws| && ChainOk(raws, Some(u)) && raws[u].owner.Filtered?
    requires raws[u].owner.filter < |raws| && raws[raws[u].owner.filter].owner == Freed
    ensures ChainOk(raws[u := raws[u].(owner := Orphan)], None)
  {}

  /** Freeing a handle frees it and those below it that closing filters had taken, each
      once, and orphans at most one more. */
  lemma {:induction false} FreeRawOk(raws: seq<Raw>, r: RawId)
    requires r < |raws| && raws[r].owner != Freed && ChainOk(raws, Some(r))
    requires raws[r].owner.Filtered? ==>
               raws[r].owner.filter < |raws| && raws[raws[r].owner.filter].owner == Freed
    ensures ChainOk(FreeRaw(raws, r), None)
    decreases r
  {
    hide ChainOk;
    DestroyedOk(raws, r);
    if raws[r].under.Some? {
      var u := raws[r].under.value;
      if raws[r].closesUnder {
        FreeRawOk(Destroyed(raws, r), u);
      } else {
        OrphanOk(Destroyed(raws, r), u);
      }
    }
  }

  /** A raw handle in the hands of a wrapper is not touched by freeing another one. */
  lemma {:induction false} FreeRawFrame(raws: seq<Raw>, r: RawId)
    requires r < |raws| && raws[r].owner != Freed && ChainOk(raws, Some(r))
    requires raws[r].owner.Filtered? ==>
               raws[r].owner.filter < |raws| && raws[raws[r].owner.filter].owner == Freed
    ensures forall q | 0 <= q < |raws| :: Touched(raws[q], FreeRaw(raws, r)[q], q == r)
    decreases r
  {
    hide ChainOk;
    DestroyedOk(raws, r);
    if raws[r].under.Some? && raws[r].closesUnder {
      FreeRawFrame(Destroyed(raws, r), raws[r].under.value);
    }
  }

  ghost predicate Touched(before: Raw, after: Raw, top: bool) {
    || after == before
    || ((top || before.owner.Filtered?) && (after.owner == Freed || after.owner == Orphan)
        && (after.trampoline == None || after.trampoline == before.trampoline))
  }

  // ----- What each step does to the raw handles -----

  lemma GrowHandles(wrappers: seq<Wrapper>, opaques: seq<Opaque>, raws: seq<Raw>, raw: Raw)
    requires HandlesOk(wrappers, opaques, raws)
    requires raw.owner == Wrapped(|wrappers|) && raw.trampoline == Some(|wrappers|)
    ensures HandlesOk(wrappers + [Wrapper(Some(|raws|), NO_SLOTS)], opaques + [Held], raws + [raw])
  {}

  lemma GrowChain(raws: seq<Raw>, raw: Raw)
    requires ChainOk(raws, None) && raw.under == None && raw.owner.Wrapped? && raw.frees == 0
    ensures ChainOk(raws + [raw], None)
  {}

  lemma StealHandles(wrappers: seq<Wrapper>, opaques: seq<Opaque>, raws: seq<Raw>, w: Id, u: RawId)
    requires HandlesOk(wrappers, opaques, raws) && w < |wrappers| && wrappers[w].bevp == Some(u)
    ensures HandlesOk(wrappers[w := Wrapper(None, NO_SLOTS)], opaques,
                      raws[u := raws[u].(owner := Filtered(|raws|), trampoline := None)])
  {}

  lemma StealChain(raws: seq<Raw>, u: RawId, raw: Raw)
    requires ChainOk(raws, None) && u < |raws| && raws[u].owner.Wrapped?
    requires raw.under == Some(u) && raw.owner.Wrapped? && raw.frees == 0
    ensures ChainOk(raws[u := raws[u].(owner := Filtered(|raws|), trampoline := None)] + [raw], None)
  {}

  lemma CondemnHandles(wrappers: seq<Wrapper>, opaques: seq<Opaque>, raws: seq<Raw>, w: Id)
    requires HandlesOk(wrappers, opaques, raws) && w < |wrappers|
    ensures wrappers[w].bevp.None? ==> HandlesOk(wrappers, opaques[w := Condemned], raws)
    ensures wrappers[w].bevp.Some? ==>
              var r := wrappers[w].bevp.value;
              HandlesOk(wrappers, opaques[w := Condemned], raws[r := raws[r].(trampoline := None)])
  {}

  lemma CondemnChain(raws: seq<Raw>, r: RawId)
    requires ChainOk(raws, None) && r < |raws|
    ensures ChainOk(raws[r := raws[r].(trampoline := None)], None)
  {}

  lemma DeleteHandles(wrappers: seq<Wrapper>, opaques: seq<Opaque>, raws: seq<Raw>, raws': seq<Raw>, w: Id)
    requires HandlesOk(wrappers, opaques, raws) && w < |wrappers| && opaques[w] == Condemned
    requires |raws'| == |raws|
    requires forall q | 0 <= q < |raws| :: Touched(raws[q], raws'[q], wrappers[w].bevp == Some(q))
    requires wrappers[w].bevp.Some? ==> raws'[wrappers[w].bevp.value].trampoline == None
    requires wrappers[w].bevp.Some? ==> !raws'[wrappers[w].bevp.value].owner.Wrapped?
    ensures HandlesOk(wrappers[w := Wrapper(None, NO_SLOTS)], opaques[w := Deleted], raws')
  {}

  lemma SetHandles(wrappers: seq<Wrapper>, opaques: seq<Opaque>, raws: seq<Raw>, w: Id, slots: Slots)
    requires HandlesOk(wrappers, opaques, raws) && w < |wrappers|
    ensures HandlesOk(wrappers[w := wrappers[w].(slots := slots)], opaques, raws)
  {}

  lemma GrowFrames(frames: seq<Frame>, opaques: seq<Opaque>, raws: nat)
    requires FramesOk(frames, opaques, raws)
    ensures FramesOk(frames, opaques + [Held], raws + 1)
  {}

  lemma SetFrames(frames: seq<Frame>, opaques: seq<Opaque>, raws: nat, w: Id, after: Opaque)
    requires FramesOk(frames, opaques, raws) && w < |opaques|
    requires opaques[w] != Held || forall i | 0 <= i < |frames| :: frames[i].wrapper != w
    ensures FramesOk(frames, opaques[w := after], raws)
  {}

  lemma PushFrames(frames: seq<Frame>, opaques: seq<Opaque>, raws: nat, f: Frame)
    requires FramesOk(frames, opaques, raws) && f.wrapper < |opaques| && opaques[f.wrapper] == Held && f.raw < raws
    requires forall i | 0 <= i < |frames| :: frames[i].wrapper != f.wrapper
    ensures FramesOk(frames + [f], opaques, raws)
  {}

  lemma PopFrames(frames: seq<Frame>, opaques: seq<Opaque>, raws: nat)
    requires FramesOk(frames, opaques, raws) && frames != []
    ensures FramesOk(frames[..|frames| - 1], opaques, raws)
    ensures forall i | 0 <= i < |frames| - 1 :: frames[i].wrapper != frames[|frames| - 1].wrapper
    ensures frames[|frames| - 1].wrapper < |opaques| && opaques[frames[|frames| - 1].wrapper] == Held
  {}

  // ----- The control blocks follow the references -----

  lemma FitChange(refs: imap<Id, nat>, refs': imap<Id, nat>, counts: seq<int>, counts': seq<int>,
                  opaques: seq<Opaque>, pending: multiset<Id>)
    requires (forall h: Id :: h in refs) && (forall h: Id :: h in refs')
    requires Fit(refs, counts, opaques, pending) && |counts'| == |counts|
    requires forall h: Id | h < |counts| :: counts'[h] + refs[h] == counts[h] + refs'[h]
    requires forall h: Id | refs'[h] > 0 :: h < |opaques| && opaques[h] == Held
    ensures Fit(refs', counts', opaques, pending)
  {}

  lemma FitGrow(refs: imap<Id, nat>, refs': imap<Id, nat>, counts: seq<int>, opaques: seq<Opaque>, pending: multiset<Id>)
    requires (forall h: Id :: h in refs) && (forall h: Id :: h in refs')
    requires Fit(refs, counts, opaques, pending)
    requires forall h: Id :: refs'[h] == refs[h] + (if h == |counts| then 1 else 0)
    ensures Fit(refs', counts + [2], opaques + [Held], pending)
  {
    assert refs[|counts|] == 0;
  }

  lemma FitCondemn(refs: imap<Id, nat>, counts: seq<int>, opaques: seq<Opaque>, pending: multiset<Id>, w: Id)
    requires forall h: Id :: h in refs
    requires Fit(refs, counts, opaques, pending)
    requires w < |opaques| && opaques[w] == Held && counts[w] == 1
    ensures Fit(refs, counts, opaques[w := Condemned], pending + multiset{w})
  {}

  lemma FitHeld(refs: imap<Id, nat>, counts: seq<int>, opaques: seq<Opaque>, pending: multiset<Id>, h: Id)
    requires forall h: Id :: h in refs
    requires Fit(refs, counts, opaques, pending) && refs[h] > 0
    ensures h < |counts| == |opaques| && opaques[h] == Held && counts[h] == refs[h] + 1
  {}

  lemma SlotInRefs(s: State, w: Id, h: Id)
    requires w < |s.wrappers|
    ensures s.wrappers[w].slots.Refs()[h] <= Refs(s)[h]
  {
    SlotRefsHas(s.wrappers, w, h);
  }

  lemma FitDelete(refs: imap<Id, nat>, counts: seq<int>, opaques: seq<Opaque>, pending: multiset<Id>, w: Id)
    requires forall h: Id :: h in refs
    requires Fit(refs, counts, opaques, pending) && w in pending
    ensures w < |counts| == |opaques| && opaques[w] == Condemned && counts[w] == 1 && refs[w] == 0
    ensures Fit(refs, Minus(counts, multiset{w}), opaques[w := Deleted], pending - multiset{w})
  {}

  /** Some references are dropped. */
  lemma FitDrop(refs: imap<Id, nat>, refs': imap<Id, nat>, counts: seq<int>, opaques: seq<Opaque>,
                pending: multiset<Id>, dropped: multiset<Id>)
    requires (forall h: Id :: h in refs) && (forall h: Id :: h in refs')
    requires Fit(refs, counts, opaques, pending)
    requires forall h: Id :: refs'[h] + dropped[h] == refs[h]
    ensures Fit(refs', Minus(counts, dropped), opaques, pending)
  {
    FitChange(refs, refs', counts, Minus(counts, dropped), opaques, pending);
  }

  /** References to held wrappers are added, then some are dropped. */
  lemma FitMove(refs: imap<Id, nat>, refs': imap<Id, nat>, counts: seq<int>, opaques: seq<Opaque>,
                pending: multiset<Id>, copied: multiset<Id>, dropped: multiset<Id>)
    requires (forall h: Id :: h in refs) && (forall h: Id :: h in refs')
    requires Fit(refs, counts, opaques, pending)
    requires forall h | h in copied :: h < |opaques| && opaques[h] == Held
    requires forall h: Id :: refs'[h] + dropped[h] == refs[h] + copied[h]
    ensures Fit(refs', Minus(Plus(counts, copied), dropped), opaques, pending)
  {
    forall h: Id | refs'[h] > 0 ensures h < |opaques| && opaques[h] == Held {
      if h !in copied {
        assert refs[h] > 0;
      }
    }
    FitChange(refs, refs', counts, Minus(Plus(counts, copied), dropped), opaques, pending);
  }

  // ----- What each step does to the references -----

  lemma WrapRefs(s: State, raw: Raw)
    ensures forall h: Id :: Refs(Wrap(s, raw))[h] == Refs(s)[h] + (if h == |s.wrappers| then 1 else 0)
  {
    forall h: Id
      ensures Refs(Wrap(s, raw))[h] == Refs(s)[h] + (if h == |s.wrappers| then 1 else 0)
    {
      SlotRefsSnoc(s.wrappers, Wrapper(Some(|s.raws|), NO_SLOTS), h);
    }
  }

  lemma SetSlotsRefs(s: State, s': State, w: Id, wrapper: Wrapper)
    requires w < |s.wrappers| && s'.wrappers == s.wrappers[w := wrapper]
    requires s'.held == s.held && s'.frames == s.frames
    ensures forall h: Id :: Refs(s')[h] + s.wrappers[w].slots.Refs()[h] == Refs(s)[h] + wrapper.slots.Refs()[h]
  {
    forall h: Id
      ensures Refs(s')[h] + s.wrappers[w].slots.Refs()[h] == Refs(s)[h] + wrapper.slots.Refs()[h]
    {
      SlotRefsUpdate(s.wrappers, w, wrapper, h);
    }
  }

  lemma PushRefs(s: State, s': State, f: Frame)
    requires s'.wrappers == s.wrappers && s'.held == s.held && s'.frames == s.frames + [f]
    ensures forall h: Id :: Refs(s')[h] == Refs(s)[h] + multiset(f.backup)[h]
  {
    forall h: Id ensures Refs(s')[h] == Refs(s)[h] + multiset(f.backup)[h] {
      FrameRefsSnoc(s.frames, f, h);
    }
  }

  lemma HoldRefs(s: State, s': State)
    requires s'.wrappers == s.wrappers && s'.frames == s.frames
    ensures forall h: Id :: Refs(s')[h] + s.held[h] == Refs(s)[h] + s'.held[h]
  {}

  // ----- Every step keeps the invariant -----

  lemma AccessibleHeld(s: State, w: Id)
    requires CountsOk(s) && Accessible(s, w)
    ensures w < |s.wrappers| && s.opaques[w] == Held
  {
    AccessibleCounts(s, w);
  }

  lemma TrampolineHeld(wrappers: seq<Wrapper>, opaques: seq<Opaque>, raws: seq<Raw>, r: RawId)
    requires HandlesOk(wrappers, opaques, raws) && r < |raws| && raws[r].trampoline.Some?
    ensures raws[r].trampoline.value < |wrappers| == |opaques| && opaques[raws[r].trampoline.value] == Held
    ensures raws[r].owner == Wrapped(raws[r].trampoline.value)
  {}

  lemma BevpOwned(wrappers: seq<Wrapper>, opaques: seq<Opaque>, raws: seq<Raw>, w: Id)
    requires HandlesOk(wrappers, opaques, raws) && w < |wrappers| && wrappers[w].bevp.Some?
    ensures wrappers[w].bevp.value < |raws| && raws[wrappers[w].bevp.value].owner == Wrapped(w)
  {}

  lemma WrapCounts(s: State, raw: Raw)
    requires CountsOk(s)
    ensures CountsOk(Wrap(s, raw))
  {
    hide Refs;
    WrapRefs(s, raw);
    FitGrow(Refs(s), Refs(Wrap(s, raw)), s.counts, s.opaques, s.pending);
  }

  lemma HoldCounts(s: State, s': State, w: Id)
    requires CountsOk(s) && w < |s.wrappers| && s.opaques[w] == Held
    requires || s' == s.(held := s.held + multiset{w}, counts := Plus(s.counts, multiset{w}))
             || (w in s.held && s' == s.(held := s.held - multiset{w}, counts := Minus(s.counts, multiset{w})))
    ensures CountsOk(s')
  {
    hide CxxRefs;
    HoldRefs(s, s');
    FitChange(Refs(s), Refs(s'), s.counts, s'.counts, s.opaques, s.pending);
  }

  lemma SetSlotsCounts(s: State, s': State, w: Id, wrapper: Wrapper)
    requires CountsOk(s) && w < |s.wrappers| && s.opaques[w] == Held
    requires forall h | h in wrapper.slots.Refs() :: h < |s.wrappers| && s.opaques[h] == Held
    requires s' == s.(raws := s'.raws, wrappers := s.wrappers[w := wrapper],
                      counts := Minus(Plus(s.counts, wrapper.slots.Refs()), s.wrappers[w].slots.Refs()))
    ensures CountsOk(s')
  {
    hide Fit, Refs;
    SetSlotsRefs(s, s', w, wrapper);
    FitMove(Refs(s), Refs(s'), s.counts, s.opaques, s.pending, wrapper.slots.Refs(), s.wrappers[w].slots.Refs());
  }

  lemma StealCounts(s: State, w: Id, raws: seq<Raw>, raw: Raw)
    requires CountsOk(s) && w < |s.wrappers| && s.opaques[w] == Held
    ensures CountsOk(Wrap(s.(raws := raws, wrappers := s.wrappers[w := Wrapper(None, NO_SLOTS)],
                             counts := Minus(s.counts, s.wrappers[w].slots.Refs())), raw))
  {
    var s1 := s.(raws := raws, wrappers := s.wrappers[w := Wrapper(None, NO_SLOTS)],
                 counts := Minus(s.counts, s.wrappers[w].slots.Refs()));
    assert Plus(s.counts, NO_SLOTS.Refs()) == s.counts;
    SetSlotsCounts(s, s1, w, Wrapper(None, NO_SLOTS));
    hide CountsOk;
    WrapCounts(s1, raw);
  }

  lemma CondemnCounts(s: State, raws: seq<Raw>, w: Id)
    requires CountsOk(s) && w < |s.wrappers| && s.opaques[w] == Held && s.counts[w] == 1
    ensures CountsOk(s.(raws := raws, opaques := s.opaques[w := Condemned], pending := s.pending + multiset{w}))
  {
    hide CxxRefs;
    var s' := s.(raws := raws, opaques := s.opaques[w := Condemned], pending := s.pending + multiset{w});
    HoldRefs(s, s');
    FitCondemn(Refs(s), s.counts, s.opaques, s.pending, w);
    assert Refs(s') == Refs(s);
  }

  lemma SlotIsHeld(s: State, w: Id, kind: Kind)
    requires CountsOk(s) && w < |s.wrappers| && s.wrappers[w].slots.Of(kind).Some?
    ensures forall h | h in multiset(s.wrappers[w].slots.Of(kind).value) :: h < |s.wrappers| && s.opaques[h] == Held
  {
    var m := multiset(s.wrappers[w].slots.Of(kind).value);
    forall h | h in m ensures h < |s.wrappers| && s.opaques[h] == Held {
      assert s.wrappers[w].slots.Refs()[h] >= m[h];
      SlotRefsHas(s.wrappers, w, h);
      assert Refs(s)[h] > 0;
    }
  }

  lemma PushCounts(s: State, s': State, f: Frame)
    requires CountsOk(s)
    requires forall h | h in multiset(f.backup) :: h < |s.wrappers| && s.opaques[h] == Held
    requires s' == s.(frames := s.frames + [f], counts := Plus(s.counts, multiset(f.backup)))
    ensures CountsOk(s')
  {
    hide Fit, Refs;
    PushRefs(s, s', f);
    assert Minus(s'.counts, multiset{}) == s'.counts;
    FitMove(Refs(s), Refs(s'), s.counts, s.opaques, s.pending, multiset(f.backup), multiset{});
  }

  lemma PopCounts(s: State, s': State, f: Frame)
    requires CountsOk(s) && s.frames == s'.frames + [f]
    requires s' == s.(frames := s'.frames, counts := Minus(s.counts, multiset(f.backup)))
    ensures CountsOk(s')
  {
    hide Fit, Refs;
    PushRefs(s', s, f);
    FitDrop(Refs(s), Refs(s'), s.counts, s.opaques, s.pending, multiset(f.backup));
  }

  /** A deletion that the timer starts always destroys the wrapper, and destroying its
      closures brings no other count down to zero. */
  lemma DeleteCounts(s: State, raws: seq<Raw>, w: Id)
    requires CountsOk(s) && w in s.pending
    ensures w < |s.wrappers| && s.opaques[w] == Condemned && s.counts[w] == 1
    ensures CountsOk(s.(raws := raws, pending := s.pending - multiset{w}, opaques := s.opaques[w := Deleted],
                        wrappers := s.wrappers[w := Wrapper(None, NO_SLOTS)],
                        counts := Minus(Minus(s.counts, multiset{w}), s.wrappers[w].slots.Refs())))
  {
    hide Fit, Refs;
    FitDelete(Refs(s), s.counts, s.opaques, s.pending, w);
    var s1 := s.(raws := raws, pending := s.pending - multiset{w}, opaques := s.opaques[w := Deleted],
                 counts := Minus(s.counts, multiset{w}));
    RefsFrame(s, s1);
    EmptySlotsCounts(s1, w);
  }

  /** The references depend on the closures, the variables and the stack only. */
  lemma RefsFrame(s: State, s': State)
    requires s'.wrappers == s.wrappers && s'.held == s.held && s'.frames == s.frames
    ensures Refs(s') == Refs(s)
  {}

  /** Destroying a wrapper that was deleted releases what its closures hold. */
  lemma EmptySlotsCounts(s: State, w: Id)
    requires w < |s.wrappers| == |s.opaques| && Fit(Refs(s), s.counts, s.opaques, s.pending)
    requires forall v | 0 <= v < |s.wrappers| && s.opaques[v] == Deleted && v != w :: s.wrappers[v] == Wrapper(None, NO_SLOTS)
    ensures CountsOk(s.(wrappers := s.wrappers[w := Wrapper(None, NO_SLOTS)],
                        counts := Minus(s.counts, s.wrappers[w].slots.Refs())))
  {
    hide Fit, Refs;
    var s' := s.(wrappers := s.wrappers[w := Wrapper(None, NO_SLOTS)], counts := Minus(s.counts, s.wrappers[w].slots.Refs()));
    SetSlotsRefs(s, s', w, Wrapper(None, NO_SLOTS));
    FitDrop(Refs(s), Refs(s'), s.counts, s.opaques, s.pending, s.wrappers[w].slots.Refs());
  }

  lemma NewOk(s: State)
    requires Inv(s) && InRange(s)
    ensures Inv(Apply(s, New(true)))
  {
    hide CountsOk, FramesOk, ChainOk, HandlesOk;
    var raw := Raw(Wrapped(|s.wrappers|), Some(|s.wrappers|), None, false, 0);
    WrapCounts(s, raw);
    GrowFrames(s.frames, s.opaques, |s.raws|);
    GrowChain(s.raws, raw);
    GrowHandles(s.wrappers, s.opaques, s.raws, raw);
  }

  lemma AddRefOk(s: State, w: Id)
    requires Inv(s) && InRange(s) && Accessible(s, w)
    ensures Inv(Apply(s, AddRef(w)))
  {
    hide CountsOk, FramesOk, ChainOk, HandlesOk;
    AccessibleHeld(s, w);
    HoldCounts(s, Apply(s, AddRef(w)), w);
  }

  lemma DropRefOk(s: State, w: Id)
    requires Inv(s) && InRange(s) && w in s.held
    ensures Inv(Apply(s, DropRef(w)))
  {
    hide CountsOk, FramesOk, ChainOk, HandlesOk;
    AccessibleHeld(s, w);
    HoldCounts(s, Apply(s, DropRef(w)), w);
  }

  lemma SetCbOk(s: State, w: Id, slots: Slots)
    requires Inv(s) && InRange(s) && Enabled(s, SetCb(w, slots))
    ensures Inv(Apply(s, SetCb(w, slots)))
  {
    hide CountsOk, FramesOk, ChainOk, HandlesOk;
    AccessibleHeld(s, w);
    forall h | h in slots.Refs() ensures h < |s.wrappers| && s.opaques[h] == Held {
      AccessibleHeld(s, h);
    }
    SetSlotsCounts(s, Apply(s, SetCb(w, slots)), w, s.wrappers[w].(slots := slots));
    SetHandles(s.wrappers, s.opaques, s.raws, w, slots);
  }

  lemma StealOk(s: State, w: Id, closes: bool)
    requires Inv(s) && InRange(s) && Accessible(s, w) && s.wrappers[w].bevp.Some?
    ensures Inv(Apply(s, Steal(w, true, closes)))
  {
    hide CountsOk, FramesOk, ChainOk, HandlesOk;
    AccessibleHeld(s, w);
    BevpOwned(s.wrappers, s.opaques, s.raws, w);
    var u := s.wrappers[w].bevp.value;
    var raws := s.raws[u := s.raws[u].(owner := Filtered(|s.raws|), trampoline := None)];
    var raw := Raw(Wrapped(|s.wrappers|), Some(|s.wrappers|), Some(u), closes, 0);
    StealCounts(s, w, raws, raw);
    GrowFrames(s.frames, s.opaques, |s.raws|);
    StealChain(s.raws, u, raw);
    StealHandles(s.wrappers, s.opaques, s.raws, w, u);
    GrowHandles(s.wrappers[w := Wrapper(None, NO_SLOTS)], s.opaques, raws, raw);
  }

  /** The part of a trampoline after the callback: only a wrapper without C++ references is
      condemned. */
  lemma AfterCallbackOk(s: State, w: Id)
    requires Inv(s) && InRange(s) && w < |s.wrappers| && s.opaques[w] == Held && !InTrampoline(s, w)
    ensures Inv(AfterCallback(s, w))
  {
    hide CountsOk, FramesOk, ChainOk, HandlesOk;
    if s.counts[w] == 1 {
      CondemnCounts(s, AfterCallback(s, w).raws, w);
      SetFrames(s.frames, s.opaques, |s.raws|, w, Condemned);
      CondemnHandles(s.wrappers, s.opaques, s.raws, w);
      if s.wrappers[w].bevp.Some? {
        CondemnChain(s.raws, s.wrappers[w].bevp.value);
      }
    }
  }

  lemma BeginCallbackOk(s: State, r: RawId, kind: Kind)
    requires Inv(s) && InRange(s) && Enabled(s, BeginCallback(r, kind))
    ensures Inv(Apply(s, BeginCallback(r, kind)))
  {
    hide CountsOk, FramesOk, ChainOk, HandlesOk;
    var w := s.raws[r].trampoline.value;
    TrampolineHeld(s.wrappers, s.opaques, s.raws, r);
    if s.counts[w] != 1 && s.wrappers[w].slots.Of(kind).Some? {
      var f := Frame(w, r, s.wrappers[w].slots.Of(kind).value);
      SlotIsHeld(s, w, kind);
      PushCounts(s, Apply(s, BeginCallback(r, kind)), f);
      PushFrames(s.frames, s.opaques, |s.raws|, f);
    } else {
      AfterCallbackOk(s, w);
    }
  }

  /** The state of EndCallback once the backup copy is destroyed. */
  ghost function Popped(s: State): State
    requires s.frames != []
  {
    s.(frames := s.frames[..|s.frames| - 1],
       counts := Minus(s.counts, multiset(s.frames[|s.frames| - 1].backup)))
  }

  lemma EndCallbackOk(s: State)
    requires Inv(s) && InRange(s) && s.frames != []
    ensures Inv(Apply(s, EndCallback))
  {
    hide CountsOk, FramesOk, ChainOk, HandlesOk, InRange, AfterCallback;
    PoppedOk(s);
    InvInRange(Popped(s));
    AfterCallbackOk(Popped(s), s.frames[|s.frames| - 1].wrapper);
  }

  lemma PoppedOk(s: State)
    requires Inv(s) && s.frames != []
    ensures Inv(Popped(s))
    ensures var w := s.frames[|s.frames| - 1].wrapper;
            w < |s.wrappers| && s.opaques[w] == Held && !InTrampoline(Popped(s), w)
  {
    hide CountsOk, FramesOk, ChainOk, HandlesOk;
    Lengths(s);
    var top := s.frames[|s.frames| - 1];
    assert s.frames == Popped(s).frames + [top];
    PopCounts(s, Popped(s), top);
    PopFrames(s.frames, s.opaques, |s.raws|);
  }

  /** The raw handles after the deletion of a wrapper. */
  ghost function Unwrapped(wrapper: Wrapper, raws: seq<Raw>): (after: seq<Raw>)
    ensures |after| == |raws|
  {
    if wrapper.bevp.Some? then FreeRaw(raws, wrapper.bevp.value) else raws
  }

  lemma UnwrapOk(wrappers: seq<Wrapper>, opaques: seq<Opaque>, raws: seq<Raw>, w: Id)
    requires HandlesOk(wrappers, opaques, raws) && ChainOk(raws, None)
    requires w < |wrappers| && opaques[w] == Condemned
    ensures ChainOk(Unwrapped(wrappers[w], raws), None)
    ensures HandlesOk(wrappers[w := Wrapper(None, NO_SLOTS)], opaques[w := Deleted], Unwrapped(wrappers[w], raws))
  {
    hide FreeRaw, ChainOk, HandlesOk;
    if wrappers[w].bevp.Some? {
      var r := wrappers[w].bevp.value;
      BevpOwned(wrappers, opaques, raws, w);
      ChainWeaker(raws, r);
      FreeRawOk(raws, r);
      FreeRawFrame(raws, r);
      FreeRawDown(raws, r);
    }
    DeleteHandles(wrappers, opaques, raws, Unwrapped(wrappers[w], raws), w);
  }

  lemma LoopTickOk(s: State, w: Id)
    requires Inv(s) && InRange(s) && w in s.pending
    ensures Inv(Apply(s, LoopTick(w)))
    ensures s.opaques[w] == Condemned && s.counts[w] == 1
  {
    hide CountsOk, FramesOk, ChainOk, HandlesOk, FreeRaw;
    DeleteCounts(s, Unwrapped(s.wrappers[w], s.raws), w);
    SetFrames(s.frames, s.opaques, |s.raws|, w, Deleted);
    UnwrapOk(s.wrappers, s.opaques, s.raws, w);
  }

  lemma ChainWeaker(raws: seq<Raw>, r: RawId)
    requires ChainOk(raws, None)
    ensures ChainOk(raws, Some(r))
  {}

  lemma StepKeepsInv(s: State, step: Step)
    requires Inv(s) && Enabled(s, step)
    ensures InRange(s) && Inv(Apply(s, step))
  {
    hide Inv, InRange;
    InvInRange(s);
    match step
    case New(ok) =>
      if ok { NewOk(s); }
    case Steal(w, ok, closes) =>
      if ok && s.wrappers[w].bevp.Some? { StealOk(s, w, closes); }
    case AddRef(w) => AddRefOk(s, w);
    case DropRef(w) => DropRefOk(s, w);
    case SetCb(w, slots) => SetCbOk(s, w, slots);
    case BeginCallback(r, kind) => BeginCallbackOk(s, r, kind);
    case EndCallback => EndCallbackOk(s);
    case LoopTick(w) => LoopTickOk(s, w);
  }
}
