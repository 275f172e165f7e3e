/** What the invariant of the lifetime protocol gives over whole runs. */
module LifetimeSafety {
  import opened Options
  import opened Lifetime
  import opened LifetimeProofs

  ghost predicate IsRun(s: State, steps: seq<Step>, t: State)
    decreases |steps|
  {
    if steps == [] then t == s
    else InRange(s) && Enabled(s, steps[0]) && IsRun(Apply(s, steps[0]), steps[1..], t)
  }

  ghost predicate Reachable(t: State) {
    exists steps :: IsRun(INITIAL, steps, t)
  }

  lemma {:induction false} RunKeepsInv(s: State, steps: seq<Step>, t: State)
    requires Inv(s) && IsRun(s, steps, t)
    ensures Inv(t)
    decreases |steps|
  {
    hide Inv;
    if steps != [] {
      StepKeepsInv(s, steps[0]);
      RunKeepsInv(Apply(s, steps[0]), steps[1..], t);
    }
  }

  lemma ReachableInv(t: State)
    requires Reachable(t)
    ensures Inv(t)
  {
    var steps :| IsRun(INITIAL, steps, t);
    assert Inv(INITIAL);
    RunKeepsInv(INITIAL, steps, t);
  }

  /** The state machine is defined where a state has room for its identifiers. Every reachable
      state has, so no run is cut short by that. */
  lemma ReachableInRange(t: State)
    requires Reachable(t)
    ensures InRange(t)
  {
    hide Inv, InRange;
    ReachableInv(t);
    InvInRange(t);
  }

  // ----- One owner, one destruction -----

  /** In every reachable state a raw bufferevent has at most one owner, whether a wrapper or
      the filter that took it, and its destructor ran at most once; once it ran nobody owns it. */
  lemma OneOwner(t: State, r: RawId)
    requires Reachable(t) && r < |t.raws|
    ensures forall v, w | 0 <= v < |t.wrappers| && 0 <= w < |t.wrappers| ::
              t.wrappers[v].bevp == Some(r) && t.wrappers[w].bevp == Some(r) ==> v == w
    ensures forall f, g | 0 <= f < |t.raws| && 0 <= g < |t.raws| && t.raws[f].owner != Freed && t.raws[g].owner != Freed ::
              t.raws[f].under == Some(r) && t.raws[g].under == Some(r) ==> f == g
    ensures forall f, w | 0 <= f < |t.raws| && 0 <= w < |t.wrappers| && t.raws[f].owner != Freed ::
              !(t.raws[f].under == Some(r) && t.wrappers[w].bevp == Some(r))
    ensures t.raws[r].frees <= 1
    ensures t.raws[r].frees == 1 ==> forall w | 0 <= w < |t.wrappers| :: t.wrappers[w].bevp != Some(r)
    ensures t.raws[r].frees == 1 ==>
              forall f | 0 <= f < |t.raws| && t.raws[f].owner != Freed :: t.raws[f].under != Some(r)
  {
    hide CountsOk, FramesOk;
    ReachableInv(t);
  }

  // ----- Nothing in use is destroyed -----

  /** Somebody needs the wrapper: a variable, a stored closure or a running one holds it, or
      one of its callbacks is running. */
  ghost predicate InUse(s: State, w: Id) {
    || w in s.held
    || (exists v, kind | 0 <= v < |s.wrappers| :: w in Handles(s.wrappers[v].slots.Of(kind)))
    || (exists i | 0 <= i < |s.frames| :: w in s.frames[i].backup)
    || InTrampoline(s, w)
  }

  lemma InUseHeld(s: State, w: Id)
    requires Inv(s) && InUse(s, w)
    ensures w < |s.wrappers| && s.opaques[w] == Held
  {
    if Accessible(s, w) {
      AccessibleHeld(s, w);
    } else if !InTrampoline(s, w) {
      var v, kind :| 0 <= v < |s.wrappers| && w in Handles(s.wrappers[v].slots.Of(kind));
      SlotIsHeld(s, v, kind);
    }
  }

  /** A wrapper that is neither condemned nor deleted, whose raw handle was not freed. */
  ghost predicate Alive(s: State, w: Id) {
    && w < |s.wrappers| == |s.opaques| == |s.counts|
    && s.opaques[w] == Held && s.counts[w] >= 1
    && (s.wrappers[w].bevp.Some? ==>
          s.wrappers[w].bevp.value < |s.raws| && s.raws[s.wrappers[w].bevp.value].frees == 0)
  }

  lemma HeldAlive(s: State, w: Id)
    requires Inv(s) && w < |s.wrappers| && s.opaques[w] == Held
    ensures Alive(s, w)
    ensures s.counts[w] == Refs(s)[w] + 1
  {
    hide CxxRefs;
  }

  /** In every reachable state a wrapper in use is neither condemned nor deleted, and the raw
      handle it owns was not freed. */
  lemma InUseIsAlive(t: State, w: Id)
    requires Reachable(t) && InUse(t, w)
    ensures Alive(t, w)
  {
    hide Inv;
    ReachableInv(t);
    InUseHeld(t, w);
    HeldAlive(t, w);
  }

  // ----- The running copy -----

  /** All states of a run, from `s` to the last, have more than `depth` frames. */
  ghost predicate StaysAbove(s: State, steps: seq<Step>, depth: nat)
    decreases |steps|
  {
    && |s.frames| > depth
    && (steps == [] || !InRange(s) || !Enabled(s, steps[0]) || StaysAbove(Apply(s, steps[0]), steps[1..], depth))
  }

  /** From the start of a callback to its end, whatever happens in between, nested callbacks
      and replacement of its own slot included, its copy of the closure stays on the stack
      and every handle captured in it stays alive. */
  lemma {:induction false} CapturedStaysAlive(s: State, steps: seq<Step>, t: State, depth: nat, h: Id)
    requires Reachable(s) && IsRun(s, steps, t) && StaysAbove(s, steps, depth)
    requires h in s.frames[depth].backup
    ensures |t.frames| > depth && t.frames[depth] == s.frames[depth]
    ensures Alive(t, h) && t.counts[h] >= 2
    decreases |steps|
  {
    hide Reachable, InRange, Enabled, Apply, Alive;
    if steps == [] {
      CapturedIsAlive(s, depth, h);
    } else {
      var s' := Apply(s, steps[0]);
      StaysReachable(s, steps[0]);
      FramesBelowStay(s, steps[0], depth);
      CapturedStaysAlive(s', steps[1..], t, depth, h);
    }
  }

  lemma CapturedIsAlive(s: State, depth: nat, h: Id)
    requires Reachable(s) && depth < |s.frames| && h in s.frames[depth].backup
    ensures Alive(s, h) && s.counts[h] >= 2
  {
    hide Inv, Reachable;
    ReachableInv(s);
    BackupCounts(s, depth, h);
    InUseHeld(s, h);
    HeldAlive(s, h);
  }

  /** A step pushes on top of the stack or pops from there. */
  lemma FramesBelowStay(s: State, step: Step, depth: nat)
    requires InRange(s) && Enabled(s, step) && depth < |s.frames| && depth < |Apply(s, step).frames|
    ensures Apply(s, step).frames[depth] == s.frames[depth]
  {
    hide FreeRaw, Plus, Minus;
    if step.EndCallback? {
      assert Apply(s, step).frames == s.frames[..|s.frames| - 1];
    }
  }

  lemma StaysReachable(s: State, step: Step)
    requires Reachable(s) && Enabled(s, step)
    ensures InRange(s) && Reachable(Apply(s, step))
  {
    hide InRange, Enabled, Apply;
    ReachableInRange(s);
    var steps :| IsRun(INITIAL, steps, s);
    RunSnoc(INITIAL, steps, s, step);
  }

  lemma {:induction false} RunSnoc(s: State, steps: seq<Step>, t: State, step: Step)
    requires IsRun(s, steps, t) && InRange(t) && Enabled(t, step)
    ensures IsRun(s, steps + [step], Apply(t, step))
    decreases |steps|
  {
    hide InRange, Enabled, Apply;
    if steps != [] {
      RunSnoc(Apply(s, steps[0]), steps[1..], t, step);
      assert (steps + [step])[1..] == steps[1..] + [step];
    } else {
      assert [step][1..] == [];
    }
  }

  // ----- Condemned once, deleted once -----

  ghost function Deletions(steps: seq<Step>, w: Id): nat {
    if steps == [] then 0 else (if steps[0] == LoopTick(w) then 1 else 0) + Deletions(steps[1..], w)
  }

  /** Along a step a wrapper goes from held to condemned to deleted, and only its own timer
      deletes it. */
  ghost predicate Progresses(before: Opaque, after: Opaque, own: bool) {
    match before
    case Held => after != Deleted && !own
    case Condemned => after == if own then Deleted else Condemned
    case Deleted => after == Deleted && !own
  }

  lemma Pending(s: State, w: Id)
    requires Inv(s) && w < |s.wrappers|
    ensures |s.wrappers| == |s.opaques| == |s.counts|
    ensures w in s.pending <==> s.opaques[w] == Condemned
    ensures s.opaques[w] == Condemned ==> s.counts[w] == 1
    ensures s.opaques[w] == Deleted ==> s.counts[w] == 0 && s.wrappers[w].bevp == None
  {
    hide CxxRefs;
  }

  lemma TrampolineProgresses(s: State, step: Step, w: Id)
    requires Inv(s) && InRange(s) && Enabled(s, step) && w < |s.wrappers|
    requires step.BeginCallback? || step.EndCallback?
    ensures w < |Apply(s, step).wrappers| == |Apply(s, step).opaques|
    ensures Progresses(s.opaques[w], Apply(s, step).opaques[w], false)
  {
    hide CountsOk, FramesOk, ChainOk, HandlesOk;
    Pending(s, w);
    if step.BeginCallback? {
      TrampolineHeld(s.wrappers, s.opaques, s.raws, step.raw);
    } else {
      PopFrames(s.frames, s.opaques, |s.raws|);
    }
  }

  lemma StepProgresses(s: State, step: Step, w: Id)
    requires Inv(s) && InRange(s) && Enabled(s, step) && w < |s.wrappers|
    ensures w < |Apply(s, step).wrappers| == |Apply(s, step).opaques|
    ensures Progresses(s.opaques[w], Apply(s, step).opaques[w], step == LoopTick(w))
  {
    hide Inv, FreeRaw, Plus, Minus;
    if step.BeginCallback? || step.EndCallback? {
      hide Apply, InRange;
      TrampolineProgresses(s, step, w);
    } else {
      Pending(s, w);
    }
  }

  lemma {:induction false} DeletedStays(s: State, steps: seq<Step>, t: State, w: Id)
    requires Inv(s) && IsRun(s, steps, t) && w < |s.wrappers| == |s.opaques| && s.opaques[w] == Deleted
    ensures w < |t.wrappers| == |t.opaques| && t.opaques[w] == Deleted
    ensures Deletions(steps, w) == 0
    decreases |steps|
  {
    hide Inv;
    if steps != [] {
      StepKeepsInv(s, steps[0]);
      StepProgresses(s, steps[0], w);
      DeletedStays(Apply(s, steps[0]), steps[1..], t, w);
    }
  }

  lemma {:induction false} DeletedOnce(s: State, steps: seq<Step>, t: State, w: Id)
    requires Inv(s) && IsRun(s, steps, t) && w < |s.wrappers| == |s.opaques|
    ensures Deletions(steps, w) <= 1
    ensures w < |t.wrappers| == |t.opaques|
    ensures s.opaques[w] == Condemned ==> t.opaques[w] == if Deletions(steps, w) == 0 then Condemned else Deleted
    decreases |steps|
  {
    hide Inv;
    if steps != [] {
      StepKeepsInv(s, steps[0]);
      StepProgresses(s, steps[0], w);
      if Apply(s, steps[0]).opaques[w] == Deleted {
        DeletedStays(Apply(s, steps[0]), steps[1..], t, w);
      } else {
        DeletedOnce(Apply(s, steps[0]), steps[1..], t, w);
      }
    }
  }

  /** A condemned wrapper keeps the one count of its `varp` until its own timer runs, which
      happens at most once in any run; then the count is zero, the raw handle is let go, and
      it stays so. */
  lemma CondemnedUntilDeleted(s: State, steps: seq<Step>, t: State, w: Id)
    requires Reachable(s) && IsRun(s, steps, t) && w < |s.wrappers| == |s.opaques| && s.opaques[w] == Condemned
    ensures w < |t.wrappers| == |t.opaques| == |t.counts|
    ensures Deletions(steps, w) <= 1
    ensures if Deletions(steps, w) == 0 then t.opaques[w] == Condemned && t.counts[w] == 1
            else t.opaques[w] == Deleted && t.counts[w] == 0 && t.wrappers[w].bevp == None
  {
    hide Inv;
    ReachableInv(s);
    RunKeepsInv(s, steps, t);
    DeletedOnce(s, steps, t, w);
    Pending(t, w);
  }

  // ----- What is ignored is collected -----

  /** The wrapper whose trampoline a step runs. */
  ghost function Served(s: State, step: Step): (w: Id)
    requires InRange(s) && Enabled(s, step) && (step.BeginCallback? || step.EndCallback?)
  {
    if step.BeginCallback? then s.raws[step.raw].trampoline.value else s.frames[|s.frames| - 1].wrapper
  }

  /** When a trampoline has returned, or has found nothing to run, its wrapper is condemned if and
      only if nobody but libevent refers to it any more. Then exactly one deletion is pending, and
      no raw handle can call the wrapper again. */
  lemma IgnoredIsCondemned(s: State, step: Step)
    requires Reachable(s) && Enabled(s, step) && (step.BeginCallback? || step.EndCallback?)
    ensures InRange(s)
    ensures var w, t := Served(s, step), Apply(s, step);
            && w < |t.wrappers| == |t.counts| == |t.opaques|
            && (t.counts[w] == 1 <==> t.opaques[w] == Condemned)
            && (Refs(t)[w] == 0 <==> t.opaques[w] == Condemned)
            && (t.opaques[w] == Condemned ==>
                  && t.pending[w] == 1
                  && forall r | 0 <= r < |t.raws| :: t.raws[r].trampoline != Some(w))
  {
    hide Inv, Apply, Reachable, InRange, Enabled, Refs;
    ReachableInRange(s);
    ReachableInv(s);
    StepKeepsInv(s, step);
    TrampolineCondemns(s, step);
    CondemnedFacts(Apply(s, step), Served(s, step));
  }

  lemma TrampolineCondemns(s: State, step: Step)
    requires Inv(s) && InRange(s) && Enabled(s, step) && (step.BeginCallback? || step.EndCallback?)
    ensures var w, t := Served(s, step), Apply(s, step);
            && w < |t.wrappers| == |t.counts| == |t.opaques|
            && t.opaques[w] == if t.counts[w] == 1 then Condemned else Held
  {
    hide CountsOk, FramesOk, ChainOk, HandlesOk;
    Lengths(s);
    if step.BeginCallback? {
      TrampolineHeld(s.wrappers, s.opaques, s.raws, step.raw);
      CalledIsHeld(s, step.raw);
      hide Inv, Handles, Refs;
      BackupRaises(s, step);
    } else {
      PopFrames(s.frames, s.opaques, |s.raws|);
    }
  }

  /** Copying the closure leaves the count above one. */
  lemma BackupRaises(s: State, step: Step)
    requires InRange(s) && Enabled(s, step) && step.BeginCallback?
    ensures var w, t := Served(s, step), Apply(s, step);
            |t.counts| == |s.counts| && t.counts[w] >= s.counts[w]
  {}

  lemma CondemnedFacts(t: State, w: Id)
    requires Inv(t) && w < |t.wrappers| == |t.opaques|
    ensures w < |t.counts|
    ensures t.opaques[w] != Deleted ==> t.counts[w] == Refs(t)[w] + 1
    ensures t.opaques[w] == Condemned ==>
              t.pending[w] == 1 && forall r | 0 <= r < |t.raws| :: t.raws[r].trampoline != Some(w)
  {
    hide FramesOk, ChainOk, Refs;
  }

  /** And the deletion does free the raw handle that the wrapper still owns: it had not been freed
      before, and it is then. */
  lemma CondemnedIsFreed(t: State, w: Id)
    requires Reachable(t) && w in t.pending
    ensures InRange(t) && w < |t.wrappers| && Enabled(t, LoopTick(w))
    ensures t.wrappers[w].bevp.Some? ==>
              var r := t.wrappers[w].bevp.value;
              r < |t.raws| == |Apply(t, LoopTick(w)).raws| && t.raws[r].frees == 0
              && Apply(t, LoopTick(w)).raws[r].frees == 1 && Apply(t, LoopTick(w)).raws[r].owner == Freed
  {
    hide Inv, Reachable, InRange, FreeRaw;
    ReachableInRange(t);
    ReachableInv(t);
    PendingIsWrapper(t, w);
    Pending(t, w);
    if t.wrappers[w].bevp.Some? {
      DeletedFrees(t, w);
    }
  }

  lemma PendingIsWrapper(t: State, w: Id)
    requires Inv(t) && w in t.pending
    ensures w < |t.wrappers|
  {
    hide Refs, FramesOk, ChainOk, HandlesOk;
  }

  lemma DeletedFrees(t: State, w: Id)
    requires Inv(t) && InRange(t) && w in t.pending && w < |t.wrappers| && t.wrappers[w].bevp.Some?
    ensures var r, t' := t.wrappers[w].bevp.value, Apply(t, LoopTick(w));
            && r < |t.raws| == |t'.raws| && t.raws[r].frees == 0
            && t'.raws[r].frees == 1 && t'.raws[r].owner == Freed
  {
    hide CountsOk, FramesOk, ChainOk, HandlesOk, FreeRaw;
    var r := t.wrappers[w].bevp.value;
    Pending(t, w);
    BevpOwned(t.wrappers, t.opaques, t.raws, w);
    OwnedIsLive(t.raws, r);
    FreesBelow(t.raws, r, r);
    TopIsFreed(t.raws, r);
    hide Inv, InRange;
    assert Apply(t, LoopTick(w)).raws == FreeRaw(t.raws, r);
  }

  lemma OwnedIsLive(raws: seq<Raw>, r: RawId)
    requires ChainOk(raws, None) && r < |raws| && raws[r].owner != Freed
    ensures raws[r].frees == 0
  {}

  lemma TopIsFreed(raws: seq<Raw>, r: RawId)
    requires r < |raws|
    ensures FreeRaw(raws, r)[r].owner == Freed && Below(raws, r, r)
  {
    var raw := raws[r];
    var after := raws[r := raw.(owner := Freed, trampoline := None, frees := raw.frees + 1)];
    if raw.under.Some? && raw.under.value < r {
      FreeRawDown(after, raw.under.value);
    }
  }

  // ----- What runs -----

  /** A trampoline runs the closure in the slot exactly when there is one and somebody besides
      libevent refers to the wrapper; what runs is that closure. */
  lemma CallbackRunsExactlyWhenWanted(s: State, r: RawId, kind: Kind)
    requires Reachable(s) && Enabled(s, Lifetime.BeginCallback(r, kind))
    ensures InRange(s)
    ensures var w, t := s.raws[r].trampoline.value, Apply(s, Lifetime.BeginCallback(r, kind));
            var slot := s.wrappers[w].slots.Of(kind);
            t.frames == if slot.Some? && Refs(s)[w] > 0 then s.frames + [Frame(w, r, slot.value)] else s.frames
  {
    hide Inv, Reachable, Refs, CountsOk, FramesOk, ChainOk, HandlesOk;
    ReachableInRange(s);
    ReachableInv(s);
    CalledIsHeld(s, r);
  }

  lemma CalledIsHeld(s: State, r: RawId)
    requires Inv(s) && r < |s.raws| && s.raws[r].trampoline.Some?
    ensures var w := s.raws[r].trampoline.value;
            w < |s.wrappers| == |s.counts| && s.counts[w] == Refs(s)[w] + 1
  {
    hide Refs;
    TrampolineHeld(s.wrappers, s.opaques, s.raws, r);
  }

  /** A new wrapper can be called by its own raw handle, and the caller holds it. */
  lemma NewCanBeCalled(s: State, kind: Kind)
    requires Reachable(s)
    ensures InRange(s)
    ensures var w, t := |s.wrappers|, Apply(s, New(true));
            && w in t.held && InRange(t) && Enabled(t, Lifetime.BeginCallback(|s.raws|, kind))
            && t.raws[|s.raws|].trampoline == Some(w) && t.wrappers[w].bevp == Some(|s.raws|)
  {
    hide Reachable, Inv, Plus, Minus;
    ReachableInRange(s);
    StaysReachable(s, New(true));
    ReachableInRange(Apply(s, New(true)));
  }

  /** After a steal the filter calls the new wrapper, the stolen handle calls nobody, and the old
      wrapper has neither handle nor closures. */
  lemma StolenIsSilent(s: State, w: Id, closes: bool, kind: Kind)
    requires Reachable(s) && Enabled(s, Steal(w, true, closes))
    ensures InRange(s) && w < |s.wrappers|
    ensures s.wrappers[w].bevp.Some? ==>
              var u, f, v, t := s.wrappers[w].bevp.value, |s.raws|, |s.wrappers|, Apply(s, Steal(w, true, closes));
              && InRange(t) && u < f && !Enabled(t, Lifetime.BeginCallback(u, kind))
              && Enabled(t, Lifetime.BeginCallback(f, kind)) && t.raws[f].trampoline == Some(v)
              && t.raws[f].under == Some(u) && t.raws[f].closesUnder == closes
              && t.wrappers[w] == Wrapper(None, NO_SLOTS) && t.wrappers[v].bevp == Some(f) && v in t.held
  {
    hide Reachable, Inv, Plus, Minus;
    ReachableInRange(s);
    StaysReachable(s, Steal(w, true, closes));
    ReachableInRange(Apply(s, Steal(w, true, closes)));
  }

  /** Copying a handle and dropping the copy are inverse; in between there is one reference more. */
  lemma CopyThenDrop(s: State, w: Id)
    requires Reachable(s) && Enabled(s, AddRef(w))
    ensures InRange(s)
    ensures var t := Apply(s, AddRef(w));
            && InRange(t) && Enabled(t, DropRef(w)) && Apply(t, DropRef(w)) == s
            && Refs(t)[w] == Refs(s)[w] + 1
  {
    hide Reachable, Inv, Refs;
    StaysReachable(s, AddRef(w));
    var t := Apply(s, AddRef(w));
    ReachableInRange(t);
    assert Minus(t.counts, multiset{w}) == s.counts;
    assert t.held - multiset{w} == s.held;
    HoldRefs(s, t);
  }

  /** What setcb stored is what the next trampoline of the wrapper runs. */
  lemma StoredIsRun(s: State, w: Id, slots: Slots, r: RawId, kind: Kind)
    requires Reachable(s) && Enabled(s, SetCb(w, slots))
    requires r < |s.raws| && s.raws[r].trampoline == Some(w) && !InTrampoline(s, w)
    ensures InRange(s)
    ensures var t := Apply(s, SetCb(w, slots));
            && InRange(t) && Enabled(t, Lifetime.BeginCallback(r, kind))
            && (slots.Of(kind).Some? && Refs(t)[w] > 0 ==>
                  Apply(t, Lifetime.BeginCallback(r, kind)).frames == s.frames + [Frame(w, r, slots.Of(kind).value)])
  {
    hide Refs, Reachable, Inv;
    StaysReachable(s, SetCb(w, slots));
    var t := Apply(s, SetCb(w, slots));
    ReachableInRange(t);
    hide InRange;
    CallbackRunsExactlyWhenWanted(t, r, kind);
  }

  // ----- Who frees a raw handle, and when -----

  /** Freeing `top` frees `r`: going down from `top` through closing filters meets `r`. */
  ghost predicate Below(raws: seq<Raw>, r: RawId, top: RawId)
    decreases top
  {
    && top < |raws|
    && (r == top || (raws[top].under.Some? && raws[top].under.value < top && raws[top].closesUnder
                     && Below(raws, r, raws[top].under.value)))
  }

  /** The wrapper that answers for a raw handle, directly or through the filters above it. */
  ghost function Responsible(raws: seq<Raw>, r: RawId): Option<Id>
    decreases |raws| - r
  {
    if r >= |raws| then None
    else match raws[r].owner
      case Wrapped(w) => Some(w)
      case Filtered(f) => if r < f then Responsible(raws, f) else None
      case _ => None
  }

  lemma {:induction false} BelowSame(raws: seq<Raw>, raws': seq<Raw>, r: RawId, top: RawId)
    requires |raws| == |raws'|
    requires forall q | 0 <= q < |raws| :: raws[q].under == raws'[q].under && raws[q].closesUnder == raws'[q].closesUnder
    ensures Below(raws, r, top) == Below(raws', r, top)
    decreases top
  {
    if top < |raws| && raws[top].under.Some? && raws[top].under.value < top {
      BelowSame(raws, raws', r, raws[top].under.value);
    }
  }

  /** bufferevent_free frees exactly the handles below. */
  lemma {:induction false} FreesBelow(raws: seq<Raw>, r: RawId, top: RawId)
    requires r < |raws| && top < |raws|
    ensures FreeRaw(raws, top)[r].frees == raws[r].frees + (if Below(raws, r, top) then 1 else 0)
    decreases top
  {
    var after := Destroyed(raws, top);
    if raws[top].under.Some? && raws[top].under.value < top && raws[top].closesUnder {
      var u := raws[top].under.value;
      FreesBelow(after, r, u);
      BelowSame(raws, after, r, u);
      if r == top {
        BelowIsDown(raws, r, u);
      }
    }
  }

  lemma {:induction false} BelowIsDown(raws: seq<Raw>, r: RawId, top: RawId)
    ensures Below(raws, r, top) ==> r <= top
    decreases top
  {
    if top < |raws| && raws[top].under.Some? && raws[top].under.value < top {
      BelowIsDown(raws, r, raws[top].under.value);
    }
  }

  lemma {:induction false} BelowIsResponsible(raws: seq<Raw>, r: RawId, top: RawId)
    requires ChainOk(raws, None) && Below(raws, r, top) && raws[top].owner != Freed
    ensures r < |raws| && Responsible(raws, r) == Responsible(raws, top)
    ensures raws[r].owner != Freed
    decreases top
  {
    if r != top {
      BelowIsResponsible(raws, r, raws[top].under.value);
    }
  }

  /** A raw handle is freed only by deleting the wrapper responsible for it, when no C++ code
      holds that wrapper and none of its callbacks runs. */
  lemma FreedByItsWrapper(s: State, step: Step, r: RawId)
    requires Reachable(s) && Enabled(s, step) && r < |s.raws|
    ensures InRange(s)
    ensures r < |Apply(s, step).raws| && Apply(s, step).raws[r].frees != s.raws[r].frees ==>
              && step.LoopTick? && Responsible(s.raws, r) == Some(step.wrapper)
              && !InUse(s, step.wrapper)
  {
    hide Inv, Apply, Below, InUse;
    ReachableInRange(s);
    ReachableInv(s);
    if r < |Apply(s, step).raws| && Apply(s, step).raws[r].frees != s.raws[r].frees {
      FreesOnlyAtTick(s, step, r);
      FreedAtTick(s, step.wrapper, r);
    }
  }

  lemma FreedAtTick(s: State, w: Id, r: RawId)
    requires Inv(s) && w in s.pending && w < |s.wrappers| && s.wrappers[w].bevp.Some? && r < |s.raws|
    requires FreeRaw(s.raws, s.wrappers[w].bevp.value)[r].frees != s.raws[r].frees
    ensures Responsible(s.raws, r) == Some(w) && !InUse(s, w)
  {
    hide CountsOk, FramesOk, ChainOk, HandlesOk, FreeRaw;
    Pending(s, w);
    BevpOwned(s.wrappers, s.opaques, s.raws, w);
    var top := s.wrappers[w].bevp.value;
    FreesBelow(s.raws, r, top);
    BelowIsResponsible(s.raws, r, top);
    if InUse(s, w) {
      InUseHeld(s, w);
    }
  }

  lemma FreesOnlyAtTick(s: State, step: Step, r: RawId)
    requires Inv(s) && InRange(s) && Enabled(s, step) && r < |s.raws|
    requires r < |Apply(s, step).raws| && Apply(s, step).raws[r].frees != s.raws[r].frees
    ensures step.LoopTick? && s.wrappers[step.wrapper].bevp.Some?
    ensures Apply(s, step).raws == FreeRaw(s.raws, s.wrappers[step.wrapper].bevp.value)
  {
    hide Inv, FreeRaw;
  }

  // ----- Raw handles with a running callback -----

  ghost predicate RunningRawsLive(s: State) {
    forall i | 0 <= i < |s.frames| :: s.frames[i].raw < |s.raws| && s.raws[s.frames[i].raw].frees == 0
  }

  /** A timer deletes the wrapper of a filter above a raw handle with a running callback. It runs
      inside that callback, so it belongs to another event base, the one the filter was made on,
      whose loop the callback runs: libevent does not re-enter the loop of one base. */
  ghost predicate FreesRunning(s: State, step: Step)
    requires InRange(s) && Enabled(s, step)
  {
    && step.LoopTick? && s.wrappers[step.wrapper].bevp.Some?
    && exists i | 0 <= i < |s.frames| :: Below(s.raws, s.frames[i].raw, s.wrappers[step.wrapper].bevp.value)
  }

  lemma FreeingRunning(frames: seq<Frame>, raws: seq<Raw>, top: RawId)
    requires forall i | 0 <= i < |frames| :: frames[i].raw < |raws| && raws[frames[i].raw].frees == 0
    requires top < |raws|
    ensures (exists i | 0 <= i < |frames| :: Below(raws, frames[i].raw, top)) <==>
            (exists i | 0 <= i < |frames| :: FreeRaw(raws, top)[frames[i].raw].frees != 0)
  {
    hide FreeRaw, Below;
    forall i | 0 <= i < |frames|
      ensures FreeRaw(raws, top)[frames[i].raw].frees == 0 <==> !Below(raws, frames[i].raw, top)
    {
      FreesBelow(raws, frames[i].raw, top);
    }
  }

  lemma TickKeepsRunningRaws(s: State, w: Id)
    requires Inv(s) && InRange(s) && w in s.pending && RunningRawsLive(s)
    ensures RunningRawsLive(Apply(s, LoopTick(w))) <==> !FreesRunning(s, LoopTick(w))
    ensures FreesRunning(s, LoopTick(w)) ==> !InTrampoline(s, w)
  {
    hide CountsOk, FramesOk, ChainOk, HandlesOk, FreeRaw, Below;
    Pending(s, w);
    if InTrampoline(s, w) {
      InUseHeld(s, w);
    }
    if s.wrappers[w].bevp.Some? {
      FreeingRunning(s.frames, s.raws, s.wrappers[w].bevp.value);
    }
  }

  lemma BeginsLive(s: State, r: RawId)
    requires Inv(s) && r < |s.raws| && s.raws[r].trampoline.Some?
    ensures s.raws[r].frees == 0
  {
    hide CountsOk;
  }

  lemma FramesAfter(s: State, step: Step)
    requires InRange(s) && Enabled(s, step)
    ensures forall i | 0 <= i < |Apply(s, step).frames| ::
              || (i < |s.frames| && Apply(s, step).frames[i] == s.frames[i])
              || (step.BeginCallback? && Apply(s, step).frames[i].raw == step.raw)
  {
    hide FreeRaw, Plus, Minus, Accessible, InTrampoline;
    match step
    case EndCallback => assert Apply(s, step).frames == s.frames[..|s.frames| - 1];
    case BeginCallback(_, _) =>
    case _ =>
      hide InRange;
      assert Apply(s, step).frames == s.frames;
  }

  lemma FreesAfter(s: State, step: Step)
    requires Inv(s) && InRange(s) && Enabled(s, step) && !step.LoopTick?
    ensures |s.raws| <= |Apply(s, step).raws|
    ensures forall r | 0 <= r < |s.raws| :: Apply(s, step).raws[r].frees == s.raws[r].frees
  {
    hide Inv, Plus, Minus;
    if step.Steal? {
      hide InRange;
      StealFrees(s, step);
    } else if step.BeginCallback? || step.EndCallback? {
      hide InRange, Apply, AfterCallback;
      TrampolineFrees(s, step);
    } else {
      hide InRange;
    }
  }

  lemma StealFrees(s: State, step: Step)
    requires InRange(s) && Enabled(s, step) && step.Steal?
    ensures |s.raws| <= |Apply(s, step).raws|
    ensures forall r | 0 <= r < |s.raws| :: Apply(s, step).raws[r].frees == s.raws[r].frees
  {
    hide Plus, Minus;
  }

  lemma TrampolineFrees(s: State, step: Step)
    requires InRange(s) && Enabled(s, step) && (step.BeginCallback? || step.EndCallback?)
    ensures |s.raws| == |Apply(s, step).raws|
    ensures forall r | 0 <= r < |s.raws| :: Apply(s, step).raws[r].frees == s.raws[r].frees
  {
    hide Plus, Minus, Accessible, InTrampoline;
  }

  lemma OtherKeepsRunningRaws(s: State, step: Step)
    requires Inv(s) && InRange(s) && Enabled(s, step) && RunningRawsLive(s) && !step.LoopTick?
    ensures RunningRawsLive(Apply(s, step))
  {
    hide Inv, Apply;
    if step.BeginCallback? {
      BeginsLive(s, step.raw);
    }
    FramesAfter(s, step);
    FreesAfter(s, step);
  }

  /** Deferring deletion to a timer protects the raw handle of a running callback exactly as
      long as no callback runs the loop of an event base on which a filter of its handle was
      dropped. */
  lemma StepKeepsRunningRaws(s: State, step: Step)
    requires Inv(s) && Enabled(s, step) && RunningRawsLive(s)
    ensures InRange(s)
    ensures RunningRawsLive(Apply(s, step)) <==> !FreesRunning(s, step)
    ensures FreesRunning(s, step) ==> !InTrampoline(s, step.wrapper)
  {
    hide Inv, RunningRawsLive, InRange;
    InvInRange(s);
    if step.LoopTick? {
      TickKeepsRunningRaws(s, step.wrapper);
    } else {
      OtherKeepsRunningRaws(s, step);
    }
  }

  /** Timers run only from the loop itself, between callbacks. */
  ghost predicate TimersBetweenCallbacks(s: State, steps: seq<Step>)
    decreases |steps|
  {
    steps == [] || !InRange(s) || !Enabled(s, steps[0])
    || ((steps[0].LoopTick? ==> s.frames == []) && TimersBetweenCallbacks(Apply(s, steps[0]), steps[1..]))
  }

  lemma {:induction false} RunKeepsRunningRaws(s: State, steps: seq<Step>, t: State)
    requires Inv(s) && RunningRawsLive(s) && IsRun(s, steps, t) && TimersBetweenCallbacks(s, steps)
    ensures RunningRawsLive(t)
    decreases |steps|
  {
    hide Inv, RunningRawsLive;
    if steps != [] {
      StepKeepsInv(s, steps[0]);
      StepKeepsRunningRaws(s, steps[0]);
      RunKeepsRunningRaws(Apply(s, steps[0]), steps[1..], t);
    }
  }

  /** When timers run only between callbacks, no raw handle is freed during its callback,
      not even one that the callback itself gave to a filter. */
  lemma NotFreedDuringCallback(steps: seq<Step>, t: State)
    requires IsRun(INITIAL, steps, t) && TimersBetweenCallbacks(INITIAL, steps)
    ensures RunningRawsLive(t)
  {
    assert Inv(INITIAL);
    RunKeepsRunningRaws(INITIAL, steps, t);
  }

  /** The states of a run in which a callback gives its own handle to a closing filter on another
      event base, drops the filter and runs the loop of that base. */
  const S1 := State([Wrapper(Some(0), NO_SLOTS)], [2], [Held], [Raw(Wrapped(0), Some(0), None, false, 0)],
                    multiset{0}, [], multiset{})
  const S2 := S1.(wrappers := [Wrapper(Some(0), Slots(None, None, Some([0])))], counts := [3])
  const S3 := S2.(frames := [Frame(0, 0, [0])], counts := [4])
  const S4 := State([Wrapper(None, NO_SLOTS), Wrapper(Some(1), NO_SLOTS)], [3, 2], [Held, Held],
                    [Raw(Filtered(1), None, None, false, 0), Raw(Wrapped(1), Some(1), Some(0), true, 0)],
                    multiset{0, 1}, [Frame(0, 0, [0])], multiset{})
  const S5 := S4.(counts := [3, 1], held := multiset{0})
  const S6 := S5.(opaques := [Held, Condemned], pending := multiset{1},
                  raws := [S4.raws[0], S4.raws[1].(trampoline := None)])

  const NESTED_LOOP: seq<Step> := [
    New(true), SetCb(0, Slots(None, None, Some([0]))), BeginCallback(0, Event),
    Steal(0, true, true), DropRef(1), BeginCallback(1, Event), LoopTick(1)]

  lemma NestedLoopStep0()
    ensures InRange(INITIAL) && Enabled(INITIAL, NESTED_LOOP[0]) && Apply(INITIAL, NESTED_LOOP[0]) == S1
  {
  }

  lemma NestedLoopStep1()
    requires InRange(S1)
    ensures Enabled(S1, NESTED_LOOP[1]) && Apply(S1, NESTED_LOOP[1]) == S2
  {
    hide InRange;
    assert multiset([0]) == multiset{0};
  }

  lemma NestedLoopStep2()
    requires InRange(S2)
    ensures Enabled(S2, NESTED_LOOP[2]) && Apply(S2, NESTED_LOOP[2]) == S3
  {
    hide InRange;
    assert multiset([0]) == multiset{0};
  }

  lemma NestedLoopStep3()
    requires InRange(S3)
    ensures Enabled(S3, NESTED_LOOP[3]) && Apply(S3, NESTED_LOOP[3]) == S4
  {
    hide InRange;
    assert multiset([0]) == multiset{0};
  }

  lemma NestedLoopStep4()
    requires InRange(S4)
    ensures Enabled(S4, NESTED_LOOP[4]) && Apply(S4, NESTED_LOOP[4]) == S5
  {
    hide InRange;
    assert S4.held - multiset{1} == multiset{0};
  }

  lemma NestedLoopStep5()
    requires InRange(S5)
    ensures Enabled(S5, NESTED_LOOP[5]) && Apply(S5, NESTED_LOOP[5]) == S6
  {
    hide InRange;
  }

  lemma NestedLoopStep6()
    requires InRange(S6)
    ensures Enabled(S6, NESTED_LOOP[6])
    ensures !RunningRawsLive(Apply(S6, NESTED_LOOP[6]))
  {
    hide InRange;
    var t := Apply(S6, NESTED_LOOP[6]);
    assert Below(S6.raws, 0, 0) && Below(S6.raws, 0, 1);
    FreesBelow(S6.raws, 0, 1);
    assert t.raws == FreeRaw(S6.raws, 1);
    assert t.frames[0].raw == 0;
  }

  /** The condition is needed: in this run the handle is freed under its own callback. */
  lemma NestedLoopFreesRunning()
    ensures exists t :: IsRun(INITIAL, NESTED_LOOP, t) && !RunningRawsLive(t)
  {
    hide Inv, InRange, Enabled, Apply, RunningRawsLive, Reachable;
    NestedLoopIsReachable();
    NestedLoopStep6();
    var t := Apply(S6, NESTED_LOOP[6]);
    IsRunStep(S6, NESTED_LOOP[6], [], t);
    hide IsRun;
    NestedLoopStep5();
    IsRunStep(S5, NESTED_LOOP[5], NESTED_LOOP[6..], t);
    NestedLoopStep4();
    IsRunStep(S4, NESTED_LOOP[4], NESTED_LOOP[5..], t);
    NestedLoopStep3();
    IsRunStep(S3, NESTED_LOOP[3], NESTED_LOOP[4..], t);
    NestedLoopStep2();
    IsRunStep(S2, NESTED_LOOP[2], NESTED_LOOP[3..], t);
    NestedLoopStep1();
    IsRunStep(S1, NESTED_LOOP[1], NESTED_LOOP[2..], t);
    NestedLoopStep0();
    IsRunStep(INITIAL, NESTED_LOOP[0], NESTED_LOOP[1..], t);
  }

  lemma NestedLoopIsReachable()
    ensures Reachable(S6)
    ensures InRange(S1) && InRange(S2) && InRange(S3) && InRange(S4) && InRange(S5) && InRange(S6)
  {
    assert IsRun(INITIAL, [], INITIAL);
    assert Reachable(INITIAL);
    hide InRange, Enabled, Apply, Reachable, IsRun;
    NestedLoopStep0();
    StaysReachable(INITIAL, NESTED_LOOP[0]);
    ReachableInRange(S1);
    NestedLoopStep1();
    StaysReachable(S1, NESTED_LOOP[1]);
    ReachableInRange(S2);
    NestedLoopStep2();
    StaysReachable(S2, NESTED_LOOP[2]);
    ReachableInRange(S3);
    NestedLoopStep3();
    StaysReachable(S3, NESTED_LOOP[3]);
    ReachableInRange(S4);
    NestedLoopStep4();
    StaysReachable(S4, NESTED_LOOP[4]);
    ReachableInRange(S5);
    NestedLoopStep5();
    StaysReachable(S5, NESTED_LOOP[5]);
    ReachableInRange(S6);
  }

  lemma IsRunStep(s: State, step: Step, more: seq<Step>, t: State)
    requires InRange(s) && Enabled(s, step) && IsRun(Apply(s, step), more, t)
    ensures IsRun(s, [step] + more, t)
  {
    assert ([step] + more)[1..] == more;
  }
}
