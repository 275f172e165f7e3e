/** The lifetime protocol of Bufferevent wrappers. A wrapper is reference counted: one
    count belongs to the `varp` that libevent holds as opaque pointer, the others to C++
    variables, to the closures stored in callback slots, and to the copy of a closure that
    Func keeps while it runs. A wrapper that C++ ignores is condemned when a trampoline
    returns, and deleted by a timer. An SSL filter steals the raw handle of its underlying
    wrapper. This file gives the state machine; LifetimeProofs.dfy proves it safe. */
module Lifetime {
  import opened Options

  /** Wrappers (with their control blocks) and raw bufferevents, numbered as they are made. */
  type Id = nat
  type RawId = nat

  /** A stored closure, seen as the handles its capture list copied. */
  type Closure = seq<Id>

  datatype Kind = Read | Write | Event

  datatype Slots = Slots(read: Option<Closure>, write: Option<Closure>, event: Option<Closure>) {
    function Of(kind: Kind): Option<Closure> {
      match kind
      case Read => read
      case Write => write
      case Event => event
    }

    /** The references the three closures hold. */
    function Refs(): multiset<Id> {
      Handles(read) + Handles(write) + Handles(event)
    }
  }

  function Handles(c: Option<Closure>): multiset<Id> {
    if c.None? then multiset{} else multiset(c.value)
  }

  const NO_SLOTS := Slots(None, None, None)

  /** The C++ object. `bevp` is null once the raw handle was stolen or destroyed. */
  datatype Wrapper = Wrapper(bevp: Option<RawId>, slots: Slots)

  /** The `varp` made by socket_new and openssl_filter_new. */
  datatype Opaque = Held | Condemned | Deleted

  datatype Owner = Wrapped(wrapper: Id) | Filtered(filter: RawId) | Orphan | Freed

  /** A libevent bufferevent. `trampoline` is the opaque pointer of the callbacks installed on
      it, if they are ours; `frees` counts the calls of its destructor. */
  datatype Raw = Raw(owner: Owner, trampoline: Option<Id>, under: Option<RawId>, closesUnder: bool, frees: nat)

  /** A trampoline on the stack, with the backup copy of the closure it runs. */
  datatype Frame = Frame(wrapper: Id, raw: RawId, backup: Closure)

  datatype State = State(
    wrappers: seq<Wrapper>,
    counts: seq<int>,
    opaques: seq<Opaque>,
    raws: seq<Raw>,
    held: multiset<Id>,
    frames: seq<Frame>,
    pending: multiset<Id>)

  const INITIAL := State([], [], [], [], multiset{}, [], multiset{})

  datatype Step =
    | New(ok: bool)
    | Steal(wrapper: Id, ok: bool, closesUnder: bool)
    | AddRef(wrapper: Id)
    | DropRef(wrapper: Id)
    | SetCb(wrapper: Id, slots: Slots)
    | BeginCallback(raw: RawId, kind: Kind)
    | EndCallback
    | LoopTick(wrapper: Id)

  /** The control blocks after copying, or destroying, the given handles. */
  function Plus(counts: seq<int>, handles: multiset<Id>): (r: seq<int>)
    ensures |r| == |counts|
    ensures forall w | 0 <= w < |counts| :: r[w] == counts[w] + handles[w]
  {
    seq(|counts|, w requires 0 <= w < |counts| => counts[w] + handles[w])
  }

  function Minus(counts: seq<int>, handles: multiset<Id>): (r: seq<int>)
    ensures |r| == |counts|
    ensures forall w | 0 <= w < |counts| :: r[w] == counts[w] - handles[w]
  {
    seq(|counts|, w requires 0 <= w < |counts| => counts[w] - handles[w])
  }

  /** bufferevent_free. A filter made with BEV_OPT_CLOSE_ON_FREE frees what it took;
      another one lets go of it. */
  function FreeRaw(raws: seq<Raw>, r: RawId): (after: seq<Raw>)
    ensures |after| == |raws|
    decreases r
  {
    if r < |raws| then
      var raw := raws[r];
      var after := raws[r := raw.(owner := Freed, trampoline := None, frees := raw.frees + 1)];
      if raw.under.Some? && raw.under.value < r then
        var u := raw.under.value;
        if raw.closesUnder then FreeRaw(after, u) else after[u := after[u].(owner := Orphan)]
      else after
    else raws
  }

  /** Code can use a handle if a variable holds it or a running closure captured it. */
  ghost predicate Accessible(s: State, w: Id) {
    w in s.held || exists i | 0 <= i < |s.frames| :: w in s.frames[i].backup
  }

  ghost predicate InTrampoline(s: State, w: Id) {
    exists i | 0 <= i < |s.frames| :: s.frames[i].wrapper == w
  }

  ghost predicate Enabled(s: State, step: Step) {
    match step
    case New(_) => true
    case Steal(w, _, _) => Accessible(s, w)
    case AddRef(w) => Accessible(s, w)
    case DropRef(w) => w in s.held
    case SetCb(w, slots) => Accessible(s, w) && forall h | h in slots.Refs() :: Accessible(s, h)
    case BeginCallback(r, _) =>
      r < |s.raws| && s.raws[r].trampoline.Some? && !InTrampoline(s, s.raws[r].trampoline.value)
    case EndCallback => s.frames != []
    case LoopTick(w) => w in s.pending
  }

  /** The state has room for every identifier in it. */
  ghost predicate InRange(s: State) {
    && |s.counts| == |s.opaques| == |s.wrappers|
    && (forall w | w in s.held || w in s.pending :: w < |s.wrappers|)
    && (forall w | 0 <= w < |s.wrappers| && s.wrappers[w].bevp.Some? :: s.wrappers[w].bevp.value < |s.raws|)
    && (forall r | 0 <= r < |s.raws| && s.raws[r].trampoline.Some? :: s.raws[r].trampoline.value < |s.wrappers|)
    && (forall i | 0 <= i < |s.frames| ::
          s.frames[i].wrapper < |s.wrappers| && s.frames[i].raw < |s.raws|
          && forall h | h in s.frames[i].backup :: h < |s.wrappers|)
  }

  /** What is_ignored_by_cxx does when the trampoline finds the handle unique: no more
      callbacks, and deletion at the next timer. */
  function AfterCallback(s: State, w: Id): State
    requires InRange(s) && w < |s.wrappers|
  {
    if s.counts[w] != 1 then s
    else
      var raws :=
        match s.wrappers[w].bevp
        case None => s.raws
        case Some(r) => s.raws[r := s.raws[r].(trampoline := None)];
      s.(raws := raws, opaques := s.opaques[w := Condemned], pending := s.pending + multiset{w})
  }

  /** A new wrapper around a new raw handle: one count for `varp`, one for the returned copy. */
  function Wrap(s: State, raw: Raw): State
  {
    s.(wrappers := s.wrappers + [Wrapper(Some(|s.raws|), NO_SLOTS)],
       counts := s.counts + [2],
       opaques := s.opaques + [Held],
       raws := s.raws + [raw],
       held := s.held + multiset{|s.wrappers|})
  }

  function Apply(s: State, step: Step): State
    requires InRange(s) && Enabled(s, step)
  {
    match step
    case New(ok) =>
      if !ok then s else Wrap(s, Raw(Wrapped(|s.wrappers|), Some(|s.wrappers|), None, false, 0))
    case Steal(w, ok, closes) =>
      if !ok || s.wrappers[w].bevp.None? then s
      else
        var u := s.wrappers[w].bevp.value;
        var s1 := s.(
          raws := s.raws[u := s.raws[u].(owner := Filtered(|s.raws|), trampoline := None)],
          wrappers := s.wrappers[w := Wrapper(None, NO_SLOTS)],
          counts := Minus(s.counts, s.wrappers[w].slots.Refs()));
        Wrap(s1, Raw(Wrapped(|s.wrappers|), Some(|s.wrappers|), Some(u), closes, 0))
    case AddRef(w) =>
      s.(held := s.held + multiset{w}, counts := Plus(s.counts, multiset{w}))
    case DropRef(w) =>
      s.(held := s.held - multiset{w}, counts := Minus(s.counts, multiset{w}))
    case SetCb(w, slots) =>
      s.(wrappers := s.wrappers[w := s.wrappers[w].(slots := slots)],
         counts := Minus(Plus(s.counts, slots.Refs()), s.wrappers[w].slots.Refs()))
    case BeginCallback(r, kind) =>
      var w := s.raws[r].trampoline.value;
      var slot := s.wrappers[w].slots.Of(kind);
      if s.counts[w] != 1 && slot.Some? then
        s.(frames := s.frames + [Frame(w, r, slot.value)], counts := Plus(s.counts, multiset(slot.value)))
      else AfterCallback(s, w)
    case EndCallback =>
      var top := s.frames[|s.frames| - 1];
      var s1 := s.(frames := s.frames[..|s.frames| - 1], counts := Minus(s.counts, multiset(top.backup)));
      AfterCallback(s1, top.wrapper)
    case LoopTick(w) =>
      var s1 := s.(pending := s.pending - multiset{w}, opaques := s.opaques[w := Deleted],
                   counts := Minus(s.counts, multiset{w}));
      if s1.counts[w] != 0 then s1
      else
        s1.(wrappers := s.wrappers[w := Wrapper(None, NO_SLOTS)],
            counts := Minus(s1.counts, s.wrappers[w].slots.Refs()),
            raws := if s.wrappers[w].bevp.Some? then FreeRaw(s.raws, s.wrappers[w].bevp.value) else s.raws)
  }
}
