// src/lwip/socket.py, `Socket.__init__` and `Socket.close`: who owns a socket
// number. All threads of the process interleave over this state; `close` is
// split into its three micro-steps.
module Lifecycle {

  // ---- the stack ----------------------------------------------------------

  // Each allocation of a number gets a fresh generation, so that two allocations
  // of the same number can be told apart. `open` maps a number in use to its
  // generation. `log` records every call of lwip_close: the generation the
  // caller meant to close and the one that held the number at that moment.
  datatype Found = Nobody | Allocation(gen: nat)
  datatype Attempt = Attempt(meant: nat, fd: int, found: Found)
  datatype Fds = Fds(open: map<int, nat>, log: seq<Attempt>, issued: nat)

  function Lookup(f: Fds, fd: int): Found {
    if fd in f.open then Allocation(f.open[fd]) else Nobody
  }

  // lwip_socket or lwip_accept hands out `fd`.
  function Issue(f: Fds, fd: int): Fds {
    f.(open := f.open[fd := f.issued], issued := f.issued + 1)
  }

  // lwip_close(fd), called on behalf of generation `meant`. It may fail and then
  // keep the number in use.
  function Strike(f: Fds, meant: nat, fd: int, releases: bool): Fds {
    f.(open := if releases then f.open - {fd} else f.open,
       log := f.log + [Attempt(meant, fd, Lookup(f, fd))])
  }

  // How often lwip_close was called on behalf of generation g.
  function Tried(log: seq<Attempt>, g: nat): nat {
    if log == [] then 0
    else Tried(log[..|log|-1], g) + if log[|log|-1].meant == g then 1 else 0
  }

  lemma TriedMore(log: seq<Attempt>, a: Attempt, g: nat)
    ensures Tried(log + [a], g) == Tried(log, g) + if a.meant == g then 1 else 0
  {
    assert (log + [a])[..|log|] == log;
  }

  // ---- one socket ---------------------------------------------------------

  // weakref.finalize: it can be called at most once and can be detached.
  datatype Finalizer = Armed(fd: int) | Fired | Detached

  // Where a thread stands inside close(), if one is inside it.
  datatype Pc =
    | Outside
    | Called      // lwip_close has returned or raised, or was never reached
    | Cleared     // `_s` is -1, the finalizer is not yet detached
    | Collected

  // What became of one allocation. `InFlight` is a number returned by lwIP and not
  // yet wrapped; it is `Lost` when the wrapper raises instead of returning it.
  // `reached` records that close() got as far as calling lwip_close.
  datatype Slot =
    | InFlight(fd: int)
    | Lost(fd: int)
    | Wrapped(s: int, fin: Finalizer, pc: Pc, reached: bool)

  // Releases, Keeps: lwip_close is called and frees the number or not. NotCalled:
  // the wrapper raised before the call (a warning turned into an exception).
  datatype How = Releases | Keeps | NotCalled

  function NewSlot(fd: int): Slot {
    Wrapped(fd, Armed(fd), Outside, false)
  }

  function SlotCall(k: Slot, how: How): Slot
    requires k.Wrapped?
  {
    k.(pc := Called, reached := k.reached || how != NotCalled)
  }

  function SlotClear(k: Slot): Slot
    requires k.Wrapped?
  {
    k.(s := -1, pc := Cleared)
  }

  function SlotDetach(k: Slot): Slot
    requires k.Wrapped?
  {
    k.(fin := if k.fin.Armed? then Detached else k.fin, pc := Outside)
  }

  function CloseEffect(f: Fds, g: nat, fd: int, how: How): Fds {
    if how == NotCalled then f else Strike(f, g, fd, how == Releases)
  }

  // ---- the process --------------------------------------------------------

  // slots[g] is what became of generation g.
  datatype State = State(fds: Fds, slots: seq<Slot>, exiting: bool)

  const INIT := State(Fds(map[], [], 0), [], false)

  datatype Step =
    | Create(fd: int)                      // lwIP returns a new number to a thread
    | Construct(g: nat)                    // that thread runs Socket.__init__
    | Lose(g: nat)                         // errno was set and warnings are errors
    | CallClose(g: nat, how: How)         // the three micro-steps of close()
    | Clear(g: nat)
    | DetachFinalizer(g: nat)
    | Collect(g: nat, releases: bool)      // the object is garbage collected
    | Exit                                 // the interpreter starts its exit handlers
    | FireAtExit(g: nat, releases: bool)   // one of them runs a live finalizer

  predicate Enabled(st: State, step: Step) {
    match step
    case Create(fd) => fd >= 0 && fd !in st.fds.open
    case Construct(g) => g < |st.slots| && st.slots[g].InFlight?
    case Lose(g) => g < |st.slots| && st.slots[g].InFlight?
    case CallClose(g, _) => g < |st.slots| && st.slots[g].Wrapped? && st.slots[g].pc == Outside && st.slots[g].s >= 0
    case Clear(g) => g < |st.slots| && st.slots[g].Wrapped? && st.slots[g].pc == Called
    case DetachFinalizer(g) => g < |st.slots| && st.slots[g].Wrapped? && st.slots[g].pc == Cleared
    // an object is not collected while a close() frame refers to it
    case Collect(g, _) => g < |st.slots| && st.slots[g].Wrapped? && st.slots[g].pc == Outside
    case Exit => true
    // exit handlers do not wait for daemon threads, wherever these stand
    case FireAtExit(g, _) => st.exiting && g < |st.slots| && st.slots[g].Wrapped? && st.slots[g].fin.Armed?
  }

  function Apply(st: State, step: Step): State
    requires Enabled(st, step)
  {
    match step
    case Create(fd) => st.(fds := Issue(st.fds, fd), slots := st.slots + [InFlight(fd)])
    case Construct(g) => st.(slots := st.slots[g := NewSlot(st.slots[g].fd)])
    case Lose(g) => st.(slots := st.slots[g := Lost(st.slots[g].fd)])
    case CallClose(g, how) =>
      st.(fds := CloseEffect(st.fds, g, st.slots[g].s, how), slots := st.slots[g := SlotCall(st.slots[g], how)])
    case Clear(g) => st.(slots := st.slots[g := SlotClear(st.slots[g])])
    case DetachFinalizer(g) => st.(slots := st.slots[g := SlotDetach(st.slots[g])])
    case Collect(g, releases) =>
      var k := st.slots[g];
      if k.fin.Armed? then
        State(Strike(st.fds, g, k.fin.fd, releases), st.slots[g := k.(fin := Fired, pc := Collected)], st.exiting)
      else st.(slots := st.slots[g := k.(pc := Collected)])
    case Exit => st.(exiting := true)
    case FireAtExit(g, releases) =>
      var k := st.slots[g];
      st.(fds := Strike(st.fds, g, k.fin.fd, releases), slots := st.slots[g := k.(fin := Fired)])
  }

  predicate CanRun(st: State, steps: seq<Step>)
    decreases steps
  {
    steps == [] || (Enabled(st, steps[0]) && CanRun(Apply(st, steps[0]), steps[1..]))
  }

  function After(st: State, steps: seq<Step>): State
    requires CanRun(st, steps)
    decreases steps
  {
    if steps == [] then st else After(Apply(st, steps[0]), steps[1..])
  }

  // The two ways in which exit and close() can meet on one socket: an exit handler
  // runs its finalizer after close() has called lwip_close and before close() has
  // detached it, or close() starts after the exit handler ran.
  predicate Overlaps(st: State, step: Step)
    requires Enabled(st, step)
  {
    match step
    case FireAtExit(g, _) => st.slots[g].pc != Outside && st.slots[g].reached
    case CallClose(g, how) => st.slots[g].fin == Fired && how != NotCalled
    case _ => false
  }

  predicate Clean(st: State, steps: seq<Step>)
    requires CanRun(st, steps)
    decreases steps
  {
    steps == [] || (!Overlaps(st, steps[0]) && Clean(Apply(st, steps[0]), steps[1..]))
  }

  // ---- invariants ---------------------------------------------------------

  function Count(b: bool): nat { if b then 1 else 0 }

  // What holds of one allocation in every reachable state, whatever overlaps;
  // `tries` is how often lwip_close was called for it.
  predicate SlotOk(k: Slot, tries: nat) {
    match k
    case InFlight(fd) => fd >= 0 && tries == 0
    case Lost(fd) => fd >= 0 && tries == 0
    case Wrapped(s, fin, pc, reached) =>
      && s >= -1
      && (pc == Called ==> s >= 0)
      && (pc == Cleared ==> s == -1)
      && (fin.Armed? ==> fin.fd >= 0 && pc != Collected && (s == -1 <==> pc == Cleared) && (s >= 0 ==> s == fin.fd))
      && (fin == Detached ==> s == -1 && (pc == Outside || pc == Collected))
      && (pc != Called && s >= 0 ==> !reached)
      && (fin.Armed? && pc == Outside ==> !reached)
      && tries == Count(reached) + Count(fin == Fired)
  }

  ghost predicate FdsOk(f: Fds) {
    && (forall i :: 0 <= i < |f.log| ==> f.log[i].meant < f.issued)
    && (forall fd :: fd in f.open ==> fd >= 0 && f.open[fd] < f.issued)
    && (forall a, b :: a in f.open && b in f.open && f.open[a] == f.open[b] ==> a == b)
  }

  ghost predicate Inv(st: State) {
    && |st.slots| == st.fds.issued
    && FdsOk(st.fds)
    && (forall g :: 0 <= g < |st.slots| ==> SlotOk(st.slots[g], Tried(st.fds.log, g)))
  }

  lemma {:induction false} TriedZero(log: seq<Attempt>, g: nat)
    requires forall i :: 0 <= i < |log| ==> log[i].meant != g
    ensures Tried(log, g) == 0
  {
    if log != [] { TriedZero(log[..|log|-1], g); }
  }

  lemma StrikeKeepsFdsOk(f: Fds, g: nat, fd: int, releases: bool)
    requires FdsOk(f) && g < f.issued
    ensures FdsOk(Strike(f, g, fd, releases))
    ensures forall h: nat :: Tried(Strike(f, g, fd, releases).log, h) == Tried(f.log, h) + Count(h == g)
  {
    forall h: nat { TriedMore(f.log, Attempt(g, fd, Lookup(f, fd)), h); }
  }

  // A step that changes one slot, and the stack on behalf of that slot only.
  lemma ChangeOneSlot(st: State, st': State, g: nat)
    requires Inv(st) && g < |st.slots| && FdsOk(st'.fds) && st'.fds.issued == st.fds.issued
    requires |st'.slots| == |st.slots| && st'.slots == st.slots[g := st'.slots[g]]
    requires forall h: nat :: h != g ==> Tried(st'.fds.log, h) == Tried(st.fds.log, h)
    requires SlotOk(st'.slots[g], Tried(st'.fds.log, g))
    ensures Inv(st')
  {
    forall h | 0 <= h < |st'.slots| ensures SlotOk(st'.slots[h], Tried(st'.fds.log, h)) {
      if h != g { assert SlotOk(st.slots[h], Tried(st.fds.log, h)); }
    }
  }

  lemma CreateKeepsInv(st: State, fd: int)
    requires Inv(st) && Enabled(st, Create(fd))
    ensures Inv(Apply(st, Create(fd)))
  {
    TriedZero(st.fds.log, st.fds.issued);
    var st' := Apply(st, Create(fd));
    forall g | 0 <= g < |st'.slots| ensures SlotOk(st'.slots[g], Tried(st'.fds.log, g)) {
      if g < |st.slots| { assert SlotOk(st.slots[g], Tried(st.fds.log, g)); }
    }
  }

  // lwip_close on behalf of one slot.
  lemma StrikeOneSlot(st: State, st': State, g: nat, fd: int, releases: bool)
    requires Inv(st) && g < |st.slots| && st'.fds == Strike(st.fds, g, fd, releases)
    requires |st'.slots| == |st.slots| && st'.slots == st.slots[g := st'.slots[g]]
    requires SlotOk(st'.slots[g], Tried(st.fds.log, g) + 1)
    ensures Inv(st')
  {
    StrikeKeepsFdsOk(st.fds, g, fd, releases);
    ChangeOneSlot(st, st', g);
  }

  lemma CollectKeepsInv(st: State, g: nat, releases: bool)
    requires Inv(st) && Enabled(st, Collect(g, releases))
    ensures Inv(Apply(st, Collect(g, releases)))
  {
    var st', k := Apply(st, Collect(g, releases)), st.slots[g];
    assert SlotOk(k, Tried(st.fds.log, g));
    if k.fin.Armed? {
      StrikeOneSlot(st, st', g, k.fin.fd, releases);
    } else {
      ChangeOneSlot(st, st', g);
    }
  }

  lemma FireKeepsInv(st: State, g: nat, releases: bool)
    requires Inv(st) && Enabled(st, FireAtExit(g, releases))
    ensures Inv(Apply(st, FireAtExit(g, releases)))
  {
    var st', k := Apply(st, FireAtExit(g, releases)), st.slots[g];
    assert SlotOk(k, Tried(st.fds.log, g));
    StrikeOneSlot(st, st', g, k.fin.fd, releases);
  }

  lemma CallCloseKeepsInv(st: State, g: nat, how: How)
    requires Inv(st) && Enabled(st, CallClose(g, how))
    ensures Inv(Apply(st, CallClose(g, how)))
  {
    var st', k := Apply(st, CallClose(g, how)), st.slots[g];
    assert SlotOk(k, Tried(st.fds.log, g));
    if how == NotCalled {
      ChangeOneSlot(st, st', g);
    } else {
      StrikeOneSlot(st, st', g, k.s, how == Releases);
    }
  }

  // A step of one thread for one socket that calls nothing.
  predicate IsLocal(step: Step) {
    step.Construct? || step.Lose? || step.Clear? || step.DetachFinalizer?
  }

  lemma LocalKeepsInv(st: State, step: Step)
    requires Inv(st) && Enabled(st, step) && IsLocal(step)
    ensures Inv(Apply(st, step))
  {
    assert SlotOk(st.slots[step.g], Tried(st.fds.log, step.g));
    ChangeOneSlot(st, Apply(st, step), step.g);
  }

  lemma StepKeepsInv(st: State, step: Step)
    requires Inv(st) && Enabled(st, step)
    ensures Inv(Apply(st, step))
  {
    match step
    case Create(fd) => CreateKeepsInv(st, fd);
    case CallClose(g, how) => CallCloseKeepsInv(st, g, how);
    case Collect(g, releases) => CollectKeepsInv(st, g, releases);
    case FireAtExit(g, releases) => FireKeepsInv(st, g, releases);
    case Exit =>
    case _ => LocalKeepsInv(st, step);
  }

  lemma {:induction false} RunKeepsInv(st: State, steps: seq<Step>)
    requires Inv(st) && CanRun(st, steps)
    ensures Inv(After(st, steps))
    decreases steps
  {
    if steps != [] {
      StepKeepsInv(st, steps[0]);
      RunKeepsInv(Apply(st, steps[0]), steps[1..]);
    }
  }

  // ---- at most one lwip_close per allocation ------------------------------

  ghost predicate NoDouble(st: State) {
    forall g :: 0 <= g < |st.slots| && st.slots[g].Wrapped? ==> !(st.slots[g].reached && st.slots[g].fin == Fired)
  }

  lemma StepDoublesIffOverlap(st: State, step: Step)
    requires Inv(st) && Enabled(st, step)
    ensures NoDouble(Apply(st, step)) <==> NoDouble(st) && !Overlaps(st, step)
  {
    var st' := Apply(st, step);
    if step.FireAtExit? || step.CallClose? { assert SlotOk(st.slots[step.g], Tried(st.fds.log, step.g)); }
    if NoDouble(st) && !Overlaps(st, step) {
      assert NoDouble(st');
    } else if Overlaps(st, step) {
      assert st'.slots[step.g].reached && st'.slots[step.g].fin == Fired;
    } else {
      var g :| 0 <= g < |st.slots| && st.slots[g].Wrapped? && st.slots[g].reached && st.slots[g].fin == Fired;
      assert st'.slots[g].Wrapped? && st'.slots[g].reached && st'.slots[g].fin == Fired;
    }
  }

  lemma {:induction false} RunDoublesIffOverlap(st: State, steps: seq<Step>)
    requires Inv(st) && CanRun(st, steps)
    ensures NoDouble(After(st, steps)) <==> NoDouble(st) && Clean(st, steps)
    decreases steps
  {
    if steps != [] {
      StepKeepsInv(st, steps[0]);
      StepDoublesIffOverlap(st, steps[0]);
      RunDoublesIffOverlap(Apply(st, steps[0]), steps[1..]);
    }
  }

  // ---- the same, read off the schedule ------------------------------------

  predicate CallsClose(step: Step, g: nat) {
    step.CallClose? && step.g == g && step.how != NotCalled
  }

  predicate FiresAtExit(step: Step, g: nat) {
    step.FireAtExit? && step.g == g
  }

  ghost predicate SomeCallsClose(steps: seq<Step>, g: nat) {
    exists i :: 0 <= i < |steps| && CallsClose(steps[i], g)
  }

  ghost predicate SomeFiresAtExit(steps: seq<Step>, g: nat) {
    exists i :: 0 <= i < |steps| && FiresAtExit(steps[i], g)
  }

  // No socket is both given to lwip_close by its close() and finalized by an exit
  // handler, in whichever order.
  ghost predicate Apart(steps: seq<Step>) {
    forall g: nat :: !(SomeCallsClose(steps, g) && SomeFiresAtExit(steps, g))
  }

  predicate Reached(st: State, g: nat) {
    g < |st.slots| && st.slots[g].Wrapped? && st.slots[g].reached
  }

  predicate HasFired(st: State, g: nat) {
    g < |st.slots| && st.slots[g].Wrapped? && st.slots[g].fin == Fired
  }

  lemma SomeCons(steps: seq<Step>, g: nat)
    requires steps != []
    ensures SomeCallsClose(steps, g) <==> CallsClose(steps[0], g) || SomeCallsClose(steps[1..], g)
    ensures SomeFiresAtExit(steps, g) <==> FiresAtExit(steps[0], g) || SomeFiresAtExit(steps[1..], g)
  {
    if SomeCallsClose(steps[1..], g) {
      var i :| 0 <= i < |steps[1..]| && CallsClose(steps[1..][i], g);
      assert CallsClose(steps[i+1], g);
    }
    if SomeCallsClose(steps, g) && !CallsClose(steps[0], g) {
      var i :| 0 <= i < |steps| && CallsClose(steps[i], g);
      assert CallsClose(steps[1..][i-1], g);
    }
    if SomeFiresAtExit(steps[1..], g) {
      var i :| 0 <= i < |steps[1..]| && FiresAtExit(steps[1..][i], g);
      assert FiresAtExit(steps[i+1], g);
    }
    if SomeFiresAtExit(steps, g) && !FiresAtExit(steps[0], g) {
      var i :| 0 <= i < |steps| && FiresAtExit(steps[i], g);
      assert FiresAtExit(steps[1..][i-1], g);
    }
  }

  // close() got to lwip_close exactly if the schedule says so.
  lemma {:induction false} ReachedIff(st: State, steps: seq<Step>, g: nat)
    requires CanRun(st, steps)
    ensures Reached(After(st, steps), g) <==> Reached(st, g) || SomeCallsClose(steps, g)
    decreases steps
  {
    if steps != [] {
      SomeCons(steps, g);
      ReachedIff(Apply(st, steps[0]), steps[1..], g);
    }
  }

  // A finalizer that ran without the collector was run at exit. One that the collector
  // ran belongs to a socket that nobody closed or will close.
  lemma {:induction false} FiredIff(st: State, steps: seq<Step>, g: nat)
    requires Inv(st) && CanRun(st, steps)
    ensures HasFired(st, g) || SomeFiresAtExit(steps, g) ==> HasFired(After(st, steps), g)
    ensures HasFired(After(st, steps), g) && Reached(After(st, steps), g) ==>
              HasFired(st, g) || SomeFiresAtExit(steps, g)
    decreases steps
  {
    if steps != [] {
      var st' := Apply(st, steps[0]);
      StepKeepsInv(st, steps[0]);
      SomeCons(steps, g);
      StepFires(st, steps[0], g);
      FiredIff(st', steps[1..], g);
      if IsCollected(st', g) { CollectedIsFinal(st', steps[1..], g); }
    }
  }

  predicate IsCollected(st: State, g: nat) {
    g < |st.slots| && st.slots[g].Wrapped? && st.slots[g].pc == Collected
  }

  lemma StepFires(st: State, step: Step, g: nat)
    requires Inv(st) && Enabled(st, step)
    ensures HasFired(st, g) || FiresAtExit(step, g) ==> HasFired(Apply(st, step), g)
    ensures HasFired(Apply(st, step), g) ==>
              || HasFired(st, g) || FiresAtExit(step, g)
              || (IsCollected(Apply(st, step), g) && !Reached(Apply(st, step), g))
  {
    if g < |st.slots| { assert SlotOk(st.slots[g], Tried(st.fds.log, g)); }
  }

  lemma {:induction false} CollectedIsFinal(st: State, steps: seq<Step>, g: nat)
    requires Inv(st) && CanRun(st, steps) && IsCollected(st, g)
    ensures g < |After(st, steps).slots| && After(st, steps).slots[g] == st.slots[g]
    decreases steps
  {
    if steps != [] {
      assert SlotOk(st.slots[g], Tried(st.fds.log, g));
      StepKeepsInv(st, steps[0]);
      CollectedIsFinal(Apply(st, steps[0]), steps[1..], g);
    }
  }

  lemma CleanIffApart(steps: seq<Step>)
    requires CanRun(INIT, steps)
    ensures Clean(INIT, steps) <==> Apart(steps)
  {
    var st := After(INIT, steps);
    RunDoublesIffOverlap(INIT, steps);
    forall g: nat ensures Reached(st, g) && HasFired(st, g) <==> SomeCallsClose(steps, g) && SomeFiresAtExit(steps, g) {
      ReachedIff(INIT, steps, g);
      FiredIff(INIT, steps, g);
    }
    if !NoDouble(st) {
      var g :| 0 <= g < |st.slots| && st.slots[g].Wrapped? && st.slots[g].reached && st.slots[g].fin == Fired;
      assert Reached(st, g) && HasFired(st, g);
    }
  }

  // Over every run: each allocation gets at most one lwip_close exactly when no
  // socket is both closed by its close() and finalized at exit.
  lemma AtMostOneCloseIff(steps: seq<Step>)
    requires CanRun(INIT, steps)
    ensures (forall g: nat :: Tried(After(INIT, steps).fds.log, g) <= 1) <==> Apart(steps)
  {
    var st := After(INIT, steps);
    RunKeepsInv(INIT, steps);
    RunDoublesIffOverlap(INIT, steps);
    CleanIffApart(steps);
    forall g: nat | g >= |st.slots| ensures Tried(st.fds.log, g) == 0 { TriedZero(st.fds.log, g); }
    if !NoDouble(st) {
      var g :| 0 <= g < |st.slots| && st.slots[g].Wrapped? && st.slots[g].reached && st.slots[g].fin == Fired;
      assert Tried(st.fds.log, g) == 2;
    }
  }

  // In particular while no exit handler runs.
  lemma NoExitMeansApart(steps: seq<Step>)
    requires forall i :: 0 <= i < |steps| ==> !steps[i].FireAtExit?
    ensures Apart(steps)
  {}

  // ---- which allocation a close reaches -----------------------------------

  // A number that is in flight, or whose live finalizer has not been overtaken by
  // close(), still belongs to the allocation it was issued for.
  predicate Owns(k: Slot, fd: int) {
    match k
    case InFlight(n) => n == fd
    case Lost(_) => false
    case Wrapped(_, fin, _, reached) => fin == Armed(fd) && !reached
  }

  ghost predicate OwnersHold(st: State) {
    forall g, fd :: 0 <= g < |st.slots| && Owns(st.slots[g], fd) ==> fd in st.fds.open && st.fds.open[fd] == g
  }

  ghost predicate Owned(st: State) {
    && OwnersHold(st)
    && (forall i :: 0 <= i < |st.fds.log| ==> HitsItsOwn(st.fds.log[i]))
  }

  predicate HitsItsOwn(a: Attempt) {
    a.found == Allocation(a.meant)
  }

  // lwip_close for a number that nobody but g holds, after which g owns nothing.
  lemma StrikeKeepsOwners(st: State, st': State, g: nat, fd: int, releases: bool)
    requires OwnersHold(st) && g < |st.slots| && Lookup(st.fds, fd) in {Nobody, Allocation(g)}
    requires st'.fds == Strike(st.fds, g, fd, releases)
    requires |st'.slots| == |st.slots| && st'.slots == st.slots[g := st'.slots[g]]
    requires forall n :: !Owns(st'.slots[g], n)
    ensures OwnersHold(st')
  {
    forall h, n | 0 <= h < |st'.slots| && Owns(st'.slots[h], n) ensures n in st'.fds.open && st'.fds.open[n] == h {
      assert st'.slots[h] == st.slots[h];
    }
  }

  // A step that calls nothing and makes nobody an owner.
  lemma NothingStrikes(st: State, st': State, g: nat)
    requires OwnersHold(st) && g < |st.slots| && st'.fds == st.fds
    requires |st'.slots| == |st.slots| && st'.slots == st.slots[g := st'.slots[g]]
    requires forall n :: Owns(st'.slots[g], n) ==> Owns(st.slots[g], n)
    ensures OwnersHold(st')
  {
    forall h, n | 0 <= h < |st'.slots| && Owns(st'.slots[h], n) ensures n in st'.fds.open && st'.fds.open[n] == h {
      assert Owns(st.slots[h], n);
    }
  }

  // Which allocation a step gives to lwip_close, and under which number.
  predicate Strikes(st: State, step: Step)
    requires Enabled(st, step)
  {
    match step
    case CallClose(_, how) => how != NotCalled
    case Collect(g, _) => st.slots[g].fin.Armed?
    case FireAtExit(_, _) => true
    case _ => false
  }

  function Struck(st: State, step: Step): int
    requires Enabled(st, step) && Strikes(st, step)
  {
    if step.CallClose? then st.slots[step.g].s else st.slots[step.g].fin.fd
  }

  function Frees(step: Step): bool {
    match step
    case CallClose(_, how) => how == Releases
    case Collect(_, releases) => releases
    case FireAtExit(_, releases) => releases
    case _ => false
  }

  lemma StepStrikes(st: State, step: Step)
    requires Inv(st) && Enabled(st, step)
    ensures !Strikes(st, step) ==> Apply(st, step).fds.log == st.fds.log
    ensures Strikes(st, step) ==> && Apply(st, step).fds == Strike(st.fds, step.g, Struck(st, step), Frees(step))
                                  && |Apply(st, step).slots| == |st.slots|
                                  && Apply(st, step).slots == st.slots[step.g := Apply(st, step).slots[step.g]]
                                  && forall n :: !Owns(Apply(st, step).slots[step.g], n)
    // only an overlap can be a close by somebody who is not the owner
    ensures Strikes(st, step) && !Overlaps(st, step) ==> Owns(st.slots[step.g], Struck(st, step))
  {
    if !(step.Create? || step.Exit?) { assert SlotOk(st.slots[step.g], Tried(st.fds.log, step.g)); }
  }

  lemma StepKeepsOwners(st: State, step: Step)
    requires Inv(st) && OwnersHold(st) && Enabled(st, step)
    requires Overlaps(st, step) ==> Lookup(st.fds, Struck(st, step)) in {Nobody, Allocation(step.g)}
    ensures OwnersHold(Apply(st, step))
    ensures Strikes(st, step) && !Overlaps(st, step) ==> Lookup(st.fds, Struck(st, step)) == Allocation(step.g)
  {
    var st' := Apply(st, step);
    StepStrikes(st, step);
    if Strikes(st, step) {
      StrikeKeepsOwners(st, st', step.g, Struck(st, step), Frees(step));
    } else if step.Create? {
      assert forall h :: 0 <= h < |st.slots| ==> st'.slots[h] == st.slots[h];
    } else if !step.Exit? {
      NothingStrikes(st, st', step.g);
    }
  }

  lemma StepKeepsOwned(st: State, step: Step)
    requires Inv(st) && Owned(st) && Enabled(st, step) && !Overlaps(st, step)
    ensures Owned(Apply(st, step))
  {
    StepStrikes(st, step);
    StepKeepsOwners(st, step);
  }

  lemma {:induction false} RunKeepsOwned(st: State, steps: seq<Step>)
    requires Inv(st) && Owned(st) && NoDouble(st) && CanRun(st, steps) && Clean(st, steps)
    ensures Owned(After(st, steps)) && NoDouble(After(st, steps)) && Inv(After(st, steps))
    decreases steps
  {
    if steps != [] {
      StepKeepsInv(st, steps[0]);
      StepDoublesIffOverlap(st, steps[0]);
      StepKeepsOwned(st, steps[0]);
      RunKeepsOwned(Apply(st, steps[0]), steps[1..]);
    }
  }

  lemma Reachable(steps: seq<Step>)
    requires CanRun(INIT, steps) && Apart(steps)
    ensures var st := After(INIT, steps); Inv(st) && Owned(st) && NoDouble(st)
  {
    CleanIffApart(steps);
    RunKeepsOwned(INIT, steps);
  }

  // No lwip_close ever reaches an allocation other than the one it was meant for,
  // however numbers are reused in between.
  lemma EveryCloseHitsItsOwn(steps: seq<Step>)
    requires CanRun(INIT, steps) && Apart(steps)
    ensures forall i :: 0 <= i < |After(INIT, steps).fds.log| ==> HitsItsOwn(After(INIT, steps).fds.log[i])
  {
    Reachable(steps);
  }

  // No lwip_close so far was for a number that another allocation held.
  ghost predicate NoStranger(st: State) {
    forall i :: 0 <= i < |st.fds.log| ==> st.fds.log[i].found in {Nobody, Allocation(st.fds.log[i].meant)}
  }

  // close() and exit handler meet on one socket while another socket has its number.
  predicate Strays(st: State, step: Step)
    requires Enabled(st, step)
  {
    Overlaps(st, step) && Lookup(st.fds, Struck(st, step)) !in {Nobody, Allocation(step.g)}
  }

  predicate NeverStrays(st: State, steps: seq<Step>)
    requires CanRun(st, steps)
    decreases steps
  {
    steps == [] || (!Strays(st, steps[0]) && NeverStrays(Apply(st, steps[0]), steps[1..]))
  }

  lemma {:induction false} LogGrows(st: State, steps: seq<Step>)
    requires Inv(st) && CanRun(st, steps)
    ensures st.fds.log <= After(st, steps).fds.log
    decreases steps
  {
    if steps != [] {
      StepKeepsInv(st, steps[0]);
      StepStrikes(st, steps[0]);
      LogGrows(Apply(st, steps[0]), steps[1..]);
    }
  }

  lemma {:induction false} RunHitsAStrangerIff(st: State, steps: seq<Step>)
    requires Inv(st) && OwnersHold(st) && NoStranger(st) && CanRun(st, steps)
    ensures NoStranger(After(st, steps)) <==> NeverStrays(st, steps)
    decreases steps
  {
    if steps != [] {
      var st' := Apply(st, steps[0]);
      StepKeepsInv(st, steps[0]);
      StepStrikes(st, steps[0]);
      if Strays(st, steps[0]) {
        LogGrows(st', steps[1..]);
        assert After(st, steps).fds.log[|st.fds.log|] == st'.fds.log[|st.fds.log|];
      } else {
        StepKeepsOwners(st, steps[0]);
        RunHitsAStrangerIff(st', steps[1..]);
      }
    }
  }

  // Over every run: no close meant for one allocation reaches another exactly when
  // close() and exit handler never meet on a socket whose number another socket has by
  // then. Whoever is reached was allocated later.
  lemma NoStrangerIff(steps: seq<Step>)
    requires CanRun(INIT, steps)
    ensures NoStranger(After(INIT, steps)) <==> NeverStrays(INIT, steps)
    ensures forall i :: 0 <= i < |After(INIT, steps).fds.log| && After(INIT, steps).fds.log[i].found.Allocation? ==>
              After(INIT, steps).fds.log[i].found.gen >= After(INIT, steps).fds.log[i].meant
  {
    RunHitsAStrangerIff(INIT, steps);
    OnlyLaterOnes(INIT, steps);
  }

  // A close finds its own allocation exactly if it is not such a meeting on a number
  // that lwIP has taken away from the socket already.
  predicate Misses(st: State, step: Step)
    requires Enabled(st, step)
  {
    Overlaps(st, step) && Lookup(st.fds, Struck(st, step)) != Allocation(step.g)
  }

  predicate NeverMisses(st: State, steps: seq<Step>)
    requires CanRun(st, steps)
    decreases steps
  {
    steps == [] || (!Misses(st, steps[0]) && NeverMisses(Apply(st, steps[0]), steps[1..]))
  }

  lemma {:induction false} RunHitsItsOwnIff(st: State, steps: seq<Step>)
    requires Inv(st) && Owned(st) && CanRun(st, steps)
    ensures Owned(After(st, steps)) <==> NeverMisses(st, steps)
    ensures (forall i :: 0 <= i < |After(st, steps).fds.log| ==> HitsItsOwn(After(st, steps).fds.log[i]))
            <==> NeverMisses(st, steps)
    decreases steps
  {
    if steps != [] {
      var st' := Apply(st, steps[0]);
      StepKeepsInv(st, steps[0]);
      StepStrikes(st, steps[0]);
      if Misses(st, steps[0]) {
        LogGrows(st', steps[1..]);
        assert After(st, steps).fds.log[|st.fds.log|] == st'.fds.log[|st.fds.log|];
      } else {
        StepKeepsOwners(st, steps[0]);
        RunHitsItsOwnIff(st', steps[1..]);
      }
    }
  }

  // Over every run: each close finds the allocation it was meant for exactly when
  // close() and exit handler never meet on a socket whose number is already gone.
  lemma EveryCloseHitsItsOwnIff(steps: seq<Step>)
    requires CanRun(INIT, steps)
    ensures (forall i :: 0 <= i < |After(INIT, steps).fds.log| ==> HitsItsOwn(After(INIT, steps).fds.log[i]))
            <==> NeverMisses(INIT, steps)
  {
    RunHitsItsOwnIff(INIT, steps);
  }

  // A number a socket may still close is held by its own allocation or a later one.
  ghost predicate HoldersAreLater(st: State) {
    && (forall g :: 0 <= g < |st.slots| ==> HolderIsLater(st.fds, st.slots[g], g))
    && (forall i :: 0 <= i < |st.fds.log| && st.fds.log[i].found.Allocation? ==>
          st.fds.log[i].found.gen >= st.fds.log[i].meant)
  }

  ghost predicate HolderIsLater(f: Fds, k: Slot, g: int) {
    forall fd :: fd in f.open && Reports(k, fd) ==> f.open[fd] >= g
  }

  predicate Reports(k: Slot, fd: int) {
    match k
    case InFlight(n) => n == fd
    case Lost(n) => n == fd
    case Wrapped(s, fin, _, _) => s == fd || fin == Armed(fd)
  }

  lemma StepKeepsLater(st: State, step: Step)
    requires Inv(st) && HoldersAreLater(st) && Enabled(st, step)
    ensures HoldersAreLater(Apply(st, step))
  {
    var st' := Apply(st, step);
    StepStrikes(st, step);
    if Strikes(st, step) { assert Reports(st.slots[step.g], Struck(st, step)); }
    forall g | 0 <= g < |st'.slots| ensures HolderIsLater(st'.fds, st'.slots[g], g) {
      if g < |st.slots| {
        assert HolderIsLater(st.fds, st.slots[g], g);
        assert forall fd :: fd >= 0 && Reports(st'.slots[g], fd) ==> Reports(st.slots[g], fd);
      }
    }
  }

  lemma {:induction false} OnlyLaterOnes(st: State, steps: seq<Step>)
    requires Inv(st) && HoldersAreLater(st) && CanRun(st, steps)
    ensures HoldersAreLater(After(st, steps))
    decreases steps
  {
    if steps != [] {
      StepKeepsInv(st, steps[0]);
      StepKeepsLater(st, steps[0]);
      OnlyLaterOnes(Apply(st, steps[0]), steps[1..]);
    }
  }

  lemma {:induction false} RunKeepsOwners(st: State, steps: seq<Step>)
    requires Inv(st) && OwnersHold(st) && CanRun(st, steps) && NeverStrays(st, steps)
    ensures OwnersHold(After(st, steps))
    decreases steps
  {
    if steps != [] {
      StepKeepsInv(st, steps[0]);
      StepKeepsOwners(st, steps[0]);
      RunKeepsOwners(Apply(st, steps[0]), steps[1..]);
    }
  }

  // In every reachable state, whatever meets: a socket outside close() that reports a
  // number has a live finalizer for exactly that number and was never given to
  // lwip_close, unless an exit handler has run its finalizer; a closed one reports -1 and
  // has no live finalizer.
  lemma FinalizerFitsNumber(steps: seq<Step>, g: nat)
    requires CanRun(INIT, steps) && g < |After(INIT, steps).slots|
    requires After(INIT, steps).slots[g].Wrapped? && After(INIT, steps).slots[g].pc == Outside
    ensures var st := After(INIT, steps); var k := st.slots[g];
            && (k.s >= 0 && k.fin != Fired ==> k.fin == Armed(k.s) && Tried(st.fds.log, g) == 0)
            && (k.s < 0 ==> k.s == -1 && !k.fin.Armed?)
  {
    RunKeepsInv(INIT, steps);
    assert SlotOk(After(INIT, steps).slots[g], Tried(After(INIT, steps).fds.log, g));
  }

  // As long as no close has hit a stranger, the number is also in use for that socket,
  // which is its only owner.
  lemma OpenSocketsAreOwners(steps: seq<Step>, g: nat)
    requires CanRun(INIT, steps) && NeverStrays(INIT, steps) && g < |After(INIT, steps).slots|
    requires After(INIT, steps).slots[g].Wrapped? && After(INIT, steps).slots[g].pc == Outside
    ensures var st := After(INIT, steps); var k := st.slots[g];
            && (k.s >= 0 && k.fin != Fired ==>
                  && k.fin == Armed(k.s)
                  && k.s in st.fds.open && st.fds.open[k.s] == g
                  && Tried(st.fds.log, g) == 0
                  && (forall h :: 0 <= h < |st.slots| && h != g ==> !Owns(st.slots[h], k.s)))
            && (k.s < 0 ==> k.s == -1 && !k.fin.Armed?)
  {
    RunKeepsInv(INIT, steps);
    RunKeepsOwners(INIT, steps);
    var st := After(INIT, steps);
    assert SlotOk(st.slots[g], Tried(st.fds.log, g));
    if st.slots[g].s >= 0 && st.slots[g].fin != Fired { assert Owns(st.slots[g], st.slots[g].s); }
  }

  // Two sockets report the same number only while one of them is inside close(),
  // or after an exit handler ran a finalizer.
  lemma SharedNumberMeansClosing(steps: seq<Step>, g: nat, h: nat)
    requires CanRun(INIT, steps) && NeverStrays(INIT, steps)
    requires var st := After(INIT, steps);
             && g < |st.slots| && h < |st.slots| && g != h && st.slots[g].Wrapped? && st.slots[h].Wrapped?
             && st.slots[g].s == st.slots[h].s >= 0
             && st.slots[g].pc != Collected && st.slots[h].pc != Collected
    ensures var st := After(INIT, steps);
            || st.slots[g].pc == Called || st.slots[h].pc == Called
            || st.slots[g].fin == Fired || st.slots[h].fin == Fired
  {
    var st := After(INIT, steps);
    RunKeepsInv(INIT, steps);
    assert SlotOk(st.slots[g], Tried(st.fds.log, g)) && SlotOk(st.slots[h], Tried(st.fds.log, h));
    if st.slots[g].pc == st.slots[h].pc == Outside {
      OpenSocketsAreOwners(steps, g);
      OpenSocketsAreOwners(steps, h);
    }
  }

  // ---- nothing is forgotten -----------------------------------------------

  // No number is in flight and no finalizer is left to run: every socket has been
  // closed, collected or handled at exit.
  ghost predicate Drained(st: State) {
    forall g :: 0 <= g < |st.slots| ==>
      !st.slots[g].InFlight? && (st.slots[g].Wrapped? ==> !st.slots[g].fin.Armed?)
  }

  // Lost before there was a socket, or detached by a close() that was refused.
  predicate Forgotten(k: Slot) {
    k.Lost? || (k.Wrapped? && k.fin == Detached && !k.reached)
  }

  // Then, over every run: an allocation has had no close attempt if the wrapper lost the
  // number or refused to make the call, two if close() and exit handler met on it, and
  // exactly one otherwise.
  lemma DrainedMeansOneAttemptEach(steps: seq<Step>, g: nat)
    requires CanRun(INIT, steps)
    requires Drained(After(INIT, steps)) && g < After(INIT, steps).fds.issued
    ensures var st := After(INIT, steps);
            && g < |st.slots|
            && Tried(st.fds.log, g) ==
                 if Forgotten(st.slots[g]) then 0
                 else if SomeCallsClose(steps, g) && SomeFiresAtExit(steps, g) then 2 else 1
  {
    RunKeepsInv(INIT, steps);
    ReachedIff(INIT, steps, g);
    FiredIff(INIT, steps, g);
    assert SlotOk(After(INIT, steps).slots[g], Tried(After(INIT, steps).fds.log, g));
  }

  // A run in which the wrapper refuses no close() and loses no number.
  predicate NeverRefused(steps: seq<Step>) {
    forall i :: 0 <= i < |steps| ==> !steps[i].Lose? && (steps[i].CallClose? ==> steps[i].how != NotCalled)
  }

  ghost predicate DetachedWereReached(st: State) {
    forall g :: 0 <= g < |st.slots| ==>
      && !Forgotten(st.slots[g])
      && (st.slots[g].Wrapped? && (st.slots[g].pc == Called || st.slots[g].pc == Cleared) ==> st.slots[g].reached)
  }

  lemma {:induction false} NeverRefusedReaches(st: State, steps: seq<Step>)
    requires CanRun(st, steps) && NeverRefused(steps) && DetachedWereReached(st)
    ensures DetachedWereReached(After(st, steps))
    decreases steps
  {
    if steps != [] {
      assert !steps[0].Lose? && (steps[0].CallClose? ==> steps[0].how != NotCalled);
      assert NeverRefused(steps[1..]);
      NeverRefusedReaches(Apply(st, steps[0]), steps[1..]);
    }
  }

  // With the warnings filter at its default: exactly one attempt each.
  lemma DrainedMeansExactlyOne(steps: seq<Step>)
    requires CanRun(INIT, steps) && Apart(steps) && NeverRefused(steps)
    requires Drained(After(INIT, steps))
    ensures forall g: nat :: g < After(INIT, steps).fds.issued ==> Tried(After(INIT, steps).fds.log, g) == 1
  {
    NeverRefusedReaches(INIT, steps);
    RunKeepsInv(INIT, steps);
    forall g: nat | g < After(INIT, steps).fds.issued ensures Tried(After(INIT, steps).fds.log, g) == 1 {
      DrainedMeansOneAttemptEach(steps, g);
    }
  }

  // Every number still in use is accounted for: somebody owns it, or its one close
  // attempt was made and lwIP kept it, or it was lost or its close() refused.
  lemma EveryOpenNumberIsAccountedFor(steps: seq<Step>, fd: int)
    requires CanRun(INIT, steps) && Apart(steps) && fd in After(INIT, steps).fds.open
    ensures var st := After(INIT, steps); var g := st.fds.open[fd];
            g < |st.slots| && (Owns(st.slots[g], fd) || Tried(st.fds.log, g) == 1 || Forgotten(st.slots[g]))
  {
    Reachable(steps);
    var st := After(INIT, steps);
    var g := st.fds.open[fd];
    assert SlotOk(st.slots[g], Tried(st.fds.log, g));
    var k := st.slots[g];
    if k.InFlight? || (k.Wrapped? && k.fin.Armed? && !k.reached) {
      var n := if k.InFlight? then k.fd else k.fin.fd;
      assert Owns(k, n);
      assert n in st.fds.open && st.fds.open[n] == st.fds.open[fd];
    }
  }

  // ---- the two defects, as runs -------------------------------------------

  // close() has called lwip_close, the number is reissued to another socket, and
  // the process exits before close() detaches: the exit handler closes the other
  // socket's allocation.
  const CLOSED_ONCE := State(Fds(map[], [Attempt(0, 5, Allocation(0))], 1), [SlotCall(NewSlot(5), Releases)], false)
  const REISSUED := State(Fds(map[5 := 1], [Attempt(0, 5, Allocation(0))], 2),
                          [SlotCall(NewSlot(5), Releases), NewSlot(5)], true)

  lemma ClosedOnce()
    ensures CanRun(INIT, [Create(5), Construct(0), CallClose(0, Releases)])
    ensures After(INIT, [Create(5), Construct(0), CallClose(0, Releases)]) == CLOSED_ONCE
  {
    var s1 := State(Fds(map[5 := 0], [], 1), [InFlight(5)], false);
    var s2 := State(Fds(map[5 := 0], [], 1), [NewSlot(5)], false);
    assert Apply(INIT, Create(5)) == s1;
    assert Apply(s1, Construct(0)) == s2;
    assert Apply(s2, CallClose(0, Releases)) == CLOSED_ONCE;
    ThreeSteps(INIT, Create(5), Construct(0), CallClose(0, Releases));
  }

  lemma Reissued()
    ensures CanRun(CLOSED_ONCE, [Create(5), Construct(1), Exit])
    ensures After(CLOSED_ONCE, [Create(5), Construct(1), Exit]) == REISSUED
  {
    var s4 := CLOSED_ONCE.(fds := Issue(CLOSED_ONCE.fds, 5), slots := CLOSED_ONCE.slots + [InFlight(5)]);
    var s5 := s4.(slots := CLOSED_ONCE.slots + [NewSlot(5)]);
    assert Apply(CLOSED_ONCE, Create(5)) == s4;
    assert Apply(s4, Construct(1)) == s5;
    assert Apply(s5, Exit) == REISSUED;
    ThreeSteps(CLOSED_ONCE, Create(5), Construct(1), Exit);
  }

  lemma ExitDuringCloseHitsAStranger()
    ensures var steps := [Create(5), Construct(0), CallClose(0, Releases)] + [Create(5), Construct(1), Exit]
                         + [FireAtExit(0, true)];
            && CanRun(INIT, steps)
            && var st := After(INIT, steps);
            && Tried(st.fds.log, 0) == 2
            && st.fds.log == [Attempt(0, 5, Allocation(0)), Attempt(0, 5, Allocation(1))]
            && |st.slots| == 2 && st.slots[1] == NewSlot(5) && 5 !in st.fds.open
  {
    var a := [Create(5), Construct(0), CallClose(0, Releases)];
    var b := [Create(5), Construct(1), Exit];
    var c := [FireAtExit(0, true)];
    ClosedOnce();
    Reissued();
    RunsCompose(INIT, a, b);
    RunsCompose(INIT, a + b, c);
    var st := Apply(REISSUED, c[0]);
    assert CanRun(REISSUED, c) && After(REISSUED, c) == st;
    TriedMore([], Attempt(0, 5, Allocation(0)), 0);
    TriedMore([Attempt(0, 5, Allocation(0))], Attempt(0, 5, Allocation(1)), 0);
    assert [] + [Attempt(0, 5, Allocation(0))] == REISSUED.fds.log;
    assert st.fds.log == REISSUED.fds.log + [Attempt(0, 5, Allocation(1))];
  }

  lemma {:induction false} RunsCompose(st: State, a: seq<Step>, b: seq<Step>)
    requires CanRun(st, a)
    ensures CanRun(st, a + b) <==> CanRun(After(st, a), b)
    ensures CanRun(st, a + b) ==> After(st, a + b) == After(After(st, a), b)
    decreases a
  {
    if a == [] {
      assert a + b == b;
    } else {
      assert (a + b)[1..] == a[1..] + b;
      RunsCompose(Apply(st, a[0]), a[1..], b);
    }
  }

  // A number lost, or a close() refused by the wrapper: whatever happens next, nobody
  // ever closes the number and lwIP keeps it in use.
  ghost predicate Abandoned(st: State, g: nat, fd: int) {
    && g < |st.slots| && Forgotten(st.slots[g]) && (st.slots[g].Wrapped? ==> st.slots[g].s == -1)
    && fd in st.fds.open && st.fds.open[fd] == g
  }

  lemma {:induction false} AbandonedForever(st: State, steps: seq<Step>, g: nat, fd: int)
    requires Inv(st) && Owned(st) && NoDouble(st) && CanRun(st, steps) && Clean(st, steps)
    requires Abandoned(st, g, fd)
    ensures Abandoned(After(st, steps), g, fd) && Tried(After(st, steps).fds.log, g) == 0
    decreases steps
  {
    assert SlotOk(st.slots[g], Tried(st.fds.log, g));
    if steps != [] {
      StepKeepsInv(st, steps[0]);
      StepDoublesIffOverlap(st, steps[0]);
      StepKeepsOwned(st, steps[0]);
      StepKeepsAbandoned(st, steps[0], g, fd);
      AbandonedForever(Apply(st, steps[0]), steps[1..], g, fd);
    }
  }

  lemma StepKeepsAbandoned(st: State, step: Step, g: nat, fd: int)
    requires Inv(st) && Owned(st) && NoDouble(st) && Enabled(st, step) && !Overlaps(st, step)
    requires Abandoned(st, g, fd)
    ensures Abandoned(Apply(st, step), g, fd)
  {
    match step
    case CallClose(h, how) =>
      assert SlotOk(st.slots[h], Tried(st.fds.log, h));
      if how != NotCalled { assert Owns(st.slots[h], st.slots[h].s); }
    case Collect(h, _) =>
      assert SlotOk(st.slots[h], Tried(st.fds.log, h));
      if st.slots[h].fin.Armed? { assert Owns(st.slots[h], st.slots[h].fin.fd); }
    case FireAtExit(h, _) =>
      assert SlotOk(st.slots[h], Tried(st.fds.log, h));
      assert Owns(st.slots[h], st.slots[h].fin.fd);
    case _ =>
  }

  // Every number in flight comes to this when errno was set and warnings are errors.
  lemma LostIsAbandoned(st: State, g: nat)
    requires Inv(st) && Owned(st) && g < |st.slots| && st.slots[g].InFlight?
    ensures Enabled(st, Lose(g)) && !Overlaps(st, Lose(g)) && Abandoned(Apply(st, Lose(g)), g, st.slots[g].fd)
  {
    assert Owns(st.slots[g], st.slots[g].fd);
  }

  // Every socket that is open and idle comes to this when its close() is refused.
  lemma RefusedCloseLeaks(st: State, g: nat)
    requires Inv(st) && Owned(st) && NoDouble(st) && g < |st.slots| && st.slots[g].Wrapped?
    requires st.slots[g].pc == Outside && st.slots[g].s >= 0 && st.slots[g].fin != Fired
    ensures var steps := [CallClose(g, NotCalled), Clear(g), DetachFinalizer(g)];
            && CanRun(st, steps) && Clean(st, steps)
            && Abandoned(After(st, steps), g, st.slots[g].s)
  {
    assert SlotOk(st.slots[g], Tried(st.fds.log, g));
    assert Owns(st.slots[g], st.slots[g].s);
    RefusedClose(st, g, st.slots[g]);
  }

  lemma RefusedClose(st: State, g: nat, k: Slot)
    requires g < |st.slots| && k == st.slots[g] && k.Wrapped? && k.pc == Outside && k.s >= 0
    ensures CanRun(st, [CallClose(g, NotCalled), Clear(g), DetachFinalizer(g)])
    ensures Clean(st, [CallClose(g, NotCalled), Clear(g), DetachFinalizer(g)])
    ensures After(st, [CallClose(g, NotCalled), Clear(g), DetachFinalizer(g)]) ==
            st.(slots := st.slots[g := SlotDetach(SlotClear(SlotCall(k, NotCalled)))])
  {
    var s1 := Apply(st, CallClose(g, NotCalled));
    assert s1 == st.(slots := st.slots[g := SlotCall(k, NotCalled)]);
    var s2 := Apply(s1, Clear(g));
    assert s2 == st.(slots := st.slots[g := SlotClear(SlotCall(k, NotCalled))]);
    ThreeSteps(st, CallClose(g, NotCalled), Clear(g), DetachFinalizer(g));
  }

  lemma ThreeSteps(st: State, a: Step, b: Step, c: Step)
    requires Enabled(st, a) && Enabled(Apply(st, a), b) && Enabled(Apply(Apply(st, a), b), c)
    ensures CanRun(st, [a, b, c]) && After(st, [a, b, c]) == Apply(Apply(Apply(st, a), b), c)
    ensures Clean(st, [a, b, c]) <==>
            !Overlaps(st, a) && !Overlaps(Apply(st, a), b) && !Overlaps(Apply(Apply(st, a), b), c)
  {
    var s1 := Apply(st, a);
    var s2 := Apply(s1, b);
    var s3 := Apply(s2, c);
    assert [a, b, c][1..] == [b, c] && [b, c][1..] == [c] && [c][1..] == [];
    assert CanRun(s3, []) && After(s3, []) == s3 && Clean(s3, []);
    assert CanRun(s2, [c]) && After(s2, [c]) == s3 && (Clean(s2, [c]) <==> !Overlaps(s2, c));
    assert CanRun(s1, [b, c]) && After(s1, [b, c]) == s3;
    assert Clean(s1, [b, c]) <==> !Overlaps(s1, b) && !Overlaps(s2, c);
  }

  // accept() constructs a Socket and then raises while unparsing the peer address:
  // the dropped socket is collected, with exactly one close for its number.
  lemma DroppedByAcceptIsClosed(st: State, fd: int, releases: bool)
    requires Inv(st) && Owned(st) && NoDouble(st) && fd >= 0 && fd !in st.fds.open
    ensures var g := |st.slots|; var steps := [Create(fd), Construct(g), Collect(g, releases)];
            && CanRun(st, steps) && Clean(st, steps)
            && Tried(After(st, steps).fds.log, g) == 1
            && (releases ==> After(st, steps).fds.open == st.fds.open)
            && After(st, steps).slots == st.slots + [Wrapped(fd, Fired, Collected, false)]
  {
    var g := |st.slots|;
    var s1 := Apply(st, Create(fd));
    var s2 := Apply(s1, Construct(g));
    StepKeepsInv(st, Create(fd));
    StepKeepsInv(s1, Construct(g));
    StepKeepsInv(s2, Collect(g, releases));
    ThreeSteps(st, Create(fd), Construct(g), Collect(g, releases));
  }
}
