// The calls that the sockets of src/lwip/socket.py make are runs of the lifecycle
// machine, so that what is proved about every run of it holds of them.
module Simulation {
  import opened Basics
  import opened Lifecycle
  import opened Sockets
  import opened Ledgers

  // The steps of the machine that one call stands for: a number issued and wrapped, or
  // lost; the three micro-steps of close(); a collection.
  function StepsOf(s: Setting, g: nat, e: Event): seq<Step> {
    if Allocates(e.request) && Ret(e) >= 0 then
      [Create(Ret(e)), if Ended(s, e).Ok? then Construct(g) else Lose(g)]
    else if e.request.Close? then
      [CallClose(e.request.meant, HowOf(e)), Clear(e.request.meant), DetachFinalizer(e.request.meant)]
    else if e.request.Finalize? then
      [Collect(e.request.meant, HowOf(e) == How.Releases)]
    else []
  }

  function SlotsOf(recs: seq<Rec>): (slots: seq<Slot>)
    ensures |slots| == |recs| && forall i :: 0 <= i < |recs| ==> slots[i] == recs[i].slot
  {
    seq(|recs|, i requires 0 <= i < |recs| => recs[i].slot)
  }

  // The machine is where lwIP and the ledger are.
  ghost predicate Mirrors(st: State, f: Fds, earlier: seq<Slot>, recs: seq<Rec>) {
    st.fds == f && st.slots == earlier + SlotsOf(recs) && |st.slots| == f.issued
  }

  ghost predicate Reaches(st: State, steps: seq<Step>, st': State) {
    CanRun(st, steps) && Clean(st, steps) && After(st, steps) == st'
  }

  lemma ReachesTwo(st: State, a: Step, b: Step)
    requires Enabled(st, a) && !Overlaps(st, a)
    requires Enabled(Apply(st, a), b) && !Overlaps(Apply(st, a), b)
    ensures Reaches(st, [a, b], Apply(Apply(st, a), b))
  {
    ReachesOne(Apply(st, a), b);
    assert [a, b][1..] == [b];
  }

  lemma ReachesOne(st: State, a: Step)
    requires Enabled(st, a) && !Overlaps(st, a)
    ensures Reaches(st, [a], Apply(st, a))
  {
    assert [a][1..] == [];
  }

  lemma {:induction false} ReachesOn(st: State, a: seq<Step>, st': State, b: seq<Step>, st'': State)
    requires Reaches(st, a, st') && Reaches(st', b, st'')
    ensures Reaches(st, a + b, st'')
    decreases a
  {
    if a == [] {
      assert a + b == b;
    } else {
      assert (a + b)[1..] == a[1..] + b;
      ReachesOn(Apply(st, a[0]), a[1..], st', b, st'');
    }
  }

  lemma AllocationRuns(s: Setting, st: State, e: Event, recs: seq<Rec>, earlier: seq<Slot>) returns (st': State)
    requires Mirrors(st, st.fds, earlier, recs)
    requires Allocates(e.request)
    requires e.Made?
    requires Ret(e) >= 0
    requires Ret(e) !in st.fds.open
    ensures Reaches(st, StepsOf(s, st.fds.issued, e), st')
    ensures Mirrors(st', Issue(st.fds, Ret(e)), earlier, recs + [Issued(s, st.fds.issued, e)])
  {
    var g := st.fds.issued;
    var st1 := Apply(st, Create(Ret(e)));
    var second := if Ended(s, e).Ok? then Construct(g) else Lose(g);
    ReachesTwo(st, Create(Ret(e)), second);
    st' := Apply(st1, second);
    assert st'.slots == st.slots + [Issued(s, g, e).slot];
  }

  // Which slot of the machine is meant.
  lemma SlotOf(st: State, f: Fds, earlier: seq<Slot>, recs: seq<Rec>, i: nat, r: Rec)
    requires Mirrors(st, f, earlier, recs) && i < |recs|
    ensures st.slots[|earlier| + i] == recs[i].slot
    ensures st.slots[|earlier| + i := r.slot] == earlier + SlotsOf(recs[i := r])
  {
    assert st.slots[|earlier| + i := r.slot] == earlier + SlotsOf(recs)[i := r.slot];
    assert SlotsOf(recs)[i := r.slot] == SlotsOf(recs[i := r]);
  }

  lemma CloseRuns(st: State, g: nat, k: Slot, how: How)
    requires g < |st.slots| && k.Wrapped? && st.slots[g] == k == NewSlot(k.s) && k.s >= 0
    ensures Reaches(st, [CallClose(g, how), Clear(g), DetachFinalizer(g)],
                    st.(fds := CloseEffect(st.fds, g, k.s, how),
                        slots := st.slots[g := SlotDetach(SlotClear(SlotCall(k, how)))]))
  {
    var s1 := Apply(st, CallClose(g, how));
    var s2 := Apply(s1, Clear(g));
    assert s2.slots == st.slots[g := SlotClear(SlotCall(k, how))];
    ThreeSteps(st, CallClose(g, how), Clear(g), DetachFinalizer(g));
  }

  lemma EndRuns(s: Setting, st: State, e: Event, recs: seq<Rec>, earlier: seq<Slot>) returns (st': State)
    requires Mirrors(st, st.fds, earlier, recs) && IsEnd(e.request) && EndsLive(|earlier|, recs, e) && e.request.fd >= 0
    requires e.request.Finalize? ==> e.Made?
    ensures Reaches(st, StepsOf(s, st.fds.issued, e), st')
    ensures Mirrors(st', CloseEffect(st.fds, e.request.meant, e.request.fd, HowOf(e)), earlier,
                    Book(s, |earlier|, recs, e))
  {
    var g, i, how := e.request.meant, e.request.meant - |earlier|, HowOf(e);
    SlotOf(st, st.fds, earlier, recs, i, EndedRec(recs[i], e));
    if e.request.Close? {
      CloseRuns(st, g, recs[i].slot, how);
      st' := st.(fds := CloseEffect(st.fds, g, e.request.fd, how), slots := st.slots[g := EndedRec(recs[i], e).slot]);
    } else {
      ReachesOne(st, Collect(g, how == How.Releases));
      st' := Apply(st, Collect(g, how == How.Releases));
    }
  }

  // For every sequence of calls in which each socket comes to its end at most once, with
  // any replies: the machine has a run, free of exit handlers, that ends where lwIP and
  // the ledger do.
  lemma {:induction false} TraceIsARun(s: Setting, lwip: Schedule, w: World, events: seq<Event>, st: State)
    returns (steps: seq<Step>, st': State)
    requires FdsOk(w.fds) && Plays(s, lwip, w, events) && IsLegal(s, w.fds.issued, events)
    requires st.fds == w.fds && |st.slots| == w.fds.issued
    ensures Reaches(st, steps, st') && HasNoExit(steps) && Apart(steps)
    ensures Mirrors(st', WorldAfter(w, events).fds, st.slots, Ledger(s, w.fds.issued, events))
  {
    if events == [] {
      return [], st;
    }
    var front, e := events[..|events|-1], events[|events|-1];
    var first, middle := TraceIsARun(s, lwip, w, front, st);
    var more;
    more, st' := CallIsARun(s, lwip, w, front, e, middle, st.slots);
    ReachesOn(st, first, middle, more, st');
    steps := first + more;
    NoExitMeansApart(steps);
  }

  predicate HasNoExit(steps: seq<Step>) {
    forall i :: 0 <= i < |steps| ==> !steps[i].FireAtExit?
  }

  lemma CallIsARun(s: Setting, lwip: Schedule, w: World, front: seq<Event>, e: Event, st: State, earlier: seq<Slot>)
    returns (steps: seq<Step>, st': State)
    requires FdsOk(w.fds) && Plays(s, lwip, w, front) && IsLegal(s, w.fds.issued, front)
    requires e == EventAt(s, lwip, WorldAfter(w, front), e.request) && |earlier| == w.fds.issued
    requires EndsLive(|earlier|, Ledger(s, w.fds.issued, front), e)
    requires Mirrors(st, WorldAfter(w, front).fds, earlier, Ledger(s, w.fds.issued, front))
    ensures Reaches(st, steps, st') && HasNoExit(steps)
    ensures Mirrors(st', Next(WorldAfter(w, front), e).fds, earlier,
                    Book(s, |earlier|, Ledger(s, w.fds.issued, front), e))
  {
    var recs := Ledger(s, w.fds.issued, front);
    EventEffect(s, lwip, WorldAfter(w, front), e);
    LedgerAgrees(s, lwip, w, front);
    steps := StepsOf(s, st.fds.issued, e);
    if Allocates(e.request) && Ret(e) >= 0 {
      st' := AllocationRuns(s, st, e, recs, earlier);
    } else if IsEnd(e.request) {
      assert RecOk(WorldAfter(w, front).fds, recs[e.request.meant - |earlier|]);
      st' := EndRuns(s, st, e, recs, earlier);
    } else {
      st' := st;
    }
  }
}
