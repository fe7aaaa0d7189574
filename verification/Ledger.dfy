// What became of every number that lwIP issued during a sequence of calls, read off
// the calls and their replies; and that lwIP agrees.
module Ledgers {
  import opened Basics
  import opened LwipError
  import opened Lifecycle
  import opened Sockets

  // One allocation and the socket made for it. `kept` says that its lwip_close was
  // refused or failed without releasing the number.
  datatype Rec = Record(gen: nat, born: int, slot: Slot, kept: bool)

  predicate IsLive(r: Rec) {
    r.slot == NewSlot(r.born)
  }

  function Issued(s: Setting, gen: nat, e: Event): Rec {
    Record(gen, Ret(e), if Ended(s, e).Ok? then NewSlot(Ret(e)) else Lost(Ret(e)), false)
  }

  function ClosedRec(r: Rec, how: How): Rec
    requires r.slot.Wrapped?
  {
    r.(slot := SlotDetach(SlotClear(SlotCall(r.slot, how))), kept := how != How.Releases)
  }

  function CollectedRec(r: Rec, how: How): Rec
    requires r.slot.Wrapped?
  {
    r.(slot := r.slot.(fin := Fired, pc := Collected), kept := how != How.Releases)
  }

  // A call by which a socket comes to its end: close(), or its finalizer.
  predicate IsEnd(request: Request) {
    request.Close? || request.Finalize?
  }

  function EndedRec(r: Rec, e: Event): Rec
    requires r.slot.Wrapped? && IsEnd(e.request)
  {
    if e.request.Close? then ClosedRec(r, HowOf(e)) else CollectedRec(r, HowOf(e))
  }

  // The ledger is kept for the allocations from `first` on, in order.
  predicate EndsLive(first: nat, recs: seq<Rec>, e: Event) {
    IsEnd(e.request) ==>
      && first <= e.request.meant < first + |recs|
      && IsLive(recs[e.request.meant - first]) && recs[e.request.meant - first].born == e.request.fd
  }

  function Book(s: Setting, first: nat, recs: seq<Rec>, e: Event): seq<Rec>
    requires EndsLive(first, recs, e)
  {
    if Allocates(e.request) && Ret(e) >= 0 then recs + [Issued(s, first + |recs|, e)]
    else if IsEnd(e.request) then
      var i := e.request.meant - first;
      recs[i := EndedRec(recs[i], e)]
    else recs
  }

  // Only sockets made in the course of it come to their end, each once.
  predicate IsLegal(s: Setting, first: nat, events: seq<Event>)
    decreases |events|, 0
  {
    events == [] ||
    var front, last := events[..|events|-1], events[|events|-1];
    IsLegal(s, first, front) && EndsLive(first, Ledger(s, first, front), last)
  }

  function Ledger(s: Setting, first: nat, events: seq<Event>): seq<Rec>
    requires IsLegal(s, first, events)
    decreases |events|, 1
  {
    if events == [] then []
    else Book(s, first, Ledger(s, first, events[..|events|-1]), events[|events|-1])
  }

  lemma OneMoreEntry(s: Setting, first: nat, events: seq<Event>, e: Event)
    requires IsLegal(s, first, events) && EndsLive(first, Ledger(s, first, events), e)
    ensures IsLegal(s, first, events + [e])
    ensures Ledger(s, first, events + [e]) == Book(s, first, Ledger(s, first, events), e)
  {
    assert (events + [e])[..|events|] == events;
  }

  // Calls that neither allocate nor close do not show.
  lemma {:induction false} QuietCalls(s: Setting, first: nat, a: seq<Event>, b: seq<Event>)
    requires IsLegal(s, first, a)
    requires forall i :: 0 <= i < |b| ==> !Allocates(b[i].request) && !IsEnd(b[i].request)
    ensures IsLegal(s, first, a + b) && Ledger(s, first, a + b) == Ledger(s, first, a)
  {
    if b == [] {
      assert a + b == a;
    } else {
      var front := b[..|b|-1];
      QuietCalls(s, first, a, front);
      OneMoreEntry(s, first, a + front, b[|b|-1]);
      assert a + front + [b[|b|-1]] == a + b;
    }
  }

  // ---- lwIP agrees --------------------------------------------------------

  ghost predicate Holds(f: Fds, r: Rec) {
    r.born in f.open && f.open[r.born] == r.gen
  }

  predicate Holding(r: Rec) {
    IsLive(r) || r.slot.Lost? || r.kept
  }

  // Open or lost and never tried; or collected, having been tried once; or closed, having
  // been tried once or, if the wrapper refused, never.
  ghost predicate RecOk(f: Fds, r: Rec) {
    && r.born >= 0
    && (Holds(f, r) <==> Holding(r))
    && match r.slot
       case InFlight(_) => false
       case Lost(fd) => fd == r.born && !r.kept && Tried(f.log, r.gen) == 0
       case Wrapped(n, fin, pc, reached) =>
         if IsLive(r) then !r.kept && Tried(f.log, r.gen) == 0
         else if fin == Fired then n == r.born && pc == Collected && !reached && Tried(f.log, r.gen) == 1
         else
           && n == -1 && fin == Detached && pc == Outside
           && Tried(f.log, r.gen) == Count(reached) && (!reached ==> r.kept)
  }

  // Nothing that existed before changed hands, and every lwip_close made since hit
  // the allocation it was meant for.
  ghost predicate Framed(before: Fds, f: Fds) {
    && FdsOk(f)
    && (forall fd :: fd in before.open ==> fd in f.open && f.open[fd] == before.open[fd])
    && before.log <= f.log
    && (forall i :: |before.log| <= i < |f.log| ==> f.log[i].found == Allocation(f.log[i].meant))
  }

  ghost predicate Covered(f: Fds, recs: seq<Rec>, fd: int) {
    exists i :: 0 <= i < |recs| && recs[i].born == fd && Holds(f, recs[i])
  }

  ghost predicate Agrees(before: Fds, f: Fds, recs: seq<Rec>) {
    && Framed(before, f)
    && f.issued == before.issued + |recs|
    && (forall i :: 0 <= i < |recs| ==>
          recs[i].gen == before.issued + i && recs[i].born !in before.open && RecOk(f, recs[i]))
    && (forall fd :: fd in f.open && fd !in before.open ==> Covered(f, recs, fd))
  }

  lemma IssueAgrees(s: Setting, before: Fds, f: Fds, recs: seq<Rec>, e: Event)
    requires Agrees(before, f, recs) && Allocates(e.request) && e.Made? && Ret(e) >= 0 && Ret(e) !in f.open
    ensures Agrees(before, Issue(f, Ret(e)), recs + [Issued(s, before.issued + |recs|, e)])
  {
    var f', recs' := Issue(f, Ret(e)), recs + [Issued(s, before.issued + |recs|, e)];
    TriedZero(f.log, f.issued);
    forall i | 0 <= i < |recs'|
      ensures recs'[i].gen == before.issued + i
      ensures recs'[i].born !in before.open
      ensures RecOk(f', recs'[i])
    {
      if i < |recs| { assert RecOk(f, recs[i]); }
    }
    forall fd | fd in f'.open && fd !in before.open ensures Covered(f', recs', fd) {
      if fd == Ret(e) {
        assert recs'[|recs|].born == fd && Holds(f', recs'[|recs|]);
      } else {
        assert Covered(f, recs, fd);
        var i :| 0 <= i < |recs| && recs[i].born == fd && Holds(f, recs[i]);
        assert recs'[i].born == fd && Holds(f', recs'[i]);
      }
    }
  }

  // The records after a socket came to its end.
  lemma EndKeepsRecs(before: Fds, f: Fds, recs: seq<Rec>, i: nat, e: Event)
    requires Agrees(before, f, recs) && i < |recs| && IsLive(recs[i]) && IsEnd(e.request)
    requires e.request.Finalize? ==> e.Made?
    ensures var f', recs' := CloseEffect(f, recs[i].gen, recs[i].born, HowOf(e)), recs[i := EndedRec(recs[i], e)];
            forall j :: 0 <= j < |recs'| ==>
              recs'[j].gen == before.issued + j && recs'[j].born !in before.open && RecOk(f', recs'[j])
  {
    var r, how := recs[i], HowOf(e);
    var f', recs' := CloseEffect(f, r.gen, r.born, how), recs[i := EndedRec(r, e)];
    assert RecOk(f, r) && r.gen == before.issued + i;
    if how != NotCalled { StrikeKeepsFdsOk(f, r.gen, r.born, how == How.Releases); }
    forall j | 0 <= j < |recs'|
      ensures recs'[j].gen == before.issued + j && recs'[j].born !in before.open && RecOk(f', recs'[j])
    {
      assert RecOk(f, recs[j]) && recs[j].gen == before.issued + j;
    }
  }

  // Every number still in use was covered before.
  lemma EndKeepsCovered(before: Fds, f: Fds, recs: seq<Rec>, i: nat, e: Event, fd: int)
    requires Agrees(before, f, recs) && i < |recs| && IsLive(recs[i]) && IsEnd(e.request)
    requires fd in CloseEffect(f, recs[i].gen, recs[i].born, HowOf(e)).open && fd !in before.open
    ensures Covered(CloseEffect(f, recs[i].gen, recs[i].born, HowOf(e)), recs[i := EndedRec(recs[i], e)], fd)
  {
    var f', recs' := CloseEffect(f, recs[i].gen, recs[i].born, HowOf(e)), recs[i := EndedRec(recs[i], e)];
    assert Covered(f, recs, fd);
    var j :| 0 <= j < |recs| && recs[j].born == fd && Holds(f, recs[j]);
    assert recs'[j].born == fd && Holds(f', recs'[j]);
  }

  lemma EndKeepsFramed(before: Fds, f: Fds, gen: nat, born: int, how: How)
    requires Framed(before, f) && gen < f.issued && born !in before.open && Lookup(f, born) == Allocation(gen)
    ensures Framed(before, CloseEffect(f, gen, born, how))
  {
    if how != NotCalled { StrikeKeepsFdsOk(f, gen, born, how == How.Releases); }
  }

  lemma EndAgrees(before: Fds, f: Fds, recs: seq<Rec>, i: nat, e: Event)
    requires Agrees(before, f, recs) && i < |recs| && IsLive(recs[i]) && IsEnd(e.request)
    requires e.request.Finalize? ==> e.Made?
    ensures Agrees(before, CloseEffect(f, recs[i].gen, recs[i].born, HowOf(e)), recs[i := EndedRec(recs[i], e)])
  {
    var f', recs' := CloseEffect(f, recs[i].gen, recs[i].born, HowOf(e)), recs[i := EndedRec(recs[i], e)];
    assert RecOk(f, recs[i]) && recs[i].gen == before.issued + i;
    EndKeepsFramed(before, f, recs[i].gen, recs[i].born, HowOf(e));
    EndKeepsRecs(before, f, recs, i, e);
    forall fd | fd in f'.open && fd !in before.open ensures Covered(f', recs', fd) {
      EndKeepsCovered(before, f, recs, i, e, fd);
    }
  }

  // One call, whatever it is.
  lemma EventEffect(s: Setting, lwip: Schedule, w: World, e: Event)
    requires e == EventAt(s, lwip, w, e.request)
    ensures Allocates(e.request) && Ret(e) >= 0 ==>
              e.Made? && Ret(e) !in w.fds.open && Next(w, e).fds == Issue(w.fds, Ret(e))
    ensures IsEnd(e.request) ==>
              && (e.request.Finalize? ==> e.Made?)
              && Next(w, e).fds == CloseEffect(w.fds, e.request.meant, e.request.fd, HowOf(e))
    ensures !(Allocates(e.request) && Ret(e) >= 0) && !IsEnd(e.request) ==> Next(w, e).fds == w.fds
  {}

  lemma GenOf(before: Fds, f: Fds, recs: seq<Rec>, i: nat)
    requires Agrees(before, f, recs) && i < |recs|
    ensures recs[i].gen == before.issued + i
  {}

  lemma EventAgrees(s: Setting, before: Fds, f: Fds, f': Fds, recs: seq<Rec>, e: Event)
    requires Agrees(before, f, recs) && EndsLive(before.issued, recs, e)
    requires if Allocates(e.request) && Ret(e) >= 0 then e.Made? && Ret(e) !in f.open && f' == Issue(f, Ret(e))
             else if IsEnd(e.request) then
               && (e.request.Finalize? ==> e.Made?)
               && f' == CloseEffect(f, e.request.meant, e.request.fd, HowOf(e))
             else f' == f
    ensures Agrees(before, f', Book(s, before.issued, recs, e))
  {
    if Allocates(e.request) && Ret(e) >= 0 {
      IssueAgrees(s, before, f, recs, e);
    } else if IsEnd(e.request) {
      var i := e.request.meant - before.issued;
      GenOf(before, f, recs, i);
      EndAgrees(before, f, recs, i, e);
    }
  }

  lemma {:induction false} LedgerAgrees(s: Setting, lwip: Schedule, w: World, events: seq<Event>)
    requires FdsOk(w.fds) && Plays(s, lwip, w, events) && IsLegal(s, w.fds.issued, events)
    ensures Agrees(w.fds, WorldAfter(w, events).fds, Ledger(s, w.fds.issued, events))
  {
    if events != [] {
      var front, e := events[..|events|-1], events[|events|-1];
      LedgerAgrees(s, lwip, w, front);
      EventEffect(s, lwip, WorldAfter(w, front), e);
      EventAgrees(s, w.fds, WorldAfter(w, front).fds, WorldAfter(w, events).fds, Ledger(s, w.fds.issued, front), e);
    }
  }

  // ---- what lwIP holds in the end -----------------------------------------

  function WithHeld(open: map<int, nat>, recs: seq<Rec>): map<int, nat> {
    if recs == [] then open
    else
      var front, last := recs[..|recs|-1], recs[|recs|-1];
      if Holding(last) then WithHeld(open, front)[last.born := last.gen] else WithHeld(open, front)
  }

  lemma {:induction false} WithHeldIs(open: map<int, nat>, f: Fds, recs: seq<Rec>)
    requires forall i :: 0 <= i < |recs| ==> recs[i].born !in open && (Holds(f, recs[i]) <==> Holding(recs[i]))
    ensures forall fd :: fd in open ==> fd in WithHeld(open, recs) && WithHeld(open, recs)[fd] == open[fd]
    ensures forall fd :: fd !in open ==> (fd in WithHeld(open, recs) <==> Covered(f, recs, fd))
    ensures forall fd :: fd !in open && fd in WithHeld(open, recs) ==>
              fd in f.open && WithHeld(open, recs)[fd] == f.open[fd]
  {
    if recs != [] {
      var front, last := recs[..|recs|-1], recs[|recs|-1];
      WithHeldIs(open, f, front);
      forall fd | fd !in open
        ensures Covered(f, recs, fd) <==>
                  Covered(f, front, fd) || (Holding(last) && fd == last.born)
      {
        if Covered(f, front, fd) {
          var i :| 0 <= i < |front| && front[i].born == fd && Holds(f, front[i]);
          assert recs[i].born == fd && Holds(f, recs[i]);
        }
        if Holding(last) && fd == last.born { assert recs[|recs|-1].born == fd && Holds(f, recs[|recs|-1]); }
        if Covered(f, recs, fd) {
          var i :| 0 <= i < |recs| && recs[i].born == fd && Holds(f, recs[i]);
          assert i < |front| ==> front[i].born == fd && Holds(f, front[i]);
        }
      }
    }
  }

  // The numbers in use are those of before and those the ledger says are held.
  lemma HeldInTheEnd(before: Fds, f: Fds, recs: seq<Rec>)
    requires Agrees(before, f, recs)
    ensures f.open == WithHeld(before.open, recs)
  {
    forall i | 0 <= i < |recs| ensures recs[i].born !in before.open && (Holds(f, recs[i]) <==> Holding(recs[i])) {
      assert RecOk(f, recs[i]);
    }
    WithHeldIs(before.open, f, recs);
    var m := WithHeld(before.open, recs);
    forall fd ensures fd in f.open <==> fd in m {
      if fd in f.open && fd !in before.open { assert Covered(f, recs, fd); }
    }
    assert forall fd :: fd in m ==> m[fd] == f.open[fd];
    assert f.open.Keys == m.Keys;
  }

  // lwIP holds what it held before exactly when no entry of the ledger is held.
  lemma NothingHeldIff(before: Fds, f: Fds, recs: seq<Rec>)
    requires Agrees(before, f, recs)
    ensures f.open == before.open <==> forall i :: 0 <= i < |recs| ==> !Holding(recs[i])
  {
    HeldInTheEnd(before, f, recs);
    if forall i :: 0 <= i < |recs| ==> !Holding(recs[i]) {
      NothingHeld(before.open, recs);
    } else {
      var i :| 0 <= i < |recs| && Holding(recs[i]);
      assert RecOk(f, recs[i]);
      assert recs[i].born in f.open && recs[i].born !in before.open;
    }
  }

  lemma {:induction false} NothingHeld(open: map<int, nat>, recs: seq<Rec>)
    requires forall i :: 0 <= i < |recs| ==> !Holding(recs[i])
    ensures WithHeld(open, recs) == open
  {
    if recs != [] { NothingHeld(open, recs[..|recs|-1]); }
  }
}
