// Which sockets a call of socketpair leaves behind, for every run of it.
module PairBooks {
  import opened Basics
  import opened LwipError
  import opened Lifecycle
  import opened Sockets
  import opened Ledgers
  import opened PairRuns

  // ---- the ledger of a run ------------------------------------------------

  function EntryAt(s: Setting, b: seq<Event>, i: nat, gen: nat): seq<Rec> {
    if i < |b| && Ret(b[i]) >= 0 then [Issued(s, gen, b[i])] else []
  }

  // After the try block: the listener, client and server or dropped socket; or server
  // and client.
  function BodyBooks(s: Setting, ask: Ask, first: nat, b: seq<Event>): seq<Rec> {
    if ask.socketType == SOCK_STREAM then
      EntryAt(s, b, 0, first) + EntryAt(s, b, 3, first + 1) + EntryAt(s, b, 7, first + 2)
    else EntryAt(s, b, 0, first) + EntryAt(s, b, 1, first + 1)
  }

  lemma FineIssues(s: Setting, e: Event)
    requires Fine(s, e) && !IsBare(e.request)
    ensures Ret(e) >= 0
  {}

  lemma BodyEntry(s: Setting, ask: Ask, first: nat, b: seq<Event>, e: Event)
    requires SoFar(s, ask, b) && |b| < BodyLength(ask) && e.request == BodyRequest(s, ask, b, |b|)
    ensures !IsEnd(e.request)
    ensures BodyBooks(s, ask, first, b + [e]) == Book(s, first, BodyBooks(s, ask, first, b), e)
  {
    assert forall i :: 0 <= i < |b| ==> (b + [e])[i] == b[i];
    if |b| > 0 {
      BodyKind(s, ask, b, 0);
      FineIssues(s, b[0]);
    }
    if ask.socketType == SOCK_STREAM && |b| > 3 {
      BodyKind(s, ask, b, 3);
      FineIssues(s, b[3]);
    }
  }

  lemma OneMoreCall(s: Setting, ask: Ask, first: nat, b: seq<Event>, e: Event)
    requires SoFar(s, ask, b) && |b| < BodyLength(ask) && e.request == BodyRequest(s, ask, b, |b|)
    requires IsLegal(s, first, b) && Ledger(s, first, b) == BodyBooks(s, ask, first, b)
    ensures IsLegal(s, first, b + [e]) && Ledger(s, first, b + [e]) == BodyBooks(s, ask, first, b + [e])
  {
    BodyEntry(s, ask, first, b, e);
    OneMoreEntry(s, first, b, e);
  }

  lemma {:induction false} SoFarLedger(s: Setting, ask: Ask, first: nat, b: seq<Event>)
    requires SoFar(s, ask, b)
    ensures IsLegal(s, first, b) && Ledger(s, first, b) == BodyBooks(s, ask, first, b)
  {
    if b != [] {
      Shorter(s, ask, b);
      SoFarLedger(s, ask, first, b[..|b|-1]);
      OneMoreCall(s, ask, first, b[..|b|-1], b[|b|-1]);
      assert b[..|b|-1] + [b[|b|-1]] == b;
    }
  }

  lemma Shorter(s: Setting, ask: Ask, b: seq<Event>)
    requires (SoFar(s, ask, b) || IsBody(s, ask, b)) && b != []
    ensures SoFar(s, ask, b[..|b|-1]) && b[|b|-1].request == BodyRequest(s, ask, b[..|b|-1], |b|-1)
  {
    var front := b[..|b|-1];
    forall i | 0 <= i <= |front| ensures BodyRequest(s, ask, front, i) == BodyRequest(s, ask, b, i) == b[i].request {
      assert front[..i] == b[..i];
      SameRequest(s, ask, front, b, i);
      BodyKind(s, ask, b, i);
    }
    forall i | 0 <= i < |front| ensures Fine(s, front[i]) {
      BodyKind(s, ask, b, i);
      assert front[i] == b[i];
    }
  }

  lemma BodyLedger(s: Setting, ask: Ask, first: nat, b: seq<Event>)
    requires IsBody(s, ask, b)
    ensures IsLegal(s, first, b) && Ledger(s, first, b) == BodyBooks(s, ask, first, b)
  {
    if b != [] {
      Shorter(s, ask, b);
      SoFarLedger(s, ask, first, b[..|b|-1]);
      OneMoreCall(s, ask, first, b[..|b|-1], b[|b|-1]);
      assert b[..|b|-1] + [b[|b|-1]] == b;
    }
  }

  // The call by which an allocation came to its end, if there was one.
  function EndOf(x: seq<Event>, gen: nat): Option<Event> {
    if x == [] then None
    else
      var e := x[|x|-1];
      if IsEnd(e.request) && e.request.meant == gen then Some(e) else EndOf(x[..|x|-1], gen)
  }

  function Settled(r: Rec, end: Option<Event>): Rec {
    if end.Some? && IsEnd(end.value.request) && r.slot.Wrapped? then EndedRec(r, end.value) else r
  }

  function AfterEnds(first: nat, recs: seq<Rec>, x: seq<Event>): seq<Rec> {
    seq(|recs|, i requires 0 <= i < |recs| => Settled(recs[i], EndOf(x, first + i)))
  }

  // Nothing is allocated, and different live sockets come to their end, each by its own
  // number.
  ghost predicate OnlyEnds(first: nat, recs: seq<Rec>, x: seq<Event>) {
    && (forall i :: 0 <= i < |x| ==> !Allocates(x[i].request) && EndsLive(first, recs, x[i]))
    && (forall i, j :: 0 <= i < j < |x| && IsEnd(x[i].request) && IsEnd(x[j].request) ==>
          x[i].request.meant != x[j].request.meant)
  }

  lemma {:induction false} NotEnded(x: seq<Event>, gen: nat)
    requires forall i :: 0 <= i < |x| && IsEnd(x[i].request) ==> x[i].request.meant != gen
    ensures EndOf(x, gen) == None
  {
    if x != [] { NotEnded(x[..|x|-1], gen); }
  }

  lemma OneEnd(s: Setting, first: nat, recs: seq<Rec>, x: seq<Event>, e: Event)
    requires OnlyEnds(first, recs, x + [e])
    ensures OnlyEnds(first, recs, x)
    ensures !Allocates(e.request) && EndsLive(first, AfterEnds(first, recs, x), e)
    ensures Book(s, first, AfterEnds(first, recs, x), e) == AfterEnds(first, recs, x + [e])
  {
    var x' := x + [e];
    assert x'[|x|] == e && x'[..|x|] == x && forall i :: 0 <= i < |x| ==> x'[i] == x[i];
    if IsEnd(e.request) {
      NotEnded(x, e.request.meant);
    }
    forall gen: nat
      ensures EndOf(x', gen) == if IsEnd(e.request) && e.request.meant == gen then Some(e) else EndOf(x, gen)
    {}
  }

  lemma OneEndBooked(s: Setting, first: nat, a: seq<Event>, recs: seq<Rec>, x: seq<Event>, e: Event)
    requires IsLegal(s, first, a) && Ledger(s, first, a) == AfterEnds(first, recs, x) && OnlyEnds(first, recs, x + [e])
    ensures IsLegal(s, first, a + [e]) && Ledger(s, first, a + [e]) == AfterEnds(first, recs, x + [e])
  {
    OneEnd(s, first, recs, x, e);
    OneMoreEntry(s, first, a, e);
  }

  lemma NoEnds(first: nat, recs: seq<Rec>)
    ensures AfterEnds(first, recs, []) == recs
  {}

  lemma {:induction false} EndsBooked(s: Setting, first: nat, a: seq<Event>, recs: seq<Rec>, x: seq<Event>)
    requires IsLegal(s, first, a) && Ledger(s, first, a) == recs && OnlyEnds(first, recs, x)
    ensures IsLegal(s, first, a + x) && Ledger(s, first, a + x) == AfterEnds(first, recs, x)
  {
    if x == [] {
      NoEnds(first, recs);
      assert a + x == a;
    } else {
      var front, e := x[..|x|-1], x[|x|-1];
      assert front + [e] == x && a + front + [e] == a + x;
      OneEnd(s, first, recs, front, e);
      EndsBooked(s, first, a, recs, front);
      OneEndBooked(s, first, a + front, recs, front, e);
    }
  }

  // ---- every run ----------------------------------------------------------

  // The call that makes socket i.
  function MadeAt(ask: Ask, i: nat): nat {
    if ask.socketType == SOCK_STREAM then (if i == 0 then 0 else if i == 1 then 3 else 7)
    else if i == 0 then 0 else 1
  }

  lemma BodyRecs(s: Setting, ask: Ask, first: nat, b: seq<Event>)
    requires IsBody(s, ask, b)
    ensures var recs := BodyBooks(s, ask, first, b);
            && |recs| <= (if ask.socketType == SOCK_STREAM then 3 else 2)
            && (forall i :: 0 <= i < |recs| ==> MadeAt(ask, i) < |b| && Ret(b[MadeAt(ask, i)]) >= 0
                                                && recs[i] == Issued(s, first + i, b[MadeAt(ask, i)]))
            && (HasListener(s, ask, b) ==> |recs| > 0)
            && (HasClient(s, ask, b) ==> |recs| > 1)
            && (HasServer(s, ask, b) ==> |recs| > ServerGen(ask, 0))
            && (|b| > 0 && Allocates(b[|b|-1].request) && Ret(b[|b|-1]) >= 0 ==>
                  recs != [] && MadeAt(ask, |recs| - 1) == |b| - 1)
  {
    forall i | 0 <= i < |b| && Allocates(b[i].request)
      ensures i == 0 || i == ClientAt(ask) || i == ServerAt(ask)
      ensures Fine(s, b[i]) ==> Ret(b[i]) >= 0
    {
      BodyKind(s, ask, b, i);
      if Fine(s, b[i]) { FineIssues(s, b[i]); }
    }
    if |b| > 0 { BodyKind(s, ask, b, 0); }
    if ClientAt(ask) < |b| { BodyKind(s, ask, b, ClientAt(ask)); }
    if ServerAt(ask) < |b| { BodyKind(s, ask, b, ServerAt(ask)); }
  }

  // One phase after another.
  lemma EndsAppend(first: nat, recs: seq<Rec>, x: seq<Event>, y: seq<Event>)
    requires OnlyEnds(first, recs, x) && OnlyEnds(first, recs, y)
    requires forall i, j :: 0 <= i < |x| && 0 <= j < |y| && IsEnd(x[i].request) && IsEnd(y[j].request) ==>
               x[i].request.meant != y[j].request.meant
    ensures OnlyEnds(first, recs, x + y)
  {
    var z := x + y;
    forall i | 0 <= i < |z| ensures z[i] == if i < |x| then x[i] else y[i-|x|] {}
  }

  lemma ListenerPhase(s: Setting, ask: Ask, first: nat, b: seq<Event>, x: seq<Event>)
    requires IsBody(s, ask, b) && Through(s, ListenerClosing(s, ask, first, b), x)
    ensures OnlyEnds(first, BodyBooks(s, ask, first, b), x)
    ensures HasListener(s, ask, b) ==> |x| == 1
    ensures forall i :: 0 <= i < |x| ==> HasListener(s, ask, b) && x[i].request.Close? && x[i].request.meant == first
  {
    BodyRecs(s, ask, first, b);
  }

  lemma CheckPhase(s: Setting, first: nat, recs: seq<Rec>, blocking: bool, server: int, client: int, x: seq<Event>)
    requires x == [] || IsCheck(s, CheckRequests(blocking, server, client), x)
    ensures OnlyEnds(first, recs, x) && forall i :: 0 <= i < |x| ==> !IsEnd(x[i].request)
  {}

  lemma PairPhase(s: Setting, ask: Ask, first: nat, b: seq<Event>, x: seq<Event>)
    requires IsBody(s, ask, b) && (x == [] || Through(s, PairClosing(s, ask, first, b), x))
    ensures OnlyEnds(first, BodyBooks(s, ask, first, b), x)
    ensures forall i :: 0 <= i < |x| ==> x[i].request.Close? && x[i].request.meant in {ServerGen(ask, first), first + 1}
  {
    BodyRecs(s, ask, first, b);
    var recs, requests := BodyBooks(s, ask, first, b), PairClosing(s, ask, first, b);
    forall i | 0 <= i < |x| ensures x[i].request.Close? && x[i].request.meant in {ServerGen(ask, first), first + 1} {
      assert x[i].request == requests[i];
    }
    forall i | 0 <= i < |x| ensures EndsLive(first, recs, x[i]) {
      assert x[i].request == requests[i];
    }
    assert |x| == 2 ==> x[0].request == requests[0] && x[1].request == requests[1];
  }

  lemma TailCloses(s: Setting, ask: Ask, first: nat, run: Run)
    requires IsKnown(ask.family) && IsRun(s, ask, first, run)
    ensures OnlyEnds(first, BodyBooks(s, ask, first, run.body), Tail(run))
  {
    var recs := BodyBooks(s, ask, first, run.body);
    ListenerPhase(s, ask, first, run.body, run.closing);
    if run.check == [] {
      CheckPhase(s, first, recs, ask.blocking, 0, 0, []);
    } else {
      CheckPhase(s, first, recs, ask.blocking, Ret(run.body[ServerAt(ask)]), Ret(run.body[ClientAt(ask)]), run.check);
    }
    PairPhase(s, ask, first, run.body, run.cleanup);
    EndsAppend(first, recs, run.closing, run.check);
    EndsAppend(first, recs, run.closing + run.check, run.cleanup);
  }

  lemma CheckHasNoEnd(s: Setting, ask: Ask, first: nat, run: Run)
    requires IsKnown(ask.family) && IsRun(s, ask, first, run)
    ensures forall i :: 0 <= i < |run.check| ==> !IsEnd(run.check[i].request)
  {
    if run.check != [] {
      CheckPhase(s, first, [], ask.blocking, Ret(run.body[ServerAt(ask)]), Ret(run.body[ClientAt(ask)]), run.check);
    }
  }

  lemma ThreeParts(x: seq<Event>, y: seq<Event>, z: seq<Event>)
    ensures forall i :: 0 <= i < |x + y + z| ==>
              (x + y + z)[i] ==
                if i < |x| then x[i] else if i < |x| + |y| then y[i - |x|] else z[i - |x| - |y|]
  {}

  lemma NoFinalizerInTail(s: Setting, ask: Ask, first: nat, run: Run)
    requires IsKnown(ask.family) && IsRun(s, ask, first, run)
    ensures forall i :: 0 <= i < |Tail(run)| ==> !Tail(run)[i].request.Finalize?
  {
    ListenerPhase(s, ask, first, run.body, run.closing);
    CheckHasNoEnd(s, ask, first, run);
    PairPhase(s, ask, first, run.body, run.cleanup);
    ThreeParts(run.closing, run.check, run.cleanup);
  }

  // The entries after a whole run.
  function Books(s: Setting, ask: Ask, first: nat, run: Run): (recs: seq<Rec>)
    ensures |recs| == |BodyBooks(s, ask, first, run.body)|
  {
    AfterEnds(first, BodyBooks(s, ask, first, run.body), Tail(run))
  }

  lemma RunBooked(s: Setting, ask: Ask, first: nat, run: Run)
    requires IsKnown(ask.family) && IsRun(s, ask, first, run)
    ensures IsLegal(s, first, Events(run)) && Ledger(s, first, Events(run)) == Books(s, ask, first, run)
  {
    BodyLedger(s, ask, first, run.body);
    TailCloses(s, ask, first, run);
    EndsBooked(s, first, run.body, BodyBooks(s, ask, first, run.body), Tail(run));
  }

  // ---- which of them are left ---------------------------------------------

  // Closing the server raised, so that the client's turn did not come.
  predicate ClientLeft(s: Setting, ask: Ask, run: Run) {
    HasServer(s, ask, run.body) && HasClient(s, ask, run.body) && run.cleanup != [] && !Fine(s, run.cleanup[0])
  }

  // The try block ended in accept(), which could not unparse the peer's address.
  predicate PeerDropped(s: Setting, run: Run) {
    run.body != [] && Drops(s, run.body[|run.body|-1])
  }

  // The try block ended in a call that issued a number and was made to raise by errno.
  predicate NumberLost(s: Setting, run: Run) {
    run.body != [] && Loses(s, run.body[|run.body|-1])
  }

  lemma {:induction false} EndAppend(x: seq<Event>, y: seq<Event>, gen: nat)
    ensures EndOf(x + y, gen) == if EndOf(y, gen).Some? then EndOf(y, gen) else EndOf(x, gen)
  {
    if y == [] {
      assert x + y == x;
    } else {
      assert (x + y)[..|x + y|-1] == x + y[..|y|-1];
      EndAppend(x, y[..|y|-1], gen);
    }
  }

  lemma ThreePhases(x: seq<Event>, y: seq<Event>, z: seq<Event>, gen: nat)
    requires forall i :: 0 <= i < |y| ==> !IsEnd(y[i].request)
    ensures EndOf(x + y + z, gen) == if EndOf(z, gen).Some? then EndOf(z, gen) else EndOf(x, gen)
  {
    EndAppend(x + y, z, gen);
    EndAppend(x, y, gen);
    NotEnded(y, gen);
  }

  // How the close() of each socket ended.
  lemma ClosingFate(s: Setting, ask: Ask, first: nat, run: Run, gen: nat)
    requires IsKnown(ask.family) && IsRun(s, ask, first, run)
    ensures EndOf(Tail(run), gen) ==
              if gen == first && HasListener(s, ask, run.body) then Some(run.closing[0]) else EndOf(run.cleanup, gen)
  {
    CheckHasNoEnd(s, ask, first, run);
    ThreePhases(run.closing, run.check, run.cleanup, gen);
    ListenerPhase(s, ask, first, run.body, run.closing);
    PairPhase(s, ask, first, run.body, run.cleanup);
    if gen == first && HasListener(s, ask, run.body) {
      NotEnded(run.cleanup, gen);
      assert run.closing[0].request.meant == first;
      assert run.closing[..0] == [];
    } else {
      NotEnded(run.closing, gen);
    }
  }

  lemma CleanupFates(s: Setting, ask: Ask, first: nat, b: seq<Event>, x: seq<Event>)
    requires Through(s, PairClosing(s, ask, first, b), x)
    ensures EndOf(x, ServerGen(ask, first)) == if HasServer(s, ask, b) then Some(x[0]) else None
    ensures EndOf(x, first + 1) ==
      if HasClient(s, ask, b) && (HasServer(s, ask, b) ==> Fine(s, x[0])) then Some(x[|x|-1]) else None
  {
    var requests := PairClosing(s, ask, first, b);
    if |x| == 2 {
      assert x[..1] == [x[0]];
    }
    if |x| > 0 {
      assert x[0].request == requests[0];
    }
  }

  // It was refused or released nothing.
  predicate KeepsNumber(end: Option<Event>) {
    end.Some? && HowOf(end.value) != How.Releases
  }

  lemma EntryFate(s: Setting, e: Event, gen: nat, end: Option<Event>)
    requires Ret(e) >= 0 && Allocates(e.request) && (end.Some? ==> IsEnd(end.value.request))
    ensures var r := Settled(Issued(s, gen, e), end);
            && (IsLive(r) <==> end == None && (Fine(s, e) || Drops(s, e)))
            && (r.slot.Lost? <==> Loses(s, e))
            && (r.kept <==> !Loses(s, e) && KeepsNumber(end))
  {}

  lemma {:induction false} EndIsEnd(x: seq<Event>, gen: nat)
    ensures EndOf(x, gen).Some? ==> IsEnd(EndOf(x, gen).value.request) && EndOf(x, gen).value.request.meant == gen
  {
    if x != [] { EndIsEnd(x[..|x|-1], gen); }
  }

  // Which socket is which, by number in the ledger.
  lemma Roles(s: Setting, ask: Ask, first: nat, b: seq<Event>, i: nat)
    requires IsBody(s, ask, b) && i < |BodyBooks(s, ask, first, b)|
    ensures i < 3 && MadeAt(ask, i) < |b| && Allocates(b[MadeAt(ask, i)].request) && Ret(b[MadeAt(ask, i)]) >= 0
    ensures MadeAt(ask, i) < |b| - 1 ==> Fine(s, b[MadeAt(ask, i)])
    ensures Fine(s, b[MadeAt(ask, i)]) ==>
              && (HasListener(s, ask, b) <==> ask.socketType == SOCK_STREAM)
              && (i == ServerGen(ask, 0) ==> HasServer(s, ask, b)) && (i == 1 ==> HasClient(s, ask, b))
    ensures Drops(s, b[MadeAt(ask, i)]) <==> i == 2 && Drops(s, b[|b|-1])
    ensures Loses(s, b[MadeAt(ask, i)]) <==> i == |BodyBooks(s, ask, first, b)| - 1 && Loses(s, b[|b|-1])
  {
    BodyRecs(s, ask, first, b);
    BodyKind(s, ask, b, MadeAt(ask, i));
    BodyKind(s, ask, b, |b| - 1);
  }

  // One of the two returned, or the client left behind by a close() of the server that
  // raised.
  predicate IsKeptOpen(s: Setting, ask: Ask, run: Run, i: nat) {
    (Succeeds(s, ask, run) && !(ask.socketType == SOCK_STREAM && i == 0)) || (ClientLeft(s, ask, run) && i == 1)
  }

  // A socket that was made comes to its end unless it is kept open; a dropped one does not.
  predicate EndsUnlessKept(s: Setting, ask: Ask, run: Run, i: nat, e: Event, end: Option<Event>) {
    && (Fine(s, e) ==> (end == None <==> IsKeptOpen(s, ask, run, i)))
    && (Drops(s, e) ==> end == None)
    && (IsKeptOpen(s, ask, run, i) ==> Fine(s, e))
  }

  lemma EndsFromBody(s: Setting, ask: Ask, first: nat, run: Run, i: nat)
    requires IsBody(s, ask, run.body) && i < |BodyBooks(s, ask, first, run.body)|
    requires HasListener(s, ask, run.body) ==> run.closing != []
    requires EndOf(Tail(run), first + i) ==
               if i == 0 && HasListener(s, ask, run.body) then Some(run.closing[0]) else EndOf(run.cleanup, first + i)
    requires if Succeeds(s, ask, run) then run.cleanup == []
             else Through(s, PairClosing(s, ask, first, run.body), run.cleanup)
    ensures MadeAt(ask, i) < |run.body|
    ensures EndsUnlessKept(s, ask, run, i, run.body[MadeAt(ask, i)], EndOf(Tail(run), first + i))
  {
    Roles(s, ask, first, run.body, i);
    if !Succeeds(s, ask, run) {
      CleanupFates(s, ask, first, run.body, run.cleanup);
    }
  }

  lemma HowOfSocket(s: Setting, ask: Ask, first: nat, run: Run, i: nat)
    requires IsKnown(ask.family) && IsRun(s, ask, first, run) && i < |BodyBooks(s, ask, first, run.body)|
    ensures MadeAt(ask, i) < |run.body|
    ensures EndsUnlessKept(s, ask, run, i, run.body[MadeAt(ask, i)], EndOf(Tail(run), first + i))
  {
    ClosingFate(s, ask, first, run, first + i);
    EndsFromBody(s, ask, first, run, i);
  }

  lemma EntryMade(s: Setting, ask: Ask, first: nat, b: seq<Event>, i: nat)
    requires IsBody(s, ask, b) && i < |BodyBooks(s, ask, first, b)|
    ensures |BodyBooks(s, ask, first, b)| <= (if ask.socketType == SOCK_STREAM then 3 else 2)
    ensures MadeAt(ask, i) < |b| && BodyBooks(s, ask, first, b)[i] == Issued(s, first + i, b[MadeAt(ask, i)])
  {
    BodyRecs(s, ask, first, b);
  }

  lemma EntryIs(s: Setting, ask: Ask, first: nat, run: Run, i: nat)
    requires IsBody(s, ask, run.body) && i < |Books(s, ask, first, run)|
    ensures |Books(s, ask, first, run)| <= (if ask.socketType == SOCK_STREAM then 3 else 2)
    ensures MadeAt(ask, i) < |run.body|
    ensures Books(s, ask, first, run)[i] ==
              Settled(Issued(s, first + i, run.body[MadeAt(ask, i)]), EndOf(Tail(run), first + i))
  {
    EntryMade(s, ask, first, run.body, i);
  }

  // What becomes of a record, put together.
  lemma FateIs(s: Setting, ask: Ask, run: Run, first: nat, i: nat, n: nat, e: Event, end: Option<Event>)
    requires Ret(e) >= 0 && Allocates(e.request) && (end.Some? ==> IsEnd(end.value.request))
    requires Drops(s, e) <==> i == 2 && PeerDropped(s, run)
    requires Loses(s, e) <==> i == n - 1 && NumberLost(s, run)
    requires EndsUnlessKept(s, ask, run, i, e, end)
    ensures var r := Settled(Issued(s, first + i, e), end);
            && (IsLive(r) <==> IsKeptOpen(s, ask, run, i) || (PeerDropped(s, run) && i == 2))
            && (r.slot.Lost? <==> NumberLost(s, run) && i == n - 1)
            && (r.kept <==> !r.slot.Lost? && KeepsNumber(end))
  {
    EntryFate(s, e, first + i, end);
  }

  lemma FateFromBody(s: Setting, ask: Ask, first: nat, run: Run, i: nat)
    requires IsBody(s, ask, run.body) && i < |Books(s, ask, first, run)| && MadeAt(ask, i) < |run.body|
    requires EndsUnlessKept(s, ask, run, i, run.body[MadeAt(ask, i)], EndOf(Tail(run), first + i))
    ensures IsFate(s, ask, first, run, i, Books(s, ask, first, run))
  {
    EntryIs(s, ask, first, run, i);
    Roles(s, ask, first, run.body, i);
    EndIsEnd(Tail(run), first + i);
    FateIs(s, ask, run, first, i, |Books(s, ask, first, run)|, run.body[MadeAt(ask, i)], EndOf(Tail(run), first + i));
  }

  predicate IsFate(s: Setting, ask: Ask, first: nat, run: Run, i: nat, recs: seq<Rec>) {
    && i < |recs| <= (if ask.socketType == SOCK_STREAM then 3 else 2)
    && (IsLive(recs[i]) <==> IsKeptOpen(s, ask, run, i) || (PeerDropped(s, run) && i == 2))
    && (recs[i].slot.Lost? <==> NumberLost(s, run) && i == |recs| - 1)
    && (recs[i].kept <==> !recs[i].slot.Lost? && KeepsNumber(EndOf(Tail(run), first + i)))
  }

  // Socket i of the ledger is open in the end if it is one of the two returned, or was
  // dropped by accept(), or is the client left behind; it was lost if errno spoilt the
  // call that issued it; otherwise it is closed, and lwIP keeps its number exactly if its
  // close() was refused or released nothing.
  lemma WhoIsLeft(s: Setting, ask: Ask, first: nat, run: Run, i: nat)
    requires IsKnown(ask.family) && IsRun(s, ask, first, run) && i < |Books(s, ask, first, run)|
    ensures IsFate(s, ask, first, run, i, Books(s, ask, first, run))
  {
    HowOfSocket(s, ask, first, run, i);
    FateFromBody(s, ask, first, run, i);
  }
}
