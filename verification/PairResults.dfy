// What every call of LwIP.socketpair in src/lwip/__init__.py leaves behind, whatever
// call fails on the way.
module PairResults {
  import opened Basics
  import opened LwipError
  import opened Lifecycle
  import opened Sockets
  import opened Ledgers
  import opened PairRuns
  import opened PairBooks
  import SockAddrs

  // lwIP and the ledger agree after every run: nothing that existed before was touched,
  // and every lwip_close hit the allocation it was meant for.
  lemma EveryRunAgrees(s: Setting, lwip: Schedule, w: World, ask: Ask, run: Run)
    requires FdsOk(w.fds) && IsRun(s, ask, w.fds.issued, run) && Plays(s, lwip, w, Events(run))
    ensures Agrees(w.fds, WorldAfter(w, Events(run)).fds, Books(s, ask, w.fds.issued, run))
  {
    if IsKnown(ask.family) {
      RunBooked(s, ask, w.fds.issued, run);
    }
    LedgerAgrees(s, lwip, w, Events(run));
  }

  // A call spoils the balance: it loses a number, drops a socket or fails to release one.
  predicate Spoils(s: Setting, e: Event) {
    Loses(s, e) || Drops(s, e) || (IsEnd(e.request) && HowOf(e) != How.Releases)
  }

  ghost predicate Spoilt(s: Setting, x: seq<Event>) {
    exists i :: 0 <= i < |x| && Spoils(s, x[i])
  }

  // Some close() was refused or released nothing.
  ghost predicate SomeUnreleased(x: seq<Event>) {
    exists i :: 0 <= i < |x| && IsEnd(x[i].request) && HowOf(x[i]) != How.Releases
  }

  ghost predicate SomeKept(recs: seq<Rec>) {
    exists i :: 0 <= i < |recs| && recs[i].kept
  }

  ghost predicate SomeHeld(recs: seq<Rec>) {
    exists i :: 0 <= i < |recs| && Holding(recs[i])
  }

  lemma SpoiltAppend(s: Setting, x: seq<Event>, y: seq<Event>)
    ensures Spoilt(s, x + y) <==> Spoilt(s, x) || Spoilt(s, y)
  {
    var z := x + y;
    if i :| 0 <= i < |z| && Spoils(s, z[i]) {
      assert z[i] == if i < |x| then x[i] else y[i-|x|];
    }
    if i :| 0 <= i < |x| && Spoils(s, x[i]) { assert z[i] == x[i]; }
    if i :| 0 <= i < |y| && Spoils(s, y[i]) { assert z[|x| + i] == y[i]; }
  }

  lemma BodySpoiltIff(s: Setting, ask: Ask, run: Run)
    requires IsBody(s, ask, run.body)
    ensures Spoilt(s, run.body) <==> NumberLost(s, run) || PeerDropped(s, run)
  {
    var b := run.body;
    forall i | 0 <= i < |b| ensures !IsEnd(b[i].request) && (Spoils(s, b[i]) ==> i == |b| - 1) {
      BodyKind(s, ask, b, i);
    }
    if b != [] && Spoils(s, b[|b|-1]) { assert Spoilt(s, b); }
  }

  lemma TailSpoiltIff(s: Setting, first: nat, recs: seq<Rec>, x: seq<Event>)
    requires OnlyEnds(first, recs, x)
    ensures Spoilt(s, x) <==> SomeUnreleased(x)
  {
    forall i | 0 <= i < |x| ensures Spoils(s, x[i]) <==> IsEnd(x[i].request) && HowOf(x[i]) != How.Releases {}
  }

  // Only the last call of the try block can lose or drop anything.
  lemma SpoiltIff(s: Setting, ask: Ask, first: nat, run: Run)
    requires IsKnown(ask.family) && IsRun(s, ask, first, run)
    ensures Spoilt(s, Events(run)) <==> NumberLost(s, run) || PeerDropped(s, run) || SomeUnreleased(Tail(run))
  {
    TailCloses(s, ask, first, run);
    SpoiltAppend(s, run.body, Tail(run));
    BodySpoiltIff(s, ask, run);
    TailSpoiltIff(s, first, BodyBooks(s, ask, first, run.body), Tail(run));
  }

  lemma {:induction false} EndedAt(first: nat, recs: seq<Rec>, x: seq<Event>, i: nat)
    requires OnlyEnds(first, recs, x) && i < |x| && IsEnd(x[i].request)
    ensures EndOf(x, x[i].request.meant) == Some(x[i])
  {
    if i < |x| - 1 {
      assert x[i].request.meant == x[..|x|-1][i].request.meant;
      EndedAt(first, recs, x[..|x|-1], i);
    }
  }

  lemma {:induction false} EndedSomewhere(x: seq<Event>, gen: nat)
    requires EndOf(x, gen).Some?
    ensures exists i :: 0 <= i < |x| && IsEnd(x[i].request) && x[i] == EndOf(x, gen).value && x[i].request.meant == gen
  {
    var e := x[|x|-1];
    if !(IsEnd(e.request) && e.request.meant == gen) {
      EndedSomewhere(x[..|x|-1], gen);
      var i :| 0 <= i < |x| - 1 && IsEnd(x[..|x|-1][i].request) && x[..|x|-1][i] == EndOf(x, gen).value;
      assert IsEnd(x[i].request);
    }
  }

  lemma SomeKeptIff(first: nat, recs: seq<Rec>, x: seq<Event>)
    requires OnlyEnds(first, recs, x) && !SomeKept(recs)
    ensures SomeUnreleased(x) <==> SomeKept(AfterEnds(first, recs, x))
  {
    var after := AfterEnds(first, recs, x);
    if i :| 0 <= i < |x| && IsEnd(x[i].request) && HowOf(x[i]) != How.Releases {
      EndedAt(first, recs, x, i);
      assert EndsLive(first, recs, x[i]);
      assert after[x[i].request.meant - first].kept;
    }
    if i :| 0 <= i < |after| && after[i].kept {
      assert !recs[i].kept;
      EndedSomewhere(x, first + i);
    }
  }

  lemma KeptIff(s: Setting, ask: Ask, first: nat, run: Run)
    requires IsKnown(ask.family) && IsRun(s, ask, first, run)
    ensures SomeUnreleased(Tail(run)) <==> SomeKept(Books(s, ask, first, run))
  {
    TailCloses(s, ask, first, run);
    BodyRecs(s, ask, first, run.body);
    SomeKeptIff(first, BodyBooks(s, ask, first, run.body), Tail(run));
  }

  lemma SizeOfBooks(s: Setting, ask: Ask, first: nat, run: Run)
    requires IsBody(s, ask, run.body)
    ensures PeerDropped(s, run) ==> |Books(s, ask, first, run)| == 3
    ensures ClientLeft(s, ask, run) ==> |Books(s, ask, first, run)| >= 2
    ensures NumberLost(s, run) ==> |Books(s, ask, first, run)| > 0
    ensures Succeeds(s, ask, run) ==> |Books(s, ask, first, run)| == if ask.socketType == SOCK_STREAM then 3 else 2
  {
    BodyRecs(s, ask, first, run.body);
    if run.body != [] { BodyKind(s, ask, run.body, |run.body| - 1); }
  }

  // A failing run leaves something held exactly for one of these reasons.
  lemma HeldIff(s: Setting, ask: Ask, first: nat, run: Run)
    requires IsKnown(ask.family) && IsRun(s, ask, first, run) && !Succeeds(s, ask, run)
    ensures SomeHeld(Books(s, ask, first, run)) <==> ClientLeft(s, ask, run) || Spoilt(s, Events(run))
  {
    SpoiltIff(s, ask, first, run);
    KeptIff(s, ask, first, run);
    SizeOfBooks(s, ask, first, run);
    var recs := Books(s, ask, first, run);
    forall i | 0 <= i < |recs|
      ensures Holding(recs[i]) <==> (PeerDropped(s, run) && i == 2) || (ClientLeft(s, ask, run) && i == 1)
                                    || (NumberLost(s, run) && i == |recs| - 1) || recs[i].kept
    {
      WhoIsLeft(s, ask, first, run, i);
    }
    if PeerDropped(s, run) { assert Holding(recs[2]); }
    if ClientLeft(s, ask, run) { assert Holding(recs[1]); }
    if NumberLost(s, run) { assert Holding(recs[|recs|-1]); }
  }

  // Failure: lwIP holds what it held before exactly when no call of the run spoilt the
  // balance and the client was not left behind.
  lemma FailureLeavesNothingIff(s: Setting, lwip: Schedule, w: World, ask: Ask, run: Run)
    requires FdsOk(w.fds) && IsRun(s, ask, w.fds.issued, run) && Plays(s, lwip, w, Events(run))
    requires IsKnown(ask.family) && !Succeeds(s, ask, run)
    ensures WorldAfter(w, Events(run)).fds.open == w.fds.open <==>
              !ClientLeft(s, ask, run) && !Spoilt(s, Events(run))
  {
    EveryRunAgrees(s, lwip, w, ask, run);
    NothingHeldIff(w.fds, WorldAfter(w, Events(run)).fds, Books(s, ask, w.fds.issued, run));
    HeldIff(s, ask, w.fds.issued, run);
  }

  ghost predicate ClosesSucceed(s: Setting, x: seq<Event>) {
    forall i :: 0 <= i < |x| && x[i].request.Close? ==> Fine(s, x[i])
  }

  lemma FineClosesRelease(s: Setting, x: seq<Event>)
    requires !s.strict && ClosesSucceed(s, x) && forall i :: 0 <= i < |x| ==> !x[i].request.Finalize?
    ensures !SomeUnreleased(x)
  {}

  // With the default warnings filter and closes that succeed, a failing call leaves
  // nothing but a peer that accept() dropped.
  lemma OnlyDropsSpoil(s: Setting, ask: Ask, first: nat, run: Run)
    requires IsKnown(ask.family) && IsRun(s, ask, first, run) && !s.strict
    requires ClosesSucceed(s, Tail(run))
    ensures !ClientLeft(s, ask, run)
    ensures Spoilt(s, Events(run)) <==> PeerDropped(s, run)
  {
    SpoiltIff(s, ask, first, run);
    NoFinalizerInTail(s, ask, first, run);
    FineClosesRelease(s, Tail(run));
    PairPhase(s, ask, first, run.body, run.cleanup);
    assert run.cleanup != [] ==> run.cleanup[0] == Tail(run)[|run.closing| + |run.check|];
  }

  lemma WhenClosesSucceed(s: Setting, lwip: Schedule, w: World, ask: Ask, run: Run)
    requires FdsOk(w.fds) && IsRun(s, ask, w.fds.issued, run) && Plays(s, lwip, w, Events(run))
    requires IsKnown(ask.family) && !Succeeds(s, ask, run) && !s.strict
    requires ClosesSucceed(s, Tail(run))
    ensures WorldAfter(w, Events(run)).fds.open == w.fds.open <==> !PeerDropped(s, run)
  {
    FailureLeavesNothingIff(s, lwip, w, ask, run);
    OnlyDropsSpoil(s, ask, w.fds.issued, run);
  }

  // Every socket that a run left open is collected.
  ghost predicate CollectsAll(first: nat, recs: seq<Rec>, x: seq<Event>) {
    && OnlyEnds(first, recs, x)
    && (forall j :: 0 <= j < |x| ==> x[j].request.Finalize?)
    && (forall i :: 0 <= i < |recs| && IsLive(recs[i]) ==> EndOf(x, first + i).Some?)
  }

  lemma CollectedEntry(first: nat, recs: seq<Rec>, x: seq<Event>, i: nat)
    requires CollectsAll(first, recs, x) && i < |recs|
    ensures var r := AfterEnds(first, recs, x)[i];
            if IsLive(recs[i]) then Holding(r) <==> KeepsNumber(EndOf(x, first + i)) else r == recs[i]
    ensures EndOf(x, first + i).Some? <==> IsLive(recs[i])
  {
    EndIsEnd(x, first + i);
    if EndOf(x, first + i).Some? {
      EndedSomewhere(x, first + i);
    }
  }

  lemma HeldAfterCollection(first: nat, recs: seq<Rec>, x: seq<Event>)
    requires CollectsAll(first, recs, x)
    ensures SomeHeld(AfterEnds(first, recs, x)) <==>
              SomeUnreleased(x) || exists i :: 0 <= i < |recs| && !IsLive(recs[i]) && Holding(recs[i])
  {
    var after := AfterEnds(first, recs, x);
    forall i | 0 <= i < |recs|
      ensures Holding(after[i]) <==>
                if IsLive(recs[i]) then KeepsNumber(EndOf(x, first + i)) else Holding(recs[i])
      ensures EndOf(x, first + i).Some? <==> IsLive(recs[i])
    {
      CollectedEntry(first, recs, x, i);
    }
    if j :| 0 <= j < |x| && IsEnd(x[j].request) && HowOf(x[j]) != How.Releases {
      EndedAt(first, recs, x, j);
      assert EndsLive(first, recs, x[j]);
      assert Holding(after[x[j].request.meant - first]);
    }
    if i :| 0 <= i < |recs| && !IsLive(recs[i]) && Holding(recs[i]) { assert Holding(after[i]); }
    if i :| 0 <= i < |after| && Holding(after[i]) {
      if IsLive(recs[i]) { EndedSomewhere(x, first + i); }
    }
  }

  lemma HeldButNotLive(s: Setting, ask: Ask, first: nat, run: Run)
    requires IsKnown(ask.family) && IsRun(s, ask, first, run)
    ensures var recs := Books(s, ask, first, run);
            (exists i :: 0 <= i < |recs| && !IsLive(recs[i]) && Holding(recs[i]))
            <==> NumberLost(s, run) || SomeUnreleased(Tail(run))
  {
    var recs := Books(s, ask, first, run);
    KeptIff(s, ask, first, run);
    SizeOfBooks(s, ask, first, run);
    forall i | 0 <= i < |recs|
      ensures !IsLive(recs[i]) && Holding(recs[i]) <==> (NumberLost(s, run) && i == |recs| - 1) || recs[i].kept
    {
      WhoIsLeft(s, ask, first, run, i);
      KeptIsNotLive(s, ask, first, run, i);
    }
    if NumberLost(s, run) { assert !IsLive(recs[|recs|-1]) && Holding(recs[|recs|-1]); }
  }

  lemma KeptIsNotLive(s: Setting, ask: Ask, first: nat, run: Run, i: nat)
    requires IsBody(s, ask, run.body) && i < |Books(s, ask, first, run)|
    ensures Books(s, ask, first, run)[i].kept ==> !IsLive(Books(s, ask, first, run)[i])
  {
    EntryIs(s, ask, first, run, i);
    BodyRecs(s, ask, first, run.body);
    EndIsEnd(Tail(run), first + i);
  }

  // Once whatever a run left open is collected, lwIP holds what it held before exactly
  // when no number was lost and every close, of the run or of a finalizer, released its
  // number: the finalizers make up for a dropped peer and for a client left behind.
  lemma CollectionGivesBackIff(s: Setting, lwip: Schedule, w: World, ask: Ask, run: Run, x: seq<Event>)
    requires FdsOk(w.fds) && IsKnown(ask.family) && IsRun(s, ask, w.fds.issued, run)
    requires Plays(s, lwip, w, Events(run) + x) && CollectsAll(w.fds.issued, Books(s, ask, w.fds.issued, run), x)
    ensures WorldAfter(w, Events(run) + x).fds.open == w.fds.open <==>
              !NumberLost(s, run) && !SomeUnreleased(Tail(run)) && !SomeUnreleased(x)
  {
    var first := w.fds.issued;
    var recs := Books(s, ask, first, run);
    RunBooked(s, ask, first, run);
    EndsBooked(s, first, Events(run), recs, x);
    LedgerAgrees(s, lwip, w, Events(run) + x);
    NothingHeldIff(w.fds, WorldAfter(w, Events(run) + x).fds, AfterEnds(first, recs, x));
    HeldAfterCollection(first, recs, x);
    HeldButNotLive(s, ask, first, run);
  }

  lemma SuccessBooks(s: Setting, ask: Ask, first: nat, run: Run)
    requires IsRun(s, ask, first, run) && Succeeds(s, ask, run)
    ensures var recs := Books(s, ask, first, run);
            && |recs| == (if ask.socketType == SOCK_STREAM then 3 else 2)
            && recs[1] == Record(first + 1, Ret(run.body[ClientAt(ask)]), NewSlot(Ret(run.body[ClientAt(ask)])), false)
            && recs[ServerGen(ask, 0)] ==
                 Record(ServerGen(ask, first), Ret(run.body[ServerAt(ask)]),
                        NewSlot(Ret(run.body[ServerAt(ask)])), false)
            && (ask.socketType == SOCK_STREAM ==> !Holding(recs[0]))
  {
    SizeOfBooks(s, ask, first, run);
    forall i: nat | i < |Books(s, ask, first, run)|
      ensures Books(s, ask, first, run)[i] ==
                Settled(Issued(s, first + i, run.body[MadeAt(ask, i)]), EndOf(Tail(run), first + i))
      ensures EndOf(Tail(run), first + i) == None <==> !(ask.socketType == SOCK_STREAM && i == 0)
    {
      EntryIs(s, ask, first, run, i);
      HowOfSocket(s, ask, first, run, i);
    }
    if ask.socketType == SOCK_STREAM {
      ListenerIsClosed(s, ask, first, run);
    }
  }

  // Success: lwIP holds exactly two numbers more, the ones of the returned sockets.
  lemma SuccessLeavesTwo(s: Setting, lwip: Schedule, w: World, ask: Ask, run: Run)
    requires FdsOk(w.fds) && IsRun(s, ask, w.fds.issued, run) && Plays(s, lwip, w, Events(run)) && Succeeds(s, ask, run)
    ensures var client, server := Ret(run.body[ClientAt(ask)]), Ret(run.body[ServerAt(ask)]);
            && client !in w.fds.open && server !in w.fds.open && client != server
            && WorldAfter(w, Events(run)).fds.open ==
                 w.fds.open[client := w.fds.issued + 1][server := ServerGen(ask, w.fds.issued)]
  {
    EveryRunAgrees(s, lwip, w, ask, run);
    SuccessBooks(s, ask, w.fds.issued, run);
    TwoHeld(w.fds, WorldAfter(w, Events(run)).fds, Books(s, ask, w.fds.issued, run), ask.socketType == SOCK_STREAM);
  }

  lemma TwoHeld(before: Fds, f: Fds, recs: seq<Rec>, stream: bool)
    requires Agrees(before, f, recs) && |recs| == (if stream then 3 else 2)
    requires IsLive(recs[1]) && (if stream then IsLive(recs[2]) && !Holding(recs[0]) else IsLive(recs[0]))
    ensures var server := recs[if stream then 2 else 0];
            && recs[1].born !in before.open && server.born !in before.open && recs[1].born != server.born
            && f.open == before.open[recs[1].born := recs[1].gen][server.born := server.gen]
  {
    var client, server := recs[1], recs[if stream then 2 else 0];
    var m: map<int, nat> := before.open;
    HeldInTheEnd(before, f, recs);
    assert RecOk(f, client) && RecOk(f, server) && client.gen != server.gen;
    assert recs[..2][..1] == recs[..1] && recs[..1][..0] == [];
    assert WithHeld(m, recs[..1]) == if stream then m else m[server.born := server.gen];
    assert WithHeld(m, recs[..2]) == WithHeld(m, recs[..1])[client.born := client.gen];
    if !stream {
      assert recs == recs[..2];
      assert m[server.born := server.gen][client.born := client.gen]
             == m[client.born := client.gen][server.born := server.gen];
    }
  }

  // The record of socket i, by what became of the call that made it and by the call that
  // ended it.
  predicate HasRole(s: Setting, ask: Ask, first: nat, run: Run, i: nat, r: Rec) {
    && i < 3 && MadeAt(ask, i) < |run.body|
    && var e := run.body[MadeAt(ask, i)];
       var open := Record(first + i, Ret(e), NewSlot(Ret(e)), false);
       && (Fine(s, e) || Drops(s, e) || Loses(s, e))
       && (Loses(s, e) ==> r.slot.Lost?)
       && (Drops(s, e) ==> r == open)
       && (Fine(s, e) && IsKeptOpen(s, ask, run, i) ==> r == open)
       && (Fine(s, e) && !IsKeptOpen(s, ask, run, i) ==>
             EndsAt(ask, run, i).Some? && r == ClosedRec(open, HowOf(EndsAt(ask, run, i).value)))
  }

  lemma RoleEntry(s: Setting, ask: Ask, first: nat, run: Run, i: nat)
    requires IsKnown(ask.family) && IsRun(s, ask, first, run) && i < |Books(s, ask, first, run)|
    ensures HasRole(s, ask, first, run, i, Books(s, ask, first, run)[i])
  {
    EntryIs(s, ask, first, run, i);
    Roles(s, ask, first, run.body, i);
    HowOfSocket(s, ask, first, run, i);
    if Fine(s, run.body[MadeAt(ask, i)]) && !IsKeptOpen(s, ask, run, i) { WhichEnd(s, ask, first, run, i); }
  }

  // The call that closes socket i, if any does.
  function EndsAt(ask: Ask, run: Run, i: nat): Option<Event> {
    if ask.socketType == SOCK_STREAM && i == 0 then (if run.closing == [] then None else Some(run.closing[0]))
    else if run.cleanup == [] then None
    else if i == 1 then Some(run.cleanup[|run.cleanup|-1])
    else Some(run.cleanup[0])
  }

  lemma PairEnds(s: Setting, ask: Ask, first: nat, b: seq<Event>, x: seq<Event>, i: nat)
    requires IsBody(s, ask, b) && Through(s, PairClosing(s, ask, first, b), x)
    requires i == 1 || i == ServerGen(ask, 0)
    requires i == 1 ==> HasClient(s, ask, b) && (HasServer(s, ask, b) ==> x != [] && Fine(s, x[0]))
    requires i == ServerGen(ask, 0) ==> HasServer(s, ask, b)
    ensures x != [] && EndOf(x, first + i) == Some(if i == 1 then x[|x|-1] else x[0])
  {
    CleanupFates(s, ask, first, b, x);
  }

  lemma ListenerEnds(s: Setting, ask: Ask, first: nat, run: Run)
    requires IsKnown(ask.family) && IsRun(s, ask, first, run) && HasListener(s, ask, run.body)
    ensures |run.closing| == 1 && run.closing[0].request.Close?
    ensures EndOf(Tail(run), first) == Some(run.closing[0])
  {
    ListenerPhase(s, ask, first, run.body, run.closing);
    ClosingFate(s, ask, first, run, first);
  }

  lemma CleanupEnds(s: Setting, ask: Ask, first: nat, run: Run, i: nat)
    requires IsKnown(ask.family) && IsRun(s, ask, first, run) && !Succeeds(s, ask, run)
    requires if i == 1 then HasClient(s, ask, run.body) && !ClientLeft(s, ask, run)
             else i == ServerGen(ask, 0) && HasServer(s, ask, run.body)
    ensures run.cleanup != []
    ensures EndOf(run.cleanup, first + i) == Some(if i == 1 then run.cleanup[|run.cleanup|-1] else run.cleanup[0])
  {
    ServerClosesFirst(s, ask, first, run);
    PairEnds(s, ask, first, run.body, run.cleanup, i);
  }

  lemma OthersEnd(s: Setting, ask: Ask, first: nat, run: Run, i: nat)
    requires IsKnown(ask.family) && IsRun(s, ask, first, run) && !Succeeds(s, ask, run)
    requires if i == 1 then HasClient(s, ask, run.body) && !ClientLeft(s, ask, run)
             else i == ServerGen(ask, 0) && HasServer(s, ask, run.body)
    requires !(ask.socketType == SOCK_STREAM && i == 0)
    ensures run.cleanup != []
    ensures EndOf(Tail(run), first + i) == Some(if i == 1 then run.cleanup[|run.cleanup|-1] else run.cleanup[0])
  {
    CleanupEnds(s, ask, first, run, i);
    ClosingFate(s, ask, first, run, first + i);
  }

  lemma WhichEnd(s: Setting, ask: Ask, first: nat, run: Run, i: nat)
    requires IsKnown(ask.family) && IsRun(s, ask, first, run) && i < |Books(s, ask, first, run)|
    requires MadeAt(ask, i) < |run.body|
    requires Fine(s, run.body[MadeAt(ask, i)]) && !IsKeptOpen(s, ask, run, i)
    ensures EndOf(Tail(run), first + i) == EndsAt(ask, run, i) && EndsAt(ask, run, i).Some?
    ensures EndsAt(ask, run, i).value.request.Close?
  {
    Roles(s, ask, first, run.body, i);
    if ask.socketType == SOCK_STREAM && i == 0 {
      ListenerEnds(s, ask, first, run);
    } else {
      OthersEnd(s, ask, first, run, i);
      PairPhase(s, ask, first, run.body, run.cleanup);
    }
  }

  lemma ServerClosesFirst(s: Setting, ask: Ask, first: nat, run: Run)
    requires IsKnown(ask.family) && IsRun(s, ask, first, run) && !Succeeds(s, ask, run)
    ensures HasServer(s, ask, run.body) ==> run.cleanup != []
  {}

  lemma CastFacts(s: Setting, ask: Ask, first: nat, run: Run)
    requires IsKnown(ask.family) && IsRun(s, ask, first, run)
    ensures PeerDropped(s, run) ==>
              ask.socketType == SOCK_STREAM && !HasServer(s, ask, run.body) && !Succeeds(s, ask, run)
    ensures Succeeds(s, ask, run) ==> HasServer(s, ask, run.body) && HasClient(s, ask, run.body)
    ensures ClientLeft(s, ask, run) ==> !Succeeds(s, ask, run)
  {
    if run.body != [] { BodyKind(s, ask, run.body, |run.body| - 1); }
  }

  // The listener never survives.
  lemma ListenerIsClosed(s: Setting, ask: Ask, first: nat, run: Run)
    requires IsKnown(ask.family) && IsRun(s, ask, first, run) && HasListener(s, ask, run.body)
    ensures |run.closing| == 1 && run.closing[0].request == Close(Ret(run.body[0]), first)
    ensures Books(s, ask, first, run) != []
    ensures Books(s, ask, first, run)[0] ==
              ClosedRec(Record(first, Ret(run.body[0]), NewSlot(Ret(run.body[0])), false), HowOf(run.closing[0]))
  {
    BodyRecs(s, ask, first, run.body);
    EntryIs(s, ask, first, run, 0);
    ClosingFate(s, ask, first, run, first);
    ListenerPhase(s, ask, first, run.body, run.closing);
  }

  // ---- warnings as errors -------------------------------------------------

  // After a call through the wrapper that was made, errno is zero; a refused call
  // leaves it alone.
  lemma CallIsRefusedIff(s: Setting, lwip: Schedule, w: World, a: seq<Event>, i: nat)
    requires Plays(s, lwip, w, a) && 0 < i < |a| && s.strict && !IsBare(a[i].request)
    ensures a[i].Refused? <==> WorldAfter(w, a[..i]).errno != 0
    ensures WorldAfter(w, a[..i]) == Next(WorldAfter(w, a[..i-1]), a[i-1])
  {
    PlaysTo(s, lwip, w, a, i);
    assert a[..i][..i-1] == a[..i-1];
  }

  // connect_ex leaves behind the errno of lwip_connect. With warnings as errors,
  // accept() is refused exactly if that is not zero.
  lemma AcceptIsRefusedIff(s: Setting, lwip: Schedule, w: World, ask: Ask, b: seq<Event>)
    requires Plays(s, lwip, w, b) && IsBody(s, ask, b) && s.strict && ask.socketType == SOCK_STREAM && |b| == 8
    ensures b[6].Made? && (b[7].Refused? <==> b[6].reply.sets.GetOr(0) != 0)
  {
    BodyKind(s, ask, b, 5);
    BodyKind(s, ask, b, 6);
    BodyKind(s, ask, b, 7);
    PlaysTo(s, lwip, w, b, 6);
    CallIsRefusedIff(s, lwip, w, b, 7);
    assert b[..6][..5] == b[..5];
    assert WorldAfter(w, b[..6]) == Next(WorldAfter(w, b[..5]), b[5]);
  }

  // Then nothing is closed any more: every later call is refused too.
  lemma {:induction false} RefusedForEver(s: Setting, lwip: Schedule, w: World, x: seq<Event>)
    requires Plays(s, lwip, w, x) && s.strict && w.errno != 0
    requires forall i :: 0 <= i < |x| ==> !IsBare(x[i].request)
    ensures forall i :: 0 <= i < |x| ==> x[i].Refused?
    ensures WorldAfter(w, x).errno == w.errno
  {
    if x != [] { RefusedForEver(s, lwip, w, x[..|x|-1]); }
  }

  lemma RestIsRefused(s: Setting, lwip: Schedule, w: World, ask: Ask, run: Run)
    requires IsRun(s, ask, w.fds.issued, run) && Plays(s, lwip, w, Events(run)) && IsKnown(ask.family)
    requires ask.socketType == SOCK_STREAM && |run.body| == 8 && run.body[7].Refused? && s.strict
    ensures |run.closing| == 1 && run.closing[0].Refused?
    ensures forall i :: 0 <= i < |run.cleanup| ==> run.cleanup[i].Refused?
  {
    var first, b := w.fds.issued, run.body;
    PhasesPlay(s, lwip, w, run);
    CallIsRefusedIff(s, lwip, w, b, 7);
    var w1 := WorldAfter(w, b);
    assert b[..|b|-1] == b[..7];
    ListenerPhase(s, ask, first, b, run.closing);
    BodyKind(s, ask, b, 0);
    RefusedForEver(s, lwip, w1, run.closing);
    PairPhase(s, ask, first, b, run.cleanup);
    RefusedForEver(s, lwip, WorldAfter(w1, run.closing), run.cleanup);
  }

  // A refused accept() makes the call fail, and leaves the listener and the client in
  // use, closed for Python, without any lwip_close.
  lemma RefusedAcceptLeaks(s: Setting, lwip: Schedule, w: World, ask: Ask, run: Run)
    requires FdsOk(w.fds) && IsRun(s, ask, w.fds.issued, run) && Plays(s, lwip, w, Events(run)) && IsKnown(ask.family)
    requires ask.socketType == SOCK_STREAM && |run.body| == 8 && run.body[7].Refused? && s.strict
    ensures !Succeeds(s, ask, run)
    ensures var books := Books(s, ask, w.fds.issued, run);
            && |books| == 2 && Forgotten(books[0].slot) && Forgotten(books[1].slot)
            && forall i :: 0 <= i < 2 ==> Holds(WorldAfter(w, Events(run)).fds, books[i])
  {
    var first := w.fds.issued;
    EveryRunAgrees(s, lwip, w, ask, run);
    RestIsRefused(s, lwip, w, ask, run);
    RefusedBooks(s, ask, first, run);
    assert RecOk(WorldAfter(w, Events(run)).fds, Books(s, ask, first, run)[0]);
    assert RecOk(WorldAfter(w, Events(run)).fds, Books(s, ask, first, run)[1]);
  }

  lemma RefusedBooks(s: Setting, ask: Ask, first: nat, run: Run)
    requires IsKnown(ask.family) && IsRun(s, ask, first, run) && ask.socketType == SOCK_STREAM && |run.body| == 8
    requires run.body[7].Refused? && |run.closing| == 1 && run.closing[0].Refused?
    requires forall i :: 0 <= i < |run.cleanup| ==> run.cleanup[i].Refused?
    ensures var books := Books(s, ask, first, run);
            && |books| == 2 && Forgotten(books[0].slot) && Forgotten(books[1].slot) && books[0].kept && books[1].kept
  {
    BodyRecs(s, ask, first, run.body);
    BodyKind(s, ask, run.body, 0);
    BodyKind(s, ask, run.body, 3);
    BodyKind(s, ask, run.body, 7);
    EntryIs(s, ask, first, run, 0);
    EntryIs(s, ask, first, run, 1);
    ClosingFate(s, ask, first, run, first);
    ClosingFate(s, ask, first, run, first + 1);
    CleanupFates(s, ask, first, run.body, run.cleanup);
  }

  // ---- the two ways to leave a socket, as runs ----------------------------

  const EMPTY: World := World(Fds(map[], [], 0), 0, 0)
  const BLANK: SockAddrs.Buffer := SockAddrs.Zeros(28)
  const NAMED: SockAddrs.Buffer := [16, 2] + SockAddrs.Zeros(26)

  // The n-th reply of a list, and failure after it.
  function Scripted(replies: seq<Reply>): Schedule {
    (n: nat) => if n < |replies| then replies[n] else Reply(-1, None, BLANK, false)
  }

  lemma OneStep(s: Setting, lwip: Schedule, w: World, a: seq<Event>, w': World, request: Request, e: Event)
    requires LeadsTo(s, lwip, w, a, w') && e == EventAt(s, lwip, w', request) && e.request == request
    ensures LeadsTo(s, lwip, w, a + [e], Next(w', e))
  {
    OneMore(s, lwip, w, a, e);
  }

  // A datagram pair: bind() fails, and then closing the server fails although lwIP
  // releases its number. The client stays open.
  const D0 := Reply(5, None, BLANK, false)
  const D1 := Reply(6, None, BLANK, false)
  const D2 := Reply(-1, Some(98), BLANK, false)
  const D3 := Reply(-1, Some(5), BLANK, true)
  const DGRAM := Ask(SockAddrs.AF_INET, SOCK_DGRAM, 0, true)
  const TWO_OPEN := Fds(map[5 := 0, 6 := 1], [], 2)
  const BIND_FAILS := Run(
    [Made(Open(SockAddrs.AF_INET, SOCK_DGRAM, 0), D0), Made(Open(SockAddrs.AF_INET, SOCK_DGRAM, 0), D1),
     Made(Bind(5, LocalBindAddress(SockAddrs.AF_INET)), D2)],
    [], [], [Made(Close(5, 0), D3)])

  lemma TwoOpensPlay(s: Setting)
    ensures LeadsTo(s, Scripted([D0, D1, D2, D3]), EMPTY, BIND_FAILS.body[..2], World(TWO_OPEN, 0, 2))
  {
    var lwip, b := Scripted([D0, D1, D2, D3]), BIND_FAILS.body;
    var w1 := World(Fds(map[5 := 0], [], 1), 0, 1);
    OneStep(s, lwip, EMPTY, [], EMPTY, b[0].request, b[0]);
    assert [] + [b[0]] == [b[0]] && Next(EMPTY, b[0]) == w1;
    OneStep(s, lwip, EMPTY, [b[0]], w1, b[1].request, b[1]);
    assert [b[0]] + [b[1]] == b[..2] && Next(w1, b[1]) == World(TWO_OPEN, 0, 2);
  }

  lemma BindFailsPlays(s: Setting)
    ensures LeadsTo(s, Scripted([D0, D1, D2, D3]), EMPTY, Events(BIND_FAILS),
                    World(Fds(map[6 := 1], [Attempt(0, 5, Allocation(0))], 2), 0, 4))
  {
    var lwip, b, x := Scripted([D0, D1, D2, D3]), BIND_FAILS.body, BIND_FAILS.cleanup;
    var w2, w3 := World(TWO_OPEN, 0, 2), World(TWO_OPEN, 0, 3);
    TwoOpensPlay(s);
    OneStep(s, lwip, EMPTY, b[..2], w2, b[2].request, b[2]);
    assert b[..2] + [b[2]] == b && Next(w2, b[2]) == w3;
    OneStep(s, lwip, EMPTY, b, w3, x[0].request, x[0]);
    assert b + [x[0]] == Events(BIND_FAILS);
  }

  lemma ClientIsLeft(s: Setting)
    requires !s.strict
    ensures IsRun(s, DGRAM, 0, BIND_FAILS) && Plays(s, Scripted([D0, D1, D2, D3]), EMPTY, Events(BIND_FAILS))
    ensures !Succeeds(s, DGRAM, BIND_FAILS) && ClientLeft(s, DGRAM, BIND_FAILS)
    ensures WorldAfter(EMPTY, Events(BIND_FAILS)).fds.open == map[6 := 1]
  {
    BindFailsPlays(s);
    assert PairClosing(s, DGRAM, 0, BIND_FAILS.body) == [Close(5, 0), Close(6, 1)];
  }

  // A stream pair: every call succeeds, but accept() is told a peer address of no known
  // family. The accepted socket stays open.
  const FINE := Reply(0, None, NAMED, false)
  const A7 := Reply(7, None, BLANK, false)
  const STREAM := Ask(SockAddrs.AF_INET, SOCK_STREAM, 0, true)

  function StreamCalls(name: SockAddrs.Address): seq<Event> {
    [Made(Open(SockAddrs.AF_INET, SOCK_STREAM, 0), D0), Made(Bind(5, LocalBindAddress(SockAddrs.AF_INET)), FINE),
     Made(Listen(5), FINE), Made(Open(SockAddrs.AF_INET, SOCK_STREAM, 0), D1), Made(Blocking(6, false), FINE),
     Made(Name(5, Own), FINE), Made(Connect(6, name), FINE), Made(Accept(5), A7)]
  }

  function BadPeer(name: SockAddrs.Address): Run {
    Run(StreamCalls(name), [Made(Close(5, 0), FINE)], [], [Made(Close(6, 1), FINE)])
  }

  function StreamReplies(): seq<Reply> {
    [D0, FINE, FINE, D1, FINE, FINE, FINE, A7, FINE, FINE]
  }

  lemma QuietStep(s: Setting, lwip: Schedule, w: World, a: seq<Event>, w': World, request: Request)
    requires LeadsTo(s, lwip, w, a, w') && w'.errno == 0 && lwip(w'.calls) == FINE
    requires !Allocates(request) && !IsEnd(request)
    ensures LeadsTo(s, lwip, w, a + [Made(request, FINE)], w'.(calls := w'.calls + 1))
  {
    OneStep(s, lwip, w, a, w', request, Made(request, FINE));
  }

  lemma TwoCallsPlay(s: Setting, name: SockAddrs.Address)
    ensures LeadsTo(s, Scripted(StreamReplies()), EMPTY, StreamCalls(name)[..2], World(Fds(map[5 := 0], [], 1), 0, 2))
  {
    var lwip, b := Scripted(StreamReplies()), StreamCalls(name);
    var one := Fds(map[5 := 0], [], 1);
    OneStep(s, lwip, EMPTY, [], EMPTY, b[0].request, b[0]);
    assert [] + [b[0]] == b[..1] && Next(EMPTY, b[0]) == World(one, 0, 1);
    QuietStep(s, lwip, EMPTY, b[..1], World(one, 0, 1), b[1].request);
    assert b[..1] + [b[1]] == b[..2];
  }

  lemma FirstHalfPlays(s: Setting, name: SockAddrs.Address)
    ensures LeadsTo(s, Scripted(StreamReplies()), EMPTY, StreamCalls(name)[..4], World(TWO_OPEN, 0, 4))
  {
    var lwip, b := Scripted(StreamReplies()), StreamCalls(name);
    var one := Fds(map[5 := 0], [], 1);
    TwoCallsPlay(s, name);
    QuietStep(s, lwip, EMPTY, b[..2], World(one, 0, 2), b[2].request);
    assert b[..2] + [b[2]] == b[..3];
    OneStep(s, lwip, EMPTY, b[..3], World(one, 0, 3), b[3].request, b[3]);
    assert b[..3] + [b[3]] == b[..4] && Next(World(one, 0, 3), b[3]) == World(TWO_OPEN, 0, 4);
  }

  lemma StreamPlays(s: Setting, name: SockAddrs.Address)
    ensures LeadsTo(s, Scripted(StreamReplies()), EMPTY, StreamCalls(name),
                    World(Fds(map[5 := 0, 6 := 1, 7 := 2], [], 3), 0, 8))
  {
    var lwip, b := Scripted(StreamReplies()), StreamCalls(name);
    FirstHalfPlays(s, name);
    QuietStep(s, lwip, EMPTY, b[..4], World(TWO_OPEN, 0, 4), b[4].request);
    assert b[..4] + [b[4]] == b[..5];
    QuietStep(s, lwip, EMPTY, b[..5], World(TWO_OPEN, 0, 5), b[5].request);
    assert b[..5] + [b[5]] == b[..6];
    QuietStep(s, lwip, EMPTY, b[..6], World(TWO_OPEN, 0, 6), b[6].request);
    assert b[..6] + [b[6]] == b[..7];
    OneStep(s, lwip, EMPTY, b[..7], World(TWO_OPEN, 0, 7), b[7].request, b[7]);
    assert b[..7] + [b[7]] == b;
  }

  lemma BadPeerPlays(s: Setting, name: SockAddrs.Address)
    ensures Plays(s, Scripted(StreamReplies()), EMPTY, Events(BadPeer(name)))
    ensures WorldAfter(EMPTY, Events(BadPeer(name))).fds.open == map[7 := 2]
  {
    var lwip, b := Scripted(StreamReplies()), StreamCalls(name);
    var w8 := World(Fds(map[5 := 0, 6 := 1, 7 := 2], [], 3), 0, 8);
    var x, y := BadPeer(name).closing[0], BadPeer(name).cleanup[0];
    StreamPlays(s, name);
    OneStep(s, lwip, EMPTY, b, w8, x.request, x);
    OneStep(s, lwip, EMPTY, b + [x], Next(w8, x), y.request, y);
    assert b + [x] + [y] == Events(BadPeer(name));
  }

  lemma PeerIsDropped(s: Setting, name: SockAddrs.Address)
    requires !s.strict && s.unparse(NAMED) == Some(name) && s.unparse(BLANK).None?
    ensures IsRun(s, STREAM, 0, BadPeer(name)) && Plays(s, Scripted(StreamReplies()), EMPTY, Events(BadPeer(name)))
    ensures !Succeeds(s, STREAM, BadPeer(name)) && PeerDropped(s, BadPeer(name))
    ensures WorldAfter(EMPTY, Events(BadPeer(name))).fds.open == map[7 := 2]
  {
    BadPeerPlays(s, name);
    StreamIsBody(s, name);
    assert PairClosing(s, STREAM, 0, StreamCalls(name)) == [Close(6, 1)];
  }

  lemma StreamIsBody(s: Setting, name: SockAddrs.Address)
    requires !s.strict && s.unparse(NAMED) == Some(name) && s.unparse(BLANK).None?
    ensures IsBody(s, STREAM, StreamCalls(name)) && Drops(s, StreamCalls(name)[7])
  {
    var b := StreamCalls(name);
    forall i | 0 <= i < 8 ensures b[i].request == BodyRequest(s, STREAM, b, i) {
      if i < 4 { assert i == 0 || i == 1 || i == 2 || i == 3; }
    }
  }

  // unparse_address is such a codec, on either byte order.
  function Plain(little: bool): Setting {
    Setting(false, (b: SockAddrs.Buffer) => Unparsed(little, b))
  }

  lemma PeerIsDroppedHere(little: bool) returns (name: SockAddrs.Address)
    ensures IsRun(Plain(little), STREAM, 0, BadPeer(name))
    ensures Plays(Plain(little), Scripted(StreamReplies()), EMPTY, Events(BadPeer(name)))
    ensures !Succeeds(Plain(little), STREAM, BadPeer(name)) && PeerDropped(Plain(little), BadPeer(name))
    ensures WorldAfter(EMPTY, Events(BadPeer(name))).fds.open == map[7 := 2]
  {
    assert Unparsed(little, NAMED).Some? && Unparsed(little, BLANK).None?;
    name := Unparsed(little, NAMED).value;
    PeerIsDropped(Plain(little), name);
  }
}
