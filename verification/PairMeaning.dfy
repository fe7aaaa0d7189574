// src/lwip/__init__.py, LwIP.socketpair: what the runs of PairRuns are, call by call and
// number by number.
module PairMeaning {
  import opened Basics
  import opened LwipError
  import opened Lifecycle
  import opened Sockets
  import opened PairRuns
  import SockAddrs

  // ---- one call -----------------------------------------------------------

  predicate SetsErrno(e: Event)
    requires e.Made?
  {
    e.reply.sets.Some? && e.reply.sets.value != 0
  }

  // The method that made the call goes on: the call was made and did not fail, no warning
  // was turned into an exception, and the address it asked for, if any, can be unparsed.
  // connect_ex does not look at the result.
  predicate WentWell(s: Setting, e: Event) {
    && e.Made?
    && (e.request.Connect? || e.request.Finalize? || (e.reply.ret >= 0 && !(s.strict && SetsErrno(e))))
    && (e.request.Name? || e.request.Accept? ==> s.unparse(e.reply.buffer).Some?)
  }

  lemma WentWellIff(s: Setting, e: Event)
    ensures Fine(s, e) <==> WentWell(s, e)
  {}

  // What it raises otherwise.
  lemma WhyMeaning(s: Setting, e: Event)
    requires !WentWell(s, e)
    ensures !Fine(s, e)
    ensures e.Refused? ==> Why(s, e) == RuntimeWarning
    ensures e.Made? && e.reply.ret < 0 && !IsBare(e.request) ==>
              Why(s, e) == if SetsErrno(e) then OSError(e.reply.sets.value) else LwipFailure(e.reply.ret)
    ensures e.Made? && e.reply.ret >= 0 && !IsBare(e.request) ==>
              Why(s, e) == if s.strict && SetsErrno(e) then RuntimeWarning else ValueError
    ensures Why(s, e) != ConnectionError
  {}

  // accept() drops a socket, and a close keeps or frees its number or is left out.
  lemma DropMeaning(s: Setting, e: Event)
    ensures Drops(s, e) <==> && e.request.Accept? && e.Made? && e.reply.ret >= 0 && !(s.strict && SetsErrno(e))
                             && s.unparse(e.reply.buffer).None?
  {}

  lemma HowMeaning(e: Event)
    ensures HowOf(e) == How.NotCalled <==> e.Refused?
    ensures HowOf(e) == How.Releases <==> e.Made? && (e.reply.ret >= 0 || e.reply.releases)
    ensures HowOf(e) == How.Keeps <==> e.Made? && e.reply.ret < 0 && !e.reply.releases
  {}

  predicate AllWell(s: Setting, x: seq<Event>) {
    forall i :: 0 <= i < |x| ==> WentWell(s, x[i])
  }

  // ---- the try block ------------------------------------------------------

  function Loopback(family: int): SockAddrs.Address {
    if family == 2 then SockAddrs.Pair("127.0.0.1", 0)
    else SockAddrs.Quad(SockAddrs.Literal6([0, 0, 0, 0, 0, 0, 0, 0, 0, 0, 0, 0, 0, 0, 0, 1]), 0, 0, 0)
  }

  predicate IsName(s: Setting, e: Event, a: SockAddrs.Address) {
    e.Made? && s.unparse(e.reply.buffer) == Some(a)
  }

  // The calls of the stream branch, as far as they go. Type 1 is SOCK_STREAM.
  ghost predicate StreamCalls(s: Setting, ask: Ask, b: seq<Event>) {
    && |b| <= 8
    && (|b| > 0 ==> b[0].request == Open(ask.family, 1, ask.proto))
    && (|b| > 1 ==> b[1].request == Bind(Ret(b[0]), Loopback(ask.family)))
    && (|b| > 2 ==> b[2].request == Listen(Ret(b[0])))
    && (|b| > 3 ==> b[3].request == Open(ask.family, 1, ask.proto))
    && (|b| > 4 ==> b[4].request == Blocking(Ret(b[3]), false))
    && (|b| > 5 ==> b[5].request == Name(Ret(b[0]), Own))
    && (|b| > 6 ==> b[6].request.Connect? && b[6].request.fd == Ret(b[3]) && IsName(s, b[5], b[6].request.address))
    && (|b| > 7 ==> b[7].request == Accept(Ret(b[0])))
  }

  // Those of the datagram branch. Type 2 is SOCK_DGRAM.
  ghost predicate DatagramCalls(s: Setting, ask: Ask, b: seq<Event>) {
    && |b| <= 7
    && (|b| > 0 ==> b[0].request == Open(ask.family, 2, ask.proto))
    && (|b| > 1 ==> b[1].request == Open(ask.family, 2, ask.proto))
    && (|b| > 2 ==> b[2].request == Bind(Ret(b[0]), Loopback(ask.family)))
    && (|b| > 3 ==> b[3].request == Name(Ret(b[0]), Own))
    && (|b| > 4 ==> b[4].request.Connect? && b[4].request.fd == Ret(b[1]) && IsName(s, b[3], b[4].request.address))
    && (|b| > 5 ==> b[5].request == Name(Ret(b[1]), Own))
    && (|b| > 6 ==> b[6].request.Connect? && b[6].request.fd == Ret(b[0]) && IsName(s, b[5], b[6].request.address))
  }

  // It makes these calls, up to the first that does not go well, and no others.
  lemma TryBlockMeaning(s: Setting, ask: Ask, b: seq<Event>)
    requires IsBody(s, ask, b)
    ensures ask.socketType == 1 ==> StreamCalls(s, ask, b) && (|b| == 8 || (b != [] && !WentWell(s, b[|b|-1])))
    ensures ask.socketType == 2 ==> DatagramCalls(s, ask, b) && (|b| == 7 || (b != [] && !WentWell(s, b[|b|-1])))
    ensures ask.socketType !in {1, 2} ==> b == []
    ensures forall i :: 0 <= i < |b| - 1 ==> WentWell(s, b[i])
  {
    forall i | 0 <= i < |b| ensures i < |b| - 1 ==> WentWell(s, b[i]) {
      WentWellIff(s, b[i]);
    }
    if b != [] { WentWellIff(s, b[|b|-1]); }
    if ask.socketType == 1 {
      StreamRequests(s, ask, b);
    } else if ask.socketType == 2 {
      DatagramRequests(s, ask, b);
    }
  }

  lemma LoopbackIs(family: int)
    ensures LocalBindAddress(family) == Loopback(family)
  {
    var six: seq<byte> := [0, 0, 0, 0, 0, 0, 0, 0, 0, 0, 0, 0, 0, 0, 0, 1];
    assert SockAddrs.Zeros(15) + [1] == six;
  }

  lemma StreamRequests(s: Setting, ask: Ask, b: seq<Event>)
    requires IsBody(s, ask, b) && ask.socketType == 1
    ensures StreamCalls(s, ask, b)
  {
    LoopbackIs(ask.family);
    forall i | 0 <= i < |b| ensures b[i].request == BodyRequest(s, ask, b, i) && (i < |b| - 1 ==> Fine(s, b[i])) {
      BodyKind(s, ask, b, i);
    }
    assert |b| > 5 ==> b[5].request == BodyRequest(s, ask, b, 5) && b[5].request.Name?;
    assert |b| > 6 ==> Fine(s, b[5]) && b[6].request == BodyRequest(s, ask, b, 6);
    assert |b| > 7 ==> b[7].request == BodyRequest(s, ask, b, 7);
  }

  lemma DatagramRequests(s: Setting, ask: Ask, b: seq<Event>)
    requires IsBody(s, ask, b) && ask.socketType == 2
    ensures DatagramCalls(s, ask, b)
  {
    LoopbackIs(ask.family);
    forall i | 0 <= i < |b| ensures b[i].request == BodyRequest(s, ask, b, i) && (i < |b| - 1 ==> Fine(s, b[i])) {
      BodyKind(s, ask, b, i);
    }
    assert |b| > 3 ==> b[3].request == BodyRequest(s, ask, b, 3);
    assert |b| > 5 ==> b[5].request == BodyRequest(s, ask, b, 5);
  }

  // ---- the check ----------------------------------------------------------

  // Calls i - 1 and i were answered with the same address.
  predicate SameAnswer(s: Setting, c: seq<Event>, i: nat)
    requires 0 < i < |c| && c[i-1].Made? && c[i].Made?
  {
    s.unparse(c[i].reply.buffer) == s.unparse(c[i-1].reply.buffer)
  }

  // The names of both ends, in the order in which they are compared, then the modes.
  ghost predicate CheckCalls(blocking: bool, server: int, client: int, c: seq<Event>) {
    && |c| <= 6
    && (|c| > 0 ==> c[0].request == Name(server, Own))
    && (|c| > 1 ==> c[1].request == Name(client, Peer))
    && (|c| > 2 ==> c[2].request == Name(server, Peer))
    && (|c| > 3 ==> c[3].request == Name(client, Own))
    && (|c| > 4 ==> c[4].request == Blocking(client, blocking))
    && (|c| > 5 ==> c[5].request == Blocking(server, blocking))
  }

  // All went well, and the last two names differ: the comparison fails.
  predicate ComparisonFails(s: Setting, c: seq<Event>) {
    (|c| == 2 || |c| == 4) && AllWell(s, c) && !SameAnswer(s, c, |c|-1)
  }

  // The comparisons made so far did not fail.
  predicate AllSame(s: Setting, c: seq<Event>)
    requires AllWell(s, c)
  {
    && (|c| > 1 ==> SameAnswer(s, c, 1))
    && (|c| > 3 ==> SameAnswer(s, c, 3))
  }

  // It makes these calls, up to the first that does not go well or completes a comparison
  // that fails.
  lemma CheckMeaning(s: Setting, blocking: bool, server: int, client: int, c: seq<Event>)
    requires IsCheck(s, CheckRequests(blocking, server, client), c)
    ensures CheckCalls(blocking, server, client, c)
    ensures AllWell(s, c[..|c|-1]) && AllSame(s, c[..|c|-1])
    ensures |c| < 6 ==> !WentWell(s, c[|c|-1]) || ComparisonFails(s, c)
    ensures |c| == 6 && FineAt(s, c, 5) <==> |c| == 6 && AllWell(s, c) && AllSame(s, c)
  {
    forall i | 0 <= i < |c| ensures Fine(s, c[i]) <==> WentWell(s, c[i]) { WentWellIff(s, c[i]); }
    forall i | 0 <= i < |c| - 1 ensures WentWell(s, c[i]) { assert FineAt(s, c, i); }
    assert |c| > 2 ==> FineAt(s, c, 1);
    assert |c| > 4 ==> FineAt(s, c, 3);
  }

  // ---- the closes ---------------------------------------------------------

  // The listener is closed if and only if the first call made one, and nothing else is
  // closed there.
  lemma ClosingMeaning(s: Setting, ask: Ask, first: nat, run: Run)
    requires IsRun(s, ask, first, run) && IsKnown(ask.family)
    ensures if ask.socketType == 1 && run.body != [] && WentWell(s, run.body[0])
            then |run.closing| == 1 && run.closing[0].request == Close(Ret(run.body[0]), first)
            else run.closing == []
  {
    if run.body != [] { WentWellIff(s, run.body[0]); }
  }

  // Where the calls that make server and client stand.
  function ServerCall(ask: Ask): nat { if ask.socketType == 1 then 7 else 0 }
  function ClientCall(ask: Ask): nat { if ask.socketType == 1 then 3 else 1 }

  // Failure: the server is closed, if there is one; then the client, if there is one and
  // closing the server did not raise.
  lemma CleanupMeaning(s: Setting, ask: Ask, first: nat, run: Run)
    requires IsRun(s, ask, first, run) && IsKnown(ask.family) && !Succeeds(s, ask, run)
    ensures var b, x := run.body, run.cleanup;
            var server := ServerCall(ask) < |b| && WentWell(s, b[ServerCall(ask)]);
            var client := ClientCall(ask) < |b| && WentWell(s, b[ClientCall(ask)]);
            && (server ==> x != [] && x[0].request.Close? && x[0].request.fd == Ret(b[ServerCall(ask)]))
            && (client && (server ==> WentWell(s, x[0])) ==>
                  && |x| == (if server then 2 else 1)
                  && x[|x|-1].request.Close? && x[|x|-1].request.fd == Ret(b[ClientCall(ask)]))
            && (!server && !client ==> x == [])
            && (server && (!client || !WentWell(s, x[0])) ==> |x| == 1)
  {
    var b, x := run.body, run.cleanup;
    if ServerCall(ask) < |b| { WentWellIff(s, b[ServerCall(ask)]); }
    if ClientCall(ask) < |b| { WentWellIff(s, b[ClientCall(ask)]); }
    if x != [] { WentWellIff(s, x[0]); }
    CleanupRequests(s, ask, first, b, x);
  }

  lemma CleanupRequests(s: Setting, ask: Ask, first: nat, b: seq<Event>, x: seq<Event>)
    requires Through(s, PairClosing(s, ask, first, b), x)
    ensures var server, client := HasServer(s, ask, b), HasClient(s, ask, b);
            && (server ==> x != [] && x[0].request.Close? && x[0].request.fd == Ret(b[ServerAt(ask)]))
            && (client && (server ==> Fine(s, x[0])) ==>
                  && |x| == (if server then 2 else 1)
                  && x[|x|-1].request.Close? && x[|x|-1].request.fd == Ret(b[ClientAt(ask)]))
            && (!server && !client ==> x == [])
            && (server && (!client || !Fine(s, x[0])) ==> |x| == 1)
  {
    var requests := PairClosing(s, ask, first, b);
    forall i | 0 <= i < |x| ensures x[i].request == requests[i] {}
  }

  // ---- how a call ends ----------------------------------------------------

  // Success: a known family and type, all calls made and gone well, and the names equal
  // in pairs.
  lemma SuccessMeaning(s: Setting, ask: Ask, first: nat, run: Run)
    requires IsRun(s, ask, first, run)
    ensures Succeeds(s, ask, run) <==>
              && ask.family in {2, 10}
              && ((ask.socketType == 1 && |run.body| == 8) || (ask.socketType == 2 && |run.body| == 7))
              && AllWell(s, run.body) && AllWell(s, run.closing)
              && |run.check| == 6 && AllWell(s, run.check) && AllSame(s, run.check)
  {
    if ask.family in {2, 10} {
      AllFineIff(s, run.body);
      AllFineIff(s, run.closing);
      if IsMade(s, ask, run.body, run.closing) {
        CheckMeaning(s, ask.blocking, Ret(run.body[ServerAt(ask)]), Ret(run.body[ClientAt(ask)]), run.check);
      }
    }
  }

  lemma AllFineIff(s: Setting, x: seq<Event>)
    ensures AllFine(s, x) <==> AllWell(s, x)
  {
    forall i | 0 <= i < |x| ensures Fine(s, x[i]) <==> WentWell(s, x[i]) { WentWellIff(s, x[i]); }
  }

  // The last call of a phase did not go well.
  predicate EndsBadly(s: Setting, x: seq<Event>) {
    x != [] && !WentWell(s, x[|x|-1])
  }

  // Failure: a close of the except block that raises hides everything else; ConnectionError
  // comes out exactly if no such close raises and a comparison of two names failed;
  // otherwise it is what the last call of the check, the close of the listener or the last
  // call of the try block raises, in this order. ValueError comes of a bad family or type.
  lemma FailureMeaning(s: Setting, ask: Ask, first: nat, run: Run)
    requires IsRun(s, ask, first, run) && !Succeeds(s, ask, run)
    ensures Failure(s, ask, run) == ConnectionError <==>
              IsKnown(ask.family) && !EndsBadly(s, run.cleanup) && ComparisonFails(s, run.check)
    ensures EndsBadly(s, run.cleanup) ==>
              !Fine(s, run.cleanup[|run.cleanup|-1]) && Failure(s, ask, run) == Why(s, run.cleanup[|run.cleanup|-1])
    ensures !EndsBadly(s, run.cleanup) && EndsBadly(s, run.check) ==>
              !Fine(s, run.check[|run.check|-1]) && Failure(s, ask, run) == Why(s, run.check[|run.check|-1])
    ensures !EndsBadly(s, run.cleanup) && EndsBadly(s, run.closing) ==>
              !Fine(s, run.closing[0]) && Failure(s, ask, run) == Why(s, run.closing[0])
    ensures !EndsBadly(s, run.cleanup) && !EndsBadly(s, run.closing) && EndsBadly(s, run.body) ==>
              !Fine(s, run.body[|run.body|-1]) && Failure(s, ask, run) == Why(s, run.body[|run.body|-1])
    ensures ask.family !in {2, 10} || ask.socketType !in {1, 2} ==> Failure(s, ask, run) == ValueError
  {
    EndsBadlyIff(s, run.cleanup);
    EndsBadlyIff(s, run.check);
    EndsBadlyIff(s, run.closing);
    EndsBadlyIff(s, run.body);
    FailureByPhase(s, ask, first, run);
    if run.check != [] {
      CheckMeaning(s, ask.blocking, Ret(run.body[ServerAt(ask)]), Ret(run.body[ClientAt(ask)]), run.check);
    }
  }

  lemma EndsBadlyIff(s: Setting, x: seq<Event>)
    ensures EndsBadly(s, x) <==> x != [] && !Fine(s, x[|x|-1])
    ensures EndsBadly(s, x) ==> Why(s, x[|x|-1]) != ConnectionError
  {
    if x != [] {
      WentWellIff(s, x[|x|-1]);
      if !WentWell(s, x[|x|-1]) { WhyMeaning(s, x[|x|-1]); }
    }
  }

  // Which phases a run can have.
  lemma FailureByPhase(s: Setting, ask: Ask, first: nat, run: Run)
    requires IsRun(s, ask, first, run) && !Succeeds(s, ask, run)
    ensures !IsKnown(ask.family) ==> run == Run([], [], [], [])
    ensures |run.closing| <= 1
    ensures run.check != [] ==> IsMade(s, ask, run.body, run.closing) && IsKnown(ask.family)
    ensures run.check != [] ==> run.body != [] && Fine(s, run.body[|run.body|-1])
    ensures run.check != [] && run.closing != [] ==> Fine(s, run.closing[0])
    ensures ask.socketType !in {1, 2} ==> run.body == run.closing == run.check == run.cleanup == []
    ensures run.check == [] && run.body != [] && Fine(s, run.body[|run.body|-1]) ==>
              run.closing != [] && !Fine(s, run.closing[0])
  {}

  // ---- the pair that is returned ------------------------------------------

  // The trace ends with lwIP naming each socket as the other's peer and with both of them
  // given the mode asked for.
  ghost predicate IsConnectedPair(s: Setting, t: seq<Event>, client: int, server: int, blocking: bool) {
    && |t| >= 6
    && var c := t[|t|-6..];
       && AllWell(s, c)
       && c[0].request == Name(server, Own) && c[1].request == Name(client, Peer)
       && c[2].request == Name(server, Peer) && c[3].request == Name(client, Own)
       && s.unparse(c[0].reply.buffer) == s.unparse(c[1].reply.buffer)
       && s.unparse(c[2].reply.buffer) == s.unparse(c[3].reply.buffer)
       && c[4].request == Blocking(client, blocking) && c[5].request == Blocking(server, blocking)
  }

  lemma SuccessIsConnected(s: Setting, ask: Ask, first: nat, run: Run, start: seq<Event>)
    requires IsRun(s, ask, first, run) && Succeeds(s, ask, run)
    ensures ServerCall(ask) < |run.body| && ClientCall(ask) < |run.body|
    ensures IsConnectedPair(s, start + Events(run), Ret(run.body[ClientCall(ask)]),
                            Ret(run.body[ServerCall(ask)]), ask.blocking)
  {
    SuccessMeaning(s, ask, first, run);
    CheckMeaning(s, ask.blocking, Ret(run.body[ServerAt(ask)]), Ret(run.body[ClientAt(ask)]), run.check);
    var t := start + Events(run);
    assert t == (start + run.body + run.closing) + run.check;
    assert t[|t|-6..] == run.check;
  }
}
