// src/lwip/__init__.py, LwIP.socketpair, as a protocol: which calls it makes, for
// every pattern of replies, and how it ends.
module PairRuns {
  import opened Basics
  import opened LwipError
  import opened Lifecycle
  import opened Sockets
  import SockAddrs
  import Inet

  const SOCK_STREAM: int := 1
  const SOCK_DGRAM: int := 2

  // The arguments of socketpair.
  datatype Ask = Ask(family: int, socketType: int, proto: int, blocking: bool)

  predicate IsKnown(family: int) {
    family == SockAddrs.AF_INET || family == SockAddrs.AF_INET6
  }

  // The loopback address of the family, port chosen by lwIP.
  function LocalBindAddress(family: int): SockAddrs.Address {
    if family == SockAddrs.AF_INET then SockAddrs.Pair("127.0.0.1", 0)
    else SockAddrs.Quad(SockAddrs.Literal6(SockAddrs.Zeros(15) + [1]), 0, 0, 0)
  }

  function NameOf(s: Setting, e: Event): SockAddrs.Address {
    NameIn(s, e).GetOr(SockAddrs.Other(0))
  }

  // ---- the calls of the try block -----------------------------------------

  function BodyLength(ask: Ask): nat {
    if ask.socketType == SOCK_STREAM then 8 else if ask.socketType == SOCK_DGRAM then 7 else 0
  }

  // Call i, given the calls before it.
  function BodyRequest(s: Setting, ask: Ask, b: seq<Event>, i: nat): Request
    requires i <= |b| && i < BodyLength(ask)
  {
    var local := LocalBindAddress(ask.family);
    if ask.socketType == SOCK_STREAM then
      match i
      case 0 => Open(ask.family, ask.socketType, ask.proto)   // the listener
      case 1 => Bind(Ret(b[0]), local)
      case 2 => Listen(Ret(b[0]))
      case 3 => Open(ask.family, ask.socketType, ask.proto)   // the client
      case 4 => Blocking(Ret(b[3]), false)
      case 5 => Name(Ret(b[0]), Own)
      case 6 => Connect(Ret(b[3]), NameOf(s, b[5]))
      case _ => Accept(Ret(b[0]))                              // the server
    else
      match i
      case 0 => Open(ask.family, ask.socketType, ask.proto)   // the server
      case 1 => Open(ask.family, ask.socketType, ask.proto)   // the client
      case 2 => Bind(Ret(b[0]), local)
      case 3 => Name(Ret(b[0]), Own)
      case 4 => Connect(Ret(b[1]), NameOf(s, b[3]))
      case 5 => Name(Ret(b[1]), Own)
      case _ => Connect(Ret(b[0]), NameOf(s, b[5]))
  }

  // The calls so far, none of which raised.
  predicate SoFar(s: Setting, ask: Ask, b: seq<Event>) {
    && |b| <= BodyLength(ask)
    && (forall i {:trigger BodyRequest(s, ask, b, i)} :: 0 <= i < |b| ==> b[i].request == BodyRequest(s, ask, b, i))
    && (forall i {:trigger Fine(s, b[i])} :: 0 <= i < |b| ==> Fine(s, b[i]))
  }

  // All of them, or those up to the first that raised.
  predicate IsBody(s: Setting, ask: Ask, b: seq<Event>) {
    && |b| <= BodyLength(ask)
    && (forall i {:trigger BodyRequest(s, ask, b, i)} :: 0 <= i < |b| ==> b[i].request == BodyRequest(s, ask, b, i))
    && (forall i {:trigger Fine(s, b[i])} :: 0 <= i < |b| - 1 ==> Fine(s, b[i]))
    && (|b| < BodyLength(ask) ==> b != [] && !Fine(s, b[|b|-1]))
  }

  // A call depends only on those before it.
  lemma SameRequest(s: Setting, ask: Ask, a: seq<Event>, b: seq<Event>, i: nat)
    requires i <= |a| && i <= |b| && i < BodyLength(ask) && a[..i] == b[..i]
    ensures BodyRequest(s, ask, a, i) == BodyRequest(s, ask, b, i)
  {
    assert forall k :: 0 <= k < i ==> a[k] == a[..i][k] == b[..i][k] == b[k];
  }

  lemma BodyGoesOn(s: Setting, ask: Ask, b: seq<Event>, e: Event)
    requires SoFar(s, ask, b) && |b| < BodyLength(ask) && e.request == BodyRequest(s, ask, b, |b|)
    ensures Fine(s, e) ==> SoFar(s, ask, b + [e])
    ensures !Fine(s, e) || |b| + 1 == BodyLength(ask) ==> IsBody(s, ask, b + [e])
  {
    var b' := b + [e];
    forall i | 0 <= i < |b'| ensures b'[i].request == BodyRequest(s, ask, b', i) && (i < |b| ==> Fine(s, b'[i])) {
      assert b'[..i] == b[..i];
      SameRequest(s, ask, b, b', i);
      if i < |b| { assert b'[i] == b[i]; }
    }
  }

  // ---- which sockets there are --------------------------------------------

  // The call that makes the server and the one that makes the client.
  function ServerAt(ask: Ask): nat { if ask.socketType == SOCK_STREAM then 7 else 0 }
  function ClientAt(ask: Ask): nat { if ask.socketType == SOCK_STREAM then 3 else 1 }

  predicate HasListener(s: Setting, ask: Ask, b: seq<Event>) {
    ask.socketType == SOCK_STREAM && |b| > 0 && Fine(s, b[0])
  }

  predicate HasServer(s: Setting, ask: Ask, b: seq<Event>) {
    ServerAt(ask) < |b| && Fine(s, b[ServerAt(ask)])
  }

  predicate HasClient(s: Setting, ask: Ask, b: seq<Event>) {
    ClientAt(ask) < |b| && Fine(s, b[ClientAt(ask)])
  }

  // What kind of call it is.
  lemma BodyKind(s: Setting, ask: Ask, b: seq<Event>, i: nat)
    requires (SoFar(s, ask, b) || IsBody(s, ask, b)) && i < |b|
    ensures b[i].request == BodyRequest(s, ask, b, i) && !b[i].request.Close? && !b[i].request.Finalize?
    ensures Allocates(b[i].request) <==> i == 0 || i == ClientAt(ask) || i == ServerAt(ask)
    ensures b[i].request.Accept? <==> ask.socketType == SOCK_STREAM && i == 7
    ensures i < |b| - 1 || SoFar(s, ask, b) ==> Fine(s, b[i])
  {
    assert b[i].request == BodyRequest(s, ask, b, i);
  }

  // The allocations, counted from the first one made by this call.
  function ServerGen(ask: Ask, first: nat): nat { if ask.socketType == SOCK_STREAM then first + 2 else first }

  // ---- the rest -----------------------------------------------------------

  // The given calls in order, up to the first that raises.
  predicate Through(s: Setting, requests: seq<Request>, x: seq<Event>) {
    && |x| <= |requests|
    && (forall i :: 0 <= i < |x| ==> x[i].request == requests[i])
    && (forall i :: 0 <= i < |x| - 1 ==> Fine(s, x[i]))
    && (|x| < |requests| ==> x != [] && !Fine(s, x[|x|-1]))
  }

  predicate AllFine(s: Setting, x: seq<Event>) {
    forall i :: 0 <= i < |x| ==> Fine(s, x[i])
  }

  // The inner finally clause.
  function ListenerClosing(s: Setting, ask: Ask, first: nat, b: seq<Event>): seq<Request> {
    if HasListener(s, ask, b) then [Close(Ret(b[0]), first)] else []
  }

  predicate IsMade(s: Setting, ask: Ask, b: seq<Event>, closing: seq<Event>) {
    0 < |b| == BodyLength(ask) && AllFine(s, b) && AllFine(s, closing)
  }

  // Are the two connected to each other? Then set their blocking mode.
  function CheckRequests(blocking: bool, server: int, client: int): seq<Request> {
    [Name(server, Own), Name(client, Peer), Name(server, Peer), Name(client, Own),
     Blocking(client, blocking), Blocking(server, blocking)]
  }

  // Calls 1 and 3 must answer what the call before them answered.
  predicate FineAt(s: Setting, c: seq<Event>, i: nat)
    requires i < |c|
  {
    Fine(s, c[i]) && (i == 1 || i == 3 ==> NameIn(s, c[i]) == NameIn(s, c[i-1]))
  }

  predicate IsCheck(s: Setting, requests: seq<Request>, c: seq<Event>) {
    && 0 < |c| <= |requests|
    && (forall i :: 0 <= i < |c| ==> c[i].request == requests[i])
    && (forall i :: 0 <= i < |c| - 1 ==> FineAt(s, c, i))
    && (|c| < |requests| ==> !FineAt(s, c, |c|-1))
  }

  // The except block.
  function PairClosing(s: Setting, ask: Ask, first: nat, b: seq<Event>): seq<Request> {
    (if HasServer(s, ask, b) then [Close(Ret(b[ServerAt(ask)]), ServerGen(ask, first))] else [])
    + (if HasClient(s, ask, b) then [Close(Ret(b[ClientAt(ask)]), first + 1)] else [])
  }

  // ---- a whole call -------------------------------------------------------

  datatype Run = Run(body: seq<Event>, closing: seq<Event>, check: seq<Event>, cleanup: seq<Event>)

  // All that follows the try block.
  function Tail(run: Run): seq<Event> {
    run.closing + run.check + run.cleanup
  }

  function Events(run: Run): seq<Event> {
    run.body + Tail(run)
  }

  function Checks(s: Setting, ask: Ask, b: seq<Event>): seq<Request>
    requires ServerAt(ask) < |b| && ClientAt(ask) < |b|
  {
    CheckRequests(ask.blocking, Ret(b[ServerAt(ask)]), Ret(b[ClientAt(ask)]))
  }

  predicate Succeeds(s: Setting, ask: Ask, run: Run) {
    IsKnown(ask.family) && IsMade(s, ask, run.body, run.closing) && |run.check| == 6 && FineAt(s, run.check, 5)
  }

  predicate IsRun(s: Setting, ask: Ask, first: nat, run: Run) {
    if !IsKnown(ask.family) then run == Run([], [], [], [])
    else
      && IsBody(s, ask, run.body)
      && Through(s, ListenerClosing(s, ask, first, run.body), run.closing)
      && (if IsMade(s, ask, run.body, run.closing) then IsCheck(s, Checks(s, ask, run.body), run.check)
          else run.check == [])
      && (if Succeeds(s, ask, run) then run.cleanup == []
          else Through(s, PairClosing(s, ask, first, run.body), run.cleanup))
  }

  // What a failing call raises: an exception of a later clause replaces the earlier one.
  function Failure(s: Setting, ask: Ask, run: Run): Exception {
    if run.cleanup != [] && !Fine(s, run.cleanup[|run.cleanup|-1]) then Why(s, run.cleanup[|run.cleanup|-1])
    else if run.check != [] then
      if Fine(s, run.check[|run.check|-1]) then ConnectionError else Why(s, run.check[|run.check|-1])
    else if run.closing != [] && !Fine(s, run.closing[0]) then Why(s, run.closing[0])
    else if run.body != [] && !Fine(s, run.body[|run.body|-1]) then Why(s, run.body[|run.body|-1])
    else ValueError     // invalid family or type
  }

  // ---- the replies determine the run --------------------------------------

  lemma {:induction false} SamePrefix(s: Setting, lwip: Schedule, w: World, a: seq<Event>, b: seq<Event>, n: nat)
    requires Plays(s, lwip, w, a) && Plays(s, lwip, w, b) && n < |a| && n < |b| && a[..n] == b[..n]
    requires a[n].request == b[n].request
    ensures a[..n+1] == b[..n+1]
  {
    PlaysTo(s, lwip, w, a, n);
    PlaysTo(s, lwip, w, b, n);
  }

  lemma {:induction false} PlaysTo(s: Setting, lwip: Schedule, w: World, a: seq<Event>, n: nat)
    requires Plays(s, lwip, w, a) && n < |a|
    ensures a[n] == EventAt(s, lwip, WorldAfter(w, a[..n]), a[n].request)
    decreases |a|
  {
    if n < |a| - 1 {
      PlaysTo(s, lwip, w, a[..|a|-1], n);
      assert a[..|a|-1][..n] == a[..n];
    }
  }

  lemma {:induction false} SameBody(s: Setting, lwip: Schedule, w: World, ask: Ask, a: seq<Event>, b: seq<Event>,
                                    n: nat)
    requires Plays(s, lwip, w, a) && Plays(s, lwip, w, b) && IsBody(s, ask, a) && IsBody(s, ask, b)
    requires n <= |a| && n <= |b|
    ensures a[..n] == b[..n]
  {
    if n > 0 {
      SameBody(s, lwip, w, ask, a, b, n - 1);
      SameRequest(s, ask, a, b, n - 1);
      SamePrefix(s, lwip, w, a, b, n - 1);
    }
  }

  lemma BodyIsDetermined(s: Setting, lwip: Schedule, w: World, ask: Ask, a: seq<Event>, b: seq<Event>)
    requires Plays(s, lwip, w, a) && Plays(s, lwip, w, b) && IsBody(s, ask, a) && IsBody(s, ask, b)
    ensures a == b
  {
    var n := if |a| < |b| then |a| else |b|;
    SameBody(s, lwip, w, ask, a, b, n);
    assert n > 0 ==> a[n-1] == a[..n][n-1] == b[..n][n-1] == b[n-1];
    assert a == a[..|a|] && b == b[..|b|];
  }

  lemma {:induction false} SameCalls(s: Setting, lwip: Schedule, w: World, requests: seq<Request>, a: seq<Event>,
                                     b: seq<Event>, n: nat)
    requires Plays(s, lwip, w, a) && Plays(s, lwip, w, b)
    requires |a| <= |requests| && |b| <= |requests| && n <= |a| && n <= |b|
    requires forall i :: 0 <= i < |a| ==> a[i].request == requests[i]
    requires forall i :: 0 <= i < |b| ==> b[i].request == requests[i]
    ensures a[..n] == b[..n]
  {
    if n > 0 {
      SameCalls(s, lwip, w, requests, a, b, n - 1);
      SamePrefix(s, lwip, w, a, b, n - 1);
    }
  }

  lemma ThroughIsDetermined(s: Setting, lwip: Schedule, w: World, requests: seq<Request>, a: seq<Event>, b: seq<Event>)
    requires Plays(s, lwip, w, a) && Plays(s, lwip, w, b) && Through(s, requests, a) && Through(s, requests, b)
    ensures a == b
  {
    var n := if |a| < |b| then |a| else |b|;
    SameCalls(s, lwip, w, requests, a, b, n);
    assert n > 0 ==> a[n-1] == a[..n][n-1] == b[..n][n-1] == b[n-1];
    assert a == a[..|a|] && b == b[..|b|];
  }

  lemma CheckIsDetermined(s: Setting, lwip: Schedule, w: World, requests: seq<Request>, a: seq<Event>, b: seq<Event>)
    requires Plays(s, lwip, w, a) && Plays(s, lwip, w, b) && IsCheck(s, requests, a) && IsCheck(s, requests, b)
    ensures a == b
  {
    var n := if |a| < |b| then |a| else |b|;
    SameCalls(s, lwip, w, requests, a, b, n);
    assert a[n-1] == a[..n][n-1] == b[..n][n-1] == b[n-1];
    assert n > 1 ==> a[n-2] == a[..n][n-2] == b[..n][n-2] == b[n-2];
    assert FineAt(s, a, n-1) <==> FineAt(s, b, n-1);
    assert a == a[..|a|] && b == b[..|b|];
  }

  // lwIP's replies leave socketpair no choice: there is one run for them.
  lemma RunIsDetermined(s: Setting, lwip: Schedule, w: World, ask: Ask, p: Run, q: Run)
    requires IsRun(s, ask, w.fds.issued, p) && Plays(s, lwip, w, Events(p))
    requires IsRun(s, ask, w.fds.issued, q) && Plays(s, lwip, w, Events(q))
    ensures p == q
  {
    if IsKnown(ask.family) {
      PhasesPlay(s, lwip, w, p);
      PhasesPlay(s, lwip, w, q);
      BodyIsDetermined(s, lwip, w, ask, p.body, q.body);
      var w1 := WorldAfter(w, p.body);
      ThroughIsDetermined(s, lwip, w1, ListenerClosing(s, ask, w.fds.issued, p.body), p.closing, q.closing);
      var w2 := WorldAfter(w1, p.closing);
      if IsMade(s, ask, p.body, p.closing) {
        CheckIsDetermined(s, lwip, w2, Checks(s, ask, p.body), p.check, q.check);
      }
      var w3 := WorldAfter(w2, p.check);
      if !Succeeds(s, ask, p) {
        ThroughIsDetermined(s, lwip, w3, PairClosing(s, ask, w.fds.issued, p.body), p.cleanup, q.cleanup);
      }
    }
  }

  lemma PhasesPlay(s: Setting, lwip: Schedule, w: World, run: Run)
    ensures Plays(s, lwip, w, Events(run)) <==>
              var w1 := WorldAfter(w, run.body);
              var w2 := WorldAfter(w1, run.closing);
              var w3 := WorldAfter(w2, run.check);
              Plays(s, lwip, w, run.body) && Plays(s, lwip, w1, run.closing) && Plays(s, lwip, w2, run.check)
              && Plays(s, lwip, w3, run.cleanup)
    ensures WorldAfter(w, Events(run))
            == WorldAfter(WorldAfter(WorldAfter(WorldAfter(w, run.body), run.closing), run.check), run.cleanup)
  {
    PlaysAppend(s, lwip, w, run.body, Tail(run));
    var w1 := WorldAfter(w, run.body);
    PlaysAppend(s, lwip, w1, run.closing + run.check, run.cleanup);
    PlaysAppend(s, lwip, w1, run.closing, run.check);
  }
}
