// src/lwip/__init__.py, LwIP.socketpair: the method, which performs exactly the runs
// that PairRuns describes.
module Socketpairs {
  import opened Basics
  import opened LwipError
  import opened Lifecycle
  import opened Sockets
  import opened PairRuns
  import Ledgers
  import PairBooks
  import PairMeaning
  import PairResults
  import SockAddrs
  import Inet
  import Digits

  type Unit = Result<(), Exception>

  function UnitOf(s: Setting, e: Event): Unit {
    if Fine(s, e) then Ok(()) else Err(Why(s, e))
  }

  // ---- forwarding methods of a socket -------------------------------------

  method Forward(stack: Stack, request: Request) returns (r: Unit)
    requires stack.Valid() && !IsBare(request) && !request.Name? && !request.Accept?
    modifies stack`fds, stack`trace, stack.ffi`errno
    ensures stack.Valid() && stack.Did(request) && r == UnitOf(stack.setting, stack.Last())
  {
    var ret, _ := stack.Checked(request);
    r := if ret.Err? then Err(ret.error) else Ok(());
  }

  // k.getsockname(), k.getpeername()
  method NameOfSocket(k: Socket, side: Side) returns (r: Result<SockAddrs.Address, Exception>)
    requires k.stack.Valid()
    modifies k.stack`fds, k.stack`trace, k.stack.ffi`errno
    ensures k.stack.Valid() && k.stack.Did(Name(k.s, side))
    ensures r == if Fine(k.stack.setting, k.stack.Last()) then Ok(NameOf(k.stack.setting, k.stack.Last()))
                 else Err(Why(k.stack.setting, k.stack.Last()))
  {
    var ret, e := k.stack.Checked(Name(k.s, side));
    if ret.Err? {
      return Err(ret.error);
    }
    var address := Unparse(k.stack, e);
    r := if address.Err? then Err(ValueError) else Ok(address.value);
  }

  // k.bind(address), for an address that can be parsed
  method BindTo(k: Socket, address: SockAddrs.Address) returns (r: Unit)
    requires k.stack.Valid() && SockAddrs.Encode(k.stack.little, address, SockAddrs.AF_UNSPEC).Ok?
    modifies k.stack`fds, k.stack`trace, k.stack.ffi`errno
    ensures k.stack.Valid() && k.stack.Did(Bind(k.s, address)) && r == UnitOf(k.stack.setting, k.stack.Last())
  {
    var _ := SockAddrs.SockAddr.ParseAddress(k.stack.little, address, SockAddrs.AF_UNSPEC);
    r := Forward(k.stack, Bind(k.s, address));
  }

  // k.connect_ex(address): lwip_connect called bare, so that errno is left as lwIP
  // set it.
  method ConnectEx(k: Socket, address: SockAddrs.Address)
    requires k.stack.Valid() && SockAddrs.Encode(k.stack.little, address, SockAddrs.AF_UNSPEC).Ok?
    modifies k.stack`fds, k.stack`trace, k.stack.ffi`errno
    ensures k.stack.Valid() && k.stack.Did(Connect(k.s, address)) && Fine(k.stack.setting, k.stack.Last())
  {
    var _ := SockAddrs.SockAddr.ParseAddress(k.stack.little, address, SockAddrs.AF_UNSPEC);
    var _ := k.stack.Bare(Connect(k.s, address));
  }

  lemma Loopback()
    ensures Inet.InetPton4("127.0.0.1").Some?
  {
    assert Digits.Print(Digits.Ten, 12) == "12";
    assert Digits.Print(Digits.Ten, 127) == "127";
    assert Digits.Print(Digits.Ten, 0) == "0" && Digits.Print(Digits.Ten, 1) == "1";
    assert Inet.InetNtop4([127, 0, 0, 1]) == "127.0.0.1";
    Inet.Pton4Ntop4([127, 0, 0, 1]);
  }

  lemma LoopbackParses4(little: bool)
    ensures SockAddrs.Encode(little, SockAddrs.Pair("127.0.0.1", 0), SockAddrs.AF_UNSPEC).Ok?
  {
    Loopback();
  }

  lemma LocalParses(little: bool, family: int)
    ensures SockAddrs.Encode(little, LocalBindAddress(family), SockAddrs.AF_UNSPEC).Ok?
  {
    if family == SockAddrs.AF_INET { LoopbackParses4(little); }
  }

  // An address that was unparsed can be parsed.
  lemma NameParses(stack: Stack, e: Event)
    requires stack.Valid() && NameIn(stack.setting, e).Some?
    ensures SockAddrs.Encode(stack.little, NameOf(stack.setting, e), SockAddrs.AF_UNSPEC).Ok?
  {
    assert stack.setting.unparse(e.reply.buffer) == Unparsed(stack.little, e.reply.buffer);
    SockAddrs.ReparseIsExactIff(stack.little, e.reply.buffer);
  }

  // ---- the try block ------------------------------------------------------

  // The first n calls were made, or those up to one that raised.
  predicate Stage(s: Setting, ask: Ask, n: nat, b: seq<Event>, r: Unit) {
    if r.Ok? then SoFar(s, ask, b) && |b| == n
    else 0 < |b| <= n && IsBody(s, ask, b) && !Fine(s, b[|b|-1]) && r.error == Why(s, b[|b|-1])
  }

  // One more call of the try block.
  lemma OneMoreCall(s: Setting, ask: Ask, start: seq<Event>, b: seq<Event>, e: Event)
    requires SoFar(s, ask, b) && |b| < BodyLength(ask) && e.request == BodyRequest(s, ask, b, |b|)
    ensures Stage(s, ask, |b| + 1, b + [e], UnitOf(s, e))
    ensures start + b + [e] == start + (b + [e])
  {
    BodyGoesOn(s, ask, b, e);
    assert (b + [e])[|b|] == e;
  }

  // listen_sock.bind, listen_sock.listen
  method BindAndListen(listener: Socket, ask: Ask, ghost start: seq<Event>, ghost b0: seq<Event>)
    returns (r: Unit, ghost b: seq<Event>)
    requires listener.stack.Valid() && listener.stack.trace == start + b0
    requires ask.socketType == SOCK_STREAM
    requires SoFar(listener.stack.setting, ask, b0)
    requires |b0| == 1
    requires listener.s == Ret(b0[0])
    modifies listener.stack`fds, listener.stack`trace, listener.stack.ffi`errno
    ensures listener.stack.Valid() && listener.stack.trace == start + b
    ensures b0 <= b && Stage(listener.stack.setting, ask, 3, b, r) && listener.stack.fds == old(listener.stack.fds)
  {
    var stack := listener.stack;
    ghost var s := stack.setting;
    LocalParses(stack.little, ask.family);
    r := BindTo(listener, LocalBindAddress(ask.family));
    b := b0 + [stack.Last()];
    OneMoreCall(s, ask, start, b0, stack.Last());
    if r.Ok? {
      r := Forward(stack, Listen(listener.s));
      OneMoreCall(s, ask, start, b, stack.Last());
      b := b + [stack.Last()];
    }
  }

  // Calls n and n + 1 connect one socket to the name of another; both are known by the
  // call that made them.
  predicate ConnectsAt(ask: Ask, n: nat, named: nat, connecting: nat) {
    if ask.socketType == SOCK_STREAM then n == 5 && named == 0 && connecting == 3
    else
      && ask.socketType == SOCK_DGRAM
      && ((n == 3 && named == 0 && connecting == 1) || (n == 5 && named == 1 && connecting == 0))
  }

  lemma ConnectsByName(s: Setting, ask: Ask, b: seq<Event>, e: Event, named: nat, connecting: nat)
    requires ConnectsAt(ask, |b|, named, connecting)
    ensures BodyRequest(s, ask, b, |b|) == Name(Ret(b[named]), Own)
    ensures BodyRequest(s, ask, b + [e], |b| + 1) == Connect(Ret(b[connecting]), NameOf(s, e))
  {
    assert (b + [e])[|b|] == e && (b + [e])[named] == b[named] && (b + [e])[connecting] == b[connecting];
  }

  // client_sock.connect_ex(listen_sock.getsockname()), and the like
  method ConnectToName(client: Socket, listener: Socket, ask: Ask, ghost start: seq<Event>, ghost b0: seq<Event>,
                       ghost named: nat, ghost connecting: nat)
    returns (r: Unit, ghost b: seq<Event>)
    requires listener.stack.Valid() && client.stack == listener.stack && listener.stack.trace == start + b0
    requires SoFar(listener.stack.setting, ask, b0) && ConnectsAt(ask, |b0|, named, connecting)
    requires listener.s == Ret(b0[named]) && client.s == Ret(b0[connecting])
    modifies listener.stack`fds, listener.stack`trace, listener.stack.ffi`errno
    ensures listener.stack.Valid() && listener.stack.trace == start + b
    ensures b0 <= b
    ensures Stage(listener.stack.setting, ask, |b0| + 2, b, r)
    ensures listener.stack.fds == old(listener.stack.fds)
  {
    var stack := listener.stack;
    ghost var s := stack.setting;
    var name := NameOfSocket(listener, Own);
    ConnectsByName(s, ask, b0, stack.Last(), named, connecting);
    OneMoreCall(s, ask, start, b0, stack.Last());
    b := b0 + [stack.Last()];
    if name.Err? {
      return Err(name.error), b;
    }
    NameParses(stack, stack.Last());
    ConnectEx(client, name.value);
    OneMoreCall(s, ask, start, b, stack.Last());
    b := b + [stack.Last()];
    r := Ok(());
  }

  // client_sock.setblocking(False), client_sock.connect_ex(listen_sock.getsockname())
  method ConnectTo(client: Socket, listener: Socket, ask: Ask, ghost start: seq<Event>, ghost b0: seq<Event>)
    returns (r: Unit, ghost b: seq<Event>)
    requires listener.stack.Valid() && client.stack == listener.stack && listener.stack.trace == start + b0
    requires ask.socketType == SOCK_STREAM && SoFar(listener.stack.setting, ask, b0) && |b0| == 4
    requires listener.s == Ret(b0[0]) && client.s == Ret(b0[3])
    modifies listener.stack`fds, listener.stack`trace, listener.stack.ffi`errno
    ensures listener.stack.Valid() && listener.stack.trace == start + b
    ensures b0 <= b && Stage(listener.stack.setting, ask, 7, b, r) && listener.stack.fds == old(listener.stack.fds)
  {
    var stack := listener.stack;
    r := Forward(stack, Blocking(client.s, false));
    b := b0 + [stack.Last()];
    OneMoreCall(stack.setting, ask, start, b0, stack.Last());
    if r.Ok? {
      r, b := ConnectToName(client, listener, ask, start, b, 0, 3);
    }
  }

  // Closed by the call e, whatever came of it: the number is forgotten and the finalizer
  // detached.
  ghost predicate IsClosedBy(k: Socket, stack: Stack, gen: nat, fd: int, e: Event)
    reads k
  {
    && k.stack == stack && k.gen == gen && k.born == fd && k.Valid()
    && k.View() == SlotDetach(SlotClear(SlotCall(NewSlot(fd), HowOf(e))))
  }

  // The socket that accept() dropped, if it did: still open, with its finalizer.
  ghost predicate IsDropped(k: Socket?, stack: Stack, gen: nat, b: seq<Event>)
    reads {k} - {null}
  {
    && (k != null <==> b != [] && Drops(stack.setting, b[|b|-1]))
    && (k != null ==> k.IsNew(stack, gen, Ret(b[|b|-1])))
  }

  // The listener, if there is one, in the end.
  ghost predicate IsListener(k: Socket?, stack: Stack, ask: Ask, gen: nat, b: seq<Event>, closing: seq<Event>)
    reads {k} - {null}
  {
    && (k != null <==> HasListener(stack.setting, ask, b))
    && (k != null ==> |closing| == 1 && IsClosedBy(k, stack, gen, Ret(b[0]), closing[0]))
  }

  // The inner try block, up to accept().
  method MakeClient(listener: Socket, ask: Ask, ghost start: seq<Event>, ghost b0: seq<Event>)
    returns (r: Unit, client: Socket?, ghost b: seq<Event>)
    requires listener.stack.Valid() && listener.stack.trace == start + b0
    requires ask.socketType == SOCK_STREAM
    requires SoFar(listener.stack.setting, ask, b0)
    requires |b0| == 1
    requires listener.s == Ret(b0[0])
    modifies listener.stack`fds, listener.stack`trace, listener.stack.ffi`errno
    ensures listener.stack.Valid() && listener.stack.trace == start + b
    ensures b0 <= b && Stage(listener.stack.setting, ask, 7, b, r)
    ensures client != null <==> HasClient(listener.stack.setting, ask, b)
    ensures client != null ==> fresh(client) && client.IsNew(listener.stack, old(listener.stack.fds.issued), Ret(b[3]))
    ensures r.Ok? ==> listener.stack.fds.issued == old(listener.stack.fds.issued) + 1
  {
    var stack := listener.stack;
    ghost var s := stack.setting;
    client := null;
    r, b := BindAndListen(listener, ask, start, b0);
    if r.Ok? {
      var made := OpenSocket(stack, ask.family, ask.socketType, ask.proto);
      OneMoreCall(s, ask, start, b, stack.Last());
      b := b + [stack.Last()];
      if made.Err? {
        return Err(made.error), null, b;
      }
      client := made.value;
      r, b := ConnectTo(client, listener, ask, start, b);
    }
  }

  lemma NotYetAccepted(s: Setting, ask: Ask, b: seq<Event>)
    requires IsBody(s, ask, b) && 0 < |b| && (|b| < 8 || ask.socketType != SOCK_STREAM)
    ensures !Drops(s, b[|b|-1])
  {
    BodyKind(s, ask, b, |b| - 1);
  }

  // All of the inner try block.
  method TryStream(listener: Socket, ask: Ask, ghost start: seq<Event>, ghost b0: seq<Event>)
    returns (r: Unit, client: Socket?, server: Socket?, ghost b: seq<Event>, ghost dropped: Socket?)
    requires listener.stack.Valid() && listener.stack.trace == start + b0
    requires ask.socketType == SOCK_STREAM
    requires SoFar(listener.stack.setting, ask, b0)
    requires |b0| == 1
    requires listener.s == Ret(b0[0])
    modifies listener.stack`fds, listener.stack`trace, listener.stack.ffi`errno
    ensures listener.stack.Valid() && listener.stack.trace == start + b
    ensures b0 <= b && Stage(listener.stack.setting, ask, 8, b, r)
    ensures client != null <==> HasClient(listener.stack.setting, ask, b)
    ensures server != null <==> HasServer(listener.stack.setting, ask, b)
    ensures client != null ==> fresh(client) && client.IsNew(listener.stack, old(listener.stack.fds.issued), Ret(b[3]))
    ensures server != null ==>
              && fresh(server) && server != client
              && server.IsNew(listener.stack, old(listener.stack.fds.issued) + 1, Ret(b[7]))
    ensures IsDropped(dropped, listener.stack, old(listener.stack.fds.issued) + 1, b)
    ensures (dropped != null ==> fresh(dropped))
  {
    var stack := listener.stack;
    server, dropped := null, null;
    r, client, b := MakeClient(listener, ask, start, b0);
    if r.Err? { NotYetAccepted(stack.setting, ask, b); }
    if r.Ok? {
      var made;
      made, dropped := listener.Accept();
      OneMoreCall(stack.setting, ask, start, b, stack.Last());
      b := b + [stack.Last()];
      if made.Err? {
        return Err(made.error), client, null, b, dropped;
      }
      server := made.value.0;
    }
  }

  // The same with its finally clause: the listener is closed however the block went.
  method WithListener(listener: Socket, ask: Ask, ghost start: seq<Event>, ghost b0: seq<Event>, ghost first: nat)
    returns (r: Unit, client: Socket?, server: Socket?, ghost b: seq<Event>, ghost closing: seq<Event>,
             ghost dropped: Socket?)
    requires listener.stack.Valid() && listener.stack.trace == start + b0 && listener.stack.fds.issued == first + 1
    requires ask.socketType == SOCK_STREAM && SoFar(listener.stack.setting, ask, b0) && |b0| == 1
    requires listener.IsNew(listener.stack, first, Ret(b0[0]))
    modifies listener`s, listener`fin, listener`reached
    modifies listener.stack`fds, listener.stack`trace, listener.stack.ffi`errno
    ensures listener.stack.Valid() && listener.stack.trace == start + b + closing
    ensures IsBody(listener.stack.setting, ask, b)
    ensures Through(listener.stack.setting, ListenerClosing(listener.stack.setting, ask, first, b), closing)
    ensures r == TryOutcome(listener.stack.setting, ask, b, closing)
    ensures client != null <==> HasClient(listener.stack.setting, ask, b)
    ensures server != null <==> HasServer(listener.stack.setting, ask, b)
    ensures client != null ==> fresh(client) && client.IsNew(listener.stack, first + 1, Ret(b[3]))
    ensures server != null ==> fresh(server) && server.IsNew(listener.stack, first + 2, Ret(b[7])) && server != client
    ensures IsDropped(dropped, listener.stack, first + 2, b) && (dropped != null ==> fresh(dropped))
    ensures IsListener(listener, listener.stack, ask, first, b, closing)
  {
    r, client, server, b, dropped := TryStream(listener, ask, start, b0);
    assert Stage(listener.stack.setting, ask, BodyLength(ask), b, r);
    StageIsBody(listener.stack.setting, ask, b, r);
    assert b[0] == b0[0];
    var closed := listener.Close();
    closing := [listener.stack.Last()];
    if closed.Err? {
      r := Err(closed.error);
    }
  }

  lemma StageIsBody(s: Setting, ask: Ask, b: seq<Event>, r: Unit)
    requires exists n :: Stage(s, ask, n, b, r) && (r.Err? || n == BodyLength(ask))
    requires b != []
    ensures IsBody(s, ask, b) && r == TryOutcome(s, ask, b, [])
  {
    var n :| Stage(s, ask, n, b, r) && (r.Err? || n == BodyLength(ask));
    if r.Ok? {
      assert Fine(s, b[|b|-1]);
      assert r.value == ();
    }
  }

  // The SOCK_STREAM branch.
  method StreamPair(stack: Stack, ask: Ask)
    returns (r: Unit, client: Socket?, server: Socket?, ghost b: seq<Event>, ghost closing: seq<Event>,
             ghost listener: Socket?, ghost dropped: Socket?)
    requires stack.Valid() && ask.socketType == SOCK_STREAM
    modifies stack`fds, stack`trace, stack.ffi`errno
    ensures stack.Valid() && stack.trace == old(stack.trace) + b + closing
    ensures IsBody(stack.setting, ask, b)
    ensures Through(stack.setting, ListenerClosing(stack.setting, ask, old(stack.fds.issued), b), closing)
    ensures r == TryOutcome(stack.setting, ask, b, closing)
    ensures client != null <==> HasClient(stack.setting, ask, b)
    ensures server != null <==> HasServer(stack.setting, ask, b)
    ensures client != null ==> fresh(client) && client.IsNew(stack, old(stack.fds.issued) + 1, Ret(b[3]))
    ensures server != null ==>
              fresh(server) && server.IsNew(stack, old(stack.fds.issued) + 2, Ret(b[7])) && server != client
    ensures IsDropped(dropped, stack, old(stack.fds.issued) + 2, b) && (dropped != null ==> fresh(dropped))
    ensures IsListener(listener, stack, ask, old(stack.fds.issued), b, closing)
    ensures (listener != null ==> fresh(listener))
  {
    ghost var start := stack.trace;
    listener, dropped := null, null;
    var created := OpenSocket(stack, ask.family, ask.socketType, ask.proto);
    OneMoreCall(stack.setting, ask, start, [], stack.Last());
    b := [] + [stack.Last()];
    assert start + [] == start && stack.trace == start + b;
    if created.Err? {
      r := Err(created.error);
      assert Stage(stack.setting, ask, 1, b, r);
      StageIsBody(stack.setting, ask, b, r);
      assert start + b + [] == start + b;
      NotYetAccepted(stack.setting, ask, b);
      return Err(created.error), null, null, b, [], null, null;
    }
    listener := created.value;
    r, client, server, b, closing, dropped := WithListener(created.value, ask, start, b, old(stack.fds.issued));
  }

  // How the try block ends, as far as the check.
  function TryOutcome(s: Setting, ask: Ask, b: seq<Event>, closing: seq<Event>): Unit {
    if closing != [] && !Fine(s, closing[0]) then Err(Why(s, closing[0]))
    else if b != [] && !Fine(s, b[|b|-1]) then Err(Why(s, b[|b|-1]))
    else if b == [] then Err(ValueError)
    else Ok(())
  }

  // The SOCK_DGRAM branch.
  method DatagramPair(stack: Stack, ask: Ask)
    returns (r: Unit, client: Socket?, server: Socket?, ghost b: seq<Event>)
    requires stack.Valid() && ask.socketType == SOCK_DGRAM
    modifies stack`fds, stack`trace, stack.ffi`errno
    ensures stack.Valid() && stack.trace == old(stack.trace) + b
    ensures IsBody(stack.setting, ask, b) && r == TryOutcome(stack.setting, ask, b, [])
    ensures client != null <==> HasClient(stack.setting, ask, b)
    ensures server != null <==> HasServer(stack.setting, ask, b)
    ensures client != null ==> fresh(client) && client.IsNew(stack, old(stack.fds.issued) + 1, Ret(b[1]))
    ensures server != null ==>
              fresh(server) && server.IsNew(stack, old(stack.fds.issued), Ret(b[0])) && server != client
  {
    ghost var start, s := stack.trace, stack.setting;
    client, server := null, null;
    var first := OpenSocket(stack, ask.family, ask.socketType, ask.proto);
    OneMoreCall(s, ask, start, [], stack.Last());
    b := [] + [stack.Last()];
    assert start + [] == start && stack.trace == start + b;
    if first.Err? {
      r := Err(first.error);
      assert Stage(s, ask, 1, b, r);
    } else {
      server := first.value;
      var second := OpenSocket(stack, ask.family, ask.socketType, ask.proto);
      OneMoreCall(s, ask, start, b, stack.Last());
      b := b + [stack.Last()];
      if second.Err? {
        r := Err(second.error);
        assert Stage(s, ask, 2, b, r);
      } else {
        client := second.value;
        r, b := ConnectBoth(server, client, ask, start, b);
        assert Stage(s, ask, 7, b, r);
      }
    }
    StageIsBody(s, ask, b, r);
  }

  // server_sock.bind, then each socket connects to the name of the other.
  method ConnectBoth(server: Socket, client: Socket, ask: Ask, ghost start: seq<Event>, ghost b0: seq<Event>)
    returns (r: Unit, ghost b: seq<Event>)
    requires server.stack.Valid() && client.stack == server.stack && server.stack.trace == start + b0
    requires ask.socketType == SOCK_DGRAM && SoFar(server.stack.setting, ask, b0) && |b0| == 2
    requires server.s == Ret(b0[0]) && client.s == Ret(b0[1])
    modifies server.stack`fds, server.stack`trace, server.stack.ffi`errno
    ensures server.stack.Valid() && server.stack.trace == start + b
    ensures b0 <= b && Stage(server.stack.setting, ask, 7, b, r) && server.stack.fds == old(server.stack.fds)
  {
    var stack := server.stack;
    LocalParses(stack.little, ask.family);
    r := BindTo(server, LocalBindAddress(ask.family));
    b := b0 + [stack.Last()];
    OneMoreCall(stack.setting, ask, start, b0, stack.Last());
    if r.Ok? {
      r, b := ConnectToName(client, server, ask, start, b, 0, 1);
    }
    if r.Ok? {
      r, b := ConnectToName(server, client, ask, start, b, 1, 0);
    }
  }

  // ---- are the two connected to each other? -------------------------------

  // The first n calls were made without finding fault, or those up to one that did.
  predicate CheckStage(s: Setting, requests: seq<Request>, n: nat, c: seq<Event>, r: Unit) {
    && |c| <= n <= |requests|
    && (forall i :: 0 <= i < |c| ==> c[i].request == requests[i])
    && (forall i :: 0 <= i < |c| - 1 ==> FineAt(s, c, i))
    && (if r.Ok? then |c| == n && (c != [] ==> FineAt(s, c, |c|-1))
        else c != [] && !FineAt(s, c, |c|-1) && r.error == CheckError(s, c[|c|-1]))
  }

  function CheckError(s: Setting, e: Event): Exception {
    if Fine(s, e) then ConnectionError else Why(s, e)
  }

  lemma OneMoreCheck(s: Setting, requests: seq<Request>, start: seq<Event>, c: seq<Event>, e: Event)
    requires CheckStage(s, requests, |c|, c, Ok(())) && |c| < |requests| && e.request == requests[|c|]
    ensures start + c + [e] == start + (c + [e])
    ensures FineAt(s, c + [e], |c|) ==> CheckStage(s, requests, |c| + 1, c + [e], Ok(()))
    ensures !FineAt(s, c + [e], |c|) ==> CheckStage(s, requests, |c| + 1, c + [e], Err(CheckError(s, e)))
  {
    var c' := c + [e];
    assert forall i :: 0 <= i < |c| ==> c'[i] == c[i];
    assert forall i :: 0 <= i < |c| ==> (FineAt(s, c', i) <==> FineAt(s, c, i));
  }

  // The names of the two on one side of the connection.
  method SameName(j: Socket, side: Side, k: Socket, side': Side, ghost requests: seq<Request>, ghost start: seq<Event>,
                  ghost c0: seq<Event>)
    returns (r: Unit, ghost c: seq<Event>)
    requires j.stack.Valid() && j.stack == k.stack && j.stack.trace == start + c0
    requires CheckStage(j.stack.setting, requests, |c0|, c0, Ok(())) && |c0| in {0, 2} && |c0| + 2 <= |requests|
    requires requests[|c0|] == Name(j.s, side) && requests[|c0| + 1] == Name(k.s, side')
    modifies j.stack`fds, j.stack`trace, j.stack.ffi`errno
    ensures j.stack.Valid() && j.stack.trace == start + c
    ensures CheckStage(j.stack.setting, requests, |c0| + 2, c, r)
  {
    var stack := j.stack;
    var near := NameOfSocket(j, side);
    OneMoreCheck(stack.setting, requests, start, c0, stack.Last());
    c := c0 + [stack.Last()];
    if near.Err? {
      return Err(near.error), c;
    }
    var far := NameOfSocket(k, side');
    OneMoreCheck(stack.setting, requests, start, c, stack.Last());
    c := c + [stack.Last()];
    if far.Err? {
      return Err(far.error), c;
    }
    r := if near.value != far.value then Err(ConnectionError) else Ok(());
  }

  // Then both are given their blocking mode.
  method SetBoth(server: Socket, client: Socket, blocking: bool, ghost start: seq<Event>, ghost c0: seq<Event>)
    returns (r: Unit, ghost c: seq<Event>)
    requires client.stack == server.stack && server.stack.Valid() && server.stack.trace == start + c0
    requires |c0| == 4 && CheckStage(server.stack.setting, CheckRequests(blocking, server.s, client.s), 4, c0, Ok(()))
    modifies server.stack`fds, server.stack`trace, server.stack.ffi`errno
    ensures server.stack.Valid() && server.stack.trace == start + c
    ensures CheckStage(server.stack.setting, CheckRequests(blocking, server.s, client.s), 6, c, r)
  {
    var stack := server.stack;
    ghost var requests := CheckRequests(blocking, server.s, client.s);
    r := Forward(stack, Blocking(client.s, blocking));
    OneMoreCheck(stack.setting, requests, start, c0, stack.Last());
    c := c0 + [stack.Last()];
    if r.Ok? {
      r := Forward(stack, Blocking(server.s, blocking));
      OneMoreCheck(stack.setting, requests, start, c, stack.Last());
      c := c + [stack.Last()];
    }
  }

  method Confirm(server: Socket, client: Socket, blocking: bool) returns (r: Unit, ghost c: seq<Event>)
    requires client.stack == server.stack && server.stack.Valid()
    modifies server.stack`fds, server.stack`trace, server.stack.ffi`errno
    ensures server.stack.Valid() && server.stack.trace == old(server.stack.trace) + c
    ensures CheckStage(server.stack.setting, CheckRequests(blocking, server.s, client.s), 6, c, r)
    ensures PairMeaning.CheckCalls(blocking, server.s, client.s, c)
    ensures r.Ok? <==> && |c| == 6 && PairMeaning.AllWell(server.stack.setting, c)
                       && PairMeaning.AllSame(server.stack.setting, c)
    ensures r == Err(ConnectionError) <==> PairMeaning.ComparisonFails(server.stack.setting, c)
  {
    ghost var start, requests := server.stack.trace, CheckRequests(blocking, server.s, client.s);
    assert start + [] == start;
    r, c := SameName(server, Own, client, Peer, requests, start, []);
    if r.Ok? {
      r, c := SameName(server, Peer, client, Own, requests, start, c);
    }
    if r.Ok? {
      r, c := SetBoth(server, client, blocking, start, c);
    }
    CheckStageMeaning(server.stack.setting, blocking, server.s, client.s, c, r);
  }

  // When the check goes through, and when it raises ConnectionError.
  lemma CheckStageMeaning(s: Setting, blocking: bool, server: int, client: int, c: seq<Event>, r: Unit)
    requires CheckStage(s, CheckRequests(blocking, server, client), 6, c, r)
    ensures PairMeaning.CheckCalls(blocking, server, client, c)
    ensures r.Ok? <==> |c| == 6 && PairMeaning.AllWell(s, c) && PairMeaning.AllSame(s, c)
    ensures r == Err(ConnectionError) <==> PairMeaning.ComparisonFails(s, c)
  {
    CheckEnds(s, CheckRequests(blocking, server, client), c, r);
    PairMeaning.CheckMeaning(s, blocking, server, client, c);
    PairMeaning.EndsBadlyIff(s, c);
  }

  // ---- the except block ---------------------------------------------------

  function ClosingOf(k: Socket): Request
    reads k
  {
    Close(k.s, k.gen)
  }

  // Close the server socket, then the client socket; if the first close raises, the
  // second is not reached.
  method Cleanup(stack: Stack, client: Socket?, server: Socket?)
    returns (raised: Option<Exception>, ghost x: seq<Event>)
    requires stack.Valid() && (client != null ==> client != server)
    requires client != null ==> client.stack == stack && client.Valid() && client.s >= 0
    requires server != null ==> server.stack == stack && server.Valid() && server.s >= 0
    modifies stack`fds, stack`trace, stack.ffi`errno, {client, server} - {null}
    ensures stack.Valid() && stack.trace == old(stack.trace) + x
    ensures Through(stack.setting,
                    old((if server == null then [] else [ClosingOf(server)])
                        + (if client == null then [] else [ClosingOf(client)])), x)
    ensures raised == if x != [] && !Fine(stack.setting, x[|x|-1]) then Some(Why(stack.setting, x[|x|-1])) else None
    // the objects: closed, but a client whose turn did not come is as it was
    ensures server != null ==> server.Valid() && x != []
                               && server.View() == SlotDetach(SlotClear(SlotCall(old(server.View()), HowOf(x[0]))))
    ensures client != null ==> client.Valid()
    ensures client != null && server != null && !Fine(stack.setting, x[0]) ==> client.View() == old(client.View())
    ensures client != null && (server != null ==> Fine(stack.setting, x[0])) ==>
              x != [] && client.View() == SlotDetach(SlotClear(SlotCall(old(client.View()), HowOf(x[|x|-1]))))
  {
    ghost var start := stack.trace;
    raised, x := None, [];
    if server != null {
      var closed := server.Close();
      x := [stack.Last()];
      if closed.Err? {
        return Some(closed.error), x;
      }
    }
    if client != null {
      var closed := client.Close();
      assert start + x + [stack.Last()] == start + (x + [stack.Last()]);
      x := x + [stack.Last()];
      if closed.Err? {
        return Some(closed.error), x;
      }
    }
  }

  // ---- socketpair ---------------------------------------------------------

  lemma TryOutcomeIff(s: Setting, ask: Ask, first: nat, b: seq<Event>, closing: seq<Event>)
    requires IsBody(s, ask, b) && Through(s, ListenerClosing(s, ask, first, b), closing)
    ensures TryOutcome(s, ask, b, closing).Ok? <==> IsMade(s, ask, b, closing)
    ensures IsMade(s, ask, b, closing) ==> HasServer(s, ask, b) && HasClient(s, ask, b)
  {}

  lemma CheckEnds(s: Setting, requests: seq<Request>, c: seq<Event>, r: Unit)
    requires |requests| == 6 && CheckStage(s, requests, 6, c, r)
    ensures IsCheck(s, requests, c)
    ensures r.Ok? <==> |c| == 6 && FineAt(s, c, 5)
    ensures r.Err? ==> r.error == CheckError(s, c[|c|-1])
  {}

  // The body of the outer try block, up to the check.
  method MakePair(stack: Stack, ask: Ask)
    returns (r: Unit, client: Socket?, server: Socket?, ghost b: seq<Event>, ghost closing: seq<Event>,
             ghost listener: Socket?, ghost dropped: Socket?)
    requires stack.Valid()
    modifies stack`fds, stack`trace, stack.ffi`errno
    ensures stack.Valid() && stack.trace == old(stack.trace) + b + closing
    ensures IsBody(stack.setting, ask, b)
    ensures Through(stack.setting, ListenerClosing(stack.setting, ask, old(stack.fds.issued), b), closing)
    ensures r == TryOutcome(stack.setting, ask, b, closing)
    ensures client != null <==> HasClient(stack.setting, ask, b)
    ensures server != null <==> HasServer(stack.setting, ask, b)
    ensures client != null ==> fresh(client) && client.IsNew(stack, old(stack.fds.issued) + 1, Ret(b[ClientAt(ask)]))
    ensures server != null ==>
              && fresh(server) && server != client
              && server.IsNew(stack, ServerGen(ask, old(stack.fds.issued)), Ret(b[ServerAt(ask)]))
    ensures IsDropped(dropped, stack, old(stack.fds.issued) + 2, b) && (dropped != null ==> fresh(dropped))
    ensures IsListener(listener, stack, ask, old(stack.fds.issued), b, closing)
    ensures (listener != null ==> fresh(listener))
  {
    r, client, server, b, closing, listener, dropped := Err(ValueError), null, null, [], [], null, null;
    if ask.socketType == SOCK_STREAM {
      r, client, server, b, closing, listener, dropped := StreamPair(stack, ask);
    } else if ask.socketType == SOCK_DGRAM {
      r, client, server, b := DatagramPair(stack, ask);
      if b != [] { NotYetAccepted(stack.setting, ask, b); }
    }
  }

  predicate IsTried(s: Setting, ask: Ask, first: nat, b: seq<Event>, closing: seq<Event>, c: seq<Event>, r: Unit) {
    && IsBody(s, ask, b)
    && Through(s, ListenerClosing(s, ask, first, b), closing)
    && (if IsMade(s, ask, b, closing) then
          && IsCheck(s, Checks(s, ask, b), c)
          && (if r.Ok? then |c| == 6 && FineAt(s, c, 5)
              else !(|c| == 6 && FineAt(s, c, 5)) && r.error == CheckError(s, c[|c|-1]))
        else c == [] && r.Err? && r == TryOutcome(s, ask, b, closing))
  }

  lemma RunEnds(s: Setting, ask: Ask, first: nat, run: Run, step: Unit, raised: Option<Exception>)
    requires IsKnown(ask.family) && IsTried(s, ask, first, run.body, run.closing, run.check, step)
    requires if step.Ok? then run.cleanup == [] else Through(s, PairClosing(s, ask, first, run.body), run.cleanup)
    requires raised == if run.cleanup != [] && !Fine(s, run.cleanup[|run.cleanup|-1])
                       then Some(Why(s, run.cleanup[|run.cleanup|-1])) else None
    ensures IsRun(s, ask, first, run) && (step.Ok? <==> Succeeds(s, ask, run))
    ensures step.Err? ==> Failure(s, ask, run) == if raised.Some? then raised.value else step.error
  {}

  lemma InOneGo(start: seq<Event>, run: Run)
    ensures start + run.body + run.closing + run.check + run.cleanup == start + Events(run)
    ensures run.cleanup == [] ==> start + run.body + run.closing + run.check == start + Events(run)
  {}

  // The sockets a call makes; those it did not make are null.
  datatype Cast = Cast(listener: Socket?, client: Socket?, server: Socket?, dropped: Socket?) {
    ghost function Members(): set<Socket?> {
      {listener, client, server, dropped} - {null}
    }
  }

  // How the objects end, by the calls that ended them; `ok` says that there is no except
  // block.
  ghost predicate IsInPlace(stack: Stack, ask: Ask, first: nat, run: Run, cast: Cast, ok: bool)
    reads cast.Members()
  {
    && IsListener(cast.listener, stack, ask, first, run.body, run.closing)
    && IsDropped(cast.dropped, stack, first + 2, run.body)
    && IsServer(stack, ask, first, run, cast, ok)
    && IsClient(stack, ask, first, run, cast, ok)
  }

  ghost predicate IsServer(stack: Stack, ask: Ask, first: nat, run: Run, cast: Cast, ok: bool)
    reads cast.Members()
  {
    var k, b, x := cast.server, run.body, run.cleanup;
    && (k != null <==> HasServer(stack.setting, ask, b))
    && (k != null ==>
          if ok then k.IsNew(stack, ServerGen(ask, first), Ret(b[ServerAt(ask)]))
          else x != [] && IsClosedBy(k, stack, ServerGen(ask, first), Ret(b[ServerAt(ask)]), x[0]))
  }

  ghost predicate IsClient(stack: Stack, ask: Ask, first: nat, run: Run, cast: Cast, ok: bool)
    reads cast.Members()
  {
    var k, b, x := cast.client, run.body, run.cleanup;
    && (k != null <==> HasClient(stack.setting, ask, b))
    && (k != null ==>
          if ok || (HasServer(stack.setting, ask, b) && x != [] && !Fine(stack.setting, x[0]))
          then k.IsNew(stack, first + 1, Ret(b[ClientAt(ask)]))
          else x != [] && IsClosedBy(k, stack, first + 1, Ret(b[ClientAt(ask)]), x[|x|-1]))
  }

  // The whole outer try block; the check is empty if it was not reached.
  method TryBlock(stack: Stack, ask: Ask)
    returns (r: Unit, client: Socket?, server: Socket?, ghost run: Run, ghost cast: Cast)
    requires stack.Valid()
    modifies stack`fds, stack`trace, stack.ffi`errno
    ensures stack.Valid() && stack.trace == old(stack.trace) + run.body + run.closing + run.check && run.cleanup == []
    ensures IsTried(stack.setting, ask, old(stack.fds.issued), run.body, run.closing, run.check, r)
    ensures cast.client == client && cast.server == server && fresh(cast.Members())
    ensures (client != null ==> fresh(client)) && (server != null ==> fresh(server))
    ensures IsInPlace(stack, ask, old(stack.fds.issued), run, cast, true)
  {
    ghost var c := [];
    r, client, server, run, cast := MadePair(stack, ask);
    TryOutcomeIff(stack.setting, ask, old(stack.fds.issued), run.body, run.closing);
    if r.Ok? {
      r, c := Confirm(server, client, ask.blocking);
      CheckEnds(stack.setting, Checks(stack.setting, ask, run.body), c, r);
    }
    run := run.(check := c);
  }

  method MadePair(stack: Stack, ask: Ask)
    returns (r: Unit, client: Socket?, server: Socket?, ghost run: Run, ghost cast: Cast)
    requires stack.Valid()
    modifies stack`fds, stack`trace, stack.ffi`errno
    ensures stack.Valid() && stack.trace == old(stack.trace) + run.body + run.closing && run.check == run.cleanup == []
    ensures IsBody(stack.setting, ask, run.body)
    ensures Through(stack.setting, ListenerClosing(stack.setting, ask, old(stack.fds.issued), run.body), run.closing)
    ensures r == TryOutcome(stack.setting, ask, run.body, run.closing)
    ensures cast.client == client && cast.server == server && fresh(cast.Members())
    ensures (client != null ==> fresh(client)) && (server != null ==> fresh(server))
    ensures IsInPlace(stack, ask, old(stack.fds.issued), run, cast, true)
  {
    ghost var b, closing, listener, dropped;
    r, client, server, b, closing, listener, dropped := MakePair(stack, ask);
    run, cast := Run(b, closing, [], []), Cast(listener, client, server, dropped);
  }

  // The except block.
  method Except(stack: Stack, ask: Ask, client: Socket?, server: Socket?, ghost first: nat, ghost run: Run,
                ghost cast: Cast)
    returns (raised: Option<Exception>, ghost x: seq<Event>)
    requires stack.Valid() && cast.client == client && cast.server == server
    requires IsBody(stack.setting, ask, run.body) && IsInPlace(stack, ask, first, run, cast, true)
    modifies stack`fds, stack`trace, stack.ffi`errno, {client, server} - {null}
    ensures stack.Valid() && stack.trace == old(stack.trace) + x
    ensures Through(stack.setting, PairClosing(stack.setting, ask, first, run.body), x)
    ensures raised == if x != [] && !Fine(stack.setting, x[|x|-1]) then Some(Why(stack.setting, x[|x|-1])) else None
    ensures IsInPlace(stack, ask, first, run.(cleanup := x), cast, false)
  {
    if run.body != [] { BodyKind(stack.setting, ask, run.body, |run.body| - 1); }
    assert client != null ==> client.gen == first + 1 && client != server;
    assert cast.listener != null ==> cast.listener != client && cast.listener != server;
    assert cast.dropped != null ==> cast.dropped != client && cast.dropped != server;
    raised, x := Cleanup(stack, client, server);
  }

  // Socket i of the ledger.
  function Member(ask: Ask, cast: Cast, i: int): Socket? {
    if ask.socketType == SOCK_STREAM then
      if i == 0 then cast.listener else if i == 1 then cast.client
      else if i == 2 then (if cast.server != null then cast.server else cast.dropped) else null
    else if i == 0 then cast.server else if i == 1 then cast.client else null
  }

  // Each object is in the state that the ledger says; only a lost number has none.
  ghost predicate IsBooked(stack: Stack, ask: Ask, first: nat, run: Run, cast: Cast)
    reads cast.Members()
  {
    var books := PairBooks.Books(stack.setting, ask, first, run);
    && (forall i :: 0 <= i < |books| ==> IsBookedAs(stack, books[i], Member(ask, cast, i)))
    && (forall k: Socket :: k in cast.Members() ==>
          0 <= k.gen - first < |books| && Member(ask, cast, k.gen - first) == k)
    && IsCast(stack.setting, ask, first, run, cast)
  }

  ghost predicate IsBookedAs(stack: Stack, r: Ledgers.Rec, k: Socket?)
    reads {k} - {null}
  {
    if k == null then r.slot.Lost?
    else k.stack == stack && k.gen == r.gen && k.born == r.born && k.Valid() && k.View() == r.slot
  }

  // Which sockets a run makes, and for which allocations.
  predicate IsCast(s: Setting, ask: Ask, first: nat, run: Run, cast: Cast) {
    && (cast.listener != null <==> HasListener(s, ask, run.body))
    && (cast.client != null <==> HasClient(s, ask, run.body))
    && (cast.server != null <==> HasServer(s, ask, run.body))
    && (cast.dropped != null <==> PairBooks.PeerDropped(s, run))
    && (cast.listener != null ==> cast.listener.gen == first)
    && (cast.client != null ==> cast.client.gen == first + 1)
    && (cast.server != null ==> cast.server.gen == ServerGen(ask, first))
    && (cast.dropped != null ==> cast.dropped.gen == first + 2)
  }

  lemma EachIsBooked(stack: Stack, ask: Ask, first: nat, run: Run, cast: Cast, i: nat, r: Ledgers.Rec)
    requires PairResults.HasRole(stack.setting, ask, first, run, i, r)
    requires IsInPlace(stack, ask, first, run, cast, Succeeds(stack.setting, ask, run))
    requires MadeLike(ask, run, i)
    ensures IsBookedAs(stack, r, Member(ask, cast, i))
  {}

  lemma NoneIsMissing(stack: Stack, ask: Ask, first: nat, run: Run, cast: Cast, ok: bool, k: Socket)
    requires IsBody(stack.setting, ask, run.body) && IsInPlace(stack, ask, first, run, cast, ok) && k in cast.Members()
    ensures 0 <= k.gen - first < |PairBooks.Books(stack.setting, ask, first, run)|
    ensures Member(ask, cast, k.gen - first) == k
  {
    var b := run.body;
    PairBooks.BodyRecs(stack.setting, ask, first, b);
    if b != [] { BodyKind(stack.setting, ask, b, |b| - 1); }
  }

  // Only an accept() can drop, and it is the last call of the try block.
  predicate MadeLike(ask: Ask, run: Run, i: nat) {
    && PairBooks.MadeAt(ask, i) < |run.body|
    && (ask.socketType != SOCK_STREAM ==> i < 2)
    && forall j :: 0 <= j < |run.body| && run.body[j].request.Accept? ==>
         ask.socketType == SOCK_STREAM && j == 7 == |run.body| - 1
  }

  lemma IsMadeLike(s: Setting, ask: Ask, first: nat, run: Run, i: nat)
    requires IsBody(s, ask, run.body) && i < |PairBooks.Books(s, ask, first, run)|
    ensures MadeLike(ask, run, i)
  {
    PairBooks.BodyRecs(s, ask, first, run.body);
    forall j | 0 <= j < |run.body| && run.body[j].request.Accept?
      ensures ask.socketType == SOCK_STREAM && j == 7 == |run.body| - 1
    {
      BodyKind(s, ask, run.body, j);
    }
  }

  lemma AllAreBooked(stack: Stack, ask: Ask, first: nat, run: Run, cast: Cast)
    requires IsKnown(ask.family) && IsRun(stack.setting, ask, first, run)
    requires IsInPlace(stack, ask, first, run, cast, Succeeds(stack.setting, ask, run))
    ensures IsBooked(stack, ask, first, run, cast)
  {
    var books := PairBooks.Books(stack.setting, ask, first, run);
    forall i: nat | i < |books| ensures IsBookedAs(stack, books[i], Member(ask, cast, i)) {
      PairResults.RoleEntry(stack.setting, ask, first, run, i);
      IsMadeLike(stack.setting, ask, first, run, i);
      EachIsBooked(stack, ask, first, run, cast, i, books[i]);
    }
    forall k: Socket | k in cast.Members()
      ensures 0 <= k.gen - first < |books|
      ensures Member(ask, cast, k.gen - first) == k
    {
      NoneIsMissing(stack, ask, first, run, cast, Succeeds(stack.setting, ask, run), k);
    }
  }

  // The except block of a call whose try block failed: the run and what is raised.
  method Recover(stack: Stack, ask: Ask, step: Unit, client: Socket?, server: Socket?, ghost first: nat,
                 ghost tried: Run, ghost cast: Cast, ghost start: seq<Event>)
    returns (error: Exception, ghost run: Run)
    requires stack.Valid() && cast.client == client && cast.server == server && IsKnown(ask.family)
    requires IsTried(stack.setting, ask, first, tried.body, tried.closing, tried.check, step) && step.Err?
    requires IsInPlace(stack, ask, first, tried, cast, true)
    requires stack.trace == start + tried.body + tried.closing + tried.check
    modifies stack`fds, stack`trace, stack.ffi`errno, {client, server} - {null}
    ensures stack.Valid() && stack.trace == start + Events(run)
    ensures IsRun(stack.setting, ask, first, run) && !Succeeds(stack.setting, ask, run)
    ensures error == Failure(stack.setting, ask, run)
    ensures IsInPlace(stack, ask, first, run, cast, false)
  {
    var raised;
    ghost var x;
    raised, x := Except(stack, ask, client, server, first, tried, cast);
    error := if raised.Some? then raised.value else step.error;
    run := tried.(cleanup := x);
    RunEnds(stack.setting, ask, first, run, step, raised);
    InOneGo(start, run);
  }

  // The outer try and except blocks.
  method TryPair(stack: Stack, ask: Ask)
    returns (r: Result<(Socket, Socket), Exception>, ghost run: Run, ghost cast: Cast)
    requires stack.Valid() && IsKnown(ask.family)
    modifies stack`fds, stack`trace, stack.ffi`errno
    ensures stack.Valid() && stack.trace == old(stack.trace) + Events(run)
    ensures IsRun(stack.setting, ask, old(stack.fds.issued), run)
    ensures r.Ok? <==> Succeeds(stack.setting, ask, run)
    ensures r.Ok? ==> r.value == (cast.client, cast.server)
    ensures r.Err? ==> r.error == Failure(stack.setting, ask, run)
    ensures IsInPlace(stack, ask, old(stack.fds.issued), run, cast, r.Ok?)
    ensures fresh(cast.Members())
  {
    // try
    var step, client, server;
    step, client, server, run, cast := TryBlock(stack, ask);
    if step.Ok? {
      RunEnds(stack.setting, ask, old(stack.fds.issued), run, step, None);
      InOneGo(old(stack.trace), run);
      SuccessHasBoth(stack.setting, ask, old(stack.fds.issued), run);
      r := Ok((client, server));
    } else {
      // except
      var error;
      error, run := Recover(stack, ask, step, client, server, old(stack.fds.issued), run, cast, old(stack.trace));
      r := Err(error);
    }
  }

  lemma SuccessHasBoth(s: Setting, ask: Ask, first: nat, run: Run)
    requires IsKnown(ask.family) && IsRun(s, ask, first, run) && Succeeds(s, ask, run)
    ensures HasServer(s, ask, run.body) && HasClient(s, ask, run.body)
  {}

  // Every call of socketpair is a run as PairRuns has it, made of lwIP's own replies; the
  // run decides whether it returns or raises, and what. Every socket made on the way ends
  // as the ledger of the run says: open with its finalizer live, or closed with none.
  method Socketpair(stack: Stack, family: int, socketType: int, proto: int, blocking: bool)
    returns (r: Result<(Socket, Socket), Exception>, ghost run: Run, ghost cast: Cast)
    requires stack.Valid()
    modifies stack`fds, stack`trace, stack.ffi`errno
    ensures stack.Valid() && stack.trace == old(stack.trace) + Events(run)
    ensures LeadsTo(stack.setting, stack.lwip, old(stack.Here()), Events(run), stack.Here())
    ensures IsRun(stack.setting, Ask(family, socketType, proto, blocking), old(stack.fds.issued), run)
    ensures r.Ok? <==> Succeeds(stack.setting, Ask(family, socketType, proto, blocking), run)
    ensures r.Ok? ==> r.value == (cast.client, cast.server)
    ensures r.Ok? ==> && cast.client != null && cast.server != null
                      && PairMeaning.IsConnectedPair(stack.setting, stack.trace, cast.client.s, cast.server.s, blocking)
    ensures r.Err? ==> r.error == Failure(stack.setting, Ask(family, socketType, proto, blocking), run)
    ensures IsBooked(stack, Ask(family, socketType, proto, blocking), old(stack.fds.issued), run, cast)
    ensures fresh(cast.Members())
  {
    if family == SockAddrs.AF_INET || family == SockAddrs.AF_INET6 {
      r, run, cast := TryPair(stack, Ask(family, socketType, proto, blocking));
      AllAreBooked(stack, Ask(family, socketType, proto, blocking), old(stack.fds.issued), run, cast);
    } else {
      r, run, cast := Err(ValueError), Run([], [], [], []), Cast(null, null, null, null);
    }
    stack.PlayedSince(Events(run));
    if r.Ok? {
      PairIsConnected(stack, Ask(family, socketType, proto, blocking), old(stack.fds.issued), run, cast,
                      old(stack.trace));
    }
  }

  // lwIP named each of the two sockets as the other's peer.
  lemma PairIsConnected(stack: Stack, ask: Ask, first: nat, run: Run, cast: Cast, start: seq<Event>)
    requires IsRun(stack.setting, ask, first, run) && Succeeds(stack.setting, ask, run)
    requires IsBooked(stack, ask, first, run, cast) && stack.trace == start + Events(run)
    ensures cast.client != null && cast.server != null
    ensures PairMeaning.IsConnectedPair(stack.setting, stack.trace, cast.client.s, cast.server.s, ask.blocking)
  {
    PairIsBooked(stack, ask, first, run, cast);
    PairMeaning.SuccessIsConnected(stack.setting, ask, first, run, start);
  }

  // ---- what is left -------------------------------------------------------

  ghost predicate IsOpen(stack: Stack, k: Socket)
    reads k, stack
  {
    k.s == k.born && k.fin == Armed(k.s) && k.s in stack.fds.open && stack.fds.open[k.s] == k.gen
  }

  ghost predicate IsShut(k: Socket)
    reads k
  {
    k.s == -1 && k.fin == Detached
  }

  // Open in the end: the two sockets returned, or a dropped peer, or a client whose turn
  // to be closed did not come.
  predicate IsLeft(s: Setting, ask: Ask, run: Run, cast: Cast, k: Socket) {
    if Succeeds(s, ask, run) then k == cast.client || k == cast.server
    else k == cast.dropped || (k == cast.client && PairBooks.ClientLeft(s, ask, run))
  }

  lemma LeftIsLive(stack: Stack, ask: Ask, first: nat, run: Run, cast: Cast, k: Socket)
    requires IsKnown(ask.family) && IsRun(stack.setting, ask, first, run) && IsBooked(stack, ask, first, run, cast)
    requires k in cast.Members()
    ensures IsLeft(stack.setting, ask, run, cast, k) <==>
              Ledgers.IsLive(PairBooks.Books(stack.setting, ask, first, run)[k.gen - first])
  {
    PairBooks.WhoIsLeft(stack.setting, ask, first, run, k.gen - first);
    PairResults.CastFacts(stack.setting, ask, first, run);
  }

  lemma LeftIsOpen(stack: Stack, before: Fds, ask: Ask, run: Run, cast: Cast, k: Socket)
    requires IsKnown(ask.family) && IsRun(stack.setting, ask, before.issued, run)
    requires IsBooked(stack, ask, before.issued, run, cast) && k in cast.Members()
    requires Ledgers.Agrees(before, stack.fds, PairBooks.Books(stack.setting, ask, before.issued, run))
    ensures if IsLeft(stack.setting, ask, run, cast, k) then IsOpen(stack, k) else IsShut(k)
  {
    LeftIsLive(stack, ask, before.issued, run, cast, k);
    var books, i := PairBooks.Books(stack.setting, ask, before.issued, run), k.gen - before.issued;
    assert IsBookedAs(stack, books[i], Member(ask, cast, i));
    assert Ledgers.RecOk(stack.fds, books[i]);
  }

  ghost predicate AllAreLeftOrShut(stack: Stack, ask: Ask, run: Run, cast: Cast)
    reads cast.Members(), stack
  {
    forall k: Socket :: k in cast.Members() ==>
      if IsLeft(stack.setting, ask, run, cast, k) then IsOpen(stack, k) else IsShut(k)
  }

  lemma LeftOrShut(stack: Stack, before: Fds, ask: Ask, run: Run, cast: Cast)
    requires IsKnown(ask.family) && IsRun(stack.setting, ask, before.issued, run)
    requires IsBooked(stack, ask, before.issued, run, cast)
    requires Ledgers.Agrees(before, stack.fds, PairBooks.Books(stack.setting, ask, before.issued, run))
    ensures AllAreLeftOrShut(stack, ask, run, cast)
    ensures cast.listener != null ==> IsShut(cast.listener)
  {
    forall k: Socket | k in cast.Members()
      ensures if IsLeft(stack.setting, ask, run, cast, k) then IsOpen(stack, k) else IsShut(k)
    {
      LeftIsOpen(stack, before, ask, run, cast, k);
    }
    if cast.listener != null {
      LeftIsLive(stack, ask, before.issued, run, cast, cast.listener);
      PairResults.ListenerIsClosed(stack.setting, ask, before.issued, run);
    }
  }

  // What lwIP holds in the end. Success: exactly the numbers of the two sockets more.
  // Failure: what it held before, exactly when the replies of the run spoilt nothing and
  // the client was not left behind.
  ghost predicate IsConserved(stack: Stack, before: Fds, ask: Ask, run: Run, cast: Cast)
    reads cast.Members(), stack
  {
    if Succeeds(stack.setting, ask, run) then
      && cast.client != null && cast.server != null
      && cast.client.s !in before.open && cast.server.s !in before.open && cast.client.s != cast.server.s
      && stack.fds.open == before.open[cast.client.s := cast.client.gen][cast.server.s := cast.server.gen]
    else stack.fds.open == before.open <==>
           !PairBooks.ClientLeft(stack.setting, ask, run) && !PairResults.Spoilt(stack.setting, Events(run))
  }

  lemma SuccessIsConserved(stack: Stack, w: World, ask: Ask, run: Run, cast: Cast)
    requires FdsOk(w.fds) && IsRun(stack.setting, ask, w.fds.issued, run) && Succeeds(stack.setting, ask, run)
    requires Plays(stack.setting, stack.lwip, w, Events(run)) && stack.fds == WorldAfter(w, Events(run)).fds
    requires IsBooked(stack, ask, w.fds.issued, run, cast)
    ensures IsConserved(stack, w.fds, ask, run, cast)
  {
    PairResults.SuccessLeavesTwo(stack.setting, stack.lwip, w, ask, run);
    PairIsBooked(stack, ask, w.fds.issued, run, cast);
  }

  // The two sockets of a successful call report the numbers that lwIP returned.
  lemma PairIsBooked(stack: Stack, ask: Ask, first: nat, run: Run, cast: Cast)
    requires IsRun(stack.setting, ask, first, run) && Succeeds(stack.setting, ask, run)
    requires IsBooked(stack, ask, first, run, cast)
    ensures cast.client != null && cast.client.s == Ret(run.body[ClientAt(ask)]) && cast.client.gen == first + 1
    ensures cast.server != null && cast.server.s == Ret(run.body[ServerAt(ask)])
    ensures cast.server.gen == ServerGen(ask, first)
  {
    PairResults.CastFacts(stack.setting, ask, first, run);
    PairResults.SuccessBooks(stack.setting, ask, first, run);
    var books := PairBooks.Books(stack.setting, ask, first, run);
    assert IsBookedAs(stack, books[1], Member(ask, cast, 1));
    assert IsBookedAs(stack, books[ServerGen(ask, 0)], Member(ask, cast, ServerGen(ask, 0)));
  }

  lemma Conserved(stack: Stack, w: World, ask: Ask, run: Run, cast: Cast)
    requires FdsOk(w.fds) && IsRun(stack.setting, ask, w.fds.issued, run)
    requires Plays(stack.setting, stack.lwip, w, Events(run)) && stack.fds == WorldAfter(w, Events(run)).fds
    requires IsBooked(stack, ask, w.fds.issued, run, cast)
    ensures IsConserved(stack, w.fds, ask, run, cast) && AllAreLeftOrShut(stack, ask, run, cast)
    ensures cast.listener != null ==> IsShut(cast.listener)
    ensures Ledgers.Framed(w.fds, stack.fds)
  {
    PairResults.EveryRunAgrees(stack.setting, stack.lwip, w, ask, run);
    if !IsKnown(ask.family) {
      return;
    }
    LeftOrShut(stack, w.fds, ask, run, cast);
    if Succeeds(stack.setting, ask, run) {
      SuccessIsConserved(stack, w, ask, run, cast);
    } else {
      PairResults.FailureLeavesNothingIff(stack.setting, stack.lwip, w, ask, run);
    }
  }

  // Warnings as errors, and accept() refused because of the errno that connect_ex left:
  // listener and client are both closed for Python, without a finalizer, and lwIP keeps
  // both numbers.
  lemma RefusedPairLeaks(stack: Stack, w: World, ask: Ask, run: Run, cast: Cast)
    requires FdsOk(w.fds) && IsKnown(ask.family) && IsRun(stack.setting, ask, w.fds.issued, run)
    requires Plays(stack.setting, stack.lwip, w, Events(run)) && stack.fds == WorldAfter(w, Events(run)).fds
    requires IsBooked(stack, ask, w.fds.issued, run, cast)
    requires ask.socketType == SOCK_STREAM && |run.body| == 8 && run.body[7].Refused? && stack.setting.strict
    ensures cast.listener != null && cast.client != null && IsShut(cast.listener) && IsShut(cast.client)
    ensures Lookup(stack.fds, cast.listener.born) == Allocation(cast.listener.gen)
    ensures Lookup(stack.fds, cast.client.born) == Allocation(cast.client.gen)
  {
    PairResults.RefusedAcceptLeaks(stack.setting, stack.lwip, w, ask, run);
    BodyKind(stack.setting, ask, run.body, 0);
    BodyKind(stack.setting, ask, run.body, 3);
    var books := PairBooks.Books(stack.setting, ask, w.fds.issued, run);
    assert IsBookedAs(stack, books[0], Member(ask, cast, 0)) && IsBookedAs(stack, books[1], Member(ask, cast, 1));
    assert Ledgers.Holds(stack.fds, books[0]) && Ledgers.Holds(stack.fds, books[1]);
    PairResults.EveryRunAgrees(stack.setting, stack.lwip, w, ask, run);
    assert Ledgers.RecOk(stack.fds, books[0]) && Ledgers.RecOk(stack.fds, books[1]);
  }

  // The same in terms of what lwIP holds and of the objects. Whatever is left open has its
  // finalizer; everything else, the listener always, is closed.
  method SocketpairConserves(stack: Stack, family: int, socketType: int, proto: int, blocking: bool)
    returns (r: Result<(Socket, Socket), Exception>, ghost run: Run, ghost cast: Cast)
    requires stack.Valid() && FdsOk(stack.fds)
    modifies stack`fds, stack`trace, stack.ffi`errno
    ensures stack.Valid() && stack.trace == old(stack.trace) + Events(run)
    ensures IsRun(stack.setting, Ask(family, socketType, proto, blocking), old(stack.fds.issued), run)
    ensures r.Ok? <==> Succeeds(stack.setting, Ask(family, socketType, proto, blocking), run)
    ensures r.Ok? ==> r.value == (cast.client, cast.server)
    ensures IsConserved(stack, old(stack.fds), Ask(family, socketType, proto, blocking), run, cast)
    ensures AllAreLeftOrShut(stack, Ask(family, socketType, proto, blocking), run, cast)
    ensures cast.listener != null ==> IsShut(cast.listener)
    ensures fresh(cast.Members()) && Ledgers.Framed(old(stack.fds), stack.fds)
  {
    ghost var w := stack.Here();
    r, run, cast := Socketpair(stack, family, socketType, proto, blocking);
    Conserved(stack, w, Ask(family, socketType, proto, blocking), run, cast);
  }
}
