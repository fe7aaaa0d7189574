// src/lwip/socket.py, class Socket, and LwIP.socket of src/lwip/__init__.py, over
// an lwIP that may fail at any call and reuse any released number.
module Sockets {
  import opened Basics
  import opened LwipError
  import opened Lifecycle
  import SockAddrs

  // ---- the foreign calls --------------------------------------------------

  datatype Side = Own | Peer      // lwip_getsockname, lwip_getpeername

  // `meant` is the allocation on whose behalf a number is closed. Finalize is
  // lwip_close called by a finalizer.
  datatype Request =
    | Open(family: int, socketType: int, proto: int)
    | Accept(fd: int)
    | Close(fd: int, meant: nat)
    | Finalize(fd: int, meant: nat)
    | Bind(fd: int, address: SockAddrs.Address)
    | Listen(fd: int)
    | Blocking(fd: int, on: bool)
    | Name(fd: int, side: Side)
    | Connect(fd: int, address: SockAddrs.Address)

  // What lwIP does with one call: its result, what it stores in errno and in the
  // address buffer, and whether a failing lwip_close releases the number.
  datatype Reply = Reply(ret: int, sets: Option<int>, buffer: SockAddrs.Buffer, releases: bool)

  // lwIP as a schedule of replies: any sequence of them.
  type Schedule = nat -> Reply

  // A call that was made, or that check_ret_errno refused to make.
  datatype Event = Made(request: Request, reply: Reply) | Refused(request: Request)

  // The warnings filter, and what unparse_address makes of a buffer.
  datatype Setting = Setting(strict: bool, unparse: SockAddrs.Buffer -> Option<SockAddrs.Address>)

  function Unparsed(little: bool, b: SockAddrs.Buffer): Option<SockAddrs.Address> {
    match SockAddrs.Decode(little, b)
    case Ok(a) => Some(a)
    case Err(_) => None
  }
  datatype World = World(fds: Fds, errno: int, calls: nat)

  // Called without check_ret_errno.
  predicate IsBare(request: Request) {
    request.Finalize? || request.Connect?
  }

  predicate Releases(reply: Reply) {
    reply.releases || reply.ret >= 0
  }

  predicate Allocates(request: Request) {
    request.Open? || request.Accept?
  }

  // lwIP issues no number that is in use.
  function Answer(f: Fds, request: Request, reply: Reply): Reply {
    if Allocates(request) && reply.ret in f.open then reply.(ret := -1) else reply
  }

  function Effect(f: Fds, request: Request, reply: Reply): Fds {
    match request
    case Open(_, _, _) => if reply.ret >= 0 then Issue(f, reply.ret) else f
    case Accept(_) => if reply.ret >= 0 then Issue(f, reply.ret) else f
    case Close(fd, meant) => Strike(f, meant, fd, Releases(reply))
    case Finalize(fd, meant) => Strike(f, meant, fd, Releases(reply))
    case _ => f
  }

  function EventAt(s: Setting, lwip: Schedule, w: World, request: Request): Event {
    if !IsBare(request) && s.strict && w.errno != 0 then Refused(request)
    else Made(request, Answer(w.fds, request, lwip(w.calls)))
  }

  function Next(w: World, e: Event): World {
    match e
    case Refused(_) => w.(calls := w.calls + 1)
    case Made(request, reply) =>
      World(Effect(w.fds, request, reply), if IsBare(request) then reply.sets.GetOr(w.errno) else 0, w.calls + 1)
  }

  // What the caller of the wrapper, or of the bare function, gets.
  function Ended(s: Setting, e: Event): Outcome {
    match e
    case Refused(_) => Err(RuntimeWarning)
    case Made(request, reply) =>
      if IsBare(request) then Ok(reply.ret) else CheckLeave(s.strict, reply.ret, reply.sets.GetOr(0))
  }

  function Ret(e: Event): int {
    if e.Made? then e.reply.ret else -1
  }

  // The address in the buffer that lwIP filled in.
  function NameIn(s: Setting, e: Event): Option<SockAddrs.Address> {
    if e.Made? then s.unparse(e.reply.buffer) else None
  }

  // The method that made the call goes on. Two of them unparse an address as well.
  predicate Fine(s: Setting, e: Event) {
    Ended(s, e).Ok? && (e.request.Name? || e.request.Accept? ==> NameIn(s, e).Some?)
  }

  // ... or raises this.
  function Why(s: Setting, e: Event): Exception
    requires !Fine(s, e)
  {
    if Ended(s, e).Err? then Ended(s, e).error else ValueError
  }

  // lwIP issued a number and the wrapper raised instead of returning it.
  predicate Loses(s: Setting, e: Event) {
    Allocates(e.request) && Ret(e) >= 0 && Ended(s, e).Err?
  }

  // accept() made a socket and raised while unparsing the peer's address.
  predicate Drops(s: Setting, e: Event) {
    e.request.Accept? && Ended(s, e).Ok? && !Fine(s, e)
  }

  // A number is lost exactly if errno was set beside it and warnings are errors.
  lemma LosesIff(s: Setting, e: Event)
    ensures Loses(s, e) <==> && e.Made? && Allocates(e.request) && e.reply.ret >= 0
                             && s.strict && e.reply.sets.GetOr(0) != 0
  {}

  function HowOf(e: Event): How {
    match e
    case Refused(_) => NotCalled
    case Made(_, reply) => if Releases(reply) then How.Releases else Keeps
  }

  // ---- runs ---------------------------------------------------------------

  function WorldAfter(w: World, events: seq<Event>): World {
    if events == [] then w else Next(WorldAfter(w, events[..|events|-1]), events[|events|-1])
  }

  // Each event is what lwIP's schedule makes of the call.
  predicate Plays(s: Setting, lwip: Schedule, w: World, events: seq<Event>) {
    events == [] ||
    var front, last := events[..|events|-1], events[|events|-1];
    Plays(s, lwip, w, front) && last == EventAt(s, lwip, WorldAfter(w, front), last.request)
  }

  lemma OneMore(s: Setting, lwip: Schedule, w: World, events: seq<Event>, e: Event)
    requires Plays(s, lwip, w, events) && e == EventAt(s, lwip, WorldAfter(w, events), e.request)
    ensures Plays(s, lwip, w, events + [e]) && WorldAfter(w, events + [e]) == Next(WorldAfter(w, events), e)
  {
    assert (events + [e])[..|events|] == events;
  }

  lemma {:induction false} PlaysAppend(s: Setting, lwip: Schedule, w: World, a: seq<Event>, b: seq<Event>)
    ensures Plays(s, lwip, w, a + b) <==> Plays(s, lwip, w, a) && Plays(s, lwip, WorldAfter(w, a), b)
    ensures WorldAfter(w, a + b) == WorldAfter(WorldAfter(w, a), b)
  {
    if b == [] {
      assert a + b == a;
    } else {
      assert (a + b)[..|a + b|-1] == a + b[..|b|-1];
      PlaysAppend(s, lwip, w, a, b[..|b|-1]);
    }
  }

  predicate LeadsTo(s: Setting, lwip: Schedule, w: World, events: seq<Event>, w': World) {
    Plays(s, lwip, w, events) && WorldAfter(w, events) == w'
  }

  // The shared library as the binding sees it. `base` is the state in which it was
  // first looked at and `trace` what was called since.
  class Stack {
    const ffi: Ffi
    const little: bool
    const lwip: Schedule
    const setting: Setting
    var fds: Fds
    var trace: seq<Event>
    ghost const base: World

    ghost function Here(): World
      reads this, ffi
    {
      World(fds, ffi.errno, |trace|)
    }

    ghost predicate Valid()
      reads this, ffi
    {
      && setting.strict == ffi.strict
      && (forall b {:trigger Unparsed(little, b)} :: setting.unparse(b) == Unparsed(little, b))
      && (forall n {:trigger LeadsTo(setting, lwip, base, trace[..n], Here())} :: n == |trace| ==>
            LeadsTo(setting, lwip, base, trace[..n], Here()))
    }

    lemma Played()
      requires Valid()
      ensures LeadsTo(setting, lwip, base, trace, Here())
    {
      assert trace[..|trace|] == trace;
      assert LeadsTo(setting, lwip, base, trace[..|trace|], Here());
    }

    twostate lemma PlayedSince(events: seq<Event>)
      requires old(Valid()) && Valid() && trace == old(trace) + events
      ensures LeadsTo(setting, lwip, old(Here()), events, Here())
    {
      assert old(trace[..|trace|]) == old(trace);
      assert old(LeadsTo(setting, lwip, base, trace[..|trace|], Here()));
      Played();
      PlaysAppend(setting, lwip, base, old(trace), events);
    }

    // Exactly one call was attempted, and it went as lwIP has it.
    twostate predicate Did(request: Request)
      reads this, ffi
    {
      var e := EventAt(setting, lwip, old(Here()), request);
      trace == old(trace) + [e] && Here() == Next(old(Here()), e)
    }

    ghost function Last(): Event
      requires trace != []
      reads this
    {
      trace[|trace|-1]
    }

    constructor (ffi: Ffi, little: bool, lwip: Schedule, fds: Fds)
      ensures this.ffi == ffi && this.little == little && this.lwip == lwip && this.fds == fds && trace == []
      ensures Valid()
    {
      setting := Setting(ffi.strict, (b: SockAddrs.Buffer) => Unparsed(little, b));
      this.ffi, this.little, this.lwip, this.fds := ffi, little, lwip, fds;
      trace, base := [], World(fds, ffi.errno, 0);
    }

    // A foreign function.
    method Call(request: Request) returns (reply: Reply)
      modifies this`fds, this`trace, ffi`errno
      ensures reply == Answer(old(fds), request, lwip(|old(trace)|))
      ensures fds == Effect(old(fds), request, reply) && trace == old(trace) + [Made(request, reply)]
      ensures ffi.errno == reply.sets.GetOr(old(ffi.errno))
    {
      reply := Answer(fds, request, lwip(|trace|));
      fds := Effect(fds, request, reply);
      ffi.errno := reply.sets.GetOr(ffi.errno);
      trace := trace + [Made(request, reply)];
    }

    // The same, through check_ret_errno.
    method Checked(request: Request) returns (r: Outcome, e: Event)
      requires Valid() && !IsBare(request)
      modifies this`fds, this`trace, ffi`errno
      ensures Valid() && Did(request) && e == Last() && r == Ended(setting, e)
    {
      Played();
      ghost var before := trace;
      var blocked := ffi.Enter();
      if blocked {
        r, e := Err(RuntimeWarning), Refused(request);
        trace := trace + [e];
      } else {
        var reply := Call(request);
        r := ffi.Leave(reply.ret);
        e := Made(request, reply);
      }
      OneMore(setting, lwip, base, before, e);
      assert trace[..|trace|] == before + [e];
    }

    // The same, without it.
    method Bare(request: Request) returns (ret: int)
      requires Valid() && IsBare(request)
      modifies this`fds, this`trace, ffi`errno
      ensures Valid() && Did(request) && Last().Made? && ret == Last().reply.ret
    {
      Played();
      ghost var before := trace;
      var reply := Call(request);
      OneMore(setting, lwip, base, before, Made(request, reply));
      assert trace[..|trace|] == before + [Made(request, reply)];
      ret := reply.ret;
    }
  }

  // ---- the object ---------------------------------------------------------

  class Socket {
    const stack: Stack
    const family: int
    const socketType: int
    const proto: int
    const gen: nat           // the allocation this object was made for
    const born: int          // the number it was made for
    var s: int               // `_s`
    var fin: Finalizer
    ghost var reached: bool

    // The object as the lifecycle machine sees it, outside close().
    ghost function View(): (k: Slot)
      reads this
      ensures k.Wrapped?
    {
      Slot.Wrapped(s, fin, Outside, reached)
    }

    // What every object satisfies from its construction on.
    ghost predicate Valid()
      reads this
    {
      && born >= 0
      && (s == born || s == -1)
      && (fin == Armed(born) ==> s == born && !reached)
      && (fin.Armed? ==> fin == Armed(born))
      && (s == -1 ==> !fin.Armed?)
    }

    // Just made, for this allocation and number.
    ghost predicate IsNew(stack: Stack, gen: nat, fd: int)
      reads this
    {
      this.stack == stack && this.gen == gen && born == fd && Valid() && View() == NewSlot(fd)
    }

    constructor (stack: Stack, family: int, socketType: int, proto: int, gen: nat, fd: int)
      requires fd >= 0
      ensures IsNew(stack, gen, fd)
      ensures this.family == family && this.socketType == socketType && this.proto == proto
    {
      this.family, this.socketType, this.proto := family, socketType, proto;
      this.stack, this.gen, this.born := stack, gen, fd;
      s, fin, reached := fd, Armed(fd), false;
    }

    // Closing a closed socket does nothing. Otherwise lwip_close is called for the
    // number, unless the wrapper refuses to, and however that ends the number is
    // forgotten and the finalizer detached. It raises exactly when the wrapper does.
    method Close() returns (r: Outcome)
      requires Valid() && stack.Valid()
      modifies this`s, this`fin, this`reached, stack`fds, stack`trace, stack.ffi`errno
      ensures Valid() && stack.Valid() && s == -1 && !fin.Armed?
      ensures old(s) < 0 ==>
                r.Ok? && View() == old(View()) && stack.trace == old(stack.trace) && stack.Here() == old(stack.Here())
      ensures old(s) >= 0 ==> && stack.Did(Request.Close(old(s), gen)) && r == Ended(stack.setting, stack.Last())
                              && View() == SlotDetach(SlotClear(SlotCall(old(View()), HowOf(stack.Last()))))
    {
      r := Ok(0);
      if s >= 0 {
        // try
        var e;
        r, e := stack.Checked(Request.Close(s, gen));
        reached := reached || e.Made?;
        // finally
        s := -1;
        if fin.Armed? {
          fin := Detached;
        }
      }
    }

    // The finalizer, when the object is collected: a bare call whose result nobody
    // looks at.
    method Finalize()
      requires Valid() && stack.Valid()
      modifies this`fin, stack`fds, stack`trace, stack.ffi`errno
      ensures stack.Valid()
      ensures old(fin).Armed? ==> View() == Slot.Wrapped(old(s), Fired, Outside, old(reached))
                                  && stack.Did(Request.Finalize(old(fin).fd, gen))
      ensures !old(fin).Armed? ==>
                View() == old(View()) && stack.trace == old(stack.trace) && stack.Here() == old(stack.Here())
    {
      if fin.Armed? {
        var fd := fin.fd;
        fin := Fired;
        var _ := stack.Bare(Request.Finalize(fd, gen));
      }
    }

    // accept(): the new socket and the peer's address. It raises exactly when the wrapper
    // does or the address cannot be unparsed; in the latter case a socket was made and is
    // `dropped` with its finalizer live. When the wrapper raises, a number may have been
    // issued: Loses.
    method Accept() returns (r: Result<(Socket, SockAddrs.Address), Exception>, ghost dropped: Socket?)
      requires stack.Valid()
      modifies stack`fds, stack`trace, stack.ffi`errno
      ensures stack.Valid() && stack.Did(Request.Accept(s))
      ensures r.Ok? <==> Fine(stack.setting, stack.Last())
      ensures r.Ok? ==> && fresh(r.value.0) && r.value.0.IsNew(stack, old(stack.fds.issued), Ret(stack.Last()))
                        && r.value.0.family == family && r.value.0.socketType == socketType && r.value.0.proto == proto
      ensures r.Ok? ==> && stack.Last().Made?
                        && SockAddrs.Decode(stack.little, stack.Last().reply.buffer) == Ok(r.value.1)
      ensures r.Err? ==> r.error == Why(stack.setting, stack.Last())
      ensures dropped != null <==> Drops(stack.setting, stack.Last())
      ensures dropped != null ==> fresh(dropped) && dropped.IsNew(stack, old(stack.fds.issued), Ret(stack.Last()))
    {
      dropped := null;
      var gen := stack.fds.issued;
      var ret, e := stack.Checked(Request.Accept(s));
      if ret.Err? {
        return Err(ret.error), null;
      }
      var accepted := new Socket(stack, family, socketType, proto, gen, ret.value);
      var address := Unparse(stack, e);
      if address.Err? {
        return Err(ValueError), accepted;
      }
      assert Unparsed(stack.little, e.reply.buffer) == stack.setting.unparse(e.reply.buffer);
      r := Ok((accepted, address.value));
    }
  }

  // The buffer lwIP was given, unparsed.
  method Unparse(stack: Stack, e: Event) returns (r: Result<SockAddrs.Address, SockAddrs.AddressError>)
    requires e.Made? && stack.Valid()
    ensures r.Ok? <==> NameIn(stack.setting, e).Some?
    ensures r.Ok? ==> r.value == NameIn(stack.setting, e).value
  {
    var sa := SockAddrs.SockAddr.CreateEmpty(stack.little);
    var buffer := e.reply.buffer;
    for i := 0 to sa.sa.Length
      invariant sa.sa[..i] == buffer[..i]
    {
      sa.sa[i] := buffer[i];
    }
    assert sa.sa[..] == buffer;
    r := sa.UnparseAddress();
    assert Unparsed(stack.little, buffer) == if r.Ok? then Some(r.value) else None;
  }

  // LwIP.socket: raises exactly when the wrapper does. A number may have been issued
  // all the same: Loses.
  method OpenSocket(stack: Stack, family: int, socketType: int, proto: int) returns (r: Result<Socket, Exception>)
    requires stack.Valid()
    modifies stack`fds, stack`trace, stack.ffi`errno
    ensures stack.Valid() && stack.Did(Open(family, socketType, proto))
    ensures r.Ok? <==> Fine(stack.setting, stack.Last())
    ensures r.Ok? ==> fresh(r.value) && r.value.IsNew(stack, old(stack.fds.issued), Ret(stack.Last()))
                      && r.value.family == family && r.value.socketType == socketType && r.value.proto == proto
    ensures r.Err? ==> r.error == Why(stack.setting, stack.Last())
  {
    var gen := stack.fds.issued;
    var ret, e := stack.Checked(Open(family, socketType, proto));
    if ret.Err? {
      return Err(ret.error);
    }
    var s := new Socket(stack, family, socketType, proto, gen, ret.value);
    r := Ok(s);
  }
}
