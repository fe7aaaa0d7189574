// src/lwip/selector.py: LwipPollSelector, on top of the register, unregister, modify
// and select methods it inherits from the standard library's poll-like selector.
module Selector {
  import opened Basics
  import opened Dict
  import LwipError
  import Lifecycle
  import Poll
  import SockAddrs
  import Sockets

  const EVENT_READ: int := 1
  const EVENT_WRITE: int := 2
  const POLLIN: int := 1
  const POLLOUT: int := 2

  // What can be registered: a number, or a socket object (compared by identity).
  datatype FileObj = Number(n: int) | Object(sock: Sockets.Socket)

  datatype Key = SelectorKey(fileobj: FileObj, fd: int, events: int, data: int)

  datatype SelectorError = ValueError | KeyError | PollFailed(error: Poll.PollError)

  // `events & EVENT_READ`, `events & EVENT_WRITE`
  predicate Reads(events: int) { events % 2 == 1 }
  predicate Writes(events: int) { events / 2 % 2 == 1 }

  function Mask(events: int): int {
    (if Reads(events) then POLLIN else 0) + (if Writes(events) then POLLOUT else 0)
  }

  // The interests an event of the poll object stands for, restricted to those asked for.
  function Interests(event: int, asked: int): int {
    (if event !in {0, POLLOUT} && Reads(asked) then EVENT_READ else 0)
    + (if event !in {0, POLLIN} && Writes(asked) then EVENT_WRITE else 0)
  }

  ghost predicate Sound(fileobj: FileObj)
    reads if fileobj.Object? then {fileobj.sock} else {}
  {
    fileobj.Object? ==> fileobj.sock.Valid()
  }

  // _fileobj_to_fd
  function FileobjToFd(fileobj: FileObj, lwip: Sockets.Stack): Result<int, SelectorError>
    reads if fileobj.Object? then {fileobj.sock} else {}
  {
    match fileobj
    case Number(n) => if n < 0 then Err(ValueError) else Ok(n)
    case Object(sock) => if sock.stack != lwip || sock.s < 0 then Err(ValueError) else Ok(sock.s)
  }

  // Key k stands in the index where it should: under its own fd, which is the number
  // it was registered as or the number its socket was made for.
  predicate Belongs(lwip: Sockets.Stack, entry: (int, Key)) {
    && entry.1.fd == entry.0 >= 0
    && match entry.1.fileobj
       case Number(n) => n == entry.0
       case Object(sock) => sock.stack == lwip && sock.born == entry.0
  }

  predicate Registered(keys: Dict<Key>, fileobj: FileObj) {
    exists i :: 0 <= i < |keys| && keys[i].1.fileobj == fileobj
  }

  // ---- specification: the key map alone -----------------------------------

  // The place of the key that holds an object, or the length if there is none.
  function Place(keys: Dict<Key>, fileobj: FileObj): (i: nat)
    ensures i <= |keys|
    ensures i < |keys| ==> keys[i].1.fileobj == fileobj
    ensures forall j :: 0 <= j < i ==> keys[j].1.fileobj != fileobj
  {
    if keys == [] || keys[0].1.fileobj == fileobj then 0 else 1 + Place(keys[1..], fileobj)
  }

  // Under which number to look for an object that reports `own`.
  function Lookup(keys: Dict<Key>, fileobj: FileObj, own: Result<int, SelectorError>): Result<int, SelectorError> {
    if Place(keys, fileobj) < |keys| then Ok(keys[Place(keys, fileobj)].0) else own
  }

  function Added(keys: Dict<Key>, fileobj: FileObj, own: Result<int, SelectorError>, events: int,
                 data: int): (Dict<Key>, Result<Key, SelectorError>) {
    if events !in {1, 2, 3} then (keys, Err(ValueError))
    else match Lookup(keys, fileobj, own)
      case Err(e) => (keys, Err(e))
      case Ok(fd) =>
        if Has(keys, fd) then (keys, Err(KeyError))
        else (keys + [(fd, SelectorKey(fileobj, fd, events, data))], Ok(SelectorKey(fileobj, fd, events, data)))
  }

  function Removed(keys: Dict<Key>, fileobj: FileObj, own: Result<int, SelectorError>): (Dict<Key>, Result<Key,
                   SelectorError>) {
    match Lookup(keys, fileobj, own)
    case Err(e) => (keys, Err(e))
    case Ok(fd) => if Has(keys, fd) then (Del(keys, fd), Ok(Get(keys, fd))) else (keys, Err(KeyError))
  }

  function Changed(keys: Dict<Key>, fileobj: FileObj, own: Result<int, SelectorError>, events: int,
                   data: int): (Dict<Key>, Result<Key, SelectorError>) {
    match Lookup(keys, fileobj, own)
    case Err(e) => (keys, Err(e))
    case Ok(fd) =>
      if Has(keys, fd) then
        var key := Get(keys, fd).(events := events, data := data);
        (Put(keys, fd, key), Ok(key))
      else (keys, Err(KeyError))
  }

  // What the poll object is asked for.
  function Asked(keys: Dict<Key>): (d: Dict<int>)
    ensures |d| == |keys| && forall i :: 0 <= i < |keys| ==> d[i] == (keys[i].0, Mask(keys[i].1.events))
  {
    seq(|keys|, i requires 0 <= i < |keys| => (keys[i].0, Mask(keys[i].1.events)))
  }

  function Delivered(keys: Dict<Key>, events: seq<(int, int)>): seq<(Key, int)> {
    if events == [] then []
    else
      var (fd, event) := events[|events|-1];
      Delivered(keys, events[..|events|-1])
      + if Has(keys, fd) then [(Get(keys, fd), Interests(event, Get(keys, fd).events))] else []
  }

  function Selected(keys: Dict<Key>, answer: Poll.Answer): Result<seq<(Key, int)>, SelectorError> {
    match Poll.PollFresh(Asked(keys), answer(Asked(keys)))
    case Err(e) => Err(PollFailed(e))
    case Ok(events) => Ok(Delivered(keys, events))
  }

  // ---- the object ---------------------------------------------------------

  class LwipPollSelector {
    const lwip: Sockets.Stack
    const poll: Poll.LwipPoll
    var keys: Dict<Key>      // `_fd_to_key`

    // The index and the poll object hold the same numbers in the same order, each
    // with the event mask its key asks for; no foreign socket is indexed.
    ghost predicate Valid()
      reads this, poll, poll.fds
    {
      && poll.Valid()
      && IsDict(keys)
      && (forall i :: 0 <= i < |keys| ==> Belongs(lwip, keys[i]))
      && InStep(keys, poll.registered)
    }

    constructor (lwip: Sockets.Stack)
      ensures Valid() && fresh(poll) && keys == [] && this.lwip == lwip && poll.fds == null
    {
      this.lwip := lwip;
      poll := new Poll.LwipPoll(0);
      keys := [];
    }

    // For every registered object, whether it is still open or closed since, the
    // number returned is that of the key that holds this very object. An object that
    // is not registered gives its own number, if it has one.
    method FileobjLookup(fileobj: FileObj) returns (r: Result<int, SelectorError>)
      requires Valid() && Sound(fileobj)
      ensures Registered(keys, fileobj) ==> r.Ok? && Has(keys, r.value) && Get(keys, r.value).fileobj == fileobj
      ensures !Registered(keys, fileobj) ==> r == FileobjToFd(fileobj, lwip)
      ensures r == Lookup(keys, fileobj, FileobjToFd(fileobj, lwip))
      ensures r.Ok? ==> r.value >= 0
    {
      r := FileobjToFd(fileobj, lwip);
      PlaceIff(lwip, keys, fileobj);
      if r.Ok? {
        RegisteredUnder(lwip, keys, fileobj);
        return;
      }
      for i := 0 to |keys|
        invariant forall j :: 0 <= j < i ==> keys[j].1.fileobj != fileobj
      {
        if keys[i].1.fileobj == fileobj {
          EntryIsFound(keys, i);
          return Ok(keys[i].1.fd);
        }
      }
    }

    method Register(fileobj: FileObj, events: int, data: int) returns (r: Result<Key, SelectorError>)
      requires Valid() && Sound(fileobj)
      modifies this, poll
      ensures Valid() && poll.fds == old(poll.fds)
      ensures r.Ok? <==>
                && events in {1, 2, 3} && FileobjToFd(fileobj, lwip).Ok?
                && !Has(old(keys), FileobjToFd(fileobj, lwip).value)
      ensures r.Ok? ==> && r.value == SelectorKey(fileobj, FileobjToFd(fileobj, lwip).value, events, data)
                        && keys == old(keys) + [(r.value.fd, r.value)]
      ensures r.Err? ==> keys == old(keys) && poll.registered == old(poll.registered)
      ensures (keys, r) == Added(old(keys), fileobj, FileobjToFd(fileobj, lwip), events, data)
    {
      if events !in {1, 2, 3} {
        return Err(ValueError);
      }
      var found := FileobjLookup(fileobj);
      if found.Err? {
        return Err(found.error);
      }
      var fd := found.value;
      LookupIsOwnNumber(lwip, keys, fileobj, fd);
      if Has(keys, fd) {
        return Err(KeyError);
      }
      var key := SelectorKey(fileobj, fd, events, data);
      AppendInStep(lwip, keys, poll.registered, key);
      keys := Put(keys, fd, key);
      var _ := poll.Register(Poll.FdArg.Number(fd), Mask(events));
      r := Ok(key);
    }

    // A registered object, open or closed since, loses its key in both maps. For an
    // object that is not registered the key removed is a stranger's, if there is one
    // under its number.
    method Unregister(fileobj: FileObj) returns (r: Result<Key, SelectorError>)
      requires Valid() && Sound(fileobj)
      modifies this, poll
      ensures Valid() && poll.fds == old(poll.fds)
      ensures r.Ok? <==>
                || Registered(old(keys), fileobj)
                || (FileobjToFd(fileobj, lwip).Ok? && Has(old(keys), FileobjToFd(fileobj, lwip).value))
      ensures r.Ok? ==> && Has(old(keys), r.value.fd) && Get(old(keys), r.value.fd) == r.value
                        && keys == Del(old(keys), r.value.fd)
                        && poll.registered == Del(old(poll.registered), r.value.fd)
      ensures r.Ok? ==> (r.value.fileobj == fileobj <==> Registered(old(keys), fileobj))
      ensures r.Err? ==> keys == old(keys) && poll.registered == old(poll.registered)
      ensures (keys, r) == Removed(old(keys), fileobj, FileobjToFd(fileobj, lwip))
    {
      var found := FileobjLookup(fileobj);
      if found.Err? {
        return Err(found.error);
      }
      var fd := found.value;
      if !Has(keys, fd) {
        return Err(KeyError);
      }
      var key := Get(keys, fd);
      assert Belongs(lwip, keys[Index(keys, fd)]);
      InStepHas(keys, poll.registered, fd);
      DelKeys(keys, fd);
      DelInStep(lwip, keys, poll.registered, fd);
      keys := Del(keys, fd);
      var _ := poll.Unregister(Poll.FdArg.Number(fd));
      r := Ok(key);
    }

    method Modify(fileobj: FileObj, events: int, data: int) returns (r: Result<Key, SelectorError>)
      requires Valid() && Sound(fileobj)
      modifies this, poll
      ensures Valid() && poll.fds == old(poll.fds)
      ensures r.Ok? <==>
                || Registered(old(keys), fileobj)
                || (FileobjToFd(fileobj, lwip).Ok? && Has(old(keys), FileobjToFd(fileobj, lwip).value))
      ensures r.Ok? ==> && Has(old(keys), r.value.fd)
                        && r.value == Get(old(keys), r.value.fd).(events := events, data := data)
                        && keys == Put(old(keys), r.value.fd, r.value)
                        && (Registered(old(keys), fileobj) ==> r.value.fileobj == fileobj)
      ensures r.Err? ==> keys == old(keys) && poll.registered == old(poll.registered)
      ensures (keys, r) == Changed(old(keys), fileobj, FileobjToFd(fileobj, lwip), events, data)
    {
      var found := FileobjLookup(fileobj);
      if found.Err? {
        return Err(found.error);
      }
      var fd := found.value;
      if !Has(keys, fd) {
        return Err(KeyError);
      }
      var key := ChangeKey(fd, events, data);
      r := Ok(key);
    }

    // The key of a number that has one: the poll object is told only if the events differ.
    method ChangeKey(fd: int, events: int, data: int) returns (key: Key)
      requires Valid() && Has(keys, fd)
      modifies this, poll
      ensures Valid() && poll.fds == old(poll.fds)
      ensures key == Get(old(keys), fd).(events := events, data := data) && key.fd == fd
      ensures keys == Put(old(keys), fd, key)
    {
      key := Get(keys, fd);
      ReplaceInStep(lwip, keys, poll.registered, fd, events, data);
      if events != key.events {
        var _ := poll.Modify(Poll.FdArg.Number(fd), Mask(events));
      }
      if events != key.events || data != key.data {
        key := key.(events := events, data := data);
        keys := Put(keys, fd, key);
      }
    }

    // Every number the poll object reports has a key, so that no event is dropped:
    // the result has one entry for each.
    method Select(answer: Poll.Answer)
      returns (r: Result<seq<(Key, int)>, SelectorError>, ghost reported: seq<(int, int)>)
      requires Valid() && Poll.Overwrites(answer)
      modifies poll, poll.fds
      ensures Valid() && keys == old(keys) && poll.registered == old(poll.registered)
      ensures poll.fds == old(poll.fds) || fresh(poll.fds)
      ensures r.Ok? ==> Poll.PollFresh(poll.registered, answer(poll.registered)) == Ok(reported)
      ensures r.Ok? ==> |r.value| == |reported| && forall i :: 0 <= i < |reported| ==>
                && Has(keys, reported[i].0)
                && r.value[i] == (Get(keys, reported[i].0), Interests(reported[i].1, Get(keys, reported[i].0).events))
      ensures r.Err? ==> Poll.PollFresh(poll.registered, answer(poll.registered)).Err?
      ensures r == Selected(keys, answer)
    {
      assert Asked(keys) == poll.registered;
      reported := [];
      var polled := poll.Poll(answer);
      match polled
      case Raised(e) => r := Err(PollFailed(e));
      case Done => r := Ok([]);
      case Events(events) =>
        reported := events;
        ReportedHaveKeys(keys, poll.registered, answer(poll.registered));
        var ready := Deliver(keys, events);
        r := Ok(ready);
    }
  }

  // lwIP issues 5, closes it and issues it again.
  function IssuesFiveTwice(n: nat): Sockets.Reply {
    Sockets.Reply(if n == 1 then 0 else 5, None, SockAddrs.Zeros(28), false)
  }

  // A socket that is registered under 5 and closed is still indexed under 5.
  method RegisterAndClose(lwip: Sockets.Stack, selector: LwipPollSelector) returns (closed: Sockets.Socket)
    requires lwip.Valid() && lwip.lwip == IssuesFiveTwice && lwip.fds.open == map[] && lwip.trace == []
    requires !lwip.setting.strict && selector.Valid() && selector.lwip == lwip && selector.keys == []
    modifies selector, selector.poll, lwip`fds, lwip`trace, lwip.ffi`errno
    ensures lwip.Valid() && |lwip.trace| == 2 && lwip.fds.open == map[]
    ensures selector.Valid()
    ensures fresh(closed)
    ensures closed.s == -1
    ensures closed.born == 5
    ensures closed.gen == old(lwip.fds.issued)
    ensures lwip.fds.issued == old(lwip.fds.issued) + 1
    ensures selector.keys == [(5, SelectorKey(Object(closed), 5, EVENT_READ, 0))]
  {
    var made := Sockets.OpenSocket(lwip, 2, 1, 0);
    closed := made.value;
    var _ := selector.Register(Object(closed), EVENT_READ, 0);
    var _ := closed.Close();
  }

  // Then another one is opened and gets that number: unregistering it, which was never
  // registered, removes the key of the closed one.
  method UnregisterOther(lwip: Sockets.Stack, selector: LwipPollSelector, closed: Sockets.Socket)
    returns (r: Result<Key, SelectorError>, other: Sockets.Socket)
    requires lwip.Valid() && lwip.lwip == IssuesFiveTwice && lwip.fds.open == map[] && |lwip.trace| == 2
    requires !lwip.setting.strict && selector.Valid() && selector.lwip == lwip && closed.s == -1
    requires selector.keys == [(5, SelectorKey(Object(closed), 5, EVENT_READ, 0))]
    modifies selector, selector.poll, lwip`fds, lwip`trace, lwip.ffi`errno
    ensures other.s == other.born == 5 && other.gen == old(lwip.fds.issued) && closed.s == -1
    ensures r.Ok? && r.value.fileobj == Object(closed) && selector.Valid() && selector.keys == []
  {
    var made := Sockets.OpenSocket(lwip, 2, 1, 0);
    other := made.value;
    assert selector.keys[0].1.fileobj == Object(closed);
    r := selector.Unregister(Object(other));
  }

  method StrangersKeyIsRemoved()
    returns (r: Result<Key, SelectorError>, selector: LwipPollSelector, closed: Sockets.Socket, other: Sockets.Socket)
    ensures closed.s == -1 && other.s == 5 && closed.gen < other.gen && closed.born == other.born
    ensures r.Ok? && r.value.fileobj == Object(closed) && selector.Valid() && selector.keys == []
  {
    var ffi := new LwipError.Ffi(false);
    var lwip := new Sockets.Stack(ffi, true, IssuesFiveTwice, Lifecycle.Fds(map[], [], 0));
    selector := new LwipPollSelector(lwip);
    closed := RegisterAndClose(lwip, selector);
    r, other := UnregisterOther(lwip, selector, closed);
  }

  method Deliver(keys: Dict<Key>, events: seq<(int, int)>) returns (ready: seq<(Key, int)>)
    requires forall i :: 0 <= i < |events| ==> Has(keys, events[i].0)
    ensures |ready| == |events|
    ensures forall i :: 0 <= i < |events| ==>
              ready[i] == (Get(keys, events[i].0), Interests(events[i].1, Get(keys, events[i].0).events))
    ensures ready == Delivered(keys, events)
  {
    ready := [];
    for i := 0 to |events|
      invariant |ready| == i && ready == Delivered(keys, events[..i])
      invariant forall j :: 0 <= j < i ==>
                  ready[j] == (Get(keys, events[j].0), Interests(events[j].1, Get(keys, events[j].0).events))
    {
      assert events[..i+1][..i] == events[..i];
      var (fd, event) := events[i];
      if Has(keys, fd) {
        var key := Get(keys, fd);
        ready := ready + [(key, Interests(event, key.events))];
      }
    }
    assert events[..|events|] == events;
  }

  lemma PlaceIff(lwip: Sockets.Stack, keys: Dict<Key>, fileobj: FileObj)
    requires IsDict(keys) && forall i :: 0 <= i < |keys| ==> Belongs(lwip, keys[i])
    ensures Registered(keys, fileobj) <==> Place(keys, fileobj) < |keys|
    ensures forall i :: 0 <= i < |keys| && keys[i].1.fileobj == fileobj ==> i == Place(keys, fileobj)
  {
    forall i | 0 <= i < |keys| && keys[i].1.fileobj == fileobj ensures i == Place(keys, fileobj) {
      AtMostOneKey(lwip, keys, i, Place(keys, fileobj));
    }
  }

  lemma ReportedHaveKeys(keys: Dict<Key>, registered: Dict<int>, reply: Poll.Reply)
    requires IsDict(registered) && InStep(keys, registered)
    ensures var p := Poll.PollFresh(registered, reply);
            p.Ok? ==> forall i :: 0 <= i < |p.value| ==> Has(keys, p.value[i].0)
  {
    var p := Poll.PollFresh(registered, reply);
    if p.Ok? {
      Poll.ReadyReports(registered, Poll.Written(Poll.Zeros(|registered|), reply.revents));
      forall i | 0 <= i < |p.value| ensures Has(keys, p.value[i].0) {
        InStepHas(keys, registered, p.value[i].0);
      }
    }
  }

  // ---- what the masks and events mean -------------------------------------

  // The bits EVENT_READ (1) and EVENT_WRITE (2) of the interest are the bits POLLIN (1) and
  // POLLOUT (2) of the mask.
  lemma MaskMeaning(events: int)
    ensures Mask(events) == events % 4
    ensures Mask(1) == 1 && Mask(2) == 2 && Mask(3) == 3
  {}

  // In every state of the selector the poll object watches each number for exactly the two
  // bits its key asks for.
  lemma WatchedBits(sel: LwipPollSelector)
    requires sel.Valid()
    ensures |sel.poll.registered| == |sel.keys|
    ensures forall i :: 0 <= i < |sel.keys| ==> sel.poll.registered[i] == (sel.keys[i].0, sel.keys[i].1.events % 4)
  {
    forall i | 0 <= i < |sel.keys| ensures sel.poll.registered[i] == (sel.keys[i].0, sel.keys[i].1.events % 4) {
      MaskMeaning(sel.keys[i].1.events);
    }
  }

  // What is raised: ValueError for an interest that is none, and for an object that
  // neither is registered nor has a number; KeyError for a number that is taken, or not
  // indexed.
  lemma ErrorMeaning(keys: Dict<Key>, fileobj: FileObj, own: Result<int, SelectorError>, events: int, data: int)
    requires own.Err? ==> own.error == ValueError
    ensures var known := Registered(keys, fileobj) || own.Ok?;
            && (Added(keys, fileobj, own, events, data).1.Err? ==>
                  Added(keys, fileobj, own, events, data).1.error ==
                    if events in {1, 2, 3} && known then KeyError else ValueError)
            && (Removed(keys, fileobj, own).1.Err? ==>
                  Removed(keys, fileobj, own).1.error == if known then KeyError else ValueError)
            && (Changed(keys, fileobj, own, events, data).1.Err? ==>
                  Changed(keys, fileobj, own, events, data).1.error == if known then KeyError else ValueError)
  {
    if Registered(keys, fileobj) {
      var i :| 0 <= i < |keys| && keys[i].1.fileobj == fileobj;
      assert Place(keys, fileobj) <= i;
    }
  }

  // An event of one bit reaches exactly those who asked for that bit, an event with any
  // other bit (an error, say) everybody, with what they asked for; none reaches nobody.
  lemma InterestsMeaning(event: int, asked: int)
    ensures Interests(0, asked) == 0
    ensures Interests(1, asked) == asked % 2
    ensures Interests(2, asked) == asked % 4 - asked % 2
    ensures event !in {0, 1, 2} ==> Interests(event, asked) == asked % 4
    ensures 1 <= asked <= 3 ==> Interests(asked, asked) == asked
  {}

  // An int stands for itself, a socket of this instance that is open for its number.
  lemma FileobjMeaning(lwip: Sockets.Stack, fileobj: FileObj)
    ensures FileobjToFd(fileobj, lwip) ==
              if fileobj.Number? && fileobj.n >= 0 then Ok(fileobj.n)
              else if fileobj.Object? && fileobj.sock.stack == lwip && fileobj.sock.s >= 0 then Ok(fileobj.sock.s)
              else Err(ValueError)
  {}

  // ---- the two maps -------------------------------------------------------

  predicate InStep(keys: Dict<Key>, registered: Dict<int>) {
    |keys| == |registered| && forall i :: 0 <= i < |keys| ==> registered[i] == (keys[i].0, Mask(keys[i].1.events))
  }

  lemma {:induction false} InStepHas(keys: Dict<Key>, registered: Dict<int>, fd: int)
    requires InStep(keys, registered)
    ensures Has(keys, fd) <==> Has(registered, fd)
    ensures Index(keys, fd) == Index(registered, fd)
  {
    if keys != [] {
      assert keys[1..] == [] || InStep(keys[1..], registered[1..]);
      InStepHas(keys[1..], registered[1..], fd);
    }
  }

  lemma AppendInStep(lwip: Sockets.Stack, keys: Dict<Key>, registered: Dict<int>, key: Key)
    requires IsDict(keys) && InStep(keys, registered) && !Has(keys, key.fd) && Belongs(lwip, (key.fd, key))
    requires forall i :: 0 <= i < |keys| ==> Belongs(lwip, keys[i])
    ensures Put(keys, key.fd, key) == keys + [(key.fd, key)] && IsDict(Put(keys, key.fd, key))
    ensures InStep(Put(keys, key.fd, key), Put(registered, key.fd, Mask(key.events)))
    ensures forall i :: 0 <= i < |Put(keys, key.fd, key)| ==> Belongs(lwip, Put(keys, key.fd, key)[i])
  {
    InStepHas(keys, registered, key.fd);
  }

  lemma ReplaceInStep(lwip: Sockets.Stack, keys: Dict<Key>, registered: Dict<int>, fd: int, events: int, data: int)
    requires IsDict(keys) && InStep(keys, registered) && Has(keys, fd)
    requires forall i :: 0 <= i < |keys| ==> Belongs(lwip, keys[i])
    ensures Has(registered, fd) && Get(keys, fd).fd == fd >= 0
    ensures var p := Put(keys, fd, Get(keys, fd).(events := events, data := data));
            && IsDict(p) && (forall i :: 0 <= i < |p| ==> Belongs(lwip, p[i]))
            && InStep(p, Put(registered, fd, Mask(events)))
            && (events == Get(keys, fd).events ==> InStep(p, registered))
    ensures Put(keys, fd, Get(keys, fd)) == keys
  {
    InStepHas(keys, registered, fd);
    assert Belongs(lwip, keys[Index(keys, fd)]);
  }

  lemma DelInStep(lwip: Sockets.Stack, keys: Dict<Key>, registered: Dict<int>, fd: int)
    requires InStep(keys, registered) && Has(keys, fd) && Has(registered, fd)
    requires forall i :: 0 <= i < |keys| ==> Belongs(lwip, keys[i])
    ensures InStep(Del(keys, fd), Del(registered, fd))
    ensures forall i :: 0 <= i < |Del(keys, fd)| ==> Belongs(lwip, Del(keys, fd)[i])
  {
    InStepHas(keys, registered, fd);
    DelEntries(keys, fd);
    DelEntries(registered, fd);
  }

  // A registered object that is open reports the number it is indexed under.
  lemma RegisteredUnder(lwip: Sockets.Stack, keys: Dict<Key>, fileobj: FileObj)
    requires IsDict(keys) && (forall i :: 0 <= i < |keys| ==> Belongs(lwip, keys[i])) && Sound(fileobj)
    requires FileobjToFd(fileobj, lwip).Ok?
    ensures Registered(keys, fileobj) ==>
              && Has(keys, FileobjToFd(fileobj, lwip).value)
              && Get(keys, FileobjToFd(fileobj, lwip).value).fileobj == fileobj
  {
    if Registered(keys, fileobj) {
      var i :| 0 <= i < |keys| && keys[i].1.fileobj == fileobj;
      assert Belongs(lwip, keys[i]);
      EntryIsFound(keys, i);
    }
  }

  // An object has at most one key.
  lemma AtMostOneKey(lwip: Sockets.Stack, keys: Dict<Key>, i: nat, j: nat)
    requires IsDict(keys) && (forall k :: 0 <= k < |keys| ==> Belongs(lwip, keys[k]))
    requires i < |keys| && j < |keys| && keys[i].1.fileobj == keys[j].1.fileobj
    ensures i == j
  {
    assert Belongs(lwip, keys[i]) && Belongs(lwip, keys[j]);
    EntryIsFound(keys, i);
    EntryIsFound(keys, j);
  }

  lemma LookupIsOwnNumber(lwip: Sockets.Stack, keys: Dict<Key>, fileobj: FileObj, fd: int)
    requires IsDict(keys) && (forall i :: 0 <= i < |keys| ==> Belongs(lwip, keys[i])) && Sound(fileobj)
    requires Registered(keys, fileobj) ==> Has(keys, fd) && Get(keys, fd).fileobj == fileobj
    requires !Registered(keys, fileobj) ==> FileobjToFd(fileobj, lwip) == Ok(fd)
    ensures FileobjToFd(fileobj, lwip).Ok? ==> FileobjToFd(fileobj, lwip).value == fd
    ensures FileobjToFd(fileobj, lwip).Err? ==> Has(keys, fd)
  {
    if FileobjToFd(fileobj, lwip).Ok? && Registered(keys, fileobj) {
      assert Belongs(lwip, keys[Index(keys, fd)]);
    }
  }

  // ---- whole runs ---------------------------------------------------------

  datatype Op =
    | Register(fileobj: FileObj, events: int, data: int)
    | Unregister(fileobj: FileObj)
    | Modify(fileobj: FileObj, events: int, data: int)
    | Select(answer: Poll.Answer)
    | CloseSocket(sock: Sockets.Socket)

  datatype Out = Keyed(key: Result<Key, SelectorError>) | Ready(ready: Result<seq<(Key, int)>, SelectorError>) | Closed

  // The key map, and which sockets are closed.
  datatype State = State(keys: Dict<Key>, closed: set<Sockets.Socket>)

  function Own(lwip: Sockets.Stack, closed: set<Sockets.Socket>, fileobj: FileObj): Result<int, SelectorError> {
    match fileobj
    case Number(n) => if n < 0 then Err(ValueError) else Ok(n)
    case Object(sock) => if sock.stack != lwip || sock in closed then Err(ValueError) else Ok(sock.born)
  }

  function Does(lwip: Sockets.Stack, st: State, op: Op): (State, Out) {
    match op
    case Register(o, events, data) =>
      var (keys, r) := Added(st.keys, o, Own(lwip, st.closed, o), events, data);
      (st.(keys := keys), Keyed(r))
    case Unregister(o) =>
      var (keys, r) := Removed(st.keys, o, Own(lwip, st.closed, o));
      (st.(keys := keys), Keyed(r))
    case Modify(o, events, data) =>
      var (keys, r) := Changed(st.keys, o, Own(lwip, st.closed, o), events, data);
      (st.(keys := keys), Keyed(r))
    case Select(answer) => (st, Ready(Selected(st.keys, answer)))
    case CloseSocket(sock) => (st.(closed := st.closed + {sock}), Closed)
  }

  function StateAfter(lwip: Sockets.Stack, st: State, ops: seq<Op>): State {
    if ops == [] then st else Does(lwip, StateAfter(lwip, st, ops[..|ops|-1]), ops[|ops|-1]).0
  }

  function Outputs(lwip: Sockets.Stack, st: State, ops: seq<Op>): seq<Out> {
    if ops == [] then []
    else
      var front := ops[..|ops|-1];
      Outputs(lwip, st, front) + [Does(lwip, StateAfter(lwip, st, front), ops[|ops|-1]).1]
  }

  // The sockets an operation mentions.
  function Mentioned(op: Op): set<Sockets.Socket> {
    match op
    case Register(o, _, _) => if o.Object? then {o.sock} else {}
    case Unregister(o) => if o.Object? then {o.sock} else {}
    case Modify(o, _, _) => if o.Object? then {o.sock} else {}
    case Select(_) => {}
    case CloseSocket(sock) => {sock}
  }

  function AllMentioned(ops: seq<Op>): set<Sockets.Socket> {
    set i, k | 0 <= i < |ops| && k in Mentioned(ops[i]) :: k
  }

  ghost predicate Known(socks: set<Sockets.Socket>, closed: set<Sockets.Socket>)
    reads socks
  {
    forall k :: k in socks ==> k.Valid() && (k in closed <==> k.s == -1)
  }

  method Step(sel: LwipPollSelector, op: Op, ghost socks: set<Sockets.Socket>, ghost closed: set<Sockets.Socket>)
    returns (out: Out)
    requires sel.Valid() && sel.lwip.Valid() && Mentioned(op) <= socks && Known(socks, closed)
    requires op.CloseSocket? ==> op.sock.stack == sel.lwip
    requires op.Select? ==> Poll.Overwrites(op.answer)
    modifies sel, sel.poll, sel.poll.fds, sel.lwip`fds, sel.lwip`trace, sel.lwip.ffi`errno
    modifies if op.CloseSocket? then {op.sock} else {}
    ensures sel.Valid() && sel.lwip.Valid() && (sel.poll.fds == old(sel.poll.fds) || fresh(sel.poll.fds))
    ensures (sel.keys, out) == (Does(sel.lwip, State(old(sel.keys), closed), op).0.keys,
                                Does(sel.lwip, State(old(sel.keys), closed), op).1)
    ensures Known(socks, Does(sel.lwip, State(old(sel.keys), closed), op).0.closed)
  {
    match op
    case Select(answer) =>
      var r, _ := sel.Select(answer);
      out := Ready(r);
    case CloseSocket(sock) =>
      var _ := sock.Close();
      out := Closed;
    case _ => out := EditStep(sel, op, closed);
  }

  method EditStep(sel: LwipPollSelector, op: Op, ghost closed: set<Sockets.Socket>) returns (out: Out)
    requires sel.Valid() && Known(Mentioned(op), closed) && !op.Select? && !op.CloseSocket?
    modifies sel, sel.poll
    ensures sel.Valid() && sel.poll.fds == old(sel.poll.fds)
    ensures (State(sel.keys, closed), out) == Does(sel.lwip, State(old(sel.keys), closed), op)
  {
    match op
    case Register(o, events, data) =>
      var r := sel.Register(o, events, data);
      out := Keyed(r);
    case Unregister(o) =>
      var r := sel.Unregister(o);
      out := Keyed(r);
    case Modify(o, events, data) =>
      var r := sel.Modify(o, events, data);
      out := Keyed(r);
  }

  // Whatever sequence of operations is performed, with sockets closed and their numbers
  // given to others in between: the outputs are those of the key map and the set of
  // closed sockets alone, and the key map and the poll object stay in step.
  method Perform(sel: LwipPollSelector, ops: seq<Op>, ghost closed: set<Sockets.Socket>) returns (outs: seq<Out>)
    requires sel.Valid() && sel.lwip.Valid() && Known(AllMentioned(ops), closed)
    requires forall i :: 0 <= i < |ops| && ops[i].CloseSocket? ==> ops[i].sock.stack == sel.lwip
    requires forall i :: 0 <= i < |ops| && ops[i].Select? ==> Poll.Overwrites(ops[i].answer)
    modifies sel, sel.poll, sel.poll.fds, sel.lwip`fds, sel.lwip`trace, sel.lwip.ffi`errno, AllMentioned(ops)
    ensures sel.Valid() && sel.keys == StateAfter(sel.lwip, State(old(sel.keys), closed), ops).keys
    ensures outs == Outputs(sel.lwip, State(old(sel.keys), closed), ops)
  {
    outs := [];
    ghost var st := State(sel.keys, closed);
    ghost var socks := AllMentioned(ops);
    for i := 0 to |ops|
      invariant sel.Valid() && sel.lwip.Valid() && (sel.poll.fds == old(sel.poll.fds) || fresh(sel.poll.fds))
      invariant sel.keys == StateAfter(sel.lwip, st, ops[..i]).keys
      invariant Known(socks, StateAfter(sel.lwip, st, ops[..i]).closed)
      invariant outs == Outputs(sel.lwip, st, ops[..i])
    {
      assert ops[..i+1][..i] == ops[..i];
      assert forall k :: k in Mentioned(ops[i]) ==> k in socks;
      var out := Step(sel, ops[i], socks, StateAfter(sel.lwip, st, ops[..i]).closed);
      outs := outs + [out];
    }
    assert ops[..|ops|] == ops;
  }

  ghost predicate HoldsAt(keys: Dict<Key>, fd: int, fileobj: FileObj) {
    Has(keys, fd) && Get(keys, fd).fileobj == fileobj
  }

  // Over every run, an object registered once keeps its number, open or closed since,
  // until something is unregistered under that number.
  lemma {:induction false} StaysUntilRemoved(lwip: Sockets.Stack, st: State, ops: seq<Op>, fd: int, fileobj: FileObj)
    requires IsDict(st.keys) && HoldsAt(st.keys, fd, fileobj)
    requires forall i :: 0 <= i < |ops| && ops[i].Unregister? ==>
               var before := StateAfter(lwip, st, ops[..i]);
               Lookup(before.keys, ops[i].fileobj, Own(lwip, before.closed, ops[i].fileobj)) != Ok(fd)
    ensures IsDict(StateAfter(lwip, st, ops).keys) && HoldsAt(StateAfter(lwip, st, ops).keys, fd, fileobj)
  {
    if ops != [] {
      var n := |ops| - 1;
      forall i | 0 <= i < n ensures ops[..n][..i] == ops[..i] {}
      StaysUntilRemoved(lwip, st, ops[..n], fd, fileobj);
      OneOpKeeps(lwip, StateAfter(lwip, st, ops[..n]), ops[n], fd, fileobj);
    }
  }

  lemma OneOpKeeps(lwip: Sockets.Stack, st: State, op: Op, fd: int, fileobj: FileObj)
    requires IsDict(st.keys) && HoldsAt(st.keys, fd, fileobj)
    requires op.Unregister? ==> Lookup(st.keys, op.fileobj, Own(lwip, st.closed, op.fileobj)) != Ok(fd)
    ensures var keys := Does(lwip, st, op).0.keys; IsDict(keys) && HoldsAt(keys, fd, fileobj)
  {
    match op
    case Register(o, events, data) =>
      var look := Lookup(st.keys, o, Own(lwip, st.closed, o));
      if look.Ok? { PutKeys(st.keys, look.value, SelectorKey(o, look.value, events, data)); }
    case Unregister(o) =>
      var look := Lookup(st.keys, o, Own(lwip, st.closed, o));
      if look.Ok? && Has(st.keys, look.value) { DelKeys(st.keys, look.value); }
    case Modify(o, events, data) =>
      var look := Lookup(st.keys, o, Own(lwip, st.closed, o));
      if look.Ok? && Has(st.keys, look.value) {
        PutKeys(st.keys, look.value, Get(st.keys, look.value).(events := events, data := data));
      }
    case _ =>
  }
}
