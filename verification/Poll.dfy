// src/lwip/poll.py: LwipPoll, whose array of struct pollfd is rebuilt lazily and
// written in place by lwIP, against an object that keeps no array.
module Poll {
  import opened Basics
  import opened Dict

  datatype PollFd = PollFd(fd: int, events: int, revents: int)

  // What register, modify and unregister accept: a number, or a socket of some lwIP
  // instance reporting some number.
  datatype FdArg = Number(n: int) | Object(instance: int, fileno: int)

  datatype PollError =
    | ValueError
    | NotRegistered     // OSError(ENOENT), from modify
    | KeyError          // from unregister
    | CallFailed        // check_ret_errno raised
    | AssertionFailed   // nready does not match

  // What lwip_poll does with an array: its result, and for each entry the value it
  // stores in `revents`, if it stores one. `ret < 0` stands for every way in which
  // check_ret_errno can raise, a call it refuses to make included.
  datatype Reply = Reply(ret: int, revents: seq<Option<int>>)

  // lwIP as poll sees it: a reply to a list of requested (fd, events).
  type Answer = seq<(int, int)> -> Reply

  // A successful call stores every `revents`. (A failed one may store anything.)
  ghost predicate Overwrites(answer: Answer) {
    forall req :: answer(req).ret >= 0 ==> Covers(answer(req), |req|)
  }

  predicate Covers(reply: Reply, n: nat) {
    |reply.revents| == n && forall i :: 0 <= i < n ==> reply.revents[i].Some?
  }

  // ---- specification: no cache --------------------------------------------

  function GetFd(instance: int, arg: FdArg): Result<int, PollError> {
    match arg
    case Number(n) => if n < 0 then Err(ValueError) else Ok(n)
    case Object(i, n) => if i != instance || n < 0 then Err(ValueError) else Ok(n)
  }

  // The values in the array after lwIP wrote into it.
  function Written(before: seq<int>, revents: seq<Option<int>>): (r: seq<int>)
    ensures |r| == |before|
  {
    seq(|before|, i requires 0 <= i < |before| => if i < |revents| then revents[i].GetOr(before[i]) else before[i])
  }

  function Zeros(n: nat): (z: seq<int>)
    ensures |z| == n && forall i :: 0 <= i < n ==> z[i] == 0
  {
    seq(n, _ => 0)
  }

  // The entries with something to report, in order.
  function Ready(entries: Dict<int>, revents: seq<int>): seq<(int, int)>
    requires |entries| == |revents|
  {
    if entries == [] then []
    else
      var n := |entries| - 1;
      Ready(entries[..n], revents[..n]) + if revents[n] != 0 then [(entries[n].0, revents[n])] else []
  }

  function PollWith(entries: Dict<int>, stale: seq<int>, reply: Reply): Result<seq<(int, int)>, PollError>
    requires |stale| == |entries|
  {
    if reply.ret < 0 then Err(CallFailed)
    else
      var ready := Ready(entries, Written(stale, reply.revents));
      if reply.ret != |ready| then Err(AssertionFailed) else Ok(ready)
  }

  // poll() over an array built for this call.
  function PollFresh(entries: Dict<int>, reply: Reply): Result<seq<(int, int)>, PollError> {
    PollWith(entries, Zeros(|entries|), reply)
  }

  datatype Op =
    | Register(arg: FdArg, mask: int)
    | Modify(arg: FdArg, mask: int)
    | Unregister(arg: FdArg)
    | Query(answer: Answer)

  datatype Out = Done | Raised(error: PollError) | Events(events: seq<(int, int)>)

  function Edit(instance: int, d: Dict<int>, op: Op): (Dict<int>, Out) {
    match op
    case Register(arg, mask) =>
      (match GetFd(instance, arg)
       case Err(e) => (d, Raised(e))
       case Ok(fd) => (Put(d, fd, mask), Done))
    case Modify(arg, mask) =>
      (match GetFd(instance, arg)
       case Err(e) => (d, Raised(e))
       case Ok(fd) => if Has(d, fd) then (Put(d, fd, mask), Done) else (d, Raised(NotRegistered)))
    case Unregister(arg) =>
      (match GetFd(instance, arg)
       case Err(e) => (d, Raised(e))
       case Ok(fd) => if Has(d, fd) then (Del(d, fd), Done) else (d, Raised(KeyError)))
    case Query(answer) =>
      (match PollFresh(d, answer(d))
       case Err(e) => (d, Raised(e))
       case Ok(events) => (d, Events(events)))
  }

  // The registrations, and the outputs, after a sequence of operations.
  function Registrations(instance: int, d: Dict<int>, ops: seq<Op>): Dict<int> {
    if ops == [] then d else Edit(instance, Registrations(instance, d, ops[..|ops|-1]), ops[|ops|-1]).0
  }

  function Outputs(instance: int, d: Dict<int>, ops: seq<Op>): seq<Out> {
    if ops == [] then []
    else
      var front := ops[..|ops|-1];
      Outputs(instance, d, front) + [Edit(instance, Registrations(instance, d, front), ops[|ops|-1]).1]
  }

  lemma EditKeepsDict(instance: int, d: Dict<int>, op: Op)
    requires IsDict(d)
    ensures IsDict(Edit(instance, d, op).0)
  {
    match op
    case Register(arg, mask) =>
      if GetFd(instance, arg).Ok? { PutKeys(d, GetFd(instance, arg).value, mask); }
    case Modify(arg, mask) =>
      if GetFd(instance, arg).Ok? { PutKeys(d, GetFd(instance, arg).value, mask); }
    case Unregister(arg) =>
      if GetFd(instance, arg).Ok? && Has(d, GetFd(instance, arg).value) { DelKeys(d, GetFd(instance, arg).value); }
    case Query(answer) =>
  }

  // ---- what poll() reports ------------------------------------------------

  // Each registered number at most once, exactly those with a nonzero value, in
  // registration order.
  lemma {:induction false} ReadyReports(entries: Dict<int>, revents: seq<int>)
    requires IsDict(entries) && |entries| == |revents|
    ensures IsDict(Ready(entries, revents)) && |Ready(entries, revents)| <= |entries|
    ensures forall p :: p in Ready(entries, revents) <==>
              exists i :: 0 <= i < |entries| && revents[i] != 0 && p == (entries[i].0, revents[i])
    ensures forall a :: 0 <= a < |Ready(entries, revents)| ==> Has(entries, Ready(entries, revents)[a].0)
  {
    if entries == [] { return; }
    var n := |entries| - 1;
    var es, rs := entries[..n], revents[..n];
    ReadyReports(es, rs);
    var front, all := Ready(es, rs), Ready(entries, revents);
    forall p | p in all ensures exists i :: 0 <= i < |entries| && revents[i] != 0 && p == (entries[i].0, revents[i]) {
      if p in front {
        var i :| 0 <= i < n && rs[i] != 0 && p == (es[i].0, rs[i]);
        assert revents[i] != 0 && p == (entries[i].0, revents[i]);
      } else {
        assert revents[n] != 0 && p == (entries[n].0, revents[n]);
      }
    }
    forall i | 0 <= i < |entries| && revents[i] != 0 ensures (entries[i].0, revents[i]) in all {
      if i < n {
        assert rs[i] != 0 && (es[i].0, rs[i]) in front;
      } else {
        assert all[|front|] == (entries[n].0, revents[n]);
      }
    }
    forall a | 0 <= a < |all| ensures Has(entries, all[a].0) {
      assert all[a] in all;
      var i :| 0 <= i < |entries| && revents[i] != 0 && all[a] == (entries[i].0, revents[i]);
      EntryIsFound(entries, i);
    }
    forall a, b | 0 <= a < b < |all| ensures all[a].0 != all[b].0 {
      assert all[a] == front[a] && front[a] in front;
      if b < |front| { assert all[b] == front[b]; }
    }
  }

  // In the order of registration.
  lemma {:induction false} ReadyInOrder(entries: Dict<int>, revents: seq<int>, i: nat, j: nat)
    requires IsDict(entries) && |entries| == |revents| && i < j < |entries| && revents[i] != 0 && revents[j] != 0
    ensures exists a, b :: 0 <= a < b < |Ready(entries, revents)|
              && Ready(entries, revents)[a] == (entries[i].0, revents[i])
              && Ready(entries, revents)[b] == (entries[j].0, revents[j])
  {
    var n := |entries| - 1;
    var es, rs := entries[..n], revents[..n];
    var front, all := Ready(es, rs), Ready(entries, revents);
    if j < n {
      ReadyInOrder(es, rs, i, j);
      var a, b :| 0 <= a < b < |front| && front[a] == (es[i].0, rs[i]) && front[b] == (es[j].0, rs[j]);
      assert all[a] == front[a] && all[b] == front[b];
    } else {
      ReadyReports(es, rs);
      assert rs[i] != 0 && (es[i].0, rs[i]) in front;
      var a :| 0 <= a < |front| && front[a] == (es[i].0, rs[i]);
      assert all[a] == front[a] && all[|front|] == (entries[n].0, revents[n]);
    }
  }

  // Distinct values give distinct reports.
  lemma {:induction false} ReadyIsInjective(entries: Dict<int>, a: seq<int>, b: seq<int>)
    requires IsDict(entries) && |entries| == |a| == |b|
    ensures Ready(entries, a) == Ready(entries, b) <==> a == b
  {
    if entries == [] { return; }
    var n := |entries| - 1;
    var es := entries[..n];
    ReadyIsInjective(es, a[..n], b[..n]);
    assert a == a[..n] + [a[n]] && b == b[..n] + [b[n]];
    LastEntry(entries, a, n);
    LastEntry(entries, b, n);
    var fa, fb := Ready(es, a[..n]), Ready(es, b[..n]);
    if Ready(entries, a) == Ready(entries, b) {
      SameLast(fa, fb, entries[n].0, a[n], b[n]);
    }
  }

  lemma SameLast(fa: seq<(int, int)>, fb: seq<(int, int)>, k: int, x: int, y: int)
    requires forall p :: p in fa ==> p.0 != k
    requires forall p :: p in fb ==> p.0 != k
    requires fa + (if x != 0 then [(k, x)] else []) == fb + (if y != 0 then [(k, y)] else [])
    ensures fa == fb && x == y
  {
    var all := fa + (if x != 0 then [(k, x)] else []);
    assert x != 0 ==> (k, x) in all && all[|all|-1] == (k, x) && fa == all[..|all|-1];
    assert x == 0 ==> fa == all;
    assert y != 0 ==> (k, y) in all && all[|all|-1] == (k, y) && fb == all[..|all|-1];
    assert y == 0 ==> fb == all;
  }

  // The last entry reports under its own key, which no earlier report has.
  lemma LastEntry(entries: Dict<int>, a: seq<int>, n: nat)
    requires IsDict(entries) && |entries| == |a| == n + 1
    ensures var all := Ready(entries, a); var front := Ready(entries[..n], a[..n]);
            && (forall p :: p in front ==> p.0 != entries[n].0)
            && (a[n] != 0 ==> all == front + [(entries[n].0, a[n])])
            && (a[n] == 0 ==> all == front)
  {
    ReadyReports(entries[..n], a[..n]);
  }

  // lwIP leaves entry i alone, and it holds an old nonzero value.
  predicate IsStale(stale: seq<int>, reply: Reply, i: int) {
    0 <= i < |stale| && (i >= |reply.revents| || reply.revents[i].None?) && stale[i] != 0
  }

  lemma StaleReadyIff(entries: Dict<int>, stale: seq<int>, reply: Reply)
    requires IsDict(entries) && |stale| == |entries|
    ensures Ready(entries, Written(stale, reply.revents)) == Ready(entries, Written(Zeros(|entries|), reply.revents))
            <==> forall i :: !IsStale(stale, reply, i)
  {
    var a, b := Written(stale, reply.revents), Written(Zeros(|entries|), reply.revents);
    ReadyIsInjective(entries, a, b);
    if a == b {
      forall i ensures !IsStale(stale, reply, i) {
        if 0 <= i < |stale| { assert a[i] == b[i]; }
      }
    } else {
      var i :| 0 <= i < |a| && a[i] != b[i];
      assert IsStale(stale, reply, i);
    }
  }

  // Old values left in the array show in what poll() gives exactly when the call
  // succeeds, leaves alone an entry that holds a nonzero one, and its result matches one
  // of the two reports: otherwise both raise the same.
  lemma StaleValuesShowIff(entries: Dict<int>, stale: seq<int>, reply: Reply)
    requires IsDict(entries) && |stale| == |entries|
    ensures PollWith(entries, stale, reply) != PollFresh(entries, reply) <==>
              && reply.ret >= 0
              && (exists i :: IsStale(stale, reply, i))
              && (reply.ret == |Ready(entries, Written(stale, reply.revents))|
                  || reply.ret == |Ready(entries, Written(Zeros(|entries|), reply.revents))|)
  {
    StaleReadyIff(entries, stale, reply);
  }

  // An old value that comes out of a successful poll.
  lemma StaleValueShows()
    ensures PollWith([(3, 1)], [5], Reply(1, [None])) == Ok([(3, 5)])
    ensures PollFresh([(3, 1)], Reply(1, [None])) == Err(AssertionFailed)
    ensures PollWith([(3, 1)], [5], Reply(0, [None])) == Err(AssertionFailed)
    ensures PollFresh([(3, 1)], Reply(0, [None])) == Ok([])
  {
    var d: Dict<int> := [(3, 1)];
    OneEntry(d, 5);
    OneEntry(d, 0);
    forall n: int
      ensures Written([5], Reply(n, [None]).revents) == [5]
      ensures Written(Zeros(1), Reply(n, [None]).revents) == [0]
    {}
  }

  lemma OneEntry(d: Dict<int>, v: int)
    requires |d| == 1
    ensures Ready(d, [v]) == if v != 0 then [(d[0].0, v)] else []
  {
    assert Ready(d[..0], [v][..0]) == [];
  }

  // Hence never when successful calls store every value.
  lemma StaleValuesHidden(entries: Dict<int>, stale: seq<int>, reply: Reply)
    requires |stale| == |entries| && (reply.ret >= 0 ==> Covers(reply, |entries|))
    ensures PollWith(entries, stale, reply) == PollFresh(entries, reply)
  {
    if reply.ret >= 0 {
      assert Written(stale, reply.revents) == Written(Zeros(|entries|), reply.revents);
    }
  }

  // ---- what the operations mean, on the registrations ----------------------

  // A nonnegative number, given as such or by a socket of this instance.
  predicate Stands(instance: int, arg: FdArg, n: int) {
    n >= 0 && (arg == Number(n) || arg == Object(instance, n))
  }

  // A socket stands for the number it reports.
  lemma ObjectIsItsNumber(instance: int, d: Dict<int>, n: int, mask: int)
    requires n >= 0
    ensures Edit(instance, d, Register(Object(instance, n), mask)) == Edit(instance, d, Register(Number(n), mask))
    ensures Edit(instance, d, Modify(Object(instance, n), mask)) == Edit(instance, d, Modify(Number(n), mask))
    ensures Edit(instance, d, Unregister(Object(instance, n))) == Edit(instance, d, Unregister(Number(n)))
  {}

  // A socket of another instance and a negative number are refused, and nothing changes.
  lemma OthersAreRefused(instance: int, d: Dict<int>, arg: FdArg, mask: int)
    requires forall n :: !Stands(instance, arg, n)
    ensures Edit(instance, d, Register(arg, mask)) == (d, Raised(ValueError))
    ensures Edit(instance, d, Modify(arg, mask)) == (d, Raised(ValueError))
    ensures Edit(instance, d, Unregister(arg)) == (d, Raised(ValueError))
  {
    match arg
    case Number(n) => assert !Stands(instance, arg, n);
    case Object(_, n) => assert !Stands(instance, arg, n);
  }

  // Some pair of this number is registered.
  predicate IsRegistered(d: Dict<int>, n: int) {
    exists i :: 0 <= i < |d| && d[i].0 == n
  }

  // The pairs of d', but for those of number n.
  ghost predicate SameBut(d: Dict<int>, d': Dict<int>, n: int) {
    forall p: (int, int) :: p.0 != n ==> (p in d <==> p in d')
  }

  // register: the number is registered with the mask, in place of any earlier one, and
  // all other numbers as before; a new number goes to the end.
  lemma RegisterMeaning(instance: int, d: Dict<int>, arg: FdArg, n: int, mask: int)
    requires IsDict(d) && Stands(instance, arg, n)
    ensures var (d', out) := Edit(instance, d, Register(arg, mask));
            && out == Done && IsDict(d') && SameBut(d, d', n)
            && (forall v :: (n, v) in d' <==> v == mask)
            && (!IsRegistered(d, n) ==> d' == d + [(n, mask)])
            && (IsRegistered(d, n) ==> |d'| == |d| && forall i :: 0 <= i < |d| ==> d'[i].0 == d[i].0)
  {
    PutMeaning(d, n, mask);
  }

  // modify: the same for a number that is registered; any other raises ENOENT.
  lemma ModifyMeaning(instance: int, d: Dict<int>, arg: FdArg, n: int, mask: int)
    requires IsDict(d) && Stands(instance, arg, n)
    ensures var (d', out) := Edit(instance, d, Modify(arg, mask));
            if IsRegistered(d, n) then
              && out == Done && IsDict(d') && SameBut(d, d', n)
              && (forall v :: (n, v) in d' <==> v == mask)
              && |d'| == |d| && (forall i :: 0 <= i < |d| ==> d'[i].0 == d[i].0)
            else d' == d && out == Raised(NotRegistered)
  {
    PutMeaning(d, n, mask);
  }

  // unregister: the number is no longer registered, all others as before and in their
  // order; a number that is not registered raises KeyError.
  lemma UnregisterMeaning(instance: int, d: Dict<int>, arg: FdArg, n: int)
    requires IsDict(d) && Stands(instance, arg, n)
    ensures var (d', out) := Edit(instance, d, Unregister(arg));
            if IsRegistered(d, n) then
              && out == Done && IsDict(d') && SameBut(d, d', n) && !IsRegistered(d', n)
              && |d'| == |d| - 1
              && exists k :: 0 <= k < |d| && d' == d[..k] + d[k+1..]
            else d' == d && out == Raised(KeyError)
  {
    HasMeaning(d, n);
    if Has(d, n) { DelMeaning(d, n); }
  }

  lemma HasMeaning(d: Dict<int>, n: int)
    ensures Has(d, n) <==> IsRegistered(d, n)
  {}

  lemma PutMeaning(d: Dict<int>, n: int, mask: int)
    requires IsDict(d)
    ensures Has(d, n) <==> IsRegistered(d, n)
    ensures var d' := Put(d, n, mask);
            && IsDict(d') && SameBut(d, d', n) && (forall v :: (n, v) in d' <==> v == mask)
            && (!IsRegistered(d, n) ==> d' == d + [(n, mask)])
            && (IsRegistered(d, n) ==> |d'| == |d| && forall i :: 0 <= i < |d| ==> d'[i].0 == d[i].0)
  {
    HasMeaning(d, n);
    PutKeys(d, n, mask);
    var d' := Put(d, n, mask);
    var k := Index(d, n);
    assert d'[k] == (n, mask);
    forall p: (int, int) | p.0 != n ensures p in d <==> p in d' {
      if p in d {
        var i :| 0 <= i < |d| && d[i] == p;
        assert d'[i] == p;
      }
    }
  }

  lemma DelMeaning(d: Dict<int>, n: int)
    requires IsDict(d) && Has(d, n)
    ensures var d' := Del(d, n);
            && IsDict(d') && SameBut(d, d', n) && !IsRegistered(d', n)
            && d' == d[..Index(d, n)] + d[Index(d, n)+1..]
  {
    WithoutOne(d, Index(d, n));
    DelMore(d, n);
  }

  lemma DelMore(d: Dict<int>, n: int)
    requires IsDict(d) && Has(d, n)
    ensures IsDict(Del(d, n)) && !IsRegistered(Del(d, n), n)
  {
    DelKeys(d, n);
    HasMeaning(Del(d, n), n);
  }

  lemma WithoutOne(d: Dict<int>, k: nat)
    requires k < |d|
    ensures SameBut(d, d[..k] + d[k+1..], d[k].0)
  {
    var d' := d[..k] + d[k+1..];
    assert d == d[..k] + [d[k]] + d[k+1..];
    forall p: (int, int) | p.0 != d[k].0 ensures p in d <==> p in d' {}
  }

  // poll: what lwIP stored, for each registered number with a nonzero value, if lwIP's
  // result is their number; an exception otherwise.
  lemma QueryMeaning(instance: int, d: Dict<int>, answer: Answer)
    requires IsDict(d) && Overwrites(answer)
    ensures var (d', out) := Edit(instance, d, Query(answer)); var reply := answer(d);
            && d' == d
            && (out == Raised(CallFailed) <==> reply.ret < 0)
            && (out.Events? ==>
                  && |out.events| == reply.ret && IsDict(out.events)
                  && forall p :: p in out.events <==>
                       exists i :: 0 <= i < |d| && reply.revents[i] == Some(p.1) && p.1 != 0 && p.0 == d[i].0)
            && (out == Raised(AssertionFailed) <==>
                  reply.ret >= 0 && reply.ret != |Ready(d, Written(Zeros(|d|), reply.revents))|)
            && (out.Events? || out == Raised(CallFailed) || out == Raised(AssertionFailed))
  {
    var reply := answer(d);
    if reply.ret >= 0 {
      var revents := Written(Zeros(|d|), reply.revents);
      ReadyReports(d, revents);
      var ready := Ready(d, revents);
      forall p | p in ready
        ensures exists i :: 0 <= i < |d| && reply.revents[i] == Some(p.1) && p.1 != 0 && p.0 == d[i].0
      {
        var i :| 0 <= i < |d| && revents[i] != 0 && p == (d[i].0, revents[i]);
        assert reply.revents[i] == Some(p.1) && p.1 != 0 && p.0 == d[i].0;
      }
      forall p: (int, int), i | 0 <= i < |d| && reply.revents[i] == Some(p.1) && p.1 != 0 && p.0 == d[i].0
        ensures p in ready
      {
        assert revents[i] != 0 && p == (d[i].0, revents[i]);
      }
    }
  }

  // ---- the object ---------------------------------------------------------

  class LwipPoll {
    const instance: int
    var registered: Dict<int>
    var fds: array?<PollFd>
    var isFresh: bool

    ghost predicate Valid()
      reads this, fds
    {
      && IsDict(registered)
      && (isFresh ==> fds != null && Matches(fds[..], registered))
    }

    constructor (instance: int)
      ensures Valid() && registered == [] && this.instance == instance && fds == null
    {
      this.instance := instance;
      registered, fds, isFresh := [], null, false;
    }

    method Register(arg: FdArg, mask: int) returns (r: Out)
      requires Valid()
      modifies this
      ensures Valid() && fds == old(fds) && (registered, r) == Edit(instance, old(registered), Op.Register(arg, mask))
    {
      EditKeepsDict(instance, registered, Op.Register(arg, mask));
      var fd := GetFd(instance, arg);
      if fd.Err? {
        return Raised(fd.error);
      }
      registered := Put(registered, fd.value, mask);
      isFresh := false;
      r := Done;
    }

    method Modify(arg: FdArg, mask: int) returns (r: Out)
      requires Valid()
      modifies this
      ensures Valid() && fds == old(fds) && (registered, r) == Edit(instance, old(registered), Op.Modify(arg, mask))
    {
      EditKeepsDict(instance, registered, Op.Modify(arg, mask));
      var fd := GetFd(instance, arg);
      if fd.Err? {
        return Raised(fd.error);
      }
      if !Has(registered, fd.value) {
        return Raised(NotRegistered);
      }
      registered := Put(registered, fd.value, mask);
      isFresh := false;
      r := Done;
    }

    method Unregister(arg: FdArg) returns (r: Out)
      requires Valid()
      modifies this
      ensures Valid() && fds == old(fds) && (registered, r) == Edit(instance, old(registered), Op.Unregister(arg))
    {
      EditKeepsDict(instance, registered, Op.Unregister(arg));
      var fd := GetFd(instance, arg);
      if fd.Err? {
        return Raised(fd.error);
      }
      if !Has(registered, fd.value) {
        return Raised(KeyError);
      }
      registered := Del(registered, fd.value);
      isFresh := false;
      r := Done;
    }

    // Rebuild the array unless it is fresh. A fresh array keeps its old `revents`.
    method PopulateFds() returns (a: array<PollFd>)
      requires Valid()
      modifies this`fds, this`isFresh
      ensures Valid() && isFresh && fds == a
      ensures Matches(a[..], registered)
      ensures fresh(a) || (a == old(fds) && old(isFresh))
    {
      if isFresh {
        return fds;
      }
      var entries := registered;
      a := new PollFd[|entries|](i requires 0 <= i < |entries| => PollFd(entries[i].0, entries[i].1, 0));
      assert forall i :: 0 <= i < |entries| ==> a[i] == PollFd(entries[i].0, entries[i].1, 0);
      fds := a;
      isFresh := true;
    }

    method Poll(answer: Answer) returns (r: Out)
      requires Valid() && Overwrites(answer)
      modifies this`fds, this`isFresh, fds
      ensures Valid() && (fds == old(fds) || fresh(fds))
      ensures registered == old(registered)
      ensures r == Edit(instance, old(registered), Query(answer)).1
    {
      var a := PopulateFds();
      ghost var stale := Values(a[..]);
      var reply := LwipPollCall(a, answer);
      assert Requests(a[..]) == registered;
      StaleValuesHidden(registered, stale, reply);
      if reply.ret < 0 {
        return Raised(CallFailed);
      }
      var ready := CollectReady(a, registered);
      if reply.ret != |ready| {
        return Raised(AssertionFailed);
      }
      r := Events(ready);
    }
  }

  // The array holds the registrations, in order.
  predicate Matches(a: seq<PollFd>, d: Dict<int>) {
    |a| == |d| && forall i :: 0 <= i < |a| ==> (a[i].fd, a[i].events) == d[i]
  }

  function Requests(a: seq<PollFd>): seq<(int, int)> {
    seq(|a|, i requires 0 <= i < |a| => (a[i].fd, a[i].events))
  }

  function Values(a: seq<PollFd>): (v: seq<int>)
    ensures |v| == |a|
  {
    seq(|a|, i requires 0 <= i < |a| => a[i].revents)
  }

  // lwip_poll writes `revents` into the array it is given.
  method LwipPollCall(a: array<PollFd>, answer: Answer) returns (reply: Reply)
    modifies a
    ensures reply == answer(Requests(old(a[..])))
    ensures Requests(a[..]) == Requests(old(a[..]))
    ensures forall i :: 0 <= i < a.Length ==> a[i].fd == old(a[i].fd) && a[i].events == old(a[i].events)
    ensures Values(a[..]) == Written(Values(old(a[..])), reply.revents)
  {
    ghost var before := a[..];
    var n := a.Length;
    var req := seq(n, i requires 0 <= i < n reads a => (a[i].fd, a[i].events));
    assert req == Requests(a[..]);
    reply := answer(req);
    for i := 0 to n
      invariant forall j :: 0 <= j < i ==>
                a[j] == before[j].(revents := if j < |reply.revents| then reply.revents[j].GetOr(before[j].revents)
                                          else before[j].revents)
      invariant forall j :: i <= j < n ==> a[j] == before[j]
    {
      if i < |reply.revents| && reply.revents[i].Some? {
        a[i] := a[i].(revents := reply.revents[i].value);
      }
    }
    assert Requests(a[..]) == Requests(before);
  }

  method CollectReady(a: array<PollFd>, ghost d: Dict<int>) returns (ready: seq<(int, int)>)
    requires Matches(a[..], d)
    ensures ready == Ready(d, Values(a[..]))
  {
    ready := [];
    ghost var v := Values(a[..]);
    for i := 0 to a.Length
      invariant ready == Ready(d[..i], v[..i])
    {
      assert d[..i+1][..i] == d[..i] && v[..i+1][..i] == v[..i];
      if a[i].revents != 0 {
        ready := ready + [(a[i].fd, a[i].revents)];
      }
    }
    assert d[..|d|] == d && v[..|v|] == v;
  }

  // ---- refinement ---------------------------------------------------------

  // Whatever sequence of operations is performed on an LwipPoll, including polls
  // that raise, it gives what the object without a cache gives, and ends with the
  // same registrations.
  method Perform(p: LwipPoll, ops: seq<Op>) returns (outs: seq<Out>)
    requires p.Valid()
    requires forall i :: 0 <= i < |ops| && ops[i].Query? ==> Overwrites(ops[i].answer)
    modifies p, p.fds
    ensures p.Valid() && p.registered == Registrations(p.instance, old(p.registered), ops)
    ensures outs == Outputs(p.instance, old(p.registered), ops)
  {
    outs := [];
    for i := 0 to |ops|
      invariant p.Valid() && (p.fds == old(p.fds) || fresh(p.fds))
      invariant p.registered == Registrations(p.instance, old(p.registered), ops[..i])
      invariant outs == Outputs(p.instance, old(p.registered), ops[..i])
    {
      assert ops[..i+1][..i] == ops[..i];
      var out;
      match ops[i] {
        case Register(arg, mask) => out := p.Register(arg, mask);
        case Modify(arg, mask) => out := p.Modify(arg, mask);
        case Unregister(arg) => out := p.Unregister(arg);
        case Query(answer) => out := p.Poll(answer);
      }
      outs := outs + [out];
    }
    assert ops[..|ops|] == ops;
  }
}
