// src/lwip/socket.py, Socket.send and Socket.sendall: a payload pushed through a
// stack that accepts as much of it as it likes at each call.
module SendAll {
  import opened Basics
  import opened LwipError

  // What one lwip_send does with what it is given: its result, what it stores in errno
  // and, if it fails, how many bytes it took all the same.
  datatype Reply = Reply(ret: int, sets: Option<int>, taken: nat)

  // lwIP as a schedule of replies: any sequence of them.
  type Schedule = nat -> Reply

  // lwip_send never reports more than it was given.
  function Returned(reply: Reply, given: nat): int {
    Min(reply.ret, given)
  }

  function Took(reply: Reply, given: nat): (n: nat)
    ensures n <= given
  {
    if reply.ret >= 0 then Min(reply.ret, given) else Min(reply.taken, given)
  }

  // A sendall as it finds things: the warnings filter, errno, and the replies from number
  // `start` on.
  datatype Setting = Setting(strict: bool, errno: int, lwip: Schedule, start: nat)

  function ReplyAt(s: Setting, k: nat): Reply {
    s.lwip(s.start + k)
  }

  // Only the first call can find errno set.
  function ErrnoAt(s: Setting, k: nat): int {
    if k == 0 then s.errno else 0
  }

  // What a send gives for a payload of this length.
  function SendWith(strict: bool, errno: int, reply: Reply, given: nat): Outcome {
    if strict && errno != 0 then Err(RuntimeWarning)
    else CheckLeave(strict, Returned(reply, given), reply.sets.GetOr(0))
  }

  // How many bytes reach lwIP with it.
  function ReachWith(strict: bool, errno: int, reply: Reply, given: nat): (n: nat)
    ensures n <= given
  {
    if strict && errno != 0 then 0 else Took(reply, given)
  }

  // The same for the k-th send of the loop.
  function SendAt(s: Setting, k: nat, given: nat): Outcome {
    SendWith(s.strict, ErrnoAt(s, k), ReplyAt(s, k), given)
  }

  function ReachAt(s: Setting, k: nat, given: nat): (n: nat)
    ensures n <= given
  {
    ReachWith(s.strict, ErrnoAt(s, k), ReplyAt(s, k), given)
  }

  // The loop: so many bytes sent so far, or stopped by an exception when lwIP had taken
  // so many.
  datatype Progress = Going(sent: nat) | Failed(error: Exception, taken: nat) {
    function Bytes(): nat {
      match this
      case Going(n) => n
      case Failed(_, n) => n
    }

    function Outcome(): Result<(), Exception> {
      match this
      case Going(_) => Ok(())
      case Failed(e, _) => Err(e)
    }
  }

  // After n turns of the loop over a payload of this length.
  function Turns(s: Setting, total: nat, n: nat): (p: Progress)
    ensures p.Bytes() <= total
  {
    if n == 0 then Going(0)
    else
      var p := Turns(s, total, n - 1);
      if IsFinal(p, total) then p
      else match SendAt(s, n - 1, total - p.sent)
        case Ok(_) => Going(p.sent + ReachAt(s, n - 1, total - p.sent))
        case Err(e) => Failed(e, p.sent + ReachAt(s, n - 1, total - p.sent))
  }

  predicate IsFinal(p: Progress, total: nat) {
    p.Failed? || p.sent == total
  }

  ghost predicate Ends(s: Setting, total: nat) {
    exists n: nat :: IsFinal(Turns(s, total, n), total)
  }

  // The sending half of one connection. `accepted` is all that lwIP has taken so far.
  class Connection {
    const ffi: Ffi
    const lwip: Schedule
    var accepted: seq<byte>
    var calls: nat

    constructor (ffi: Ffi, lwip: Schedule)
      ensures this.ffi == ffi && this.lwip == lwip && accepted == [] && calls == 0
    {
      this.ffi, this.lwip := ffi, lwip;
      accepted, calls := [], 0;
    }

    ghost function Here(): Setting
      reads this, ffi
    {
      Setting(ffi.strict, ffi.errno, lwip, calls)
    }

    // lwip_send
    method LwipSend(payload: seq<byte>) returns (ret: int)
      modifies this`accepted, ffi`errno
      ensures ret == Returned(lwip(calls), |payload|)
      ensures accepted == old(accepted) + payload[..Took(lwip(calls), |payload|)]
      ensures ffi.errno == lwip(calls).sets.GetOr(old(ffi.errno))
    {
      var reply := lwip(calls);
      ret := Returned(reply, |payload|);
      accepted := accepted + payload[..Took(reply, |payload|)];
      ffi.errno := reply.sets.GetOr(ffi.errno);
    }

    method Send(payload: seq<byte>) returns (r: Outcome)
      modifies this`accepted, this`calls, ffi`errno
      ensures calls == old(calls) + 1
      ensures r == SendWith(ffi.strict, old(ffi.errno), lwip(old(calls)), |payload|)
      ensures accepted == old(accepted) + payload[..ReachWith(ffi.strict, old(ffi.errno), lwip(old(calls)), |payload|)]
      ensures r.Ok? ==> r.value == ReachWith(ffi.strict, old(ffi.errno), lwip(old(calls)), |payload|) && ffi.errno == 0
    {
      var blocked := ffi.Enter();
      if blocked {
        calls := calls + 1;
        return Err(RuntimeWarning);
      }
      var ret := LwipSend(payload);
      r := ffi.Leave(ret);
      calls := calls + 1;
    }

    // Turn n of the loop: bytes_sent = self.send(payload), payload = payload[bytes_sent:].
    method Turn(rest: seq<byte>, ghost s: Setting, ghost n: nat, ghost payload: seq<byte>, ghost start: seq<byte>)
      returns (r: Outcome, left: seq<byte>)
      requires InLoop(s, n, payload, start, rest) && rest != []
      modifies this`accepted, this`calls, ffi`errno
      ensures r.Ok? ==> InLoop(s, n + 1, payload, start, left)
      ensures r.Err? ==> && Turns(s, |payload|, n + 1).Failed? && r.error == Turns(s, |payload|, n + 1).error
                         && accepted == start + payload[..Turns(s, |payload|, n + 1).Bytes()]
    {
      MoreOfIt(start, payload, |payload| - |rest|, ReachAt(s, n, |rest|));
      OneTurn(s, |payload|, n, |payload| - |rest|);
      r := Send(rest);
      left := if r.Ok? then rest[r.value..] else rest;
    }

    // After n turns: what is left of the payload, and what lwIP has.
    ghost predicate InLoop(s: Setting, n: nat, payload: seq<byte>, start: seq<byte>, rest: seq<byte>)
      reads this, ffi
    {
      && |rest| <= |payload| && rest == payload[|payload| - |rest|..]
      && Turns(s, |payload|, n) == Going(|payload| - |rest|)
      && accepted == start + payload[..|payload| - |rest|]
      && s == Setting(ffi.strict, s.errno, lwip, s.start) && calls == s.start + n && ffi.errno == ErrnoAt(s, n)
    }

    // For every schedule over which the loop ends at all: it does what the turns of the
    // loop do, and the bytes lwIP has then are the first ones of the payload, in order,
    // as many as the turns say.
    method SendAll(payload: seq<byte>) returns (r: Result<(), Exception>, ghost n: nat)
      requires Ends(Here(), |payload|)
      modifies this`accepted, this`calls, ffi`errno
      ensures IsFinal(Turns(old(Here()), |payload|, n), |payload|)
      ensures r == Turns(old(Here()), |payload|, n).Outcome()
      ensures accepted == old(accepted) + payload[..Turns(old(Here()), |payload|, n).Bytes()]
    {
      ghost var s, start := Here(), accepted;
      ghost var bound: nat :| IsFinal(Turns(s, |payload|, bound), |payload|);
      var rest := payload;
      n := 0;
      while rest != []
        invariant InLoop(s, n, payload, start, rest)
        decreases bound - n
      {
        if bound <= n { FinalStays(s, |payload|, bound, n); }
        var sent;
        sent, rest := Turn(rest, s, n, payload, start);
        n := n + 1;
        if sent.Err? {
          return Err(sent.error), n;
        }
      }
      r := Ok(());
    }
  }

  lemma OneTurn(s: Setting, total: nat, n: nat, done: nat)
    requires Turns(s, total, n) == Going(done) && done < total
    ensures Turns(s, total, n + 1) ==
              match SendAt(s, n, total - done)
              case Ok(_) => Going(done + ReachAt(s, n, total - done))
              case Err(e) => Failed(e, done + ReachAt(s, n, total - done))
  {}

  lemma MoreOfIt(start: seq<byte>, payload: seq<byte>, done: nat, n: nat)
    requires done + n <= |payload|
    ensures start + payload[..done] + payload[done..][..n] == start + payload[..done + n]
    ensures payload[done..][n..] == payload[done + n..]
  {
    assert payload[..done] + payload[done..][..n] == payload[..done + n];
  }

  lemma {:induction false} FinalStays(s: Setting, total: nat, n: nat, m: nat)
    requires n <= m && IsFinal(Turns(s, total, n), total)
    ensures Turns(s, total, m) == Turns(s, total, n)
  {
    if n < m { FinalStays(s, total, n, m - 1); }
  }

  // ---- read off the schedule ----------------------------------------------

  // The k-th send raises, whatever it is given.
  predicate Raises(s: Setting, k: nat) {
    || (s.strict && ErrnoAt(s, k) != 0)
    || ReplyAt(s, k).ret < 0
    || (s.strict && ReplyAt(s, k).sets.GetOr(0) != 0)
  }

  // None of the first n does.
  ghost predicate AllWell(s: Setting, n: nat) {
    forall k: nat :: k < n ==> !Raises(s, k)
  }

  // How many bytes the first n are willing to take.
  function Offered(s: Setting, n: nat): nat {
    if n == 0 then 0
    else Offered(s, n - 1) + if ReplyAt(s, n - 1).ret >= 0 then ReplyAt(s, n - 1).ret else 0
  }

  ghost predicate Suffices(s: Setting, total: nat, n: nat) {
    AllWell(s, n) && Offered(s, n) >= total
  }

  lemma {:induction false} WellTurns(s: Setting, total: nat, n: nat)
    requires AllWell(s, n)
    ensures Turns(s, total, n) == Going(Min(total, Offered(s, n)))
  {
    if n > 0 {
      WellTurns(s, total, n - 1);
      assert !Raises(s, n - 1);
    }
  }

  // Send k is the first to raise, before the payload is through.
  ghost predicate StopsAt(s: Setting, total: nat, k: nat, p: Progress) {
    && AllWell(s, k) && Raises(s, k) && Offered(s, k) < total
    && p.Failed? && Err(p.error) == SendAt(s, k, total - Offered(s, k))
    && p.taken == Offered(s, k) + ReachAt(s, k, total - Offered(s, k))
  }

  lemma FailingTurn(s: Setting, total: nat, k: nat)
    requires AllWell(s, k) && Raises(s, k) && Offered(s, k) < total
    ensures StopsAt(s, total, k, Turns(s, total, k + 1))
  {
    WellTurns(s, total, k);
  }

  lemma {:induction false} FirstToRaise(s: Setting, k: nat) returns (first: nat)
    requires Raises(s, k)
    ensures first <= k && Raises(s, first) && AllWell(s, first)
  {
    if j: nat :| j < k && Raises(s, j) {
      first := FirstToRaise(s, j);
    } else {
      first := k;
    }
  }

  // The loop ends exactly if some send raises or the stack offers, over some number of
  // sends, to take as many bytes as there are.
  lemma EndsIff(s: Setting, total: nat)
    ensures Ends(s, total) <==> exists n: nat :: Raises(s, n) || Offered(s, n) >= total
  {
    if n: nat :| IsFinal(Turns(s, total, n), total) {
      if AllWell(s, n) { WellTurns(s, total, n); }
    }
    if k: nat :| Raises(s, k) {
      var first := FirstToRaise(s, k);
      WellTurns(s, total, first);
      if Offered(s, first) < total {
        FailingTurn(s, total, first);
        assert IsFinal(Turns(s, total, first + 1), total);
      } else {
        assert IsFinal(Turns(s, total, first), total);
      }
    } else if n: nat :| Offered(s, n) >= total {
      WellTurns(s, total, n);
      assert IsFinal(Turns(s, total, n), total);
    }
  }

  // It returns without an exception exactly if sends that do not raise suffice; then all
  // of the payload was taken. Otherwise it stops at the first send that raises, and what
  // was taken is what the sends before it took and what that one took.
  lemma OutcomeIff(s: Setting, total: nat, n: nat)
    requires IsFinal(Turns(s, total, n), total)
    ensures Turns(s, total, n).Going? <==> exists m: nat :: Suffices(s, total, m)
    ensures Turns(s, total, n).Going? ==> Turns(s, total, n).Bytes() == total
    ensures Turns(s, total, n).Failed? ==> exists k: nat :: StopsAt(s, total, k, Turns(s, total, n))
  {
    if m: nat :| Suffices(s, total, m) {
      WellTurns(s, total, m);
      SameEnd(s, total, m, n);
    } else {
      if AllWell(s, n) {
        WellTurns(s, total, n);
        assert Suffices(s, total, n);
      } else {
        var k: nat :| k < n && Raises(s, k);
        var first := FirstToRaise(s, k);
        StoppedAt(s, total, first, n);
      }
    }
  }

  lemma StoppedAt(s: Setting, total: nat, k: nat, n: nat)
    requires AllWell(s, k) && Raises(s, k) && !Suffices(s, total, k) && IsFinal(Turns(s, total, n), total)
    ensures StopsAt(s, total, k, Turns(s, total, n))
  {
    FailingTurn(s, total, k);
    SameEnd(s, total, k + 1, n);
  }

  lemma SameEnd(s: Setting, total: nat, m: nat, n: nat)
    requires IsFinal(Turns(s, total, m), total) && IsFinal(Turns(s, total, n), total)
    ensures Turns(s, total, m) == Turns(s, total, n)
  {
    if m <= n { FinalStays(s, total, m, n); } else { FinalStays(s, total, n, m); }
  }

  // If every send takes at least one byte, the loop ends.
  lemma {:induction false} OneByteEach(s: Setting, n: nat)
    requires forall k: nat :: ReplyAt(s, k).ret >= 1
    ensures Offered(s, n) >= n
  {
    if n > 0 { OneByteEach(s, n - 1); }
  }

  lemma PartialSendsEnd(s: Setting, total: nat)
    requires forall k: nat :: ReplyAt(s, k).ret >= 1
    ensures Ends(s, total)
  {
    OneByteEach(s, total);
    EndsIff(s, total);
  }

  // A stack that succeeds for ever without taking anything keeps it running.
  lemma NothingTakenForEver()
    ensures !Ends(Setting(false, 0, _ => Reply(0, None, 0), 0), 1)
  {
    var s := Setting(false, 0, _ => Reply(0, None, 0), 0);
    forall n: nat ensures Offered(s, n) == 0 { NothingOffered(s, n); }
    EndsIff(s, 1);
  }

  lemma {:induction false} NothingOffered(s: Setting, n: nat)
    requires forall k: nat :: ReplyAt(s, k).ret == 0
    ensures Offered(s, n) == 0
  {
    if n > 0 { NothingOffered(s, n - 1); }
  }
}
