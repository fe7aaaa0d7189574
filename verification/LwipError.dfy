// src/lwip/lwip_error.py: the wrapper every socket call goes through, and the
// discipline it keeps over `ffi.errno`.
module LwipError {
  import opened Basics

  // What a foreign function does when it is invoked. `sets` is the value it
  // stores in errno, if it stores one. It may also raise, in which case the
  // wrapper is left at once.
  datatype Call =
    | Returns(ret: int, sets: Option<int>)
    | Throws(sets: Option<int>)

  datatype Exception =
    | OSError(errno: int)       // negative result and errno set
    | LwipFailure(ret: int)     // negative result, errno not set
    | RuntimeWarning            // a warning, with the warnings filter at "error"
    | ValueError
    | ConnectionError
    | Foreign                   // raised by the wrapped function itself

  type Outcome = Result<int, Exception>

  // The wrapper as a function of the errno it finds. `strict` says that the
  // warnings filter turns warnings into exceptions, so that both `warnings.warn`
  // calls leave the wrapper.
  datatype Checked = Checked(outcome: Outcome, errno: int, invoked: bool)

  function CheckLeave(strict: bool, ret: int, errno: int): Outcome {
    if errno != 0 && ret < 0 then Err(OSError(errno))
    else if errno != 0 && strict then Err(RuntimeWarning)
    else if ret < 0 then Err(LwipFailure(ret))
    else Ok(ret)
  }

  function Check(strict: bool, before: int, call: Call): Checked {
    if before != 0 && strict then Checked(Err(RuntimeWarning), before, false)
    else match call
      case Throws(sets) => Checked(Err(Foreign), sets.GetOr(0), true)
      case Returns(ret, sets) => Checked(CheckLeave(strict, ret, sets.GetOr(0)), 0, true)
  }

  // errno as one thread sees it: cffi keeps a value per thread, so the sequences of
  // calls below are those of one thread. The wrapper is split at the foreign call,
  // because that call changes other state as well.
  class Ffi {
    var errno: int
    const strict: bool

    constructor (strict: bool)
      ensures errno == 0 && this.strict == strict
    {
      this.errno, this.strict := 0, strict;
    }

    // Everything before the foreign call. The call is made unless `blocked`.
    method Enter() returns (blocked: bool)
      modifies this`errno
      ensures blocked <==> strict && old(errno) != 0
      ensures errno == if blocked then old(errno) else 0
    {
      if errno != 0 && strict {
        return true;
      }
      errno := 0;
      blocked := false;
    }

    // Everything after the foreign call returned `ret`.
    method Leave(ret: int) returns (r: Outcome)
      modifies this`errno
      ensures errno == 0
      ensures r == CheckLeave(strict, ret, old(errno))
    {
      var e := errno;
      errno := 0;
      if e != 0 {
        if ret < 0 {
          return Err(OSError(e));
        }
        if strict {
          return Err(RuntimeWarning);
        }
      }
      if ret < 0 {
        return Err(LwipFailure(ret));
      }
      r := Ok(ret);
    }

    method CheckRetErrno(call: Call) returns (r: Outcome)
      modifies this`errno
      ensures Checked(r, errno, Check(strict, old(errno), call).invoked) == Check(strict, old(errno), call)
    {
      var blocked := Enter();
      if blocked {
        return Err(RuntimeWarning);
      }
      if call.sets.Some? {
        errno := call.sets.value;
      }
      match call
      case Throws(_) => r := Err(Foreign);
      case Returns(ret, _) => r := Leave(ret);
    }
  }

  // What the documentation promises of one wrapped call, with the warnings
  // filter at its default: the outcome is decided by this call alone.
  lemma OutcomeMeaning(before: int, ret: int, sets: Option<int>)
    ensures var r := Check(false, before, Returns(ret, sets)).outcome;
            && (r == Ok(ret) <==> ret >= 0)
            && (r.Ok? ==> r.value >= 0)
            && (forall e :: r == Err(OSError(e)) <==> ret < 0 && e != 0 && sets == Some(e))
            && (r == Err(LwipFailure(ret)) <==> ret < 0 && sets in {None, Some(0)})
  {
    if sets.Some? { assert sets == Some(sets.value); }
  }

  // Errno left by earlier calls matters exactly when the filter is strict and
  // errno is not zero; then the foreign function is not even invoked.
  lemma StaleErrnoMattersIff(strict: bool, before: int, call: Call)
    ensures Check(strict, before, call).invoked <==> !(strict && before != 0)
    ensures Check(strict, before, call).invoked ==> Check(strict, before, call) == Check(strict, 0, call)
  {}

  // ---- sequences of calls, wrapped or bare --------------------------------

  datatype Op = Wrapped(call: Call) | Bare(call: Call)

  // errno after one operation
  function ErrnoAfter(strict: bool, before: int, op: Op): int {
    match op
    case Wrapped(call) => Check(strict, before, call).errno
    case Bare(call) => call.sets.GetOr(before)
  }

  // errno after a whole sequence
  function Errno(strict: bool, start: int, ops: seq<Op>): int {
    if ops == [] then start
    else ErrnoAfter(strict, Errno(strict, start, ops[..|ops|-1]), ops[|ops|-1])
  }

  // What the wrapped call at position i gives when the sequence runs from `start`.
  function ResultAt(strict: bool, start: int, ops: seq<Op>, i: nat): Outcome
    requires i < |ops| && ops[i].Wrapped?
  {
    Check(strict, Errno(strict, start, ops[..i]), ops[i].call).outcome
  }

  // Default filter: whatever ran before, a wrapped call gives what it would give
  // in a fresh process, it gives only nonnegative results, and it leaves errno
  // zero unless the function itself raised.
  lemma HistoryIsInvisible(start: int, ops: seq<Op>, i: nat)
    requires i < |ops| && ops[i].Wrapped?
    ensures ResultAt(false, start, ops, i) == ResultAt(false, 0, [ops[i]], 0)
    ensures ResultAt(false, start, ops, i).Ok? ==> ResultAt(false, start, ops, i).value >= 0
    ensures ops[i].call.Returns? ==> Errno(false, start, ops[..i+1]) == 0
  {
    assert [ops[i]][..0] == [];
    assert ops[..i+1][..i] == ops[..i];
  }

  // Strict filter, from a zero errno: history reaches the call at position i,
  // which is then not made at all, exactly when an earlier bare call, or a
  // wrapped function that itself raised, stored a nonzero errno and no bare call
  // overwrote it with zero. A later wrapped call does not clear it: it is
  // refused and leaves errno alone.
  ghost predicate Poisoned(ops: seq<Op>, j: nat)
    requires j < |ops|
  {
    && (ops[j].Bare? || ops[j].call.Throws?)
    && ops[j].call.sets.Some? && ops[j].call.sets.value != 0
    && forall k :: j < k < |ops| && ops[k].Bare? ==> ops[k].call.sets != Some(0)
  }

  lemma PoisonedPrefix(ops: seq<Op>, j: nat)
    requires j < |ops| - 1
    ensures Poisoned(ops, j) <==>
            Poisoned(ops[..|ops|-1], j) && !(ops[|ops|-1].Bare? && ops[|ops|-1].call.sets == Some(0))
  {
    var front := ops[..|ops|-1];
    if Poisoned(front, j) && !(ops[|ops|-1].Bare? && ops[|ops|-1].call.sets == Some(0)) {
      forall k | j < k < |ops| && ops[k].Bare? ensures ops[k].call.sets != Some(0) {
        if k < |front| { assert front[k] == ops[k]; }
      }
    }
  }

  lemma {:induction false} StrictHistoryIff(ops: seq<Op>)
    ensures Errno(true, 0, ops) != 0 <==> exists j: nat :: j < |ops| && Poisoned(ops, j)
  {
    if ops == [] { return; }
    var n := |ops| - 1;
    var front, last := ops[..n], ops[n];
    StrictHistoryIff(front);
    forall j: nat | j < n
      ensures Poisoned(ops, j) <==> Poisoned(front, j) && !(last.Bare? && last.call.sets == Some(0))
    {
      PoisonedPrefix(ops, j);
    }
    if Poisoned(ops, n) {
    } else if Errno(true, 0, front) != 0 {
      var j: nat :| j < |front| && Poisoned(front, j);
      assert Poisoned(ops, j) <==> !(last.Bare? && last.call.sets == Some(0));
    }
  }

  // Which wrapped calls of a strict history are refused: those after a poisoned prefix.
  lemma RefusedIff(ops: seq<Op>, i: nat)
    requires i < |ops| && ops[i].Wrapped?
    ensures !Check(true, Errno(true, 0, ops[..i]), ops[i].call).invoked <==>
              exists j: nat :: j < i && Poisoned(ops[..i], j)
  {
    StrictHistoryIff(ops[..i]);
  }

  // One wrapped call, for either setting of the filter, case by case: what it returns or
  // raises, whether it is made, and errno afterwards.
  lemma WrapperMeaning(strict: bool, before: int, ret: int, sets: Option<int>)
    ensures var c := Check(strict, before, Returns(ret, sets)); var clean := sets == None || sets == Some(0);
            && (strict && before != 0 ==> c == Checked(Err(RuntimeWarning), before, false))
            && (!(strict && before != 0) ==>
                  && c.invoked && c.errno == 0
                  && (clean ==> c.outcome == if ret < 0 then Err(LwipFailure(ret)) else Ok(ret))
                  && (!clean && ret < 0 ==> c.outcome == Err(OSError(sets.value)))
                  && (!clean && ret >= 0 ==> c.outcome == if strict then Err(RuntimeWarning) else Ok(ret)))
  {}
}
