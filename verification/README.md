# A Dafny model of lwip-py

lwip-py binds the lwIP network stack to Python through cffi. Most of it forwards one
call each. This project models the part where the Python code keeps state of its own,
and proves what that state is for:

- who owns a socket number, from the moment lwIP issues it to the moment it is closed,
  with `close()`, the garbage collector and the exit handlers of all threads interleaved
  (`Lifecycle.dfy`), and the `Socket` object itself (`Sockets.dfy`);
- `socketpair`: the method (`Socketpair.dfy`), the runs it performs, described without it
  (`PairRun.dfy`) and what they are, call by call (`PairMeaning.dfy`), a ledger of every number lwIP issued on the way (`Ledger.dfy`,
  `PairBooks.dfy`) and what each run leaves behind (`PairResults.dfy`); the calls of all
  sockets are runs of the lifecycle machine (`Simulation.dfy`);
- the errno discipline of `check_ret_errno` (`LwipError.dfy`);
- the poll object with its cached array (`Poll.dfy`) and the selector index on top of it
  (`Selector.dfy`), both over an insertion-ordered dictionary (`Dict.dfy`);
- the dotted-decimal codec (`Digits.dfy`, `Inet.dfy`) and the socket address codec over
  one overlaid buffer (`SockAddr.dfy`);
- the two buffer loops, `_pbuf_to_bytes` (`Pbuf.dfy`) and `sendall` (`SendAll.dfy`);
- the option translation table (`CompatTranslate.dfy`).

lwIP is a schedule of replies, one for each call, and every statement is about all
schedules: any call may fail, set errno, reuse a released number, take part of a payload.
Objects whose methods update fields are classes; each method is tied to a function of the
old state and of lwIP's replies, and the properties are proved about those functions.
Interleavings are a state machine over values.

## What holds only under a condition

The following promises of the code or its documentation are false as they stand. For each
there is a case in which it fails and the exact condition under which the code keeps it.

- *Each number is closed at most once.* `weakref.finalize` also runs at interpreter exit,
  and exit does not wait for daemon threads. A `close()` that has called `lwip_close` and
  has not yet detached its finalizer is closed a second time by the exit handler, and by
  then the number may belong to another socket (`Lifecycle.ExitDuringCloseHitsAStranger`).
  At most one close per allocation holds exactly for the runs in which no socket is both
  given to `lwip_close` by its `close()` and finalized by an exit handler, in whichever
  order (`Lifecycle.AtMostOneCloseIff`); in particular while no exit handler runs. In those
  runs every close also hits the allocation it was meant for
  (`Lifecycle.EveryCloseHitsItsOwnIff` has the exact condition). A close reaches another
  socket's allocation, always a later one, exactly if the two meet on a socket whose number
  another socket has by then (`Lifecycle.NoStrangerIff`).
- *A socket call that raises has allocated nothing.* With the warnings filter at "error",
  a call of `lwip_socket` or `lwip_accept` that returns a number and sets errno loses the
  number: the second warning of `check_ret_errno` leaves before there is a `Socket`.
  `Sockets.LosesIff` has the exact condition, `Lifecycle.LostIsAbandoned` and
  `Lifecycle.AbandonedForever` what follows.
- *Closing a socket closes its number.* `check_ret_errno` warns before it makes the call
  if errno is not zero. With the warnings filter at "error" that warning leaves `close()`
  before `lwip_close`, and the `finally` clause detaches the finalizer all the same: the
  number is never closed (`Lifecycle.RefusedCloseLeaks`, `Lifecycle.AbandonedForever`).
  The call is left out exactly when the filter is strict and errno is not zero
  (`Sockets.Socket.Close`). When errno is left over is characterised by
  `LwipError.StrictHistoryIff`. `socketpair` runs into this by itself: `connect_ex` leaves
  the errno of `lwip_connect` behind, `accept` is then refused exactly if that is not zero
  (`PairResults.AcceptIsRefusedIff`), and listener and client leak
  (`PairResults.RefusedAcceptLeaks`, `Socketpairs.RefusedPairLeaks`).
- *A failing socketpair leaves no socket.* A failing call gives back every number it took
  if and only if (`PairResults.FailureLeavesNothingIff`) no `lwip_socket` or `lwip_accept`
  lost a number as above, no `lwip_close` was refused or kept its number, `accept` did not
  drop a socket because the peer's address cannot be unparsed, and closing the server in
  the `except` block did not raise while there was a client. With the default filter and
  closes that succeed, only the drop remains (`PairResults.WhenClosesSucceed`).
  `PairResults.ClientIsLeft` and `PairResults.PeerIsDropped` are runs that leave a socket.
  What is left keeps its live finalizer (`Socketpairs.SocketpairConserves`), and once it is
  collected the balance is restored (`PairResults.CollectionGivesBackIff`).
- *unregister removes the object it is given.* For an object that is not registered and
  reports the number of a key left behind by a closed socket, the key removed is the other
  object's (`Selector.LwipPollSelector.Unregister` says exactly when;
  `Selector.StrangersKeyIsRemoved` does it).
- *The cached array does not show.* It shows exactly when a call succeeds, leaves alone an
  entry that still holds a nonzero value, and reports as many ready entries as there are
  with or without the old values (`Poll.StaleValuesShowIff`, and `Poll.StaleValueShows` for
  a case); the refinement assumes that a successful `lwip_poll` stores every `revents`.
- *sendall ends.* It ends exactly if some send raises or the stack offers to take enough
  bytes in all (`SendAll.EndsIff`); a stack that keeps succeeding without taking anything
  keeps it running (`SendAll.NothingTakenForEver`). `SendAll.Connection.SendAll` is
  stated for all schedules over which it ends.

## Model

| member | source | states |
|---|---|---|
| Lifecycle.StepKeepsInv | src/lwip/socket.py:171-183 | every step of any thread keeps, for each allocation: the object's number, finalizer and position in `close()` fit together, and the number of closes is decided by them |
| Lifecycle.RunKeepsInv | src/lwip/socket.py:493-504 | the same over every run |
| Lifecycle.AtMostOneCloseIff | src/lwip/socket.py:493-504 | over every run of create, construct, lose, close in three micro-steps, collect and exit: each allocation gets at most one `lwip_close` if and only if the schedule has no socket both given to `lwip_close` by its `close()` and finalized at exit |
| Lifecycle.NoExitMeansApart | src/lwip/socket.py:183-183 | that is so in every run without exit handlers |
| Lifecycle.StepDoublesIffOverlap | src/lwip/socket.py:183-183 | the single step that makes a second close, both directions |
| Lifecycle.EveryCloseHitsItsOwn | src/lwip/socket.py:499-504 | in the runs in which no socket meets both, every close hits the allocation it was meant for, with numbers reissued before `_s` is cleared |
| Lifecycle.EveryCloseHitsItsOwnIff | src/lwip/socket.py:183-183 | over every run: each close finds the allocation it was meant for if and only if `close()` and exit handler never meet on a socket whose number lwIP has already taken away |
| Lifecycle.NoStrangerIff | src/lwip/socket.py:183-183 | over every run: no close meant for one allocation reaches another if and only if `close()` and exit handler never meet on a socket whose number another has by then; whoever is reached was allocated later |
| Lifecycle.StepKeepsOwned | src/lwip/socket.py:182-183 | each step keeps: a number in flight or under a live, not overtaken finalizer is in use for exactly that allocation |
| Lifecycle.FinalizerFitsNumber | src/lwip/socket.py:182-183 | in every reachable state, whatever meets: a socket outside `close()` with `_s >= 0` whose finalizer no exit handler has run has a live finalizer for exactly that number and was never given to `lwip_close`; a closed one has `_s = -1` and no live finalizer |
| Lifecycle.OpenSocketsAreOwners | src/lwip/socket.py:182-183 | and in every state reached without a close having hit a stranger, the number is in use for that socket, which is its only owner |
| Lifecycle.SharedNumberMeansClosing | src/lwip/socket.py:499-504 | in such states two sockets report the same number only while one is inside `close()`, or after an exit handler ran |
| Lifecycle.DrainedMeansOneAttemptEach | src/lwip/socket.py:499-504 | over every run, once everything is closed, collected or handled at exit: each allocation has had no close if its number was lost or its `close()` refused, two if `close()` and exit handler met on it, exactly one otherwise |
| Lifecycle.DrainedMeansExactlyOne | src/lwip/socket.py:499-504 | exactly one for all of them when no number is lost and no `close()` is refused |
| Lifecycle.EveryOpenNumberIsAccountedFor | src/lwip/socket.py:493-504 | every number in use is owned, or had its one close and was kept by lwIP, or was lost before there was a socket, or its `close()` was refused |
| Lifecycle.ExitDuringCloseHitsAStranger | src/lwip/socket.py:501-504 | a run in which the exit handler closes another socket's allocation |
| Lifecycle.RefusedCloseLeaks | src/lwip/socket.py:500-504 | a refused `close()` on any open socket leaves the number in use with no finalizer |
| Lifecycle.AbandonedForever | src/lwip/socket.py:500-504 | no continuation of the run in which exit handlers keep apart from `close()` ever closes a number lost or refused in this way |
| Lifecycle.LostIsAbandoned | src/lwip/lwip_error.py:58-61 | a number in flight comes to this when the wrapper raises after the call |
| Lifecycle.DroppedByAcceptIsClosed | src/lwip/socket.py:225-241 | a socket dropped by `accept` is closed exactly once when collected, and nothing else changes |
| LwipError.Ffi.Enter | src/lwip/lwip_error.py:52-54 | errno is cleared before the call, or the call is refused |
| LwipError.Ffi.Leave | src/lwip/lwip_error.py:56-64 | the outcome decided by result and errno; errno is zero afterwards |
| LwipError.Ffi.CheckRetErrno | src/lwip/lwip_error.py:32-64 | the whole wrapper, as a function of the errno it finds and of what the call does |
| LwipError.OutcomeMeaning | src/lwip/lwip_error.py:58-64 | a value is returned if and only if it is nonnegative; OSError with exactly the errno set; LwipError exactly for a negative result without errno |
| LwipError.WrapperMeaning | src/lwip/lwip_error.py:52-64 | one wrapped call under either filter, case by case: what it returns or raises, whether it is made, errno afterwards |
| LwipError.StaleErrnoMattersIff | src/lwip/lwip_error.py:52-55 | leftover errno matters exactly when the filter is strict and it is not zero, and then the call is not made |
| LwipError.HistoryIsInvisible | src/lwip/lwip_error.py:52-64 | over any sequence of wrapped and bare calls: the outcome is that of a fresh process, results are nonnegative, errno is zero after each call that returns |
| LwipError.StrictHistoryIff | src/lwip/socket.py:253-259 | with a strict filter, exactly which histories leave errno nonzero |
| LwipError.RefusedIff | src/lwip/lwip_error.py:52-55 | and so exactly which wrapped calls are refused |
| Sockets.Socket.constructor | src/lwip/socket.py:171-183 | the new object holds the number and a finalizer armed with it |
| Sockets.Socket.Close | src/lwip/socket.py:493-504 | closing twice does nothing; otherwise exactly one call of `lwip_close` for the number, unless the wrapper refuses it; it raises exactly when the wrapper does, and the object ends closed and detached however the call ends |
| Sockets.Socket.Finalize | src/lwip/socket.py:183-183 | a live finalizer makes one bare close for the number it was armed with, a dead one none |
| Sockets.Socket.Accept | src/lwip/socket.py:225-241 | raises exactly when the wrapper does or the address in lwIP's buffer cannot be unparsed, and drops a new socket with its finalizer live exactly in the second case; otherwise returns a new socket that owns the number lwIP returned, and the address the buffer decodes to |
| Sockets.OpenSocket | src/lwip/__init__.py:65-80 | raises exactly when the wrapper does; otherwise a new socket that owns the number lwIP returned |
| Sockets.LosesIff | src/lwip/lwip_error.py:54-64 | a number is issued and lost exactly if the result is not negative, errno was set and warnings are errors |
| Sockets.Stack.Checked | src/lwip/lwip_error.py:52-64 | one call through the wrapper: refused, or made with lwIP's next reply, and how it ends |
| Socketpairs.StreamPair | src/lwip/__init__.py:112-122 | the calls made, up to the first that raises, whichever it is; which exception comes out; the listener object, if there is one, is closed and its finalizer detached; client, server and dropped socket exist exactly if the calls that make them went through, open and with their finalizers |
| Socketpairs.DatagramPair | src/lwip/__init__.py:123-129 | the same for the datagram branch |
| Socketpairs.Confirm | src/lwip/__init__.py:133-137 | asks for the two names of each side in order and then sets both modes, up to the first fault; goes through exactly if all six calls went well and the names are equal in pairs; ConnectionError exactly if all calls up to a comparison went well and its two names differ |
| Socketpairs.Cleanup | src/lwip/__init__.py:140-145 | closes the server, then the client unless the first close raised, in which case the client is as it was; which exception comes out |
| Socketpairs.Socketpair | src/lwip/__init__.py:88-145 | every call is one of the described runs, made of lwIP's own replies; the run decides whether it returns and what it raises; success means that the trace ends with lwIP naming each socket as the other's peer and with both given the mode asked for; every socket object made on the way is in the state that the ledger of the run says |
| Socketpairs.SocketpairConserves | src/lwip/__init__.py:110-145 | success: the numbers in use are those of before plus exactly two; failure: those of before, if and only if no reply spoilt the balance and the client was not left; whatever is left open has its finalizer and its number, every other socket made, the listener always, has `_s = -1` and no live finalizer; nothing that existed before is touched |
| Socketpairs.RefusedPairLeaks | src/lwip/__init__.py:119-145 | with a strict filter and a refused `accept`: listener and client end closed for Python, without finalizers, and lwIP keeps both numbers |
| PairRuns.RunIsDetermined | src/lwip/__init__.py:88-145 | lwIP's replies leave no choice: two runs made of the same replies are the same |
| PairMeaning.TryBlockMeaning | src/lwip/__init__.py:110-131 | the calls of both branches, number by number: loopback and port 0 for bind, the client not blocking before it connects to the name lwIP gave; no call after one that raised |
| PairMeaning.CheckMeaning | src/lwip/__init__.py:133-137 | the calls of the check, and that it stops exactly at a call that raises or a comparison that fails |
| PairMeaning.ClosingMeaning | src/lwip/__init__.py:121-122 | the listener, and nothing else, is closed after the inner block |
| PairMeaning.CleanupMeaning | src/lwip/__init__.py:140-145 | which sockets are closed after a failure, in which order |
| PairMeaning.SuccessMeaning | src/lwip/__init__.py:104-139 | success if and only if family and type are known, all calls were made and went well, and the names are equal in pairs |
| PairMeaning.FailureMeaning | src/lwip/__init__.py:108-145 | which exception a failing call raises, ConnectionError in both directions |
| PairMeaning.WhyMeaning | src/lwip/lwip_error.py:52-64 | what a single call that does not go well raises |
| PairMeaning.DropMeaning | src/lwip/socket.py:241-241 | when `accept` drops a socket |
| PairMeaning.HowMeaning | src/lwip/socket.py:500-501 | when a close frees its number, keeps it or is left out |
| Ledgers.LedgerAgrees | src/lwip/socket.py:171-183 | for every sequence of calls in which each socket made in the course of it comes to its end, by `close()` or by its finalizer, at most once: the ledger read off calls and replies says exactly which numbers lwIP holds, for whom, and how often each was closed |
| Simulation.TraceIsARun | src/lwip/socket.py:171-183 | every such sequence is a run of the lifecycle machine, which ends where lwIP and the ledger do |
| Ledgers.HeldInTheEnd | src/lwip/socket.py:493-504 | the numbers in use are those of before and those the ledger says are held |
| PairBooks.WhoIsLeft | src/lwip/__init__.py:110-145 | for every run and every record of its ledger: when it ends open, lost, or closed with its number kept by lwIP |
| PairResults.EveryRunAgrees | src/lwip/__init__.py:110-145 | after every run lwIP holds what the ledger says, and every close hit its own allocation |
| PairResults.FailureLeavesNothingIff | src/lwip/__init__.py:140-145 | a failing call leaves nothing if and only if no reply lost a number, dropped a socket or failed to release one, and the client was not left |
| PairResults.WhenClosesSucceed | src/lwip/__init__.py:140-145 | with the default filter and closes that succeed: nothing is left if and only if `accept` dropped nothing |
| PairResults.CollectionGivesBackIff | src/lwip/socket.py:183-183 | once whatever a run left open is collected, lwIP holds what it held before if and only if no number was lost and every close released its number |
| PairResults.SuccessLeavesTwo | src/lwip/__init__.py:139-139 | lwIP holds exactly two numbers more, new and distinct |
| PairResults.ListenerIsClosed | src/lwip/__init__.py:121-122 | the listener is closed in every run that made one, and how its record ends |
| PairResults.AcceptIsRefusedIff | src/lwip/__init__.py:119-120 | with a strict filter, `accept` is refused exactly if `connect_ex` left a nonzero errno |
| PairResults.RefusedAcceptLeaks | src/lwip/__init__.py:119-145 | then the call fails, and listener and client stay in use, neither ever given to `lwip_close` |
| PairResults.ClientIsLeft | src/lwip/__init__.py:141-144 | a run that leaves the client open |
| PairResults.PeerIsDropped | src/lwip/socket.py:225-241 | a run that leaves the accepted socket open |
| PairResults.PeerIsDroppedHere | src/lwip/socket.py:125-142 | the same for the addresses `unparse_address` knows, on either byte order |
| Poll.LwipPoll.Register | src/lwip/poll.py:42-48 | same registrations and outcome as the object without a cache |
| Poll.LwipPoll.Modify | src/lwip/poll.py:50-55 | the same, with the error for a number that is not registered |
| Poll.LwipPoll.Unregister | src/lwip/poll.py:57-60 | the same |
| Poll.ObjectIsItsNumber | src/lwip/poll.py:33-40 | a socket of this instance stands for the number it reports, in all three operations |
| Poll.OthersAreRefused | src/lwip/poll.py:33-40 | a socket of another instance and a negative number raise ValueError, and nothing changes |
| Poll.RegisterMeaning | src/lwip/poll.py:42-48 | the number is registered with exactly this mask, all others as before, a new one last |
| Poll.ModifyMeaning | src/lwip/poll.py:50-55 | the same for a registered number; ENOENT otherwise |
| Poll.UnregisterMeaning | src/lwip/poll.py:57-60 | the number is gone, all others as before and in their order; KeyError if it was not registered |
| Poll.QueryMeaning | src/lwip/poll.py:76-93 | poll reports each registered number with the nonzero value lwIP stored for it, as many as lwIP's result says; the two ways to raise |
| Poll.LwipPoll.PopulateFds | src/lwip/poll.py:62-74 | the array asks for exactly the registrations, in order, rebuilt or not |
| Poll.LwipPoll.Poll | src/lwip/poll.py:76-93 | gives what an array built for this call would give, whatever old values the cached one holds |
| Poll.Perform | src/lwip/poll.py:42-93 | for every sequence of register, modify, unregister and poll, including polls that raise: same outputs and registrations as without a cache |
| Poll.StaleValuesShowIff | src/lwip/poll.py:62-93 | exactly when the outcome of poll() differs from that of a fresh array, for every result and reply |
| Poll.StaleValueShows | src/lwip/poll.py:62-93 | a successful poll that reports an old value |
| Poll.ReadyReports | src/lwip/poll.py:87-91 | each ready number is registered and reported once, exactly those with a nonzero value |
| Poll.ReadyInOrder | src/lwip/poll.py:87-91 | in the order of registration |
| Poll.ReadyIsInjective | src/lwip/poll.py:87-91 | different values give different reports |
| Selector.LwipPollSelector.FileobjLookup | src/lwip/selector.py:49-66 | for every registered object, open or closed since, the number of the key that holds this very object |
| Selector.LwipPollSelector.Register | src/lwip/selector.py:28-47 | accepted exactly for a valid interest and a number not yet indexed; key and poll entry appear together |
| Selector.LwipPollSelector.Unregister | src/lwip/selector.py:50-57 | a registered object, closed or not, leaves both maps; when the key removed is another object's |
| Selector.LwipPollSelector.Modify | src/lwip/selector.py:28-47 | key and event mask change together, nothing else does |
| Selector.LwipPollSelector.Select | src/lwip/selector.py:28-47 | every number the poll object reports has a key, so no event is dropped |
| Selector.MaskMeaning | src/lwip/selector.py:32-33 | read interest is POLLIN (1), write interest POLLOUT (2), both are 3 |
| Selector.WatchedBits | src/lwip/selector.py:28-47 | in every state the poll object watches each number for exactly the bits its key asks for |
| Selector.InterestsMeaning | src/lwip/selector.py:32-33 | an event of one bit reaches exactly those who asked for it, any other event everybody with what they asked for |
| Selector.FileobjMeaning | src/lwip/selector.py:12-25 | which number an int or a socket stands for, and ValueError for all others |
| Selector.ErrorMeaning | src/lwip/selector.py:49-66 | which of ValueError and KeyError each operation raises |
| Selector.Perform | src/lwip/selector.py:28-66 | for every sequence of operations, with sockets closed and numbers given to others in between: the outputs are those of the key map and the set of closed sockets alone, and both maps stay in step |
| Selector.StaysUntilRemoved | src/lwip/selector.py:58-66 | over every run a registered object keeps its number, open or closed, until something is unregistered under that number |
| Selector.StrangersKeyIsRemoved | src/lwip/selector.py:58-66 | lwIP issues a number twice, and unregistering its second, unregistered socket removes the key of the first, closed one |
| Selector.AtMostOneKey | src/lwip/selector.py:61-64 | an object has at most one key |
| Selector.RegisteredUnder | src/lwip/selector.py:12-25 | a registered object that is open reports the number it is indexed under |
| Digits.PrintThenParse | src/lwip/inet.py:13-14 | printing a number and parsing it gives it back, in base ten and sixteen |
| Digits.ParseThenPrint | src/lwip/inet.py:13-14 | parsing and printing gives the numeral back if and only if it is canonical |
| Digits.AppendHexByte | src/lwip/inet.py:14-14 | two hexadecimal digits append exactly one byte |
| Digits.ParseMeaning | src/lwip/inet.py:13-13 | exactly the nonempty strings of decimal digits are parsed, to the sum of the digits times their powers of ten |
| Digits.LeadingZero | src/lwip/inet.py:13-13 | a zero in front does not change what is parsed |
| Digits.PrintMeaning | src/lwip/inet.py:28-28 | printing gives digits that stand for the number, without zeros in front |
| Inet.NumberRoundTrip | src/lwip/inet.py:6-28 | `str2ip(ip2str(n))` is n modulo 2^32 for every integer, through the characters |
| Inet.NumberRoundTrip32 | src/lwip/inet.py:6-28 | and n itself for every 32-bit n |
| Inet.SameTextIff | src/lwip/inet.py:24-28 | `ip2str` depends on its argument only modulo 2^32, and on all of that |
| Inet.TextRoundTrip | src/lwip/inet.py:6-28 | every dotted quad with octets in 0..255 comes back as the canonical spelling, as itself if and only if it is canonical |
| Inet.Str2IpMeaning | src/lwip/inet.py:13-14 | four decimals below 256 joined by dots, leading zeros or not, are the number with the first of them in the least significant byte |
| Inet.Str2IpAccepts | src/lwip/inet.py:13-13 | nothing but four decimals joined by dots is accepted |
| Inet.Ip2StrMeaning | src/lwip/inet.py:24-28 | the least significant byte is printed first |
| Inet.Pton4Meaning | src/lwip/inet.py:38-40 | the four bytes stand in the order of the text, and exactly the texts without leading zeros are accepted |
| Inet.HexIsNumber | src/lwip/inet.py:14-14 | the detour through the hexadecimal string gives the little-endian number |
| Inet.JoinSplit | src/lwip/inet.py:13-13 | joining on dots undoes splitting |
| Inet.Ip4Addr | src/lwip/inet.py:31-40 | the struct holds the four bytes of the address |
| Inet.StructHoldsTheNumber | src/lwip/inet.py:38-40 | read on a little-endian host they are the number `str2ip` gives |
| SockAddrs.SockAddr.ParseAddress | src/lwip/socket.py:73-123 | the field assignments produce the 28 bytes of the format, or the error |
| SockAddrs.SockAddr.UnparseAddress | src/lwip/socket.py:125-142 | reads them back through the layout of the family |
| SockAddrs.SockAddr.StoreIn | src/lwip/socket.py:100-105 | sockaddr_in: port in network order, host, the rest zero |
| SockAddrs.SockAddr.StoreIn6 | src/lwip/socket.py:114-121 | sockaddr_in6: every byte of the buffer |
| SockAddrs.SockAddr.CreateEmpty | src/lwip/socket.py:54-58 | all zero but the length |
| SockAddrs.AddressRoundTrip | src/lwip/socket.py:73-142 | `unparse_address` undoes `parse_address` on every address it accepts, on either byte order; an empty host becomes the wildcard |
| SockAddrs.ReparseIsExactIff | src/lwip/socket.py:73-142 | for any buffer of a known family, unparsing and parsing gives back every byte if and only if length and padding are exact |
| SockAddrs.ParsedBuffersAreExact | src/lwip/socket.py:22-48 | what `parse_address` makes is exact; length and family through the storage view are those of the struct written |
| SockAddrs.EncodeIsInjective | src/lwip/socket.py:73-123 | two addresses share a buffer only if they are equal up to the wildcard |
| SockAddrs.Words16 | src/lwip/socket.py:103-103 | htons puts the port in network order on either host, and ntohs undoes it |
| SockAddrs.Words32Bytes | src/lwip/socket.py:118-120 | the four bytes of a word on either host |
| SockAddrs.InBytes | src/lwip/socket.py:95-106 | every byte of the buffer of an IPv4 tuple |
| SockAddrs.In6Bytes | src/lwip/socket.py:107-121 | every field of the buffer of an IPv6 tuple |
| SockAddrs.EncodeErrors | src/lwip/socket.py:82-123 | when parse_address raises, and what |
| SockAddrs.DecodeFields | src/lwip/socket.py:125-142 | what unparse_address reads from any buffer |
| Pbufs.Collect | src/lwip/netif/__init__.py:171-182 | the loop gathers the fragments of the walk, on any chain, cyclic ones included |
| Pbufs.PbufToBytes | src/lwip/netif/__init__.py:171-182 | the same with the limit, joined |
| Pbufs.PacketToBytes | src/lwip/netif/__init__.py:171-182 | a packet of at most 1000 fragments comes out whole and at its advertised length, whatever is queued behind; a longer one as its first 1000, at its advertised length exactly if all others are empty |
| Pbufs.PacketBytes | src/lwip/netif/__init__.py:171-182 | the same at any limit, always a prefix |
| Pbufs.TruncatedIff | src/lwip/netif/__init__.py:8-8 | a longer packet has its advertised length exactly when all later fragments are empty |
| SendAll.Connection.Send | src/lwip/socket.py:406-414 | the number of bytes taken from the front, or exactly the exception the wrapper raises |
| SendAll.Connection.SendAll | src/lwip/socket.py:416-420 | over every schedule over which it ends: outcome and bytes accepted are those of the turns of the loop |
| SendAll.EndsIff | src/lwip/socket.py:418-420 | the loop ends if and only if some send raises or the stack offers to take enough bytes |
| SendAll.OutcomeIff | src/lwip/socket.py:416-420 | no exception if and only if sends that do not raise suffice, and then all of the payload was taken; otherwise it stops at the first send that raises, with exactly that exception and exactly what the sends up to it took |
| SendAll.PartialSendsEnd | src/lwip/socket.py:418-420 | it ends whenever every send takes at least one byte |
| SendAll.NothingTakenForEver | src/lwip/socket.py:418-420 | a stack that takes nothing keeps it running |
| CompatTranslate.TranslationMeaning | src/lwip/compat_translate.py:73-87 | for arbitrary modules: which pairs are accepted, both directions, and that the last name in `dir` order wins |
| CompatTranslate.UnknownLevel | src/lwip/compat_translate.py:79-82 | a level no row has is refused |
| CompatTranslate.LastNameWins | src/lwip/compat_translate.py:19-24 | equal socket values resolve to the last name |
| CompatTranslate.LastRowWins | src/lwip/compat_translate.py:27-42 | equal level values resolve to the last row |
| CompatTranslate.OwnValueIff | src/lwip/compat_translate.py:40-40 | a shared option maps to its own lwIP value if and only if the last name with its socket value has the same one |
| CompatTranslate.DistinctValuesTranslate | src/lwip/compat_translate.py:45-70 | with distinct socket values every shared option maps to its own lwIP value |
| CompatTranslate.SixLevels | src/lwip/compat_translate.py:45-70 | the same for the six rows of the table as it is |
| CompatTranslate.RealTable | src/lwip/compat_translate.py:45-87 | the table as it is, by name: at the socket value of SOL_SOCKET, IPPROTO_IP, IPPROTO_TCP, IPPROTO_IPV6, IPPROTO_UDPLITE, when no other of the six shares it, exactly the shared names beginning with SO_, IP_, TCP_, IPV6_, UDPLITE_ are answered, at IPPROTO_RAW exactly IPV6_CHECKSUM, with the level's lwIP value; any other option is refused |
| CompatTranslate.RealTableRefuses | src/lwip/compat_translate.py:79-82 | a value of none of the six levels is refused |
| CompatTranslate.RowsOverlapIff | src/lwip/compat_translate.py:45-70 | only IPV6_CHECKSUM belongs to two of the six levels |

## Left out

- lwIP itself: the library is not part of this repository; it is a schedule of arbitrary
  replies, of which `Sockets.Stack.Call`, `Poll.LwipPollCall` and
  `SendAll.Connection.LwipSend` say how they take effect.
- SendAll.Connection.SendAll: schedules over which the loop never ends are excluded, because a
  method must end; `SendAll.EndsIff` says which these are.
- Struct layouts: the lwIP headers are generated at build time and are not part of this
  repository; offsets and sizes follow the socket structures with a length byte of sections
  3.4 and 3.10 of RFC 3493, with a storage of 28 bytes.
- Other threads inside one call of `socketpair` or of `Socket.Close`: the interleavings are
  those of `Lifecycle`, whose micro-steps `Sockets.Socket.Close` performs in sequence.
- `weakref.finalize` after its exit loop: from then on a collected object's finalizer makes no
  call; the machine lets it make one at any time.
- Ledgers.LedgerAgrees: closes of sockets made before the sequence begins are not part of it.
- errno is kept per thread by cffi; sequences of calls are those of one thread.
- `close()` called by two threads at once on one object: excluded by its documentation.
- Inet.Str2Ip: signs, spaces and underscores that Python's `int` accepts are refused, and
  octets above 255 have no stated result.
- IPv6 text: `inet_pton` and `inet_ntop` are library functions, IPv6 hosts are 16 bytes.
- Poll.LwipPoll.Poll: event masks and numbers outside their C types, which make building
  the array raise, and the timeout are not modelled.
- The standard library's selector: its key map and its forwarding to the poll object are
  modelled as documented; timeouts and interrupted calls are not.
- Forwarding methods of `Socket` and `Netif`, `tcpip_init`, library loading, callbacks and
  the routing hook: one foreign call each.
- `check_ret`, the constants of `defs` and the import-time asserts: finite data and one
  comparison.
