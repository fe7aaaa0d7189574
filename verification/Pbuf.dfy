// src/lwip/netif/__init__.py, _pbuf_to_bytes: a chain of buffer fragments flattened
// into one byte string, at most MAX_PBUF_FRAGMENTS of them.
module Pbufs {
  import opened Basics

  const MAX_PBUF_FRAGMENTS: nat := 1000

  // struct pbuf, as one call sees it. `data` is the `len` bytes at `payload`. Nothing
  // says that a chain ends.
  class Pbuf {
    const data: seq<byte>
    const totLen: nat
    const next: Pbuf?

    constructor (data: seq<byte>, totLen: nat, next: Pbuf?)
      ensures this.data == data && this.totLen == totLen && this.next == next
    {
      this.data, this.totLen, this.next := data, totLen, next;
    }

    function Len(): nat { |data| }
  }

  // b''.join
  function Join(parts: seq<seq<byte>>): seq<byte> {
    if parts == [] then [] else parts[0] + Join(parts[1..])
  }

  lemma {:induction false} JoinConcat(a: seq<seq<byte>>, b: seq<seq<byte>>)
    ensures Join(a + b) == Join(a) + Join(b)
  {
    if a == [] {
      assert a + b == b;
    } else {
      assert (a + b)[1..] == a[1..] + b;
      JoinConcat(a[1..], b);
    }
  }

  lemma JoinOne(part: seq<byte>)
    ensures Join([part]) == part
  {
    assert [part][1..] == [];
  }

  lemma JoinSplit(parts: seq<seq<byte>>, n: nat)
    requires n <= |parts|
    ensures Join(parts) == Join(parts[..n]) + Join(parts[n..])
  {
    JoinConcat(parts[..n], parts[n..]);
    assert parts == parts[..n] + parts[n..];
  }

  lemma {:induction false} JoinEmptyIff(parts: seq<seq<byte>>)
    ensures Join(parts) == [] <==> forall i :: 0 <= i < |parts| ==> parts[i] == []
  {
    if parts != [] {
      JoinEmptyIff(parts[1..]);
      if forall i :: 0 <= i < |parts[1..]| ==> parts[1..][i] == [] {
        forall i | 1 <= i < |parts| ensures parts[i] == [] {
          assert parts[i] == parts[1..][i-1];
        }
      }
    }
  }

  // The fragments the chain goes through, the first n of them at most, up to the one
  // whose own length is all that is left of the packet, or to the end of the chain.
  ghost function Walk(p: Pbuf?, n: nat): (parts: seq<seq<byte>>)
    ensures |parts| <= n
    decreases n
  {
    if p == null || n == 0 then []
    else if p.Len() == p.totLen then [p.data]
    else [p.data] + Walk(p.next, n - 1)
  }

  // The loop, for any limit on the number of fragments. It ends on every chain,
  // cyclic ones included.
  method Collect(pbuf: Pbuf, limit: nat) returns (payload: seq<seq<byte>>)
    requires limit > 0
    ensures payload == Walk(pbuf, limit)
  {
    payload := [];
    var p: Pbuf := pbuf;
    for i := 0 to limit
      invariant Walk(pbuf, limit) == payload + Walk(p, limit - i)
    {
      payload := payload + [p.data];
      if p.Len() == p.totLen {
        return;
      }
      assert Walk(pbuf, limit) == payload + Walk(p.next, limit - i - 1);
      if p.next == null {
        return;
      }
      p := p.next;
    }
  }

  method PbufToBytes(pbuf: Pbuf) returns (bytes: seq<byte>)
    ensures bytes == Join(Walk(pbuf, MAX_PBUF_FRAGMENTS))
  {
    var payload := Collect(pbuf, MAX_PBUF_FRAGMENTS);
    bytes := Join(payload);
  }

  // ---- packets ------------------------------------------------------------

  // A packet: fragments linked by `next`, where each `totLen` is the fragment's own
  // length plus the next one's `totLen`, and the last is its own length. What hangs
  // behind the last fragment is another packet or nothing.
  ghost predicate IsPacket(packet: seq<Pbuf>) {
    && packet != []
    && (forall i :: 0 <= i < |packet| - 1 ==>
          packet[i].next == packet[i+1] && packet[i].totLen == packet[i].Len() + packet[i+1].totLen)
    && packet[|packet|-1].totLen == packet[|packet|-1].Len()
  }

  ghost function Parts(packet: seq<Pbuf>): (parts: seq<seq<byte>>)
    ensures |parts| == |packet| && forall i :: 0 <= i < |packet| ==> parts[i] == packet[i].data
  {
    seq(|packet|, i requires 0 <= i < |packet| => packet[i].data)
  }

  lemma {:induction false} PacketLength(packet: seq<Pbuf>)
    requires IsPacket(packet)
    ensures |Join(Parts(packet))| == packet[0].totLen
  {
    assert Parts(packet)[1..] == Parts(packet[1..]);
    if |packet| == 1 {
      assert Parts(packet[1..]) == [];
    } else {
      PacketLength(packet[1..]);
    }
  }

  // The bytes of the walk are those of the first n fragments: where the walk stops
  // early, the rest of the packet is empty.
  lemma {:induction false} WalkIsPrefix(packet: seq<Pbuf>, n: nat)
    requires IsPacket(packet)
    ensures Join(Walk(packet[0], n)) == Join(Parts(packet)[..Min(n, |packet|)])
    decreases n
  {
    var p, m, parts := packet[0], Min(n, |packet|), Parts(packet);
    assert parts[1..] == Parts(packet[1..]);
    if n == 0 {
    } else if p.Len() == p.totLen {
      PacketLength(packet);
      RestIsEmpty(parts, m);
      JoinOne(p.data);
    } else {
      WalkIsPrefix(packet[1..], n - 1);
      OneFurther(p.data, Walk(p.next, n - 1), parts, m);
    }
  }

  lemma OneFurther(head: seq<byte>, walk: seq<seq<byte>>, parts: seq<seq<byte>>, m: nat)
    requires 0 < m <= |parts| && parts[0] == head && Join(walk) == Join(parts[1..][..m-1])
    ensures Join([head] + walk) == Join(parts[..m])
  {
    HeadFirst(head, walk);
    HeadFirst(head, parts[1..][..m-1]);
    assert parts[..m] == [head] + parts[1..][..m-1];
  }

  lemma HeadFirst(head: seq<byte>, rest: seq<seq<byte>>)
    ensures Join([head] + rest) == head + Join(rest)
  {
    JoinConcat([head], rest);
    JoinOne(head);
  }

  lemma RestIsEmpty(parts: seq<seq<byte>>, m: nat)
    requires 0 < m <= |parts| && |Join(parts)| == |parts[0]|
    ensures Join(parts[..m]) == parts[0]
  {
    JoinSplit(parts, m);
    HeadFirst(parts[0], parts[..m][1..]);
    assert parts[..m] == [parts[0]] + parts[..m][1..];
  }

  // The result for a packet, whatever is queued behind it, at any limit: all of it in
  // order, of the advertised length, if it has no more fragments than that; otherwise
  // exactly its first n fragments. Either way a prefix of the packet.
  lemma PacketBytes(packet: seq<Pbuf>, n: nat)
    requires IsPacket(packet)
    ensures |packet| <= n ==>
              Join(Walk(packet[0], n)) == Join(Parts(packet)) && |Join(Walk(packet[0], n))| == packet[0].totLen
    ensures |packet| > n ==> Join(Walk(packet[0], n)) == Join(Parts(packet)[..n])
    ensures Join(Walk(packet[0], n)) <= Join(Parts(packet))
  {
    WalkIsPrefix(packet, n);
    PacketLength(packet);
    JoinSplit(Parts(packet), Min(n, |packet|));
    if |packet| <= n { assert Parts(packet)[..|packet|] == Parts(packet); }
  }

  // A packet with more fragments than the limit comes out at its advertised length
  // exactly when every fragment beyond the limit is empty.
  lemma TruncatedIff(packet: seq<Pbuf>, n: nat)
    requires IsPacket(packet) && |packet| > n
    ensures |Join(Walk(packet[0], n))| == packet[0].totLen <==> forall i :: n <= i < |packet| ==> packet[i].Len() == 0
  {
    WalkIsPrefix(packet, n);
    PacketLength(packet);
    JoinSplit(Parts(packet), n);
    RestEmptyIff(packet, n);
  }

  lemma RestEmptyIff(packet: seq<Pbuf>, n: nat)
    requires n <= |packet|
    ensures Join(Parts(packet)[n..]) == [] <==> forall i :: n <= i < |packet| ==> packet[i].Len() == 0
  {
    var rest := Parts(packet)[n..];
    JoinEmptyIff(rest);
    if Join(rest) == [] {
      forall i | n <= i < |packet| ensures packet[i].Len() == 0 {
        assert rest[i - n] == packet[i].data;
      }
    } else {
      var j :| 0 <= j < |rest| && rest[j] != [];
      assert rest[j] == packet[n + j].data;
    }
  }

  // _pbuf_to_bytes on a packet of any size.
  method PacketToBytes(ghost packet: seq<Pbuf>, pbuf: Pbuf) returns (bytes: seq<byte>)
    requires IsPacket(packet) && packet[0] == pbuf
    ensures |packet| <= 1000 ==> bytes == Join(Parts(packet)) && |bytes| == pbuf.totLen
    ensures |packet| > 1000 ==>
              && bytes == Join(Parts(packet)[..1000])
              && (|bytes| == pbuf.totLen <==> forall i :: 1000 <= i < |packet| ==> packet[i].Len() == 0)
    ensures bytes <= Join(Parts(packet))
  {
    bytes := PbufToBytes(pbuf);
    PacketBytes(packet, MAX_PBUF_FRAGMENTS);
    if |packet| > MAX_PBUF_FRAGMENTS { TruncatedIff(packet, MAX_PBUF_FRAGMENTS); }
  }
}
