// A Python dict with integer keys: a map that remembers insertion order.
// Assigning to a key it has keeps the key's place; a new key goes to the end.
module Dict {

  type Dict<V> = seq<(int, V)>

  // No key occurs twice.
  predicate IsDict<V>(d: Dict<V>) {
    forall i, j :: 0 <= i < j < |d| ==> d[i].0 != d[j].0
  }

  // The place of a key, or the length if it is absent.
  function Index<V>(d: Dict<V>, k: int): (i: nat)
    ensures i <= |d|
    ensures i < |d| ==> d[i].0 == k
    ensures forall j :: 0 <= j < i ==> d[j].0 != k
  {
    if d == [] || d[0].0 == k then 0 else 1 + Index(d[1..], k)
  }

  predicate Has<V>(d: Dict<V>, k: int) {
    Index(d, k) < |d|
  }

  function Get<V>(d: Dict<V>, k: int): V
    requires Has(d, k)
  {
    d[Index(d, k)].1
  }

  function Put<V>(d: Dict<V>, k: int, v: V): Dict<V> {
    if Has(d, k) then d[Index(d, k) := (k, v)] else d + [(k, v)]
  }

  function Del<V>(d: Dict<V>, k: int): Dict<V>
    requires Has(d, k)
  {
    d[..Index(d, k)] + d[Index(d, k) + 1..]
  }

  function KeysOf<V>(d: Dict<V>): (r: seq<int>)
    ensures |r| == |d|
    ensures forall i :: 0 <= i < |d| ==> r[i] == d[i].0
  {
    seq(|d|, i requires 0 <= i < |d| => d[i].0)
  }

  // In a dict, every entry is found under its key.
  lemma EntryIsFound<V>(d: Dict<V>, i: nat)
    requires IsDict(d) && i < |d|
    ensures Has(d, d[i].0) && Index(d, d[i].0) == i && Get(d, d[i].0) == d[i].1
  {}

  lemma PutKeys<V>(d: Dict<V>, k: int, v: V)
    requires IsDict(d)
    ensures IsDict(Put(d, k, v))
    ensures KeysOf(Put(d, k, v)) == if Has(d, k) then KeysOf(d) else KeysOf(d) + [k]
    ensures Has(Put(d, k, v), k) && Get(Put(d, k, v), k) == v
    ensures forall o :: o != k ==>
              (Has(Put(d, k, v), o) <==> Has(d, o)) && (Has(d, o) ==> Get(Put(d, k, v), o) == Get(d, o))
  {
    var p := Put(d, k, v);
    var at := if Has(d, k) then Index(d, k) else |d|;
    EntryIsFound(p, at);
    forall o | o != k ensures (Has(p, o) <==> Has(d, o)) && (Has(d, o) ==> Get(p, o) == Get(d, o)) {
      if Has(d, o) { EntryIsFound(p, Index(d, o)); }
      if Has(p, o) { assert d[Index(p, o)].0 == o; }
    }
  }

  lemma DelEntries<V>(d: Dict<V>, k: int)
    requires Has(d, k)
    ensures forall j :: 0 <= j < |Del(d, k)| ==> Del(d, k)[j] == if j < Index(d, k) then d[j] else d[j+1]
  {}

  lemma DelOther<V>(d: Dict<V>, k: int, o: int)
    requires IsDict(d) && Has(d, k) && IsDict(Del(d, k)) && o != k
    ensures Has(Del(d, k), o) <==> Has(d, o)
    ensures Has(d, o) ==> Get(Del(d, k), o) == Get(d, o)
  {
    var p, at := Del(d, k), Index(d, k);
    DelEntries(d, k);
    if Has(d, o) {
      var i := Index(d, o);
      EntryIsFound(p, if i < at then i else i - 1);
    } else if Has(p, o) {
      var j := Index(p, o);
      EntryIsFound(d, if j < at then j else j + 1);
    }
  }

  lemma DelKeys<V>(d: Dict<V>, k: int)
    requires IsDict(d) && Has(d, k)
    ensures IsDict(Del(d, k)) && !Has(Del(d, k), k)
    ensures KeysOf(Del(d, k)) == KeysOf(d)[..Index(d, k)] + KeysOf(d)[Index(d, k) + 1..]
    ensures forall o :: o != k ==> (Has(Del(d, k), o) <==> Has(d, o)) && (Has(d, o) ==> Get(Del(d, k), o) == Get(d, o))
  {
    DelEntries(d, k);
    forall o | o != k ensures (Has(Del(d, k), o) <==> Has(d, o)) && (Has(d, o) ==> Get(Del(d, k), o) == Get(d, o)) {
      DelOther(d, k, o);
    }
  }
}
