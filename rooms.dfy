/** One room of the registry: a JavaScript `Map` from user id to connection.
    A `Map` iterates in insertion order; `set` on a present key keeps the
    key's place, `set` on a new key puts it last, `delete` drops it. */
module RoomMaps {
  import opened JsValues

  /** `order` is the iteration order of the keys, `conns` the mapping. */
  datatype Room = Room(order: seq<Value>, conns: map<Value, ConnId>)

  ghost predicate Distinct(s: seq<Value>)
  {
    forall i, j :: 0 <= i < j < |s| ==> s[i] != s[j]
  }

  /** The order lists every key of the mapping exactly once. */
  ghost predicate WellFormed(r: Room)
  {
    && Distinct(r.order)
    && (forall k :: k in r.order <==> k in r.conns)
  }

  /** `new Map()` */
  const Empty: Room := Room([], map[])

  /** `s` with every occurrence of `k` taken out, the rest in order. */
  function Without(s: seq<Value>, k: Value): (t: seq<Value>)
    ensures forall x :: x in t <==> x in s && x != k
    ensures Distinct(s) ==> Distinct(t)
    ensures k !in s ==> t == s
    ensures |t| <= |s|
  {
    if s == [] then []
    else if s[0] == k then Without(s[1..], k)
    else
      var rest := Without(s[1..], k);
      assert s[0] !in rest ==> Distinct(s) ==> Distinct([s[0]] + rest) by {
        if s[0] !in rest && Distinct(s) {
          forall i, j | 0 <= i < j < |[s[0]] + rest|
            ensures ([s[0]] + rest)[i] != ([s[0]] + rest)[j]
          {
            if i > 0 {
              assert ([s[0]] + rest)[i] == rest[i - 1];
            }
          }
        }
      }
      assert Distinct(s) ==> s[0] !in s[1..];
      [s[0]] + rest
  }

  /** `room.set(k, c)` */
  function Put(r: Room, k: Value, c: ConnId): (r': Room)
    requires WellFormed(r)
    ensures WellFormed(r')
    ensures r'.conns == r.conns[k := c]
    ensures k in r.conns ==> r'.order == r.order
    ensures k !in r.conns ==> r'.order == r.order + [k]
  {
    if k in r.conns then Room(r.order, r.conns[k := c])
    else
      assert Distinct(r.order + [k]) by {
        forall i, j | 0 <= i < j < |r.order + [k]|
          ensures (r.order + [k])[i] != (r.order + [k])[j]
        {
          if j == |r.order| {
            assert (r.order + [k])[i] == r.order[i];
          }
        }
      }
      Room(r.order + [k], r.conns[k := c])
  }

  /** `room.delete(k)` */
  function Delete(r: Room, k: Value): (r': Room)
    requires WellFormed(r)
    ensures WellFormed(r')
    ensures r'.conns == r.conns - {k}
    ensures k !in r.conns ==> r' == r
  {
    Room(Without(r.order, k), r.conns - {k})
  }

  /** `room.delete(k)` cuts exactly the position of `k` out of the
      iteration order: the keys before it and the keys after it keep their
      order. */
  lemma {:induction false} DeleteKeepsOrder(r: Room, k: Value, p: nat)
    requires WellFormed(r)
    requires p < |r.order| && r.order[p] == k
    ensures Delete(r, k).order == r.order[..p] + r.order[p + 1..]
  {
    WithoutAt(r.order, k, p);
  }

  lemma {:induction false} WithoutAt(s: seq<Value>, k: Value, p: nat)
    requires Distinct(s)
    requires p < |s| && s[p] == k
    ensures Without(s, k) == s[..p] + s[p + 1..]
  {
    if p == 0 {
      assert k !in s[1..];
      assert s[..0] + s[1..] == s[1..];
    } else {
      var t := s[1..];
      assert Distinct(t);
      WithoutAt(t, k, p - 1);
      assert s[0] != k;
      calc {
        Without(s, k);
        [s[0]] + Without(t, k);
        [s[0]] + (t[..p - 1] + t[p..]);
        ([s[0]] + t[..p - 1]) + t[p..];
        { assert [s[0]] + t[..p - 1] == s[..p]; assert t[p..] == s[p + 1..]; }
        s[..p] + s[p + 1..];
      }
    }
  }

  /** `room.size`: the number of keys. */
  function Size(r: Room): (n: nat)
    requires WellFormed(r)
    ensures n == |r.conns|
    ensures n == 0 <==> r.conns == map[]
  {
    DistinctCard(r.order);
    assert (set x | x in r.order) == r.conns.Keys;
    |r.order|
  }

  /** A sequence without repetitions has as many elements as its set. */
  lemma {:induction false} DistinctCard(s: seq<Value>)
    requires Distinct(s)
    ensures |(set x | x in s)| == |s|
  {
    if s != [] {
      var init := s[..|s| - 1];
      var last := s[|s| - 1];
      assert s == init + [last];
      assert Distinct(init);
      DistinctCard(init);
      assert last !in init;
      assert (set x | x in s) == (set x | x in init) + {last};
    }
  }
}
