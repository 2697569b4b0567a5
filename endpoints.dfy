/** The endpoint list the discovery actor publishes to the application: every
    (peer name, address) pair under which a peer advertises the application's
    service, sorted by address. */
module Endpoints {
  import opened StringOrder
  import opened Optional

  /** A controller as the application lists it: the advertising peer's
      display name and one address at which it offers the service. */
  datatype Endpoint = Endpoint(name: string, address: string)

  /** A snapshot of one peer of the discovery overlay: its display name and,
      for each service it advertises, the addresses offering that service. */
  datatype Peer = Peer(name: string, services: map<string, set<string>>)

  /** Every pair `(peer.name, address)` for a peer offering `service` at
      `address`: the set comprehension the actor builds before sorting. */
  function Offered(peers: set<Peer>, service: string): set<Endpoint>
  {
    set p, a | p in peers && service in p.services && a in p.services[service] :: Endpoint(p.name, a)
  }

  /** Some peer named `e.name` advertises `service` at `e.address`. */
  ghost predicate Advertises(peers: set<Peer>, service: string, e: Endpoint)
  {
    exists p :: p in peers && p.name == e.name && service in p.services && e.address in p.services[service]
  }

  /** The listing is ordered by address, in Python's string order. */
  ghost predicate SortedByAddress(r: seq<Endpoint>)
  {
    forall i, j :: 0 <= i < j < |r| ==> AtMost(r[i].address, r[j].address)
  }

  ghost predicate NoDuplicates(r: seq<Endpoint>)
  {
    forall i, j :: 0 <= i < j < |r| ==> r[i] != r[j]
  }

  // ---------------------------------------------------------------------
  // Choosing an order. Python sorts the set with the address as the only
  // key, so pairs with equal addresses come out in the set's iteration
  // order, which the program does not fix. The model breaks such ties by
  // name; nothing below promises more than "non-decreasing by address".
  // ---------------------------------------------------------------------

  predicate Precedes(x: Endpoint, y: Endpoint)
  {
    Below(x.address, y.address) || (x.address == y.address && Below(x.name, y.name))
  }

  lemma PrecedesIrreflexive(x: Endpoint)
    ensures !Precedes(x, x)
  {
    BelowIrreflexive(x.address);
    BelowIrreflexive(x.name);
  }

  lemma PrecedesTransitive(x: Endpoint, y: Endpoint, z: Endpoint)
    requires Precedes(x, y) && Precedes(y, z)
    ensures Precedes(x, z)
  {
    if Below(x.address, y.address) && Below(y.address, z.address) {
      BelowTransitive(x.address, y.address, z.address);
    } else if x.address == y.address && y.address == z.address {
      BelowTransitive(x.name, y.name, z.name);
    }
  }

  lemma PrecedesTotal(x: Endpoint, y: Endpoint)
    ensures x == y || Precedes(x, y) || Precedes(y, x)
  {
    BelowTotal(x.address, y.address);
    BelowTotal(x.name, y.name);
  }

  lemma PrecedesAsymmetric(x: Endpoint, y: Endpoint)
    requires Precedes(x, y)
    ensures !Precedes(y, x)
  {
    if Precedes(y, x) {
      PrecedesTransitive(x, y, x);
      PrecedesIrreflexive(x);
    }
  }

  predicate IsLeast(m: Endpoint, s: set<Endpoint>)
  {
    m in s && forall x :: x in s && x != m ==> Precedes(m, x)
  }

  lemma {:induction false} LeastExists(s: set<Endpoint>)
    requires s != {}
    ensures exists m :: IsLeast(m, s)
    decreases |s|
  {
    var x :| x in s;
    if s == {x} {
      assert IsLeast(x, s);
    } else {
      LeastExists(s - {x});
      var m :| IsLeast(m, s - {x});
      PrecedesTotal(m, x);
      if Precedes(m, x) {
        assert IsLeast(m, s);
      } else {
        forall y | y in s && y != x
          ensures Precedes(x, y)
        {
          if y != m {
            PrecedesTransitive(x, m, y);
          }
        }
        assert IsLeast(x, s);
      }
    }
  }

  lemma LeastUnique(s: set<Endpoint>)
    ensures forall x, y :: IsLeast(x, s) && IsLeast(y, s) ==> x == y
  {
    forall x, y | IsLeast(x, s) && IsLeast(y, s)
      ensures x == y
    {
      if x != y {
        PrecedesAsymmetric(x, y);
      }
    }
  }

  /** The least element's address is at most every address in the set. */
  lemma LeastHasLeastAddress(m: Endpoint, s: set<Endpoint>)
    requires IsLeast(m, s)
    ensures forall x :: x in s ==> AtMost(m.address, x.address)
  {
    forall x | x in s
      ensures AtMost(m.address, x.address)
    {
      AtMostOfBelow(m.address, x.address);
    }
  }

  /** `sorted(s, key=lambda endpoint: endpoint[1])`: a list holding each
      element of `s` once, non-decreasing by address. */
  function SortedListing(s: set<Endpoint>): (r: seq<Endpoint>)
    ensures |r| == |s|
    ensures forall e :: e in r <==> e in s
    ensures NoDuplicates(r)
    ensures SortedByAddress(r)
    decreases |s|
  {
    if s == {} then []
    else
      LeastExists(s);
      LeastUnique(s);
      var m :| IsLeast(m, s);
      LeastHasLeastAddress(m, s);
      [m] + SortedListing(s - {m})
  }

  /** The list the actor assigns to the application's `endpoints`. */
  function Listing(peers: set<Peer>, service: string): seq<Endpoint>
  {
    SortedListing(Offered(peers, service))
  }

  /** The published list holds exactly the advertised pairs, once each,
      ordered non-decreasing by address. */
  lemma ListingIsExactlyTheAdvertisedPairs(peers: set<Peer>, service: string)
    ensures forall e :: e in Listing(peers, service) <==> Advertises(peers, service, e)
    ensures NoDuplicates(Listing(peers, service))
    ensures SortedByAddress(Listing(peers, service))
  {
    forall e | Advertises(peers, service, e)
      ensures e in Offered(peers, service)
    {
      var p :| p in peers && p.name == e.name && service in p.services && e.address in p.services[service];
      assert e == Endpoint(p.name, e.address);
    }
  }

  /** A peer that does not advertise the service adds no pair. Whatever
      order Python's sort gives equal addresses once the peer is there, the
      list has the same length and the same address at every position as
      the list without it. */
  lemma PeerWithoutServiceAddsNothing(peers: set<Peer>, p: Peer, service: string, other: seq<Endpoint>)
    requires service !in p.services
    requires forall e :: e in other <==> Advertises(peers + {p}, service, e)
    requires NoDuplicates(other) && SortedByAddress(other)
    ensures Offered(peers + {p}, service) == Offered(peers, service)
    ensures |other| == |Listing(peers, service)|
    ensures forall i :: 0 <= i < |other| ==> other[i].address == Listing(peers, service)[i].address
  {
    assert Offered(peers + {p}, service) == Offered(peers, service);
    ListingDeterminedUpToEqualAddresses(peers + {p}, service, other);
  }

  /** The actor asks the application to disconnect when it holds a
      controller whose `(name, endpoint)` is no longer listed. */
  predicate MustDisconnect(current: Option<Endpoint>, listing: seq<Endpoint>)
  {
    current.Some? && current.value !in listing
  }

  /** The disconnect decision, stated on the peer snapshot: it fires exactly
      when no peer of that name still advertises that address for the
      service. */
  lemma DisconnectExactlyWhenNoLongerAdvertised(peers: set<Peer>, service: string, current: Endpoint)
    ensures MustDisconnect(Some(current), Listing(peers, service)) <==> !Advertises(peers, service, current)
    ensures !MustDisconnect(None, Listing(peers, service))
  {
    ListingIsExactlyTheAdvertisedPairs(peers, service);
  }

  /** Python leaves the relative order of equal addresses open; the listing
      is determined up to exactly that. Any list holding the advertised
      pairs once each, non-decreasing by address, has the model's length
      and the model's address at every position. */
  lemma ListingDeterminedUpToEqualAddresses(peers: set<Peer>, service: string, other: seq<Endpoint>)
    requires forall e :: e in other <==> Advertises(peers, service, e)
    requires NoDuplicates(other) && SortedByAddress(other)
    ensures |other| == |Listing(peers, service)|
    ensures forall i :: 0 <= i < |other| ==> other[i].address == Listing(peers, service)[i].address
  {
    ListingIsExactlyTheAdvertisedPairs(peers, service);
    SortedEnumerationsAgreeOnAddresses(other, Listing(peers, service));
  }

  /** Two duplicate-free lists of the same pairs, both sorted by address,
      list the same addresses in the same order. */
  lemma {:induction false} SortedEnumerationsAgreeOnAddresses(a: seq<Endpoint>, b: seq<Endpoint>)
    requires NoDuplicates(a) && NoDuplicates(b)
    requires forall e :: e in a <==> e in b
    requires SortedByAddress(a) && SortedByAddress(b)
    ensures |a| == |b|
    ensures forall i :: 0 <= i < |a| ==> a[i].address == b[i].address
    decreases |a|
  {
    if a == [] {
      DistinctCount(a);
      DistinctCount(b);
      assert (set e | e in a) == (set e | e in b);
    } else {
      var x := a[0];
      assert x in b;
      var k :| 0 <= k < |b| && b[k] == x;
      var rest := RemoveAt(b, k);
      RemoveAtKeepsOrder(b, k);
      forall e
        ensures e in a[1..] <==> e in rest
      {
        RemoveAtMembers(b, k, e);
        if e in a[1..] {
          var m :| 1 <= m < |a| && a[m] == e;
        }
        if e in a && e !in a[1..] {
          assert e == x;
        }
      }
      assert SortedByAddress(a[1..]) && NoDuplicates(a[1..]) by {
        forall i, j | 0 <= i < j < |a| - 1
          ensures AtMost(a[1..][i].address, a[1..][j].address) && a[1..][i] != a[1..][j]
        {
          assert a[1..][i] == a[i + 1] && a[1..][j] == a[j + 1];
        }
      }
      SortedEnumerationsAgreeOnAddresses(a[1..], rest);
      assert b[0] in a;
      var m :| 0 <= m < |a| && a[m] == b[0];
      assert AtMost(x.address, b[0].address) by {
        if m == 0 {
          AtMostOfBelow(x.address, b[0].address);
        }
      }
      LeadingAddressesEqual(b, k, x.address);
      forall i | 0 <= i < |a|
        ensures a[i].address == b[i].address
      {
        if 0 < i {
          assert a[i] == a[1..][i - 1];
        }
      }
    }
  }

  /** `b` without its element at `k`. */
  function RemoveAt(b: seq<Endpoint>, k: nat): (r: seq<Endpoint>)
    requires k < |b|
    ensures |r| == |b| - 1
    ensures forall i :: 0 <= i < k ==> r[i] == b[i]
    ensures forall i :: k <= i < |r| ==> r[i] == b[i + 1]
  {
    b[..k] + b[k + 1..]
  }

  lemma RemoveAtKeepsOrder(b: seq<Endpoint>, k: nat)
    requires k < |b|
    requires NoDuplicates(b) && SortedByAddress(b)
    ensures NoDuplicates(RemoveAt(b, k)) && SortedByAddress(RemoveAt(b, k))
  {
    var r := RemoveAt(b, k);
    forall i, j | 0 <= i < j < |r|
      ensures AtMost(r[i].address, r[j].address) && r[i] != r[j]
    {
      var i' := if i < k then i else i + 1;
      var j' := if j < k then j else j + 1;
      assert r[i] == b[i'] && r[j] == b[j'] && i' < j';
    }
  }

  /** A duplicate-free list has as many entries as it has members. */
  lemma {:induction false} DistinctCount(r: seq<Endpoint>)
    requires NoDuplicates(r)
    ensures |set e | e in r| == |r|
    decreases |r|
  {
    if r != [] {
      DistinctCount(r[1..]);
      assert (set e | e in r) == {r[0]} + (set e | e in r[1..]);
      assert r[0] !in r[1..];
    }
  }

  lemma RemoveAtMembers(b: seq<Endpoint>, k: nat, e: Endpoint)
    requires k < |b|
    requires NoDuplicates(b)
    ensures e in RemoveAt(b, k) <==> e in b && e != b[k]
  {
    var r := RemoveAt(b, k);
    if e in r {
      var n :| 0 <= n < |r| && r[n] == e;
      var n' := if n < k then n else n + 1;
      assert b[n'] == e && n' != k;
    }
    if e in b && e != b[k] {
      var n :| 0 <= n < |b| && b[n] == e;
      if n < k {
        assert r[n] == e;
      } else {
        assert r[n - 1] == e;
      }
    }
  }

  /** In a list sorted by address, everything between the front and a pair
      whose address is at most the front's has that same address. */
  lemma LeadingAddressesEqual(b: seq<Endpoint>, k: nat, v: string)
    requires k < |b| && SortedByAddress(b)
    requires b[k].address == v && AtMost(v, b[0].address)
    ensures forall i :: 0 <= i <= k ==> b[i].address == v
  {
    forall i | 0 <= i <= k
      ensures b[i].address == v
    {
      assert AtMost(b[0].address, b[i].address) by {
        if i == 0 {
          AtMostOfBelow(b[0].address, b[0].address);
        }
      }
      assert AtMost(b[i].address, v) by {
        if i == k {
          AtMostOfBelow(v, v);
        }
      }
      AtMostTransitive(v, b[0].address, b[i].address);
      AtMostAntisymmetric(v, b[i].address);
    }
  }

  /** The example of two peers on distinct addresses: each contributes its
      one pair, in address order. */
  lemma TwoPeersListedInAddressOrder()
    ensures Listing({Peer("A", map["svc" := {"10.0.0.1:1"}]), Peer("B", map["svc" := {"10.0.0.2:2"}])}, "svc")
         == [Endpoint("A", "10.0.0.1:1"), Endpoint("B", "10.0.0.2:2")]
  {
    var a, b := Peer("A", map["svc" := {"10.0.0.1:1"}]), Peer("B", map["svc" := {"10.0.0.2:2"}]);
    var ea, eb := Endpoint("A", "10.0.0.1:1"), Endpoint("B", "10.0.0.2:2");
    TwoPeersOffer(a, b, ea, eb);
    FirstAddressBelowSecond();
    ListingOfTwo(Offered({a, b}, "svc"), ea, eb);
  }

  /** Two pairs on different addresses are listed lower address first. */
  lemma ListingOfTwo(s: set<Endpoint>, x: Endpoint, y: Endpoint)
    requires s == {x, y} && Below(x.address, y.address)
    ensures SortedListing(s) == [x, y]
  {
    BelowIrreflexive(x.address);
    BelowAsymmetric(x.address, y.address);
    var r := SortedListing(s);
    assert |{x, y}| == 2;
    assert r[0] in s && r[1] in s && r[0] != r[1];
    assert AtMost(r[0].address, r[1].address);
    assert r[0] == x && r[1] == y;
  }

  lemma FirstAddressBelowSecond()
    ensures Below("10.0.0.1:1", "10.0.0.2:2")
  {
    assert "10.0.0.1:1" == "10.0.0." + "1:1" && "10.0.0.2:2" == "10.0.0." + "2:2";
    assert Below("1:1", "2:2");
    BelowUnderPrefix("10.0.0.", "1:1", "2:2");
  }

  lemma TwoPeersOffer(a: Peer, b: Peer, ea: Endpoint, eb: Endpoint)
    requires a == Peer("A", map["svc" := {"10.0.0.1:1"}]) && b == Peer("B", map["svc" := {"10.0.0.2:2"}])
    requires ea == Endpoint("A", "10.0.0.1:1") && eb == Endpoint("B", "10.0.0.2:2")
    ensures Offered({a, b}, "svc") == {ea, eb}
  {
    assert ea in Offered({a, b}, "svc");
    assert eb in Offered({a, b}, "svc");
  }
}
