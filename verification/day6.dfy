/** Day 6: the orbit map. Each pair `(a, b)` says that `b` orbits `a`. An
    object's bases are the objects it orbits directly and indirectly;
    walking that chain on cyclic data would never end, so every chain walk
    here carries a step bound `fuel` and gives `None` when it runs out. */
module Day6 {
  import opened Wrappers

  type Body = string
  type Pair = (Body, Body)

  /** `get_objects`: every name on either side of a pair. */
  function Objects(data: seq<Pair>): (r: set<Body>)
    ensures forall o :: o in r <==> exists i :: 0 <= i < |data| && (data[i].0 == o || data[i].1 == o)
  {
    if data == [] then {}
    else
      var rest := Objects(data[1..]);
      assert forall i :: 1 <= i < |data| ==> data[i] == data[1..][i - 1];
      {data[0].0, data[0].1} + rest
  }

  /** `get_base`: the left name of the first pair whose right name is
      `body`. */
  function GetBase(body: Body, data: seq<Pair>): (r: Option<Body>)
    ensures r.None? <==> forall i :: 0 <= i < |data| ==> data[i].1 != body
    ensures r.Some? ==> exists i :: && 0 <= i < |data| && data[i] == (r.value, body)
                                    && forall j :: 0 <= j < i ==> data[j].1 != body
  {
    if data == [] then None
    else if data[0].1 == body then Some(data[0].0)
    else
      var r := GetBase(body, data[1..]);
      assert forall i :: 1 <= i < |data| ==> data[i] == data[1..][i - 1];
      assert r.Some? ==> exists i :: 0 <= i < |data[1..]| && data[1..][i] == (r.value, body)
                                    && forall j :: 0 <= j < i ==> data[1..][j].1 != body;
      r
  }

  /** A base is an object, and so is the body that has it. */
  lemma BaseIsObject(body: Body, data: seq<Pair>)
    requires GetBase(body, data).Some?
    ensures GetBase(body, data).value in Objects(data) && body in Objects(data)
  {
  }

  /** `count_orbit`: 0 without a base, and one more than the base's count
      otherwise; `None` when the chain is longer than `fuel`. */
  function CountOrbit(body: Body, data: seq<Pair>, fuel: nat): (r: Option<nat>)
    ensures GetBase(body, data).None? ==> r == Some(0)
    ensures r.Some? && r.value > 0 ==> GetBase(body, data).Some?
    decreases fuel
  {
    match GetBase(body, data)
    case None => Some(0)
    case Some(base) =>
      if fuel == 0 then None
      else
        var n :- CountOrbit(base, data, fuel - 1);
        Some(1 + n)
  }

  /** A count that fits in a budget is the same in any larger one. */
  lemma {:induction false} CountOrbitFuel(body: Body, data: seq<Pair>, fuel: nat, more: nat)
    requires fuel <= more && CountOrbit(body, data, fuel).Some?
    ensures CountOrbit(body, data, more) == CountOrbit(body, data, fuel)
    decreases fuel
  {
    if GetBase(body, data).Some? {
      CountOrbitFuel(GetBase(body, data).value, data, fuel - 1, more - 1);
    }
  }

  /** `get_all_bases`: the successive bases of `body`, the body itself
      left out (`skip(1)`); `None` when the chain is longer than `fuel`. */
  function Bases(body: Body, data: seq<Pair>, fuel: nat): (r: Option<seq<Body>>)
    ensures GetBase(body, data).None? <==> r == Some([])
    ensures r.Some? && r.value != [] ==> GetBase(body, data) == Some(r.value[0])
    decreases fuel
  {
    match GetBase(body, data)
    case None => Some([])
    case Some(base) =>
      if fuel == 0 then None
      else
        var rest :- Bases(base, data, fuel - 1);
        Some([base] + rest)
  }

  /** The chain as `successors` builds it: each base is the base of the one
      before, and the last one has no base of its own. */
  lemma {:induction false} BasesChain(body: Body, data: seq<Pair>, fuel: nat)
    requires Bases(body, data, fuel).Some?
    ensures var bs := Bases(body, data, fuel).value;
            && (forall k :: 0 <= k < |bs| - 1 ==> GetBase(bs[k], data) == Some(bs[k + 1]))
            && (bs != [] ==> GetBase(bs[|bs| - 1], data).None?)
    decreases fuel
  {
    var bs := Bases(body, data, fuel).value;
    if bs != [] {
      var base := bs[0];
      BasesChain(base, data, fuel - 1);
      var rest := Bases(base, data, fuel - 1).value;
      assert bs == [base] + rest;
    }
  }

  /** The chain has exactly `count_orbit` bases, and one of the two runs out
      of budget exactly when the other does. */
  lemma {:induction false} BasesCount(body: Body, data: seq<Pair>, fuel: nat)
    ensures Bases(body, data, fuel).Some? <==> CountOrbit(body, data, fuel).Some?
    ensures Bases(body, data, fuel).Some? ==> |Bases(body, data, fuel).value| == CountOrbit(body, data, fuel).value
    decreases fuel
  {
    if GetBase(body, data).Some? && fuel > 0 {
      BasesCount(GetBase(body, data).value, data, fuel - 1);
    }
  }

  /** The sum of two counts, `None` when either is. */
  function Plus(x: Option<nat>, y: Option<nat>): Option<nat>
  {
    if x.Some? && y.Some? then Some(x.value + y.value) else None
  }

  /** `count_orbits`: the sum of `count_orbit` over the objects, taken in
      `order`, the order in which the set hands them out. */
  function CountOrbits(order: seq<Body>, data: seq<Pair>, fuel: nat): Option<nat>
  {
    if order == [] then Some(0)
    else Plus(CountOrbit(order[0], data, fuel), CountOrbits(order[1..], data, fuel))
  }

  /** The sum is defined exactly when every object's count is, and is at
      least each of them. */
  lemma {:induction false} CountOrbitsDefined(order: seq<Body>, data: seq<Pair>, fuel: nat)
    ensures CountOrbits(order, data, fuel).Some? <==>
              forall k :: 0 <= k < |order| ==> CountOrbit(order[k], data, fuel).Some?
    ensures CountOrbits(order, data, fuel).Some? ==>
              forall k :: 0 <= k < |order| ==> CountOrbit(order[k], data, fuel).value <= CountOrbits(order, data, fuel).value
  {
    if order != [] {
      CountOrbitsDefined(order[1..], data, fuel);
      assert forall k :: 1 <= k < |order| ==> order[k] == order[1..][k - 1];
    }
  }

  /** Two counts added to a third in either order give the same sum (the
      swap step of `CountOrbitsRemove`). */
  lemma PlusSwap(x: Option<nat>, y: Option<nat>, z: Option<nat>)
    ensures Plus(x, Plus(y, z)) == Plus(y, Plus(x, z))
  {
  }

  /** Taking one object out of the order and adding its count back. */
  lemma {:induction false} CountOrbitsRemove(order: seq<Body>, k: nat, data: seq<Pair>, fuel: nat)
    requires k < |order|
    ensures CountOrbits(order, data, fuel)
            == Plus(CountOrbit(order[k], data, fuel), CountOrbits(order[..k] + order[k + 1..], data, fuel))
    decreases k
  {
    if k == 0 {
      assert order[..0] + order[1..] == order[1..];
    } else {
      var tail, head := order[1..], CountOrbit(order[0], data, fuel);
      var rest := tail[..k - 1] + tail[k..];
      CountOrbitsRemove(tail, k - 1, data, fuel);
      assert order[..k] + order[k + 1..] == [order[0]] + rest;
      assert ([order[0]] + rest)[1..] == rest;
      var x := CountOrbit(order[k], data, fuel);
      calc {
        CountOrbits(order, data, fuel);
        Plus(head, CountOrbits(tail, data, fuel));
        Plus(head, Plus(x, CountOrbits(rest, data, fuel)));
        { PlusSwap(head, x, CountOrbits(rest, data, fuel)); }
        Plus(x, Plus(head, CountOrbits(rest, data, fuel)));
        Plus(x, CountOrbits([order[0]] + rest, data, fuel));
      }
    }
  }

  /** In two orders of the same objects, the first object of one sits at
      some place `k` of the other, and the rest are again the same objects. */
  lemma SameObjectsRest(a: seq<Body>, b: seq<Body>) returns (k: nat)
    requires a != [] && multiset(a) == multiset(b)
    ensures k < |b| && b[k] == a[0] && multiset(a[1..]) == multiset(b[..k] + b[k + 1..])
  {
    assert a[0] in multiset(b);
    k :| 0 <= k < |b| && b[k] == a[0];
    assert b == b[..k] + [b[k]] + b[k + 1..];
    assert a == [a[0]] + a[1..];
    calc {
      multiset(a[1..]);
      multiset(a) - multiset{a[0]};
      multiset(b) - multiset{b[k]};
      multiset(b[..k]) + multiset(b[k + 1..]);
      multiset(b[..k] + b[k + 1..]);
    }
  }

  /** The sum does not depend on the order the set hands the objects out
      in: any two orders of the same objects give the same total. */
  lemma {:induction false} CountOrbitsAnyOrder(a: seq<Body>, b: seq<Body>, data: seq<Pair>, fuel: nat)
    requires multiset(a) == multiset(b)
    ensures CountOrbits(a, data, fuel) == CountOrbits(b, data, fuel)
    decreases |a|
  {
    if a != [] {
      var k := SameObjectsRest(a, b);
      CountOrbitsAnyOrder(a[1..], b[..k] + b[k + 1..], data, fuel);
      CountOrbitsRemove(b, k, data, fuel);
    } else {
      assert b == [];
    }
  }

  /** `find` over the chain of SAN: the first base that also lies on the
      other chain. */
  function FirstCommon(san: seq<Body>, you: seq<Body>): (r: Option<Body>)
    ensures r.None? <==> forall k :: 0 <= k < |san| ==> san[k] !in you
    ensures r.Some? ==> exists k :: && 0 <= k < |san| && san[k] == r.value && r.value in you
                                    && forall j :: 0 <= j < k ==> san[j] !in you
  {
    if san == [] then None
    else if san[0] in you then Some(san[0])
    else
      var r := FirstCommon(san[1..], you);
      assert forall k :: 1 <= k < |san| ==> san[k] == san[1..][k - 1];
      assert r.Some? ==> exists k :: && 0 <= k < |san[1..]| && san[1..][k] == r.value
                                     && forall j :: 0 <= j < k ==> san[1..][j] !in you;
      r
  }

  /** `take_while(|b| b != stop).count()`: how many leading bases differ from
      `stop`. */
  function CountUntil(bases: seq<Body>, stop: Body): (n: nat)
    ensures n <= |bases|
    ensures forall j :: 0 <= j < n ==> bases[j] != stop
    ensures n < |bases| <==> stop in bases
    ensures n < |bases| ==> bases[n] == stop
  {
    if bases == [] || bases[0] == stop then 0
    else
      assert forall j :: 1 <= j < |bases| ==> bases[j] == bases[1..][j - 1];
      1 + CountUntil(bases[1..], stop)
  }

  /** The transfer count of `main`: the bases before the first common one
      on each chain, added up. `None` when a chain runs out of budget or the
      chains share no base (the source's `unwrap` fails there). */
  function Transfers(data: seq<Pair>, fuel: nat): Option<nat>
  {
    var you :- Bases("YOU", data, fuel);
    var san :- Bases("SAN", data, fuel);
    var common :- FirstCommon(san, you);
    Some(CountUntil(you, common) + CountUntil(san, common))
  }

  /** The transfer count is `i + j` for the first base on SAN's chain, at
      `j`, that lies on YOU's chain, where `i` is its first place there;
      and it is defined whenever both chains are and they meet. */
  lemma TransfersMeans(data: seq<Pair>, fuel: nat)
    ensures var you, san := Bases("YOU", data, fuel), Bases("SAN", data, fuel);
            && (Transfers(data, fuel).Some? <==>
                  you.Some? && san.Some? && exists k :: 0 <= k < |san.value| && san.value[k] in you.value)
            && (Transfers(data, fuel).Some? ==>
                  exists i, j :: && 0 <= i < |you.value| && 0 <= j < |san.value|
                                 && you.value[i] == san.value[j]
                                 && (forall l :: 0 <= l < i ==> you.value[l] != you.value[i])
                                 && (forall l :: 0 <= l < j ==> san.value[l] !in you.value)
                                 && Transfers(data, fuel).value == i + j)
  {
    var you, san := Bases("YOU", data, fuel), Bases("SAN", data, fuel);
    if you.Some? && san.Some? {
      var c := FirstCommon(san.value, you.value);
      if c.Some? {
        var i := CountUntil(you.value, c.value);
        var j := CountUntil(san.value, c.value);
        var k :| && 0 <= k < |san.value| && san.value[k] == c.value && c.value in you.value
                 && forall l :: 0 <= l < k ==> san.value[l] !in you.value;
        assert j == k;
        assert you.value[i] == san.value[j];
      }
    }
  }
}
