/** `group_customers_by_proximity`: a greedy, seed-based partition of the customer indices.
    The first index still ungrouped becomes a seed; every other ungrouped customer whose
    postcode geocodes to a point near the seed's point joins the seed's group. Nearness is
    measured to the seed only, so the groups are not connected components. */
module Proximity {
  import opened Wrappers
  import opened Values

  /** A resolved latitude/longitude pair; the model never computes with it. */
  datatype Point = Point(lat: real, lng: real)

  /** The text `geolocator.geocode` receives: `f"{postcode}, {country}"`. */
  function Query(postcode: Value, country: Value): string {
    Str(postcode) + ", " + Str(country)
  }

  /** `geocode_postcode(customer.get("postcode", ""), customer.get("country", "UK"))`,
      with the geocoding service abstracted as the oracle `geocode`. */
  function CustomerCoords(r: Record, geocode: string -> Option<Point>): Option<Point> {
    geocode(Query(Get(r, "postcode", Text("")), Get(r, "country", Text("UK"))))
  }

  /** What geocoding gives for each customer, by index. */
  type Locations = seq<Option<Point>>

  function LocationsOf(cs: seq<Record>, geocode: string -> Option<Point>): (loc: Locations)
    ensures |loc| == |cs| && forall i :: 0 <= i < |cs| ==> loc[i] == CustomerCoords(cs[i], geocode)
  {
    seq(|cs|, i requires 0 <= i < |cs| => CustomerCoords(cs[i], geocode))
  }

  function At(loc: Locations, i: nat): Option<Point> {
    if i < |loc| then loc[i] else None
  }

  predicate Distinct(s: seq<nat>) {
    forall a, b :: 0 <= a < b < |s| ==> s[a] != s[b]
  }

  predicate Increasing(s: seq<nat>) {
    forall a, b :: 0 <= a < b < |s| ==> s[a] < s[b]
  }

  /** `list(range(n))` */
  function Range(n: nat): (r: seq<nat>)
    ensures |r| == n && forall k :: 0 <= k < n ==> r[k] == k
  {
    seq(n, k => k)
  }

  /** Customer i joins a seed located at c: it geocodes and `geodesic(c, coords) <= max_distance_km`. */
  predicate Joins(loc: Locations, near: (Point, Point) -> bool, c: Point, i: nat) {
    At(loc, i).Some? && near(c, At(loc, i).value)
  }

  /** The members of `rest` that join the seed, in list order (`current_group[1:]`, `to_remove`). */
  function Joined(loc: Locations, near: (Point, Point) -> bool, c: Point, rest: seq<nat>): (r: seq<nat>)
    ensures |r| <= |rest|
  {
    if rest == [] then []
    else (if Joins(loc, near, c, rest[0]) then [rest[0]] else []) + Joined(loc, near, c, rest[1..])
  }

  /** The members of `rest` that stay ungrouped. */
  function Left(loc: Locations, near: (Point, Point) -> bool, c: Point, rest: seq<nat>): (r: seq<nat>)
    ensures |r| <= |rest|
  {
    if rest == [] then []
    else (if Joins(loc, near, c, rest[0]) then [] else [rest[0]]) + Left(loc, near, c, rest[1..])
  }

  /** The groups the source's loop produces from the list `ungrouped`. */
  function Groups(loc: Locations, near: (Point, Point) -> bool, ungrouped: seq<nat>): seq<seq<nat>>
    decreases |ungrouped|
  {
    if ungrouped == [] then []
    else
      var seed, rest := ungrouped[0], ungrouped[1..];
      match At(loc, seed)
      case None => [[seed]] + Groups(loc, near, rest)
      case Some(c) => [[seed] + Joined(loc, near, c, rest)] + Groups(loc, near, Left(loc, near, c, rest))
  }

  function Flatten(gs: seq<seq<nat>>): seq<nat> {
    if gs == [] then [] else gs[0] + Flatten(gs[1..])
  }

  // ---------------------------------------------------------------- Python list.remove

  /** `list.remove(x)`: drop the first occurrence of x. */
  function Without(s: seq<nat>, x: nat): seq<nat> {
    if s == [] then [] else if s[0] == x then s[1..] else [s[0]] + Without(s[1..], x)
  }

  /** `for x in xs: s.remove(x)` */
  function RemoveAll(s: seq<nat>, xs: seq<nat>): seq<nat>
    decreases |xs|
  {
    if xs == [] then s else RemoveAll(Without(s, xs[0]), xs[1..])
  }

  lemma {:induction false} RemoveAllSkipsHead(h: nat, t: seq<nat>, xs: seq<nat>)
    requires h !in xs
    ensures RemoveAll([h] + t, xs) == [h] + RemoveAll(t, xs)
    decreases |xs|
  {
    if xs != [] {
      assert Without([h] + t, xs[0]) == [h] + Without(t, xs[0]);
      RemoveAllSkipsHead(h, Without(t, xs[0]), xs[1..]);
    }
  }

  lemma {:induction false} JoinedLeftFrom(loc: Locations, near: (Point, Point) -> bool, c: Point, rest: seq<nat>)
    ensures forall x :: x in Joined(loc, near, c, rest) ==> x in rest && Joins(loc, near, c, x)
    ensures forall x :: x in Left(loc, near, c, rest) ==> x in rest && !Joins(loc, near, c, x)
    ensures multiset(Joined(loc, near, c, rest)) + multiset(Left(loc, near, c, rest)) == multiset(rest)
    ensures forall x :: x in rest ==> x in Joined(loc, near, c, rest) || x in Left(loc, near, c, rest)
  {
    if rest != [] {
      JoinedLeftFrom(loc, near, c, rest[1..]);
      assert rest == [rest[0]] + rest[1..];
    }
  }

  lemma DistinctTail(s: seq<nat>)
    requires s != [] && Distinct(s)
    ensures Distinct(s[1..]) && s[0] !in s[1..]
  {
    forall k | 0 <= k < |s| - 1
      ensures s[1..][k] != s[0]
    {
      assert s[1..][k] == s[k + 1];
    }
  }

  /** Removing, one by one, the customers that joined the seed leaves exactly those that did not. */
  lemma {:induction false} RemoveJoined(loc: Locations, near: (Point, Point) -> bool, c: Point, rest: seq<nat>)
    requires Distinct(rest)
    ensures RemoveAll(rest, Joined(loc, near, c, rest)) == Left(loc, near, c, rest)
  {
    if rest != [] {
      var h, t := rest[0], rest[1..];
      DistinctTail(rest);
      RemoveJoined(loc, near, c, t);
      if Joins(loc, near, c, h) {
        assert Joined(loc, near, c, rest) == [h] + Joined(loc, near, c, t);
        assert Without(rest, h) == t;
      } else {
        assert Joined(loc, near, c, rest) == Joined(loc, near, c, t);
        assert Left(loc, near, c, rest) == [h] + Left(loc, near, c, t);
        JoinedOutside(loc, near, c, t, h);
        RemoveAllSkipsHead(h, t, Joined(loc, near, c, t));
        assert rest == [h] + t;
      }
    }
  }

  /** Only members of `rest` can join. */
  lemma {:induction false} JoinedOutside(loc: Locations, near: (Point, Point) -> bool, c: Point, rest: seq<nat>, x: nat)
    requires x !in rest
    ensures x !in Joined(loc, near, c, rest)
  {
    if rest != [] {
      JoinedOutside(loc, near, c, rest[1..], x);
    }
  }

  lemma {:induction false} LeftDistinct(loc: Locations, near: (Point, Point) -> bool, c: Point, rest: seq<nat>)
    requires Distinct(rest)
    ensures Distinct(Left(loc, near, c, rest))
  {
    if rest != [] {
      var t := rest[1..];
      DistinctTail(rest);
      LeftDistinct(loc, near, c, t);
      JoinedLeftFrom(loc, near, c, t);
      var l := Left(loc, near, c, t);
      if !Joins(loc, near, c, rest[0]) {
        assert Left(loc, near, c, rest) == [rest[0]] + l;
        assert forall k :: 0 < k < |l| + 1 ==> ([rest[0]] + l)[k] == l[k - 1];
      }
    }
  }

  lemma {:induction false} KeepIncreasing(loc: Locations, near: (Point, Point) -> bool, c: Point, rest: seq<nat>)
    requires Increasing(rest)
    ensures Increasing(Left(loc, near, c, rest)) && Increasing(Joined(loc, near, c, rest))
  {
    if rest != [] {
      var h, t := rest[0], rest[1..];
      assert Increasing(t);
      KeepIncreasing(loc, near, c, t);
      JoinedLeftFrom(loc, near, c, t);
      assert forall x :: x in t ==> h < x;
      var l, j := Left(loc, near, c, t), Joined(loc, near, c, t);
      if Joins(loc, near, c, h) {
        assert Joined(loc, near, c, rest) == [h] + j;
        ConsIncreasing(h, j);
      } else {
        assert Left(loc, near, c, rest) == [h] + l;
        ConsIncreasing(h, l);
      }
    }
  }

  lemma ConsIncreasing(h: nat, t: seq<nat>)
    requires Increasing(t) && forall x :: x in t ==> h < x
    ensures Increasing([h] + t)
  {
    var s := [h] + t;
    forall a, b | 0 <= a < b < |s| ensures s[a] < s[b] {
      assert s[b] == t[b - 1] && t[b - 1] in t;
      if a > 0 {
        assert s[a] == t[a - 1];
      }
    }
  }

  lemma {:induction false} JoinedSnoc(loc: Locations, near: (Point, Point) -> bool, c: Point, s: seq<nat>, x: nat)
    ensures Joined(loc, near, c, s + [x]) == Joined(loc, near, c, s) + (if Joins(loc, near, c, x) then [x] else [])
  {
    if s != [] {
      assert (s + [x])[1..] == s[1..] + [x];
      JoinedSnoc(loc, near, c, s[1..], x);
    } else {
      assert [x][1..] == [];
    }
  }

  // ---------------------------------------------------------------- the loop

  /** The source's `while ungrouped` loop, with the inner scan and the `to_remove` pass. */
  method GroupByProximity(cs: seq<Record>, geocode: string -> Option<Point>, near: (Point, Point) -> bool)
    returns (groups: seq<seq<nat>>)
    ensures groups == Groups(LocationsOf(cs, geocode), near, Range(|cs|))
  {
    ghost var loc := LocationsOf(cs, geocode);
    groups := [];
    var ungrouped: seq<nat> := Range(|cs|);
    assert forall x :: x in ungrouped ==> x < |cs|;
    assert groups + Groups(loc, near, ungrouped) == Groups(loc, near, Range(|cs|));
    while ungrouped != []
      invariant Distinct(ungrouped) && forall x :: x in ungrouped ==> x < |cs|
      invariant groups + Groups(loc, near, ungrouped) == Groups(loc, near, Range(|cs|))
      decreases |ungrouped|
    {
      ghost var before := ungrouped;
      var currentGroup;
      currentGroup, ungrouped := TakeGroup(cs, geocode, near, ungrouped);
      assert (groups + [currentGroup]) + Groups(loc, near, ungrouped) == groups + Groups(loc, near, before);
      groups := groups + [currentGroup];
    }
    assert groups + [] == groups;
  }

  /** One pass of the loop body: the seed `ungrouped[0]`, the customers the scan adds to its
      group, and what is still ungrouped after the removals. */
  method TakeGroup(cs: seq<Record>, geocode: string -> Option<Point>, near: (Point, Point) -> bool,
                   ungrouped: seq<nat>)
    returns (currentGroup: seq<nat>, remaining: seq<nat>)
    requires ungrouped != [] && Distinct(ungrouped) && forall x :: x in ungrouped ==> x < |cs|
    ensures Groups(LocationsOf(cs, geocode), near, ungrouped)
      == [currentGroup] + Groups(LocationsOf(cs, geocode), near, remaining)
    ensures Distinct(remaining) && |remaining| < |ungrouped| && forall x :: x in remaining ==> x in ungrouped
  {
    ghost var loc := LocationsOf(cs, geocode);
    var current := ungrouped[0];
    currentGroup := [current];
    remaining := Without(ungrouped, current);
    assert remaining == ungrouped[1..];
    assert current in ungrouped && forall x :: x in remaining ==> x in ungrouped;
    DistinctTail(ungrouped);
    var currentCoords := CustomerCoords(cs[current], geocode);
    assert currentCoords == At(loc, current);
    if currentCoords.Some? {
      var c := currentCoords.value;
      var toRemove := ScanNear(cs, geocode, near, c, remaining);
      currentGroup := currentGroup + toRemove;
      ghost var rest := remaining;
      remaining := RemoveEach(remaining, toRemove);
      RemoveJoined(loc, near, c, rest);
      LeftDistinct(loc, near, c, rest);
      JoinedLeftFrom(loc, near, c, rest);
    }
  }

  /** The inner `for idx in ungrouped` scan: the ungrouped customers near the seed's point, in order. */
  method ScanNear(cs: seq<Record>, geocode: string -> Option<Point>, near: (Point, Point) -> bool,
                  c: Point, ungrouped: seq<nat>)
    returns (toRemove: seq<nat>)
    requires forall x :: x in ungrouped ==> x < |cs|
    ensures toRemove == Joined(LocationsOf(cs, geocode), near, c, ungrouped)
  {
    ghost var loc := LocationsOf(cs, geocode);
    toRemove := [];
    var k := 0;
    while k < |ungrouped|
      invariant 0 <= k <= |ungrouped|
      invariant toRemove == Joined(loc, near, c, ungrouped[..k])
    {
      var idx := ungrouped[k];
      assert idx in ungrouped;
      var coords := CustomerCoords(cs[idx], geocode);
      assert coords == At(loc, idx);
      JoinedSnoc(loc, near, c, ungrouped[..k], idx);
      assert ungrouped[..k + 1] == ungrouped[..k] + [idx];
      if coords.Some? && near(c, coords.value) {
        toRemove := toRemove + [idx];
      }
      k := k + 1;
    }
    assert ungrouped[..k] == ungrouped;
  }

  /** `for idx in to_remove: ungrouped.remove(idx)` */
  method RemoveEach(ungrouped: seq<nat>, toRemove: seq<nat>) returns (r: seq<nat>)
    ensures r == RemoveAll(ungrouped, toRemove)
  {
    r := ungrouped;
    var j := 0;
    while j < |toRemove|
      invariant 0 <= j <= |toRemove|
      invariant RemoveAll(r, toRemove[j..]) == RemoveAll(ungrouped, toRemove)
    {
      assert toRemove[j..][1..] == toRemove[j + 1..];
      r := Without(r, toRemove[j]);
      j := j + 1;
    }
    assert toRemove[j..] == [];
  }

  // ---------------------------------------------------------------- properties

  /** The groups hold, between them, exactly the ungrouped indices they started from. */
  lemma {:induction false} GroupsPermute(loc: Locations, near: (Point, Point) -> bool, u: seq<nat>)
    ensures multiset(Flatten(Groups(loc, near, u))) == multiset(u)
    decreases |u|
  {
    if u != [] {
      var seed, rest := u[0], u[1..];
      assert u == [seed] + rest;
      match At(loc, seed)
      case None =>
        GroupsPermute(loc, near, rest);
      case Some(c) =>
        GroupsPermute(loc, near, Left(loc, near, c, rest));
        JoinedLeftFrom(loc, near, c, rest);
    }
  }

  lemma {:induction false} RangeCount(n: nat, i: int)
    ensures multiset(Range(n))[i] == if 0 <= i < n then 1 else 0
  {
    if n > 0 {
      assert Range(n) == Range(n - 1) + [n - 1];
      RangeCount(n - 1, i);
    }
  }

  /** Partition: every customer index 0..n-1 lies in exactly one group, once; no other number does. */
  lemma Partition(loc: Locations, near: (Point, Point) -> bool, i: int)
    ensures multiset(Flatten(Groups(loc, near, Range(|loc|))))[i] == if 0 <= i < |loc| then 1 else 0
  {
    GroupsPermute(loc, near, Range(|loc|));
    RangeCount(|loc|, i);
  }

  lemma {:induction false} FlattenMembers(gs: seq<seq<nat>>, k: nat)
    requires k < |gs|
    ensures forall x :: x in gs[k] ==> x in Flatten(gs)
  {
    if k > 0 {
      FlattenMembers(gs[1..], k - 1);
    }
  }

  lemma FlattenPrefix(g0: seq<nat>, ts: seq<seq<nat>>, k: nat)
    requires 1 <= k <= |ts| + 1
    ensures Flatten(([g0] + ts)[..k]) == g0 + Flatten(ts[..k - 1])
  {
    assert ([g0] + ts)[..k] == [g0] + ts[..k - 1];
  }

  /** The members of the groups built from u are members of u. */
  lemma GroupsWithin(loc: Locations, near: (Point, Point) -> bool, u: seq<nat>, k: nat, x: nat)
    requires k < |Groups(loc, near, u)| && x in Groups(loc, near, u)[k]
    ensures x in u
  {
    FlattenMembers(Groups(loc, near, u), k);
    GroupsPermute(loc, near, u);
    assert x in multiset(Flatten(Groups(loc, near, u)));
  }

  /** Every group is non-empty and lists its members in increasing index order. */
  predicate NonEmptyIncreasing(gs: seq<seq<nat>>) {
    forall k :: 0 <= k < |gs| ==> gs[k] != [] && Increasing(gs[k])
  }

  /** The first member of each group is at most every member of u not in an earlier group. */
  predicate SeedsLeast(gs: seq<seq<nat>>, u: seq<nat>) {
    forall k, x :: 0 <= k < |gs| && x in u && x !in Flatten(gs[..k]) ==> gs[k] != [] && gs[k][0] <= x
  }

  lemma {:induction false} GroupsIncreasing(loc: Locations, near: (Point, Point) -> bool, u: seq<nat>)
    requires Increasing(u)
    ensures NonEmptyIncreasing(Groups(loc, near, u))
    decreases |u|
  {
    if u != [] {
      var seed, rest := u[0], u[1..];
      assert Increasing(rest);
      assert forall x :: x in rest ==> seed < x;
      var tail, g0;
      if At(loc, seed).None? {
        tail, g0 := rest, [seed];
      } else {
        var c := At(loc, seed).value;
        tail, g0 := Left(loc, near, c, rest), [seed] + Joined(loc, near, c, rest);
        KeepIncreasing(loc, near, c, rest);
        JoinedLeftFrom(loc, near, c, rest);
        ConsIncreasing(seed, Joined(loc, near, c, rest));
      }
      assert Groups(loc, near, u) == [g0] + Groups(loc, near, tail);
      GroupsIncreasing(loc, near, tail);
      ConsNonEmptyIncreasing(g0, Groups(loc, near, tail));
    }
  }

  lemma ConsNonEmptyIncreasing(g0: seq<nat>, ts: seq<seq<nat>>)
    requires g0 != [] && Increasing(g0) && NonEmptyIncreasing(ts)
    ensures NonEmptyIncreasing([g0] + ts)
  {
    assert forall k :: 1 <= k < |ts| + 1 ==> ([g0] + ts)[k] == ts[k - 1];
  }

  lemma SeedsLeastCons(g0: seq<nat>, ts: seq<seq<nat>>, u: seq<nat>, tail: seq<nat>)
    requires u != [] && g0 != [] && g0[0] == u[0] && forall x :: x in u ==> u[0] <= x
    requires forall x :: x in u && x !in g0 ==> x in tail
    requires SeedsLeast(ts, tail)
    ensures SeedsLeast([g0] + ts, u)
  {
    var gs := [g0] + ts;
    forall k, x | 0 <= k < |gs| && x in u && x !in Flatten(gs[..k])
      ensures gs[k] != [] && gs[k][0] <= x
    {
      if k > 0 {
        FlattenPrefix(g0, ts, k);
        assert x in tail;
        assert gs[k] == ts[k - 1];
      }
    }
  }

  /** The first member of every group (its seed) is the smallest index not in an earlier group. */
  lemma {:induction false} SeedIsLeastUngrouped(loc: Locations, near: (Point, Point) -> bool, u: seq<nat>)
    requires Increasing(u)
    ensures SeedsLeast(Groups(loc, near, u), u)
    decreases |u|
  {
    if u != [] {
      var seed, rest := u[0], u[1..];
      assert Increasing(rest);
      assert forall x :: x in u ==> seed <= x;
      var tail, g0;
      if At(loc, seed).None? {
        tail, g0 := rest, [seed];
      } else {
        var c := At(loc, seed).value;
        tail, g0 := Left(loc, near, c, rest), [seed] + Joined(loc, near, c, rest);
        KeepIncreasing(loc, near, c, rest);
        JoinedLeftFrom(loc, near, c, rest);
      }
      assert Groups(loc, near, u) == [g0] + Groups(loc, near, tail);
      SeedIsLeastUngrouped(loc, near, tail);
      SeedsLeastCons(g0, Groups(loc, near, tail), u, tail);
    }
  }

  /** Seeds strictly increase from one group to the next. */
  lemma SeedsIncrease(loc: Locations, near: (Point, Point) -> bool)
    ensures forall k, m :: 0 <= k < m < |Groups(loc, near, Range(|loc|))| ==>
      Groups(loc, near, Range(|loc|))[k] != [] && Groups(loc, near, Range(|loc|))[m] != [] &&
      Groups(loc, near, Range(|loc|))[k][0] < Groups(loc, near, Range(|loc|))[m][0]
  {
    var u := Range(|loc|);
    var gs := Groups(loc, near, u);
    GroupsIncreasing(loc, near, u);
    SeedIsLeastUngrouped(loc, near, u);
    forall k, x | 0 <= k < |gs| && x in gs[k] ensures x in u {
      GroupsWithin(loc, near, u, k, x);
    }
    forall x ensures multiset(Flatten(gs))[x] <= 1 {
      Partition(loc, near, x);
    }
    SeedsOrdered(gs, u);
  }

  lemma SeedsOrdered(gs: seq<seq<nat>>, u: seq<nat>)
    requires NonEmptyIncreasing(gs) && SeedsLeast(gs, u)
    requires forall k, x :: 0 <= k < |gs| && x in gs[k] ==> x in u
    requires forall x :: multiset(Flatten(gs))[x] <= 1
    ensures forall k, m :: 0 <= k < m < |gs| ==> gs[k] != [] && gs[m] != [] && gs[k][0] < gs[m][0]
  {
    forall k, m | 0 <= k < m < |gs|
      ensures gs[k] != [] && gs[m] != [] && gs[k][0] < gs[m][0]
    {
      assert gs[m] != [];
      assert gs[m][0] in gs[m];
      SeedPair(gs, u, k, m);
    }
  }

  lemma SeedPair(gs: seq<seq<nat>>, u: seq<nat>, k: nat, m: nat)
    requires k < m < |gs| && gs[m] != [] && gs[m][0] in u && multiset(Flatten(gs))[gs[m][0]] <= 1
    requires SeedsLeast(gs, u)
    ensures gs[k] != [] && gs[k][0] < gs[m][0]
  {
    var x := gs[m][0];
    LaterNotEarlier(gs, k, m);
    LaterNotEarlier(gs, k + 1, m);
    assert gs[k] != [] && gs[k][0] <= x;
    FlattenPrefixHas(gs, k);
  }

  /** The members of group k are in the flattening of the groups up to and including k. */
  lemma FlattenPrefixHas(gs: seq<seq<nat>>, k: nat)
    requires k < |gs| && gs[k] != []
    ensures gs[k][0] in Flatten(gs[..k + 1])
  {
    FlattenSplit(gs[..k + 1], k);
    assert gs[..k + 1][k..] == [gs[k]];
    assert Flatten([gs[k]]) == gs[k] + Flatten([]);
  }

  /** An element of group m that occurs only once in all groups is in none of the groups before m. */
  lemma LaterNotEarlier(gs: seq<seq<nat>>, k: nat, m: nat)
    requires k <= m < |gs| && gs[m] != [] && multiset(Flatten(gs))[gs[m][0]] <= 1
    ensures gs[m][0] !in Flatten(gs[..k])
  {
    var x := gs[m][0];
    FlattenSplit(gs, k);
    FlattenSplit(gs[k..], m - k);
    assert gs[k..][m - k] == gs[m];
    FlattenMembers(gs[k..][m - k..], 0);
    assert x in Flatten(gs[k..][m - k..]);
  }

  lemma {:induction false} FlattenSplit(gs: seq<seq<nat>>, k: nat)
    requires k <= |gs|
    ensures Flatten(gs) == Flatten(gs[..k]) + Flatten(gs[k..])
  {
    if k > 0 {
      FlattenSplit(gs[1..], k - 1);
      assert gs[1..][..k - 1] == gs[..k][1..];
      assert gs[1..][k - 1..] == gs[k..];
    } else {
      assert gs[..0] == [];
    }
  }

  /** Every non-seed member geocodes and is near its seed's point; a seed that does not geocode
      forms a group of its own. Customers without coordinates are therefore never added to a
      group other than their own. */
  lemma {:induction false} MembersNearSeed(loc: Locations, near: (Point, Point) -> bool, u: seq<nat>, k: nat)
    requires k < |Groups(loc, near, u)|
    ensures var g := Groups(loc, near, u)[k];
      && g != []
      && (At(loc, g[0]).None? ==> |g| == 1)
      && (forall j :: 0 < j < |g| ==> At(loc, g[0]).Some? && Joins(loc, near, At(loc, g[0]).value, g[j]))
    decreases |u|
  {
    var seed, rest := u[0], u[1..];
    var gs := Groups(loc, near, u);
    match At(loc, seed)
    case None =>
      assert gs == [[seed]] + Groups(loc, near, rest);
      if k > 0 {
        assert gs[k] == Groups(loc, near, rest)[k - 1];
        MembersNearSeed(loc, near, rest, k - 1);
      }
    case Some(c) =>
      var tail := Left(loc, near, c, rest);
      var g0 := [seed] + Joined(loc, near, c, rest);
      assert gs == [g0] + Groups(loc, near, tail);
      if k > 0 {
        assert gs[k] == Groups(loc, near, tail)[k - 1];
        MembersNearSeed(loc, near, tail, k - 1);
      } else {
        JoinedLeftFrom(loc, near, c, rest);
        forall j | 0 < j < |g0| ensures Joins(loc, near, c, g0[j]) {
          assert g0[j] in Joined(loc, near, c, rest);
        }
      }
  }

  /** The scan is complete: a customer left for a later group did not join any earlier seed
      that had coordinates. */
  lemma {:induction false} LaterMembersNotNear(loc: Locations, near: (Point, Point) -> bool, u: seq<nat>,
                                               k: nat, m: nat, x: nat)
    requires var gs := Groups(loc, near, u);
      k < m < |gs| && x in gs[m] && gs[k] != [] && At(loc, gs[k][0]).Some?
    ensures var gs := Groups(loc, near, u); !Joins(loc, near, At(loc, gs[k][0]).value, x)
    decreases |u|
  {
    var seed, rest := u[0], u[1..];
    var gs := Groups(loc, near, u);
    var tail := if At(loc, seed).None? then rest else Left(loc, near, At(loc, seed).value, rest);
    var ts := Groups(loc, near, tail);
    assert gs[1..] == ts;
    assert gs[m] == ts[m - 1];
    if k == 0 {
      assert gs[0][0] == seed;
      var c := At(loc, seed).value;
      JoinedLeftFrom(loc, near, c, rest);
      GroupsWithin(loc, near, tail, m - 1, x);
    } else {
      assert gs[k] == ts[k - 1];
      LaterMembersNotNear(loc, near, tail, k - 1, m - 1, x);
    }
  }

  /** Nearness is not chained: with 0 near 1 and 1 near 2 but 0 not near 2, customer 2 is
      left out of the group of 0 and 1 and seeds a group of its own. */
  lemma SeedDistanceOnly(loc: Locations, near: (Point, Point) -> bool, a: Point, b: Point, c: Point)
    requires loc == [Some(a), Some(b), Some(c)]
    requires near(a, b) && near(b, c) && !near(a, c)
    ensures Groups(loc, near, Range(3)) == [[0, 1], [2]]
  {
    assert Range(3) == [0, 1, 2];
    assert At(loc, 0) == Some(a) && At(loc, 1) == Some(b) && At(loc, 2) == Some(c);
    assert [0, 1, 2][0] == 0;
    assert Groups(loc, near, [0, 1, 2])
        == [[0] + Joined(loc, near, a, [1, 2])] + Groups(loc, near, Left(loc, near, a, [1, 2]));
    assert [0, 1, 2][1..] == [1, 2];
    assert [1, 2][1..] == [2];
    assert Joined(loc, near, a, [2]) == [];
    assert Joined(loc, near, a, [1, 2]) == [1];
    assert Left(loc, near, a, [2]) == [2];
    assert Left(loc, near, a, [1, 2]) == [2];
    assert Groups(loc, near, [2]) == [[2]] by {
      assert [2][1..] == [];
      assert Groups(loc, near, [2])
          == [[2] + Joined(loc, near, c, [])] + Groups(loc, near, Left(loc, near, c, []));
    }
    assert Groups(loc, near, [0, 1, 2]) == [[0] + [1]] + [[2]];
    assert [[0] + [1]] + [[2]] == [[0] + [1], [2]];
    var g: seq<nat> := [0] + [1];
    assert g == [0, 1];
  }
}
