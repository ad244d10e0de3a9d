/** `optimize_route` and `optimize_route_with_google_maps`: the pre-check, the assembly of the
    waypoint list, the guard around the directions provider, and the mapping of the provider's
    `waypoint_order` back onto the selected customers. */
module Route {
  import opened Wrappers
  import opened Values
  import opened Proximity

  /** One entry of the provider's `legs` list, kept as the JSON object it is. */
  datatype Leg = Leg(fields: Record)

  /** The request body. A key the body leaves out holds the default `data.get` supplies:
      `customerIds` is `[]`, `start` and `end` are `Null`, the two countries are `Text("UK")`. */
  datatype Request = Request(customerIds: seq<int>, start: Value, end: Value,
                             startCountry: Value, endCountry: Value)

  /** The 400 answers of the endpoint, and the `IndexError` that `iloc` raises on a bad id. */
  datatype RouteError =
    | NeedTwoTotal
    | CustomerIdOutOfRange(id: int)
    | StartNotGeocoded(postcode: Value)
    | EndNotGeocoded(postcode: Value)
    | NeedTwoValid

  datatype RouteResult = RouteResult(optimizedCustomers: seq<Record>, routeLegs: seq<Leg>,
                                     waypoints: seq<Point>, start: Value, end: Value)

  /** The directions provider: `Some((waypoint_order, legs))` when it answers with status "OK",
      `None` when it answers otherwise or the request raises. */
  type Directions = seq<Point> -> Option<(seq<int>, seq<Leg>)>

  // ---------------------------------------------------------------- selecting customers

  /** A position `iloc` accepts in a frame of n rows: 0..n-1, or -n..-1 counted from the end. */
  predicate IlocIndex(i: int, n: nat) {
    -(n as int) <= i < n
  }

  function FirstBadId(ids: seq<int>, n: nat): (r: Option<int>)
    ensures r.None? <==> forall k :: 0 <= k < |ids| ==> IlocIndex(ids[k], n)
    ensures r.Some? ==> r.value in ids && !IlocIndex(r.value, n)
  {
    if ids == [] then None
    else if !IlocIndex(ids[0], n) then Some(ids[0])
    else FirstBadId(ids[1..], n)
  }

  /** `df.iloc[customer_ids].to_dict("records") if customer_ids else []` */
  function Select(rows: seq<Record>, ids: seq<int>): (r: Result<seq<Record>, RouteError>)
    ensures r.Ok? <==> forall k :: 0 <= k < |ids| ==> IlocIndex(ids[k], |rows|)
    ensures r.Ok? ==> |r.value| == |ids| && forall k :: 0 <= k < |ids| ==>
      r.value[k] == rows[if ids[k] < 0 then ids[k] + |rows| else ids[k]]
  {
    match FirstBadId(ids, |rows|)
    case Some(i) => Err(CustomerIdOutOfRange(i))
    case None => Ok(seq(|ids|, k requires 0 <= k < |ids| =>
                     rows[if ids[k] < 0 then ids[k] + |rows| else ids[k]]))
  }

  // ---------------------------------------------------------------- waypoints

  /** The points of the customers that geocode, in input order (the `for customer in customers` loop). */
  function CustomerPoints(cs: seq<Record>, geocode: string -> Option<Point>): (ps: seq<Point>)
    ensures |ps| <= |cs|
  {
    if cs == [] then []
    else
      var last := CustomerCoords(cs[|cs| - 1], geocode);
      CustomerPoints(cs[..|cs| - 1], geocode) + (if last.Some? then [last.value] else [])
  }

  function StartQuery(req: Request): string {
    Query(req.start, req.startCountry)
  }

  function EndQuery(req: Request): string {
    Query(req.end, req.endCountry)
  }

  /** The waypoint list, or the error that stops its assembly. */
  function Waypoints(customers: seq<Record>, req: Request, geocode: string -> Option<Point>)
    : Result<seq<Point>, RouteError>
  {
    if Truthy(req.start) && geocode(StartQuery(req)).None? then Err(StartNotGeocoded(req.start))
    else if Truthy(req.end) && geocode(EndQuery(req)).None? then Err(EndNotGeocoded(req.end))
    else
      var head := if Truthy(req.start) then [geocode(StartQuery(req)).value] else [];
      var tail := if Truthy(req.end) then [geocode(EndQuery(req)).value] else [];
      Ok(head + CustomerPoints(customers, geocode) + tail)
  }

  lemma AppendAssoc<T>(a: seq<T>, b: seq<T>, c: seq<T>)
    ensures (a + b) + c == a + (b + c)
  {
  }

  /** One more customer adds its point, if it has one, at the end. */
  lemma PointsStep(cs: seq<Record>, i: nat, geocode: string -> Option<Point>)
    requires i < |cs|
    ensures var c := CustomerCoords(cs[i], geocode);
      CustomerPoints(cs[..i + 1], geocode) == CustomerPoints(cs[..i], geocode) + (if c.Some? then [c.value] else [])
  {
    assert cs[..i + 1][..i] == cs[..i] && cs[..i + 1][i] == cs[i];
  }

  /** The `for customer in customers` loop: each customer that geocodes appends its point. */
  method AppendCustomerPoints(head: seq<Point>, customers: seq<Record>, geocode: string -> Option<Point>)
    returns (waypoints: seq<Point>)
    ensures waypoints == head + CustomerPoints(customers, geocode)
  {
    waypoints := head;
    var i := 0;
    assert customers[..0] == [] && waypoints == head + [];
    while i < |customers|
      invariant 0 <= i <= |customers|
      invariant waypoints == head + CustomerPoints(customers[..i], geocode)
    {
      var coords := CustomerCoords(customers[i], geocode);
      PointsStep(customers, i, geocode);
      if coords.Some? {
        AppendAssoc(head, CustomerPoints(customers[..i], geocode), [coords.value]);
        waypoints := waypoints + [coords.value];
      }
      i := i + 1;
    }
    assert customers[..i] == customers;
  }

  /** The `waypoints.append` sequence of the endpoint. */
  method BuildWaypoints(customers: seq<Record>, req: Request, geocode: string -> Option<Point>)
    returns (r: Result<seq<Point>, RouteError>)
    ensures r == Waypoints(customers, req, geocode)
  {
    var waypoints: seq<Point> := [];
    if Truthy(req.start) {
      var startCoords := geocode(Query(req.start, req.startCountry));
      if startCoords.None? {
        return Err(StartNotGeocoded(req.start));
      }
      waypoints := waypoints + [startCoords.value];
    }
    assert waypoints == if Truthy(req.start) then [geocode(StartQuery(req)).value] else [];
    waypoints := AppendCustomerPoints(waypoints, customers, geocode);
    ghost var body := waypoints;
    if Truthy(req.end) {
      var endCoords := geocode(Query(req.end, req.endCountry));
      if endCoords.None? {
        return Err(EndNotGeocoded(req.end));
      }
      waypoints := waypoints + [endCoords.value];
    }
    assert waypoints == body + if Truthy(req.end) then [geocode(EndQuery(req)).value] else [];
    return Ok(waypoints);
  }

  /** `optimize_route_with_google_maps`: no key or fewer than two waypoints gives `([], [])`
      without asking the provider; so does an answer that is not "OK". */
  function ProviderCall(apiKey: string, w: seq<Point>, directions: Directions): (r: (seq<int>, seq<Leg>))
    ensures apiKey == "" || |w| < 2 ==> r == ([], [])
    ensures apiKey != "" && |w| >= 2 && directions(w).Some? ==> r == directions(w).value
    ensures apiKey != "" && |w| >= 2 && directions(w).None? ==> r == ([], [])
  {
    if apiKey == "" || |w| < 2 then ([], [])
    else match directions(w)
      case None => ([], [])
      case Some(answer) => answer
  }

  // ---------------------------------------------------------------- reordering

  predicate InRange(order: seq<int>, n: nat) {
    forall k :: 0 <= k < |order| ==> 0 <= order[k] < n
  }

  /** `[xs[i] for i in order]` */
  function Pick(xs: seq<Record>, order: seq<int>): (r: seq<Record>)
    requires InRange(order, |xs|)
    ensures |r| == |order| && forall k :: 0 <= k < |order| ==> r[k] == xs[order[k]]
  {
    seq(|order|, k requires 0 <= k < |order| => xs[order[k]])
  }

  /** The customer list the endpoint returns once the provider has answered `order`. */
  function Reorder(customers: seq<Record>, order: seq<int>, hasStart: bool, hasEnd: bool): seq<Record> {
    var n := |customers|;
    if order == [] || n == 0 then customers
    else if hasStart && hasEnd then
      if InRange(order, n) then Pick(customers, order) else []
    else if hasStart then
      if n > 1 && InRange(order, n - 1) then Pick(customers[..n - 1], order) + [customers[n - 1]]
      else customers
    else if hasEnd then
      if n > 1 && InRange(order, n - 1) then [customers[0]] + Pick(customers[1..], order)
      else customers
    else
      if n > 2 && InRange(order, n - 2) then [customers[0]] + Pick(customers[1..n - 1], order) + [customers[n - 1]]
      else customers
  }

  /** With both a start and an end postcode every customer is an intermediate waypoint. */
  lemma ReorderStartEnd(customers: seq<Record>, order: seq<int>)
    requires order != [] && InRange(order, |customers|)
    ensures var r := Reorder(customers, order, true, true);
      |r| == |order| && forall k :: 0 <= k < |order| ==> r[k] == customers[order[k]]
  {
    assert 0 <= order[0] < |customers|;
    assert Reorder(customers, order, true, true) == Pick(customers, order);
  }

  /** With only a start postcode the last customer is the destination and stays last. */
  lemma ReorderStartOnly(customers: seq<Record>, order: seq<int>)
    requires order != [] && |customers| > 1 && InRange(order, |customers| - 1)
    ensures var r := Reorder(customers, order, true, false);
      && |r| == |order| + 1
      && r[|order|] == customers[|customers| - 1]
      && forall k :: 0 <= k < |order| ==> r[k] == customers[order[k]]
  {
  }

  /** With only an end postcode the first customer is the origin and stays first. */
  lemma ReorderEndOnly(customers: seq<Record>, order: seq<int>)
    requires order != [] && |customers| > 1 && InRange(order, |customers| - 1)
    ensures var r := Reorder(customers, order, false, true);
      && |r| == |order| + 1
      && r[0] == customers[0]
      && forall k :: 0 <= k < |order| ==> r[k + 1] == customers[order[k] + 1]
  {
  }

  /** With neither, the first and the last customer are the origin and the destination. */
  lemma ReorderNoAnchor(customers: seq<Record>, order: seq<int>)
    requires order != [] && |customers| > 2 && InRange(order, |customers| - 2)
    ensures var r := Reorder(customers, order, false, false);
      && |r| == |order| + 2
      && r[0] == customers[0]
      && r[|order| + 1] == customers[|customers| - 1]
      && forall k :: 0 <= k < |order| ==> r[k + 1] == customers[order[k] + 1]
  {
  }

  /** Where the list is returned unchanged: no order, no customers, too few customers for the
      anchors, or an index outside the slice. The start-and-end branch alone answers `[]` to
      an index out of range. */
  lemma ReorderFallbacks(customers: seq<Record>, order: seq<int>, hasStart: bool, hasEnd: bool)
    ensures order == [] || customers == [] ==> Reorder(customers, order, hasStart, hasEnd) == customers
    ensures order != [] && customers != [] && hasStart && hasEnd && !InRange(order, |customers|)
      ==> Reorder(customers, order, hasStart, hasEnd) == []
    ensures order != [] && (hasStart != hasEnd) && (|customers| <= 1 || !InRange(order, |customers| - 1))
      ==> Reorder(customers, order, hasStart, hasEnd) == customers
    ensures order != [] && !hasStart && !hasEnd && (|customers| <= 2 || !InRange(order, |customers| - 2))
      ==> Reorder(customers, order, hasStart, hasEnd) == customers
  {
  }

  /** `order` lists each of 0..n-1 exactly once. */
  predicate IsPermutation(order: seq<int>, n: nat) {
    multiset(order) == multiset(Range(n))
  }

  lemma {:induction false} PermutationInRange(order: seq<int>, n: nat)
    requires IsPermutation(order, n)
    ensures InRange(order, n)
  {
    forall k | 0 <= k < |order| ensures 0 <= order[k] < n {
      assert order[k] in multiset(order);
      assert order[k] in Range(n);
    }
  }

  lemma PickConcat(xs: seq<Record>, a: seq<int>, b: seq<int>)
    requires InRange(a, |xs|) && InRange(b, |xs|)
    ensures InRange(a + b, |xs|) && Pick(xs, a + b) == Pick(xs, a) + Pick(xs, b)
  {
  }

  lemma PickPrefix(xs: seq<Record>, order: seq<int>, n: nat)
    requires n <= |xs| && InRange(order, n)
    ensures Pick(xs, order) == Pick(xs[..n], order)
  {
  }

  /** Taking the largest position n out of a permutation of 0..n leaves a permutation of 0..n-1. */
  lemma DropLargest(order: seq<int>, n: nat, p: nat)
    requires IsPermutation(order, n + 1) && p < |order| && order[p] == n
    ensures IsPermutation(order[..p] + order[p + 1..], n)
  {
    var rest := order[..p] + order[p + 1..];
    var full: seq<int> := Range(n + 1);
    var short: seq<int> := Range(n);
    assert full == short + [n];
    assert order == order[..p] + [n] + order[p + 1..];
    assert multiset(order) == multiset(order[..p]) + multiset{n} + multiset(order[p + 1..]);
    assert multiset(full) == multiset(short) + multiset{n};
    assert multiset(rest) == multiset(order[..p]) + multiset(order[p + 1..]);
    forall x ensures multiset(rest)[x] == multiset(short)[x] {
      assert (multiset(rest) + multiset{n})[x] == (multiset(short) + multiset{n})[x];
    }
    assert multiset(rest) == multiset(short);
  }

  /** Picking through `order` is picking through `order` without its entry at p, plus that entry. */
  lemma PickSplit(xs: seq<Record>, order: seq<int>, p: nat)
    requires InRange(order, |xs|) && p < |order|
    ensures InRange(order[..p] + order[p + 1..], |xs|)
    ensures multiset(Pick(xs, order)) == multiset(Pick(xs, order[..p] + order[p + 1..])) + multiset{xs[order[p]]}
  {
    var a, o, b := order[..p], order[p], order[p + 1..];
    assert order == (a + [o]) + b;
    InRangeParts(order, |xs|, p);
    PickConcat(xs, a, b);
    PickConcat(xs, a, [o]);
    PickConcat(xs, a + [o], b);
    assert Pick(xs, [o]) == [xs[o]];
  }

  lemma InRangeParts(order: seq<int>, n: nat, p: nat)
    requires InRange(order, n) && p < |order|
    ensures InRange(order[..p], n) && InRange([order[p]], n) && InRange(order[p + 1..], n)
  {
    assert forall k :: p + 1 <= k < |order| ==> order[p + 1..][k - p - 1] == order[k];
  }

  /** Picking by a permutation of the positions rearranges the list and loses nothing. */
  lemma {:induction false} PickPermutes(xs: seq<Record>, order: seq<int>)
    requires IsPermutation(order, |xs|)
    ensures InRange(order, |xs|) && multiset(Pick(xs, order)) == multiset(xs)
    decreases |xs|
  {
    PermutationInRange(order, |xs|);
    if xs == [] {
      assert multiset(order) == multiset([]);
      assert order == [];
    } else {
      var n := |xs| - 1;
      assert Range(|xs|)[n] == n;
      assert n in multiset(order);
      var p :| 0 <= p < |order| && order[p] == n;
      var rest := order[..p] + order[p + 1..];
      DropLargest(order, n, p);
      PermutationInRange(rest, n);
      PickPermutes(xs[..n], rest);
      PickPrefix(xs, rest, n);
      PickSplit(xs, order, p);
      assert xs == xs[..n] + [xs[n]];
    }
  }

  lemma PermutationLength(order: seq<int>, n: nat)
    requires IsPermutation(order, n)
    ensures |order| == n
  {
    assert |multiset(order)| == |order|;
    assert |multiset(Range(n))| == |Range(n)|;
  }

  /** When the provider's order is a permutation of the intermediate positions, the returned
      list is a rearrangement of the selected customers. */
  lemma ReorderPermutes(customers: seq<Record>, order: seq<int>, hasStart: bool, hasEnd: bool)
    requires var m := |customers| - (if hasStart then 0 else 1) - (if hasEnd then 0 else 1);
      m >= 1 && IsPermutation(order, m)
    ensures multiset(Reorder(customers, order, hasStart, hasEnd)) == multiset(customers)
  {
    var n := |customers|;
    ghost var m := n - (if hasStart then 0 else 1) - (if hasEnd then 0 else 1);
    PermutationLength(order, m);
    if hasStart && hasEnd {
      PickPermutes(customers, order);
    } else if hasStart {
      KeepLast(customers, order);
    } else if hasEnd {
      KeepFirst(customers, order);
    } else {
      KeepBoth(customers, order);
    }
  }

  /** Only a start: the last customer stays last, the others are permuted. */
  lemma KeepLast(customers: seq<Record>, order: seq<int>)
    requires |customers| > 1 && IsPermutation(order, |customers| - 1) && order != []
    ensures multiset(Reorder(customers, order, true, false)) == multiset(customers)
  {
    var n := |customers|;
    var body := customers[..n - 1];
    PickPermutes(body, order);
    assert customers == body + [customers[n - 1]];
  }

  /** Only an end: the first customer stays first, the others are permuted. */
  lemma KeepFirst(customers: seq<Record>, order: seq<int>)
    requires |customers| > 1 && IsPermutation(order, |customers| - 1) && order != []
    ensures multiset(Reorder(customers, order, false, true)) == multiset(customers)
  {
    var body := customers[1..];
    PickPermutes(body, order);
    assert customers == [customers[0]] + body;
  }

  /** Neither: the first and the last customers stay in place, the others are permuted. */
  lemma KeepBoth(customers: seq<Record>, order: seq<int>)
    requires |customers| > 2 && IsPermutation(order, |customers| - 2) && order != []
    ensures multiset(Reorder(customers, order, false, false)) == multiset(customers)
  {
    var n := |customers|;
    var body := customers[1..n - 1];
    PickPermutes(body, order);
    assert customers == [customers[0]] + body + [customers[n - 1]];
  }

  // ---------------------------------------------------------------- the endpoint

  /** The endpoint's answer: its 400 errors in the order they are raised, or the result body. */
  function Optimize(rows: seq<Record>, req: Request, apiKey: string,
                    geocode: string -> Option<Point>, directions: Directions)
    : Result<RouteResult, RouteError>
  {
    if |req.customerIds| == 0 && !Truthy(req.start) then Err(NeedTwoTotal)
    else
      match Select(rows, req.customerIds)
      case Err(e) => Err(e)
      case Ok(customers) =>
        match Waypoints(customers, req, geocode)
        case Err(e) => Err(e)
        case Ok(w) =>
          if |w| < 2 then Err(NeedTwoValid)
          else
            var answer := ProviderCall(apiKey, w, directions);
            Ok(RouteResult(Reorder(customers, answer.0, Truthy(req.start), Truthy(req.end)),
                           answer.1, w, req.start, req.end))
  }

  /** `optimize_route` */
  method OptimizeRoute(rows: seq<Record>, req: Request, apiKey: string,
                       geocode: string -> Option<Point>, directions: Directions)
    returns (r: Result<RouteResult, RouteError>)
    ensures r == Optimize(rows, req, apiKey, geocode, directions)
  {
    if |req.customerIds| == 0 && !Truthy(req.start) {
      return Err(NeedTwoTotal);
    }
    var selected := Select(rows, req.customerIds);
    if selected.Err? {
      return Err(selected.error);
    }
    var customers := selected.value;
    var built := BuildWaypoints(customers, req, geocode);
    if built.Err? {
      return Err(built.error);
    }
    var waypoints := built.value;
    if |waypoints| < 2 {
      return Err(NeedTwoValid);
    }
    var answer := ProviderCall(apiKey, waypoints, directions);
    var optimized := Reorder(customers, answer.0, Truthy(req.start), Truthy(req.end));
    return Ok(RouteResult(optimized, answer.1, waypoints, req.start, req.end));
  }

  // ---------------------------------------------------------------- properties of the endpoint

  /** No customer ids and no start postcode is refused whatever the geocoder and the provider
      would say: the refusal comes before any lookup. */
  lemma PrecheckFirst(rows: seq<Record>, req: Request, apiKey: string,
                      g1: string -> Option<Point>, d1: Directions,
                      g2: string -> Option<Point>, d2: Directions)
    requires |req.customerIds| == 0 && !Truthy(req.start)
    ensures Optimize(rows, req, apiKey, g1, d1) == Err(NeedTwoTotal)
    ensures Optimize(rows, req, apiKey, g1, d1) == Optimize(rows, req, apiKey, g2, d2)
  {
  }

  /** A start or an end postcode that does not geocode aborts the request. */
  lemma EndpointFailureAborts(rows: seq<Record>, req: Request, apiKey: string,
                              geocode: string -> Option<Point>, directions: Directions)
    requires !(|req.customerIds| == 0 && !Truthy(req.start))
    requires forall k :: 0 <= k < |req.customerIds| ==> IlocIndex(req.customerIds[k], |rows|)
    ensures Truthy(req.start) && geocode(StartQuery(req)).None? ==>
      Optimize(rows, req, apiKey, geocode, directions) == Err(StartNotGeocoded(req.start))
    ensures (!(Truthy(req.start) && geocode(StartQuery(req)).None?) &&
             Truthy(req.end) && geocode(EndQuery(req)).None?) ==>
      Optimize(rows, req, apiKey, geocode, directions) == Err(EndNotGeocoded(req.end))
  {
  }

  /** A successful answer carries `[start]? ++ geocoded customers ++ [end]?` as its waypoints,
      at least two of them, and the customers reordered by the provider's answer. */
  lemma SuccessShape(rows: seq<Record>, req: Request, apiKey: string,
                     geocode: string -> Option<Point>, directions: Directions)
    requires Optimize(rows, req, apiKey, geocode, directions).Ok?
    ensures var res := Optimize(rows, req, apiKey, geocode, directions).value;
      var customers := Select(rows, req.customerIds).value;
      && Select(rows, req.customerIds).Ok?
      && (Truthy(req.start) ==> geocode(StartQuery(req)).Some? && res.waypoints[0] == geocode(StartQuery(req)).value)
      && (Truthy(req.end) ==> geocode(EndQuery(req)).Some? && res.waypoints[|res.waypoints| - 1] == geocode(EndQuery(req)).value)
      && |res.waypoints| >= 2
      && |res.waypoints| == (if Truthy(req.start) then 1 else 0) + |CustomerPoints(customers, geocode)| + (if Truthy(req.end) then 1 else 0)
      && res.optimizedCustomers == Reorder(customers, ProviderCall(apiKey, res.waypoints, directions).0, Truthy(req.start), Truthy(req.end))
  {
  }

  /** Fewer than two waypoints after a clean assembly is refused. */
  lemma TooFewWaypoints(rows: seq<Record>, req: Request, apiKey: string,
                        geocode: string -> Option<Point>, directions: Directions)
    requires !(|req.customerIds| == 0 && !Truthy(req.start))
    requires Select(rows, req.customerIds).Ok?
    requires Waypoints(Select(rows, req.customerIds).value, req, geocode).Ok?
    requires |Waypoints(Select(rows, req.customerIds).value, req, geocode).value| < 2
    ensures Optimize(rows, req, apiKey, geocode, directions) == Err(NeedTwoValid)
  {
  }

  /** When every selected customer geocodes, customer k is waypoint k (after the start, if any). */
  lemma {:induction false} CustomerPointsAligned(cs: seq<Record>, geocode: string -> Option<Point>)
    requires forall i :: 0 <= i < |cs| ==> CustomerCoords(cs[i], geocode).Some?
    ensures |CustomerPoints(cs, geocode)| == |cs|
    ensures forall i :: 0 <= i < |cs| ==> CustomerPoints(cs, geocode)[i] == CustomerCoords(cs[i], geocode).value
  {
    if cs != [] {
      var init := cs[..|cs| - 1];
      assert forall i :: 0 <= i < |init| ==> init[i] == cs[i];
      CustomerPointsAligned(init, geocode);
      var last := CustomerCoords(cs[|cs| - 1], geocode);
      assert last.Some?;
      var ps := CustomerPoints(init, geocode);
      assert CustomerPoints(cs, geocode) == ps + [last.value];
      forall i | 0 <= i < |cs|
        ensures CustomerPoints(cs, geocode)[i] == CustomerCoords(cs[i], geocode).value
      {
        if i < |init| {
          assert (ps + [last.value])[i] == ps[i];
        }
      }
    }
  }

  /** A customer that does not geocode leaves no waypoint: there are fewer points than customers. */
  lemma {:induction false} CustomerPointsDrop(cs: seq<Record>, geocode: string -> Option<Point>, j: nat)
    requires j < |cs| && CustomerCoords(cs[j], geocode).None?
    ensures |CustomerPoints(cs, geocode)| < |cs|
  {
    var init := cs[..|cs| - 1];
    if j < |cs| - 1 {
      assert init[j] == cs[j];
      CustomerPointsDrop(init, geocode, j);
    }
  }

  /** The reordering indexes the selected customers, not the waypoints. Customers a, b, c are
      selected, b does not geocode, a start and an end postcode are given, and the provider
      answers [1, 0] for the two intermediate points (those of a and c). The endpoint returns
      [b, a]: the customer without a location is kept and c is dropped. */
  lemma ReorderIgnoresFailedGeocodes(req: Request, a: Record, b: Record, c: Record,
                                     geocode: string -> Option<Point>, directions: Directions,
                                     apiKey: string, legs: seq<Leg>, s: Point, pa: Point, pc: Point, e: Point)
    requires req.customerIds == [0, 1, 2] && Truthy(req.start) && Truthy(req.end)
    requires geocode(StartQuery(req)) == Some(s) && geocode(EndQuery(req)) == Some(e)
    requires CustomerCoords(a, geocode) == Some(pa) && CustomerCoords(b, geocode) == None
    requires CustomerCoords(c, geocode) == Some(pc)
    requires apiKey != "" && directions([s, pa, pc, e]) == Some(([1, 0], legs))
    ensures Optimize([a, b, c], req, apiKey, geocode, directions)
      == Ok(RouteResult([b, a], legs, [s, pa, pc, e], req.start, req.end))
  {
    var rows := [a, b, c];
    SelectInOrder(rows, req.customerIds);
    PointsSkipFailed(a, b, c, geocode, pa, pc);
    assert Waypoints(rows, req, geocode) == Ok([s, pa, pc, e]) by {
      assert [s] + [pa, pc] + [e] == [s, pa, pc, e];
    }
    SwapFirstTwo(a, b, c);
  }

  lemma SelectInOrder(rows: seq<Record>, ids: seq<int>)
    requires |rows| == 3 && ids == [0, 1, 2]
    ensures Select(rows, ids) == Ok(rows)
  {
    assert forall k :: 0 <= k < 3 ==> IlocIndex(ids[k], 3);
    var sel := Select(rows, ids);
    assert sel.value == rows by {
      forall k | 0 <= k < 3 ensures sel.value[k] == rows[k] {
      }
    }
  }

  lemma PointsSkipFailed(a: Record, b: Record, c: Record, geocode: string -> Option<Point>, pa: Point, pc: Point)
    requires CustomerCoords(a, geocode) == Some(pa) && CustomerCoords(b, geocode) == None
    requires CustomerCoords(c, geocode) == Some(pc)
    ensures CustomerPoints([a, b, c], geocode) == [pa, pc]
  {
    assert [a, b, c][..2] == [a, b] && [a, b][..1] == [a] && [a][..0] == [];
    assert CustomerPoints([a], geocode) == [pa];
    assert CustomerPoints([a, b], geocode) == [pa];
  }

  lemma SwapFirstTwo(a: Record, b: Record, c: Record)
    ensures Reorder([a, b, c], [1, 0], true, true) == [b, a]
  {
    assert InRange([1, 0], 3);
  }
}
