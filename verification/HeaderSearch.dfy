/** The binary search for the block whose time is closest to a given one, through a small LRU
    cache of headers. */
module HeaderSearch {
  import opened Wrappers
  import opened Bytes

  /** Block times by number, from genesis to the head. */
  type Chain = seq<uint64>

  datatype Header = Header(number: nat, time: uint64)

  predicate NonDecreasing(c: Chain)
  {
    forall a, b :: 0 <= a <= b < |c| ==> c[a] <= c[b]
  }

  // ----- the node and the cache in front of it -----

  /** A node answers with a header of the chain, or not at all; a reliable one always answers
      about a block that exists. */
  class Node {
    const chain: Chain
    const reliable: bool

    constructor (chain: Chain, reliable: bool)
      ensures this.chain == chain && this.reliable == reliable
    {
      this.chain, this.reliable := chain, reliable;
    }

    method Fetch(number: Option<nat>) returns (r: Result<Header>)
      requires chain != []
      ensures r.Ok? ==>
        && (number.Some? ==> r.value.number == number.value)
        && (number == None ==> r.value.number == |chain| - 1)
        && r.value.number < |chain| && r.value.time == chain[r.value.number]
      ensures reliable && (number.Some? ==> number.value < |chain|) ==> r.Ok?
    {
      var n := if number.Some? then number.value else |chain| - 1;
      if !reliable {
        if * {
          return Err;
        }
      }
      if n >= |chain| {
        return Err;
      }
      r := Ok(Header(n, chain[n]));
    }
  }

  /** All but the header of that number, in their order. */
  function Without(headers: seq<Header>, number: nat): seq<Header>
  {
    if headers == [] then []
    else if headers[0].number == number then Without(headers[1..], number)
    else [headers[0]] + Without(headers[1..], number)
  }

  lemma {:induction false} WithoutAt(headers: seq<Header>, at: nat, number: nat)
    requires at <= |headers|
    requires forall i :: 0 <= i < |headers| ==> (headers[i].number == number <==> i == at)
    ensures Without(headers, number) == if at < |headers| then headers[..at] + headers[at + 1..] else headers
  {
    if headers == [] {
    } else if at == 0 {
      WithoutNone(headers[1..], number);
    } else {
      WithoutAt(headers[1..], at - 1, number);
    }
  }

  lemma {:induction false} WithoutNone(headers: seq<Header>, number: nat)
    requires forall i :: 0 <= i < |headers| ==> headers[i].number != number
    ensures Without(headers, number) == headers
  {
    if headers == [] {
    } else {
      WithoutNone(headers[1..], number);
    }
  }

  /** All others stay behind the header, unless there are `size` of them; then the last one goes. */
  lemma TouchedIs(headers: seq<Header>, h: Header, size: nat)
    requires 0 < size && |headers| <= size
    ensures Touched(headers, h, size)[0] == h
    ensures forall x :: x in headers && x.number != h.number ==>
      || x in Touched(headers, h, size)[1..]
      || (|Without(headers, h.number)| == size && x == Without(headers, h.number)[size - 1])
    ensures forall x :: x in Touched(headers, h, size)[1..] ==> x in headers && x.number != h.number
  {
    WithoutElements(headers, h.number);
    var others := Without(headers, h.number);
    if |others| == size {
      assert others == others[..size - 1] + [others[size - 1]];
    }
  }

  /** Headers of the chain, no two of one number. */
  predicate TrueTo(c: Chain, headers: seq<Header>)
  {
    && (forall i :: 0 <= i < |headers| ==> headers[i].number < |c| && headers[i].time == c[headers[i].number])
    && (forall i, j :: 0 <= i < j < |headers| ==> headers[i].number != headers[j].number)
  }

  lemma {:induction false} WithoutElements(headers: seq<Header>, number: nat)
    ensures forall x :: x in Without(headers, number) <==> x in headers && x.number != number
    ensures |Without(headers, number)| <= |headers|
  {
    if headers == [] {
    } else {
      WithoutElements(headers[1..], number);
      assert headers == [headers[0]] + headers[1..];
    }
  }

  lemma ConsTrueTo(c: Chain, h: Header, rest: seq<Header>)
    requires TrueTo(c, rest) && h.number < |c| && h.time == c[h.number]
    requires forall x :: x in rest ==> x.number != h.number
    ensures TrueTo(c, [h] + rest)
  {
    var headers := [h] + rest;
    forall i, j | 0 <= i < j < |headers|
      ensures headers[i].number != headers[j].number
    {
      assert headers[j] == rest[j - 1] && rest[j - 1] in rest;
    }
  }

  lemma TailTrueTo(c: Chain, headers: seq<Header>)
    requires TrueTo(c, headers) && headers != []
    ensures TrueTo(c, headers[1..]) && forall x :: x in headers[1..] ==> x.number != headers[0].number
  {
  }

  lemma {:induction false} WithoutTrueTo(c: Chain, headers: seq<Header>, number: nat)
    requires TrueTo(c, headers)
    ensures TrueTo(c, Without(headers, number))
  {
    if headers == [] {
    } else {
      TailTrueTo(c, headers);
      WithoutTrueTo(c, headers[1..], number);
      WithoutElements(headers[1..], number);
      ConsTrueTo(c, headers[0], Without(headers[1..], number));
    }
  }

  lemma TouchedTrueTo(c: Chain, headers: seq<Header>, h: Header, size: nat)
    requires TrueTo(c, headers) && 0 < size && h.number < |c| && h.time == c[h.number]
    ensures TrueTo(c, Touched(headers, h, size)) && |Touched(headers, h, size)| <= size
  {
    var others := Without(headers, h.number);
    WithoutTrueTo(c, headers, h.number);
    WithoutElements(headers, h.number);
    var kept := if |others| < size then others else others[..size - 1];
    assert forall x :: x in kept ==> x in others;
    ConsTrueTo(c, h, kept);
  }

  /** The header in front, the others behind it in their order, and the last one dropped when there
      are too many. */
  function Touched(headers: seq<Header>, h: Header, size: nat): seq<Header>
    requires 0 < size
  {
    var others := Without(headers, h.number);
    [h] + if |others| < size then others else others[..size - 1]
  }

  /** The most recently used header first; the last one is dropped when there are too many. */
  class HeaderCache {
    const node: Node
    const size: nat
    var headers: seq<Header>

    ghost predicate Valid()
      reads this
    {
      node.chain != [] && 0 < size && |headers| <= size && TrueTo(node.chain, headers)
    }

    constructor (node: Node, size: nat)
      requires node.chain != [] && 0 < size
      ensures Valid() && this.node == node && this.size == size && headers == []
    {
      this.node, this.size, headers := node, size, [];
    }

    predicate Cached(number: nat)
      reads this
    {
      exists i :: 0 <= i < |headers| && headers[i].number == number
    }

    method Lookup(number: nat) returns (at: nat)
      ensures at <= |headers|
      ensures at < |headers| ==> headers[at].number == number
      ensures at == |headers| ==> !Cached(number)
    {
      at := 0;
      while at < |headers| && headers[at].number != number
        invariant at <= |headers| && forall i :: 0 <= i < at ==> headers[i].number != number
      {
        at := at + 1;
      }
    }

    /** Puts the header in front of the others, replacing one of the same number. */
    method Add(h: Header)
      requires Valid() && h.number < |node.chain| && h.time == node.chain[h.number]
      modifies this`headers
      ensures Valid() && headers == Touched(old(headers), h, size)
    {
      var at := Lookup(h.number);
      WithoutAt(headers, at, h.number);
      TouchedTrueTo(node.chain, headers, h, size);
      var others := if at < |headers| then headers[..at] + headers[at + 1..] else headers;
      if |others| == size {
        others := others[..size - 1];
      }
      headers := [h] + others;
    }

    /** The chain's header whether or not it was cached; a cached one needs no node. */
    method HeaderByNumber(number: Option<nat>) returns (r: Result<Header>)
      requires Valid()
      modifies this`headers
      ensures Valid()
      ensures r.Ok? ==> IsHeader(node.chain, number, r.value)
      ensures number.Some? && old(Cached(number.value)) ==> r.Ok?
      ensures headers == if r.Ok? then Touched(old(headers), r.value, size) else old(headers)
      ensures node.reliable && (number.Some? ==> number.value < |node.chain|) ==> r.Ok?
    {
      if number.Some? {
        var at := Lookup(number.value);
        if at < |headers| {
          r := Ok(headers[at]);
          Add(r.value);
          return;
        }
      }
      r := node.Fetch(number);
      if r.Ok? {
        Add(r.value);
      }
    }
  }

  predicate IsHeader(c: Chain, number: Option<nat>, h: Header)
    requires c != []
  {
    && h.number < |c| && h.time == c[h.number]
    && h.number == if number.Some? then number.value else |c| - 1
  }

  // ----- the search -----

  function GetClosest(c: Chain, lesser: nat, greater: nat, target: nat): nat
    requires lesser < |c| && greater < |c|
  {
    if target - c[lesser] >= c[greater] - target then greater else lesser
  }

  datatype Decision = Found(number: nat) | GoLeft | GoRight

  /** One round: look at `mid` and at the neighbour on the target's side. */
  function Decide(c: Chain, start: nat, mid: nat, target: nat): Decision
    requires 1 <= start <= mid && mid + 1 < |c|
  {
    if c[mid] == target then Found(mid)
    else if target < c[mid] then
      if mid > 0 && target >= c[mid - 1] then Found(GetClosest(c, mid - 1, mid, target)) else GoLeft
    else
      if mid <= |c| - 1 - start && target <= c[mid + 1] then Found(GetClosest(c, mid, mid + 1, target))
      else GoRight
  }

  /** The number that the loop arrives at from the bounds `i` and `j`. */
  function Search(c: Chain, start: nat, i: nat, j: nat, target: nat): (n: nat)
    requires 1 <= start <= i < j < |c|
    decreases j - i
  {
    var mid := (i + j) / 2;
    match Decide(c, start, mid, target)
    case Found(n) => n
    case GoLeft => if i < mid then Search(c, start, i, mid, target) else mid
    case GoRight => if mid + 1 < j then Search(c, start, mid + 1, j, target) else mid
  }

  function StartOf(startHeight: Option<nat>): nat
  {
    if startHeight == None || startHeight.value == 0 then 1 else startHeight.value
  }

  /** The answer of HeaderByTime on a chain that has the start block. */
  function ByTime(c: Chain, start: nat, target: nat): nat
    requires 1 <= start < |c|
  {
    var head := |c| - 1;
    if target <= c[start] then start
    else if target >= c[head] then head
    else if start < head then Search(c, start, start, head, target)
    else 0
  }

  /** How many rounds the loop takes if the node answers. */
  function Rounds(c: Chain, start: nat, i: nat, j: nat, target: nat): nat
    requires 1 <= start <= i < j < |c|
    decreases j - i
  {
    var mid := (i + j) / 2;
    match Decide(c, start, mid, target)
    case Found(n) => 1
    case GoLeft => if i < mid then 1 + Rounds(c, start, i, mid, target) else 1
    case GoRight => if mid + 1 < j then 1 + Rounds(c, start, mid + 1, j, target) else 1
  }

  /** A round that is not the last one halves the width at least. */
  lemma RoundHalves(c: Chain, start: nat, i: nat, j: nat, target: nat) returns (i': nat, j': nat)
    requires 1 <= start <= i < j < |c|
    ensures i <= i' <= j' <= j
    ensures i' == j' ==> Rounds(c, start, i, j, target) == 1
    ensures i' < j' ==> 2 * (j' - i') <= j - i && Rounds(c, start, i, j, target) == 1 + Rounds(c, start, i', j', target)
  {
    var mid := (i + j) / 2;
    match Decide(c, start, mid, target)
    case Found(n) => i', j' := i, i;
    case GoLeft => i', j' := i, mid;
    case GoRight => i', j' := mid + 1, j;
  }

  /** So the rounds are logarithmic in the number of blocks. */
  lemma {:induction false} RoundsLogarithmic(c: Chain, start: nat, i: nat, j: nat, target: nat)
    requires 1 <= start <= i < j < |c|
    ensures Rounds(c, start, i, j, target) >= 1
    ensures Shl(1, Rounds(c, start, i, j, target) - 1) <= j - i
    decreases j - i
  {
    var i', j' := RoundHalves(c, start, i, j, target);
    if i' == j' {
      assert Shl(1, 0) == 1;
    } else {
      RoundsLogarithmic(c, start, i', j', target);
      ShlDouble(1, Rounds(c, start, i', j', target) - 1);
    }
  }

  datatype Probe = Failed | Hit(h: Header) | Left | Right

  predicate Matches(p: Probe, d: Decision, c: Chain)
  {
    match p
    case Failed => true
    case Hit(h) => d == Found(h.number) && h.number < |c| && h.time == c[h.number]
    case Left => d == GoLeft
    case Right => d == GoRight
  }

  /** The body of the search loop. */
  method Round(client: HeaderCache, mid: nat, length: nat, ghost start: nat, target: uint64)
    returns (p: Probe)
    requires client.Valid() && 1 <= start <= mid && mid + 1 < |client.node.chain|
    requires length == |client.node.chain| - start
    modifies client`headers
    ensures client.Valid()
    ensures Matches(p, Decide(client.node.chain, start, mid, target), client.node.chain)
    ensures p.Failed? ==> !client.node.reliable
  {
    var midBlock := client.HeaderByNumber(Some(mid));
    if midBlock.Err? {
      return Failed;
    }
    if midBlock.value.time == target {
      return Hit(midBlock.value);
    }
    if target < midBlock.value.time {
      var midSubBlock := client.HeaderByNumber(Some(mid - 1));
      if midSubBlock.Err? {
        return Failed;
      }
      if mid > 0 && target >= midSubBlock.value.time {
        return Hit(Closer(midSubBlock.value, midBlock.value, target));
      }
      return Left;
    }
    var midPlusBlock := client.HeaderByNumber(Some(mid + 1));
    if midPlusBlock.Err? {
      return Failed;
    }
    if mid <= length - 1 && target <= midPlusBlock.value.time {
      return Hit(Closer(midBlock.value, midPlusBlock.value, target));
    }
    return Right;
  }

  function Closer(lesser: Header, greater: Header, target: nat): Header
  {
    if target - lesser.time >= greater.time - target then greater else lesser
  }

  method HeaderByTime(node: Node, startHeight: Option<nat>, target: uint64)
    returns (r: Result<Header>, ghost rounds: nat)
    requires node.chain != []
    ensures r.Ok? ==>
      && StartOf(startHeight) < |node.chain|
      && r.value.number == ByTime(node.chain, StartOf(startHeight), target) < |node.chain|
      && r.value.time == node.chain[r.value.number]
    ensures node.reliable && StartOf(startHeight) < |node.chain| ==> r.Ok?
    ensures rounds > 0 ==> StartOf(startHeight) < |node.chain| - 1
    ensures rounds > 0 ==>
      rounds <= Rounds(node.chain, StartOf(startHeight), StartOf(startHeight), |node.chain| - 1, target)
  {
    rounds := 0;
    var client := new HeaderCache(node, 4);
    var startBlock := client.HeaderByNumber(Some(StartOf(startHeight)));
    if startBlock.Err? {
      return Err, rounds;
    }
    var endBlock := client.HeaderByNumber(None);
    if endBlock.Err? {
      return Err, rounds;
    }
    if target <= startBlock.value.time {
      return startBlock, rounds;
    }
    if target >= endBlock.value.time {
      return endBlock, rounds;
    }
    var length := endBlock.value.number - startBlock.value.number + 1;
    r, rounds := SearchLoop(client, startBlock.value.number, endBlock.value.number, length, target);
  }

  /** The loop itself, in a logarithmic number of rounds. */
  method SearchLoop(client: HeaderCache, start: nat, head: nat, length: nat, target: uint64)
    returns (r: Result<Header>, ghost rounds: nat)
    requires client.Valid() && 1 <= start < head == |client.node.chain| - 1
    requires length == head - start + 1
    modifies client`headers
    ensures r.Ok? ==>
      && r.value.number == Search(client.node.chain, start, start, head, target) < |client.node.chain|
      && r.value.time == client.node.chain[r.value.number]
    ensures client.node.reliable ==> r.Ok?
    ensures rounds <= Rounds(client.node.chain, start, start, head, target)
  {
    rounds := 0;
    ghost var c := client.node.chain;
    var i, mid, j := start, 0, head;
    while i < j
      invariant client.Valid() && start <= i <= j <= head && mid <= head
      invariant Search(c, start, start, head, target) == if i < j then Search(c, start, i, j, target) else mid
      invariant rounds + (if i < j then Rounds(c, start, i, j, target) else 0)
             <= Rounds(c, start, start, head, target)
      decreases j - i
    {
      mid := (i + j) / 2;
      rounds := rounds + 1;
      var probe := Round(client, mid, length, start, target);
      match probe
      case Failed => return Err, rounds;
      case Hit(h) => return Ok(h), rounds;
      case Left => j := mid;
      case Right => i := mid + 1;
    }
    r := client.HeaderByNumber(Some(mid));
  }

  // ----- what the search finds -----

  function Dist(a: nat, b: nat): nat
  {
    if a < b then b - a else a - b
  }

  /** No block from `lo` on is closer in time, and none as close is later in time. */
  ghost predicate Closest(c: Chain, lo: nat, target: nat, n: nat)
  {
    && lo <= n < |c|
    && forall b :: lo <= b < |c| ==>
         Dist(c[n], target) < Dist(c[b], target)
         || (Dist(c[n], target) == Dist(c[b], target) && c[b] <= c[n])
  }

  /** The target lies between block `n` and one of its neighbours, or outside the range of which
      block `n` is the end. */
  predicate Neighbour(c: Chain, lo: nat, target: nat, n: nat)
  {
    && lo <= n < |c|
    && (target <= c[n] ==> n == lo || c[n] == target || c[n - 1] <= target)
    && (target >= c[n] ==> n == |c| - 1 || c[n] == target || target <= c[n + 1])
  }

  lemma BetweenIsClosest(c: Chain, lo: nat, a: nat, target: nat)
    requires NonDecreasing(c) && lo <= a && a + 1 < |c| && c[a] <= target <= c[a + 1]
    ensures Closest(c, lo, target, GetClosest(c, a, a + 1, target))
  {
    forall b | lo <= b < |c|
      ensures Dist(c[b], target) >= Dist(c[if b <= a then a else a + 1], target)
      ensures b <= a ==> c[b] <= c[a]
    {
    }
  }

  /** From any start, the loop ends at a block next to the target. */
  lemma {:induction false} SearchFindsNeighbour(c: Chain, start: nat, i: nat, j: nat, target: nat)
    requires NonDecreasing(c) && 1 <= start <= i < j < |c|
    requires c[start] < target < c[j] && c[if i == start then start else i - 1] < target
    ensures Neighbour(c, start, target, Search(c, start, i, j, target))
    decreases j - i
  {
    var mid := (i + j) / 2;
    match Decide(c, start, mid, target)
    case Found(n) =>
    case GoLeft => if i < mid { SearchFindsNeighbour(c, start, i, mid, target); }
    case GoRight => if mid + 1 < j { SearchFindsNeighbour(c, start, mid + 1, j, target); }
  }

  lemma DecisionIsClosest(c: Chain, start: nat, mid: nat, target: nat)
    requires NonDecreasing(c) && 1 <= start <= mid && mid + 1 < |c|
    requires Decide(c, start, mid, target).Found? && (mid == start ==> c[start] <= target)
    ensures Closest(c, start, target, Decide(c, start, mid, target).number)
  {
    if c[mid] < target {
      BetweenIsClosest(c, start, mid, target);
    } else if target < c[mid] {
      BetweenIsClosest(c, start, mid - 1, target);
    }
  }

  /** The loop returns from inside: it never runs its bounds together. */
  predicate EndsInside(c: Chain, start: nat, i: nat, j: nat, target: nat)
    requires 1 <= start <= i < j < |c|
    decreases j - i
  {
    var mid := (i + j) / 2;
    match Decide(c, start, mid, target)
    case Found(_) => true
    case GoLeft => i < mid && EndsInside(c, start, i, mid, target)
    case GoRight => mid + 1 < j && EndsInside(c, start, mid + 1, j, target)
  }

  /** Below the point up to which a start height allows the upper neighbour to be taken, the loop
      ends inside. */
  lemma {:induction false} SearchEndsInside(c: Chain, start: nat, i: nat, j: nat, target: nat)
    requires NonDecreasing(c) && 1 <= start <= i < j < |c|
    requires c[i] < target < c[j] && target <= c[|c| - start]
    ensures EndsInside(c, start, i, j, target)
    decreases j - i
  {
    var mid := (i + j) / 2;
    match Decide(c, start, mid, target)
    case Found(n) =>
    case GoLeft => SearchEndsInside(c, start, i, mid, target);
    case GoRight => SearchEndsInside(c, start, mid + 1, j, target);
  }

  /** And it ends at a closest block. */
  lemma {:induction false} SearchFindsClosest(c: Chain, start: nat, i: nat, j: nat, target: nat)
    requires NonDecreasing(c) && 1 <= start <= i < j < |c|
    requires c[i] < target < c[j] && target <= c[|c| - start]
    ensures Closest(c, start, target, Search(c, start, i, j, target))
    decreases j - i
  {
    var mid := (i + j) / 2;
    match Decide(c, start, mid, target)
    case Found(n) => DecisionIsClosest(c, start, mid, target);
    case GoLeft => SearchFindsClosest(c, start, i, mid, target);
    case GoRight => SearchFindsClosest(c, start, mid + 1, j, target);
  }

  /** Among the blocks from the start block on (which is block 1 for no start height, and for 0),
      the answer is one closest in time, of two equally close ones the later. With a start height
      above 1 it is so if the target is not after block head - start + 1. */
  lemma ByTimeIsClosest(c: Chain, startHeight: Option<nat>, target: nat)
    requires NonDecreasing(c) && StartOf(startHeight) < |c|
    requires StartOf(startHeight) == 1 || target <= c[|c| - StartOf(startHeight)]
    ensures Closest(c, StartOf(startHeight), target, ByTime(c, StartOf(startHeight), target))
    ensures c[StartOf(startHeight)] < target < c[|c| - 1] ==>
      EndsInside(c, StartOf(startHeight), StartOf(startHeight), |c| - 1, target)
  {
    var start, head := StartOf(startHeight), |c| - 1;
    if c[start] < target < c[head] {
      SearchEndsInside(c, start, start, head, target);
      SearchFindsClosest(c, start, start, head, target);
    }
  }

  /** Short of the last gap the loop ends at a closest block from every start: the upper neighbour
      that the loop may not take comes up as a middle later, and is compared from there. */
  lemma {:induction false} SearchClosestBeforeLastGap(c: Chain, start: nat, i: nat, j: nat, target: nat)
    requires NonDecreasing(c) && 1 <= start <= i < j < |c|
    requires c[start] < target && c[if i == start then start else i - 1] < target
    requires target < c[j] && (j == |c| - 1 || target < c[j - 1])
    requires target <= c[|c| - 2]
    ensures Closest(c, start, target, Search(c, start, i, j, target))
    decreases j - i
  {
    var mid := (i + j) / 2;
    match Decide(c, start, mid, target)
    case Found(n) => DecisionIsClosest(c, start, mid, target);
    case GoLeft => SearchClosestBeforeLastGap(c, start, i, mid, target);
    case GoRight => SearchClosestBeforeLastGap(c, start, mid + 1, j, target);
  }

  /** The target is strictly between the times of the last two blocks. */
  predicate InLastGap(c: Chain, target: nat)
    requires |c| > 1
  {
    c[|c| - 2] < target < c[|c| - 1]
  }

  /** In the last gap, from a start above 1, the loop runs its bounds together at the lower block. */
  lemma {:induction false} SearchInLastGap(c: Chain, start: nat, i: nat, j: nat, target: nat)
    requires NonDecreasing(c) && 2 <= start <= i < j == |c| - 1 && InLastGap(c, target)
    ensures Search(c, start, i, j, target) == |c| - 2 && !EndsInside(c, start, i, j, target)
    decreases j - i
  {
    var mid := (i + j) / 2;
    assert c[mid] <= c[|c| - 2];
    assert mid < |c| - 2 ==> c[mid + 1] <= c[|c| - 2];
    if mid + 1 < j {
      SearchInLastGap(c, start, mid + 1, j, target);
    }
  }

  /** Exactly when the answer is a closest block among those from the start block on: always from
      block 1, and from a higher start unless the target is in the last gap and not closer to its
      lower end, which is then the answer. */
  lemma ByTimeIsClosestIff(c: Chain, start: nat, target: nat)
    requires NonDecreasing(c) && 1 <= start < |c|
    ensures Closest(c, start, target, ByTime(c, start, target)) <==>
      start == 1 || start == |c| - 1 || !InLastGap(c, target)
      || Dist(c[|c| - 2], target) < Dist(c[|c| - 1], target)
    ensures 1 < start < |c| - 1 && InLastGap(c, target) ==> ByTime(c, start, target) == |c| - 2
  {
    var head := |c| - 1;
    if start == 1 {
      ByTimeIsClosest(c, None, target);
    } else if c[start] < target < c[head] {
      if InLastGap(c, target) {
        SearchInLastGap(c, start, start, head, target);
        assert forall b :: start <= b < head ==> c[b] <= c[head - 1];
      } else {
        SearchClosestBeforeLastGap(c, start, start, head, target);
      }
    }
  }

  /** Outside the range and at its ends no search takes place, whatever other blocks have the same
      time; and a middle of exactly the target's time ends the search. */
  lemma EndsAndHits(c: Chain, start: nat, mid: nat, target: nat)
    requires NonDecreasing(c) && 1 <= start < |c|
    ensures target <= c[start] ==> ByTime(c, start, target) == start
    ensures c[start] < target && c[|c| - 1] <= target ==> ByTime(c, start, target) == |c| - 1
    ensures mid == (start + |c| - 1) / 2 && c[start] < target < c[|c| - 1] && c[mid] == target ==>
      ByTime(c, start, target) == mid
  {
  }

  /** From any start the answer is one of the two blocks around the target. */
  lemma ByTimeIsNeighbour(c: Chain, start: nat, target: nat)
    requires NonDecreasing(c) && 1 <= start < |c|
    ensures Neighbour(c, start, target, ByTime(c, start, target))
  {
    var head := |c| - 1;
    if c[start] < target < c[head] {
      SearchFindsNeighbour(c, start, start, head, target);
    }
  }

  /** Blocks at time 0, and one more at time 11. */
  function LateBlock(start: nat): Chain
  {
    seq(start + 2, n => if n <= start then 0 else 11)
  }

  /** Every start height above 1 is too high for some chain: for the time 10 it returns the block
      that is ten seconds away and not the one that is one second away. */
  lemma HighStartMissesClosest(start: nat)
    requires 2 <= start
    ensures var c := LateBlock(start);
      NonDecreasing(c) && ByTime(c, start, 10) == start && !Closest(c, start, 10, start)
  {
    var c := LateBlock(start);
    assert (start + (start + 1)) / 2 == start;
    assert Dist(c[start + 1], 10) == 1;
  }

  // ----- from genesis -----

  /** The search without a start height, or with 0, is documented to begin at genesis, but it
      begins at block 1. Its answer is a closest block of the whole chain exactly when the target
      is not before block 1, or block 0 is no closer to it than block 1. */
  lemma FromGenesisIff(c: Chain, target: nat)
    requires NonDecreasing(c) && |c| > 1
    ensures Closest(c, 0, target, ByTime(c, 1, target))
       <==> c[1] <= target || Dist(c[1], target) <= Dist(c[0], target)
  {
    ByTimeIsClosest(c, None, target);
    var n := ByTime(c, 1, target);
    if c[1] <= target {
      assert Dist(c[1], target) <= Dist(c[0], target);
      assert Dist(c[n], target) <= Dist(c[1], target);
    } else {
      assert n == 1;
    }
  }

  /** For example: the block at the very time of the target is missed. */
  lemma GenesisMissed()
    ensures var c: Chain := [0, 100];
      && NonDecreasing(c) && StartOf(None) == StartOf(Some(0)) == 1
      && ByTime(c, 1, 0) == 1 && Dist(c[1], 0) == 100 && Dist(c[0], 0) == 0
      && !Closest(c, 0, 0, ByTime(c, 1, 0))
  {
    var c: Chain := [0, 100];
    assert Dist(c[0], 0) == 0;
  }

  /** The first block that a caller may expect to be considered. */
  function DocumentedStart(startHeight: Option<nat>): nat
  {
    if startHeight == None then 0 else startHeight.value
  }

  /** Every chain with the start block gets one of its closest blocks from `lo` on. */
  ghost predicate AlwaysClosest(lo: nat, startHeight: Option<nat>)
  {
    forall c: Chain, target: nat ::
      NonDecreasing(c) && StartOf(startHeight) < |c| ==>
        Closest(c, lo, target, ByTime(c, StartOf(startHeight), target))
  }

  /** The only start height that is right for every chain is 1, measured by what it is documented
      to search; measured by the blocks from the start block on, so are none and 0. */
  lemma SafeStarts(startHeight: Option<nat>)
    ensures AlwaysClosest(DocumentedStart(startHeight), startHeight) <==> startHeight == Some(1)
    ensures AlwaysClosest(StartOf(startHeight), startHeight)
       <==> startHeight == None || startHeight.value <= 1
  {
    var start := StartOf(startHeight);
    if start == 1 {
      forall c: Chain, target: nat | NonDecreasing(c) && start < |c|
        ensures Closest(c, start, target, ByTime(c, start, target))
      {
        ByTimeIsClosest(c, startHeight, target);
      }
      GenesisMissed();
    } else {
      HighStartMissesClosest(start);
    }
  }
}
