/** Whole runs of additions to and removals from a region list, growing up (vmalloc) or down (user stacks). */
module RegionRuns {
  import opened Regions

  datatype Op = Add(size: nat) | Remove(index: nat)

  /** A nonempty region is added, or one of the list is removed. */
  predicate Legal(l: seq<Region>, op: Op) {
    match op
    case Add(size) => 0 < size
    case Remove(k) => k < |l|
  }

  function Step(d: Direction, l: seq<Region>, op: Op): seq<Region>
    requires Legal(l, op)
  {
    match op
    case Add(size) => Insert(d, l, size)
    case Remove(k) => l[..k] + l[k + 1..]
  }

  ghost predicate Reaches(d: Direction, l: seq<Region>, ops: seq<Op>, l': seq<Region>)
    decreases |ops|
  {
    if ops == [] then l' == l else Legal(l, ops[0]) && Reaches(d, Step(d, l, ops[0]), ops[1..], l')
  }

  /** There is room at every addition of the run. */
  ghost predicate AlwaysRoom(d: Direction, l: seq<Region>, ops: seq<Op>)
    decreases |ops|
  {
    ops == [] || (Legal(l, ops[0]) && (ops[0].Add? ==> Room(d, l, ops[0].size)) && AlwaysRoom(d, Step(d, l, ops[0]), ops[1..]))
  }

  /** Over every run of additions and removals, upward or downward, in which there is always room, the list stays sorted,
      disjoint and inside the address space. */
  lemma {:induction false} RunKeepsOrdered(d: Direction, l: seq<Region>, ops: seq<Op>, l': seq<Region>)
    requires Ordered(d, l) && Reaches(d, l, ops, l') && AlwaysRoom(d, l, ops)
    ensures Ordered(d, l')
    decreases |ops|
  {
    hide Ordered, Room, Insert;
    if ops != [] {
      StepOrderedIff(d, l, ops[0]);
      RunKeepsOrdered(d, Step(d, l, ops[0]), ops[1..], l');
    }
  }

  /** One step keeps the order exactly if it removes a region or there is room for the one it adds. */
  lemma StepOrderedIff(d: Direction, l: seq<Region>, op: Op)
    requires Ordered(d, l) && Legal(l, op)
    ensures Ordered(d, Step(d, l, op)) <==> (op.Add? ==> Room(d, l, op.size))
  {
    hide Ordered, Room, Insert;
    match op
    case Add(size) => InsertOrderedIff(d, l, size);
    case Remove(k) => RemoveKeepsOrdered(d, l, k);
  }

  /** Every list of the run is ordered if and only if there is room at every addition. */
  lemma {:induction false} RunOrderedIff(d: Direction, l: seq<Region>, ops: seq<Op>, l': seq<Region>)
    requires Ordered(d, l) && Reaches(d, l, ops, l')
    ensures AlwaysRoom(d, l, ops) <==> AlwaysOrdered(d, l, ops)
    decreases |ops|
  {
    hide Ordered, Room, Insert;
    if ops != [] {
      StepOrderedIff(d, l, ops[0]);
      if Ordered(d, Step(d, l, ops[0])) { RunOrderedIff(d, Step(d, l, ops[0]), ops[1..], l'); }
    }
  }

  ghost predicate AlwaysOrdered(d: Direction, l: seq<Region>, ops: seq<Op>)
    decreases |ops|
  {
    Ordered(d, l) && (ops == [] || (Legal(l, ops[0]) && AlwaysOrdered(d, Step(d, l, ops[0]), ops[1..])))
  }
}
