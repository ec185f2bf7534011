/** The order of a reviewed batch. */
module BatchPlan {
  import opened Wrappers
  import opened Permutations

  // Ownership of names, dependency edges, and the order in which the approved steps run.

  datatype Kind = CreateFile | CreateDirectory | Rename | Copy | Trash | Remove | Restore | Store

  datatype EntryKind = File | Directory

  /** A name in one namespace; a path is its list of components. */
  datatype Location = Location(filesystem: nat, path: seq<string>)

  /** A name and what was seen there during preparation, if anything. */
  datatype Located = Located(location: Location, value: Option<EntryKind>)

  /** `fromBuffer` marks a copy whose content is the editor's buffer, not the stored source. */
  datatype Intent = Intent(kind: Kind, source: Option<Location>, destination: Option<Location>, fromBuffer: bool) {
    function Location(): Option<Location> {
      if source.Some? then source else destination
    }
  }

  datatype Operation = Operation(intent: Intent, source: Option<Located>, destination: Option<Located>,
                                 parents: seq<Located>, dependencies: seq<nat>)

  /** One constructor per refusal the planner words itself; the kernel's own refusals are opaque. */
  datatype Refusal =
    | DestinationOwnedTwice
    | SourceOwnedTwice
    | ParentChildOverlap
    | ParentNotCreated
    | DestinationNotVacated
    | CyclicGraph
    | DuplicateOrderEntry
    | BatchTooLong
    | ParentChainTooLong
    | NoResource
    | CrossNamespace
    | ForeignNamespace
    | KernelRefused(code: nat)

  function SourceOf(step: Operation): Option<Location> {
    if step.source.Some? then Some(step.source.value.location) else None
  }

  function DestinationOf(step: Operation): Option<Location> {
    if step.destination.Some? then Some(step.destination.value.location) else None
  }

  predicate Vacates(step: Operation) {
    step.intent.kind in {Rename, Trash, Remove, Restore}
  }

  // ---------------------------------------------------------------- ownership

  predicate SameDestination(a: Operation, b: Operation) {
    a.destination.Some? && DestinationOf(a) == DestinationOf(b)
  }

  predicate SourceClash(a: Operation, b: Operation) {
    a.source.Some? && SourceOf(a) == SourceOf(b) && (Vacates(a) || Vacates(b))
  }

  predicate StrictlyUnder(inner: Location, outer: Location) {
    inner.filesystem == outer.filesystem && outer.path < inner.path
  }

  /** The child names something below the directory the parent operates on. */
  predicate Overlaps(parent: Operation, child: Operation) {
    parent.source.Some? && parent.source.value.value == Some(Directory)
    && ((child.source.Some? && StrictlyUnder(child.source.value.location, parent.source.value.location))
        || (child.destination.Some? && StrictlyUnder(child.destination.value.location, parent.source.value.location)))
  }

  predicate Compatible(a: Operation, b: Operation) {
    !SameDestination(a, b) && !SourceClash(a, b) && !Overlaps(a, b) && !Overlaps(b, a)
  }

  ghost predicate Separate(steps: seq<Operation>) {
    forall i, j :: 0 <= j < i < |steps| ==> Compatible(steps[i], steps[j])
  }

  /** The names a step touches. */
  function Touched(step: Operation): set<Location> {
    (if step.source.Some? then {step.source.value.location} else {})
    + if step.destination.Some? then {step.destination.value.location} else {}
  }

  /** Two steps of one batch clash over exactly three things: one destination, one source that either takes away, or
      a name of one strictly below a directory that is the source of the other. Two copies of one file do not. */
  lemma ClashMeans(a: Operation, b: Operation)
    ensures !Compatible(a, b) <==>
            || (a.destination.Some? && b.destination.Some?
                && a.destination.value.location == b.destination.value.location)
            || (a.source.Some? && b.source.Some? && a.source.value.location == b.source.value.location
                && (a.intent.kind in {Rename, Trash, Remove, Restore}
                    || b.intent.kind in {Rename, Trash, Remove, Restore}))
            || (exists name :: name in Touched(b) && a.source.Some? && a.source.value.value == Some(Directory)
                               && name.filesystem == a.source.value.location.filesystem
                               && a.source.value.location.path < name.path)
            || (exists name :: name in Touched(a) && b.source.Some? && b.source.value.value == Some(Directory)
                               && name.filesystem == b.source.value.location.filesystem
                               && b.source.value.location.path < name.path)
  {
  }

  /** The refusal tells what some two steps clash over. */
  ghost predicate ClashNamed(steps: seq<Operation>, refusal: Refusal) {
    exists i, j :: 0 <= j < i < |steps|
      && match refusal
         case DestinationOwnedTwice => SameDestination(steps[i], steps[j])
         case SourceOwnedTwice => SourceClash(steps[i], steps[j])
         case ParentChildOverlap => Overlaps(steps[i], steps[j]) || Overlaps(steps[j], steps[i])
         case _ => false
  }

  method CheckOwnership(steps: seq<Operation>) returns (refusal: Option<Refusal>)
    ensures refusal.None? <==> Separate(steps)
    ensures refusal.Some? ==> ClashNamed(steps, refusal.value)
  {
    for index := 0 to |steps|
      invariant Separate(steps[..index])
    {
      var step := steps[index];
      for k := 0 to index
        invariant forall j :: 0 <= j < k ==> Compatible(step, steps[j])
      {
        var other := steps[k];
        if step.destination.Some? && DestinationOf(step) == DestinationOf(other) {
          assert !Compatible(steps[index], steps[k]);
          return Some(DestinationOwnedTwice);
        }
        if step.source.Some? && SourceOf(step) == SourceOf(other) && (Vacates(step) || Vacates(other)) {
          assert !Compatible(steps[index], steps[k]);
          return Some(SourceOwnedTwice);
        }
        if Overlaps(step, other) || Overlaps(other, step) {
          assert !Compatible(steps[index], steps[k]);
          return Some(ParentChildOverlap);
        }
      }
    }
    assert steps[..|steps|] == steps;
    return None;
  }

  lemma SeparatePair(steps: seq<Operation>, i: nat, j: nat)
    requires Separate(steps) && i < |steps| && j < |steps| && i != j
    ensures Compatible(steps[i], steps[j])
  {
    assert Compatible(steps[if i < j then j else i], steps[if i < j then i else j]);
  }

  // ---------------------------------------------------------------- edges

  /** What a step needs an earlier one to have done: create a parent, or vacate its destination. */
  datatype Want = Makes(location: Location) | Frees(location: Location)

  predicate Meets(step: Operation, want: Want) {
    match want
    case Makes(location) => step.intent.kind.CreateDirectory? && DestinationOf(step) == Some(location)
    case Frees(location) => Vacates(step) && SourceOf(step) == Some(location)
  }

  function MissingParents(parents: seq<Located>): (wants: seq<Want>)
    ensures forall want :: want in wants <==>
              want.Makes? && exists p :: p in parents && p.value.None? && want.location == p.location
  {
    if parents == [] then []
    else
      assert parents == [parents[0]] + parents[1..];
      (if parents[0].value.None? then [Makes(parents[0].location)] else []) + MissingParents(parents[1..])
  }

  /** A Store's occupied destination is its own affair and never waits for a vacating step. */
  function Wants(step: Operation): seq<Want> {
    MissingParents(step.parents)
    + if !step.intent.kind.Store? && step.destination.Some? && step.destination.value.value.Some?
      then [Frees(step.destination.value.location)] else []
  }

  /** A step waits for every parent it found missing to be created, and for an occupied destination to be moved,
      trashed, removed or restored away, unless it is a Store. */
  lemma WantsMean(step: Operation, other: Operation, location: Location)
    ensures Makes(location) in Wants(step) <==> Located(location, None) in step.parents
    ensures Frees(location) in Wants(step) <==>
              step.intent.kind != Store && step.destination.Some? && step.destination.value.value.Some?
              && step.destination.value.location == location
    ensures Meets(other, Makes(location)) <==>
              other.intent.kind == CreateDirectory && other.destination.Some?
              && other.destination.value.location == location
    ensures Meets(other, Frees(location)) <==>
              other.intent.kind in {Rename, Trash, Remove, Restore} && other.source.Some?
              && other.source.value.location == location
  {
    forall p | p in step.parents && p.value.None? && p.location == location ensures p == Located(location, None) {
    }
  }

  /** The first step from `from` on that meets the want. */
  function Position(steps: seq<Operation>, want: Want, from: nat): (found: Option<nat>)
    requires from <= |steps|
    ensures found.None? ==> forall k :: from <= k < |steps| ==> !Meets(steps[k], want)
    ensures found.Some? ==> from <= found.value < |steps| && Meets(steps[found.value], want)
                            && forall k :: from <= k < found.value ==> !Meets(steps[k], want)
    decreases |steps| - from
  {
    if from == |steps| then None
    else if Meets(steps[from], want) then Some(from)
    else Position(steps, want, from + 1)
  }

  ghost predicate Met(steps: seq<Operation>, want: Want) {
    exists k :: 0 <= k < |steps| && Meets(steps[k], want)
  }

  ghost predicate AllMet(steps: seq<Operation>) {
    forall i, want :: 0 <= i < |steps| && want in Wants(steps[i]) ==> Met(steps, want)
  }

  /** Edge list of a step: for each want, the first step that meets it. */
  ghost predicate EdgesMeet(steps: seq<Operation>, wants: seq<Want>, edges: seq<nat>) {
    |edges| == |wants| && forall e :: 0 <= e < |wants| ==> Position(steps, wants[e], 0) == Some(edges[e])
  }

  /** The refusal tells which kind of want some step has that no step meets. */
  ghost predicate NamesUnmet(steps: seq<Operation>, refusal: Refusal) {
    exists i, want :: 0 <= i < |steps| && want in Wants(steps[i]) && !Met(steps, want) && refusal == Unmet(want)
  }

  method BuildEdges(steps: seq<Operation>) returns (edges: Result<seq<seq<nat>>, Refusal>)
    ensures edges.Success? <==> AllMet(steps)
    ensures edges.Success? ==>
              |edges.value| == |steps|
              && forall i :: 0 <= i < |steps| ==> EdgesMeet(steps, Wants(steps[i]), edges.value[i])
    ensures edges.Failure? ==> edges.error in {ParentNotCreated, DestinationNotVacated}
    ensures edges.Failure? ==> NamesUnmet(steps, edges.error)
  {
    var out: seq<seq<nat>> := [];
    for index := 0 to |steps|
      invariant |out| == index
      invariant forall i :: 0 <= i < index ==> EdgesMeet(steps, Wants(steps[i]), out[i])
    {
      var own := EdgesOf(steps, Wants(steps[index]));
      if own.Failure? {
        ghost var want :| want in Wants(steps[index]) && !Met(steps, want) && own.error == Unmet(want);
        assert NamesUnmet(steps, own.error);
        return Failure(own.error);
      }
      out := out + [own.value];
    }
    forall i, want | 0 <= i < |steps| && want in Wants(steps[i]) ensures Met(steps, want) {
      var w :| 0 <= w < |Wants(steps[i])| && Wants(steps[i])[w] == want;
      assert EdgesMeet(steps, Wants(steps[i]), out[i]);
    }
    return Success(out);
  }

  function Unmet(want: Want): Refusal {
    if want.Makes? then ParentNotCreated else DestinationNotVacated
  }

  method EdgesOf(steps: seq<Operation>, wants: seq<Want>) returns (own: Result<seq<nat>, Refusal>)
    ensures own.Success? ==> EdgesMeet(steps, wants, own.value)
    ensures own.Failure? ==> exists want :: want in wants && !Met(steps, want) && own.error == Unmet(want)
  {
    var edges: seq<nat> := [];
    for w := 0 to |wants|
      invariant EdgesMeet(steps, wants[..w], edges)
    {
      var found := FindStep(steps, wants[w]);
      if found.None? {
        assert wants[w] in wants && !Met(steps, wants[w]);
        return Failure(Unmet(wants[w]));
      }
      edges := edges + [found.value];
    }
    assert wants[..|wants|] == wants;
    return Success(edges);
  }

  method FindStep(steps: seq<Operation>, want: Want) returns (found: Option<nat>)
    ensures found == Position(steps, want, 0)
  {
    var k := 0;
    while k < |steps|
      invariant 0 <= k <= |steps|
      invariant Position(steps, want, 0) == Position(steps, want, k)
    {
      if Meets(steps[k], want) {
        return Some(k);
      }
      k := k + 1;
    }
    return None;
  }

  // ---------------------------------------------------------------- order

  ghost predicate EdgesValid(edges: seq<seq<nat>>) {
    forall i, d :: 0 <= i < |edges| && d in edges[i] ==> d < |edges|
  }

  ghost predicate Walk(edges: seq<seq<nat>>, path: seq<nat>) {
    && (forall k :: 0 <= k < |path| ==> path[k] < |edges|)
    && forall k :: 0 <= k < |path| - 1 ==> path[k + 1] in edges[path[k]]
  }

  /** A walk along edges that returns to its start. */
  ghost predicate Cycle(edges: seq<seq<nat>>, path: seq<nat>) {
    |path| >= 2 && path[0] == path[|path| - 1] && Walk(edges, path)
  }

  ghost predicate Cyclic(edges: seq<seq<nat>>) {
    exists path :: Cycle(edges, path)
  }

  /** Every dependency is placed before the step that needs it. */
  ghost predicate Ready(edges: seq<seq<nat>>, placed: seq<nat>, i: nat)
    requires i < |edges|
  {
    forall d :: d in edges[i] ==> d in placed
  }

  ghost predicate Respects(edges: seq<seq<nat>>, order: seq<nat>) {
    Within(order, |edges|)
    && forall k :: 0 <= k < |order| ==> Ready(edges, order[..k], order[k])
  }

  /** Each place goes to the earliest step that could take it. */
  ghost predicate Earliest(edges: seq<seq<nat>>, order: seq<nat>)
    requires Within(order, |edges|)
  {
    forall k, i: nat :: 0 <= k < |order| && i < order[k] && i !in order[..k] ==> !Ready(edges, order[..k], i)
  }

  /** Greedy topological order: repeatedly the first step whose dependencies are all placed. */
  method Order(edges: seq<seq<nat>>) returns (order: Option<seq<nat>>)
    requires EdgesValid(edges)
    ensures order.None? <==> Cyclic(edges)
    ensures order.Some? ==> Covers(order.value, |edges|) && Respects(edges, order.value)
                            && Earliest(edges, order.value)
  {
    var placed: seq<nat> := [];
    var included := seq(|edges|, _ => false);
    while |placed| < |edges|
      invariant |included| == |edges|
      invariant Respects(edges, placed) && Earliest(edges, placed)
      invariant forall i: nat :: i < |edges| ==> (included[i] <==> i in placed)
      invariant forall a, b :: 0 <= a < b < |placed| ==> placed[a] != placed[b]
      invariant |placed| <= |edges|
    {
      var next := NextReady(edges, included, placed);
      if next.None? {
        StuckIsCyclic(edges, placed);
        return None;
      }
      included := included[next.value := true];
      AppendRespects(edges, placed, next.value);
      placed := placed + [next.value];
    }
    InjectiveCovers(placed, |edges|);
    OrderedIsAcyclic(edges, placed);
    return Some(placed);
  }

  method NextReady(edges: seq<seq<nat>>, included: seq<bool>, ghost placed: seq<nat>) returns (next: Option<nat>)
    requires EdgesValid(edges) && |included| == |edges|
    requires forall i: nat :: i < |edges| ==> (included[i] <==> i in placed)
    ensures next.None? ==> forall i: nat :: i < |edges| && i !in placed ==> !Ready(edges, placed, i)
    ensures next.Some? ==> next.value < |edges| && next.value !in placed && Ready(edges, placed, next.value)
                           && forall i: nat :: i < next.value && i !in placed ==> !Ready(edges, placed, i)
  {
    for index := 0 to |edges|
      invariant forall i: nat :: i < index && i !in placed ==> !Ready(edges, placed, i)
    {
      var ready := true;
      for e := 0 to |edges[index]|
        invariant ready <==> forall d :: 0 <= d < e ==> edges[index][d] in placed
      {
        assert edges[index][e] in edges[index];
        if !included[edges[index][e]] {
          ready := false;
        }
      }
      if !included[index] && ready {
        return Some(index);
      }
    }
    return None;
  }

  lemma AppendRespects(edges: seq<seq<nat>>, placed: seq<nat>, next: nat)
    requires Respects(edges, placed) && Earliest(edges, placed)
    requires next < |edges| && Ready(edges, placed, next)
    requires forall i: nat :: i < next && i !in placed ==> !Ready(edges, placed, i)
    ensures Respects(edges, placed + [next]) && Earliest(edges, placed + [next])
  {
    var longer := placed + [next];
    forall k | 0 <= k < |longer| ensures Ready(edges, longer[..k], longer[k]) {
      assert longer[..k] == placed[..k];
      if k == |placed| { assert placed[..k] == placed; }
    }
    forall k, i: nat | 0 <= k < |longer| && i < longer[k] && i !in longer[..k]
      ensures !Ready(edges, longer[..k], i)
    {
      assert longer[..k] == placed[..k];
      if k == |placed| { assert placed[..k] == placed; }
    }
  }

  /** When nothing is ready, following unplaced dependencies must come back to a step seen before. */
  lemma StuckIsCyclic(edges: seq<seq<nat>>, placed: seq<nat>)
    requires EdgesValid(edges) && |placed| < |edges|
    requires Within(placed, |edges|) && forall a, b :: 0 <= a < b < |placed| ==> placed[a] != placed[b]
    requires forall i: nat :: i < |edges| && i !in placed ==> !Ready(edges, placed, i)
    ensures Cyclic(edges)
  {
    TooShortToCover(placed, |edges|);
    var start: nat :| start < |edges| && start !in placed;
    FollowToCycle(edges, placed, [start], RangeSet(|edges|));
  }

  /** Extend a walk through unplaced steps until it meets itself. */
  lemma {:induction false} FollowToCycle(edges: seq<seq<nat>>, placed: seq<nat>, path: seq<nat>, unseen: set<nat>)
    requires EdgesValid(edges) && |path| > 0 && Walk(edges, path)
    requires forall k :: 0 <= k < |path| ==> path[k] !in placed
    requires forall i: nat :: i < |edges| && i !in path ==> i in unseen
    requires forall i: nat :: i < |edges| && i !in placed ==> !Ready(edges, placed, i)
    ensures Cyclic(edges)
    decreases unseen
  {
    var last := path[|path| - 1];
    assert !Ready(edges, placed, last);
    var next :| next in edges[last] && next !in placed;
    var longer := path + [next];
    assert Walk(edges, longer) by {
      forall k | 0 <= k < |longer| - 1 ensures longer[k + 1] in edges[longer[k]] {
        if k < |path| - 1 { assert path[k + 1] in edges[path[k]]; }
      }
    }
    if next in path {
      var k :| 0 <= k < |path| && path[k] == next;
      assert Cycle(edges, longer[k..]);
    } else {
      assert next in unseen;
      FollowToCycle(edges, placed, longer, unseen - {next});
    }
  }

  /** An order that respects every edge leaves no walk that returns to its start. */
  lemma OrderedIsAcyclic(edges: seq<seq<nat>>, order: seq<nat>)
    requires Covers(order, |edges|) && Respects(edges, order)
    ensures !Cyclic(edges)
  {
    forall path ensures !Cycle(edges, path) {
      if Cycle(edges, path) {
        CoversIsInjective(order, |edges|);
        var places := WalkDescends(edges, order, path, |path| - 1);
        assert false;
      }
    }
  }

  /** Along a walk the places in the order strictly fall: the place of the first node and of node n. */
  lemma {:induction false} WalkDescends(edges: seq<seq<nat>>, order: seq<nat>, path: seq<nat>, n: nat)
    returns (places: (nat, nat))
    requires Covers(order, |edges|) && Respects(edges, order)
    requires forall a, b :: 0 <= a < b < |order| ==> order[a] != order[b]
    requires Walk(edges, path) && 0 < n < |path|
    ensures places.0 < |order| && places.1 < |order|
    ensures order[places.0] == path[0] && order[places.1] == path[n]
    ensures places.1 < places.0
    decreases n
  {
    var before: nat;
    if n == 1 {
      assert path[0] in order;
      before :| 0 <= before < |order| && order[before] == path[0];
      places := (before, before);
    } else {
      places := WalkDescends(edges, order, path, n - 1);
      before := places.1;
    }
    assert path[n - 1 + 1] in edges[path[n - 1]];
    assert Ready(edges, order[..before], order[before]);
    var later :| 0 <= later < before && order[later] == path[n];
    places := (places.0, later);
  }

  // ---------------------------------------------------------------- the plan

  /** The approved steps in running order, each dependency renamed to the place of the step it meant. */
  ghost predicate Reordered(steps: seq<Operation>, edges: seq<seq<nat>>, order: seq<nat>, out: seq<Operation>) {
    && |edges| == |steps| && Covers(order, |steps|) && Within(order, |steps|)
    && |out| == |steps|
    && forall k :: 0 <= k < |out| ==>
         out[k] == steps[order[k]].(dependencies := out[k].dependencies)
         && Renamed(edges[order[k]], order, out[k].dependencies, k)
  }

  ghost predicate Renamed(own: seq<nat>, order: seq<nat>, dependencies: seq<nat>, place: nat) {
    |dependencies| == |own| && place <= |order|
    && forall e :: 0 <= e < |own| ==> dependencies[e] < place && order[dependencies[e]] == own[e]
  }

  /** Order a checked batch in place. The duplicate-entry refusal can never be produced, and a batch
      is refused as cyclic exactly when its edges have a cycle. */
  method Dependencies(steps: seq<Operation>)
    returns (result: Result<seq<Operation>, Refusal>, ghost edges: seq<seq<nat>>, ghost order: seq<nat>)
    ensures result.Success? ==>
              Reordered(steps, edges, order, result.value) && Within(order, |edges|) && Earliest(edges, order)
    ensures result.Success? || result == Failure(CyclicGraph) ==>
              |edges| == |steps| && forall i :: 0 <= i < |steps| ==> EdgesMeet(steps, Wants(steps[i]), edges[i])
    ensures result.Success? <==> Separate(steps) && AllMet(steps) && !Cyclic(edges)
    ensures result == Failure(CyclicGraph) <==> Separate(steps) && AllMet(steps) && Cyclic(edges)
    ensures result != Failure(DuplicateOrderEntry)
    ensures result.Failure? && result.error in {ParentNotCreated, DestinationNotVacated} ==>
              Separate(steps) && NamesUnmet(steps, result.error)
    ensures result.Failure? && result.error !in {ParentNotCreated, DestinationNotVacated, CyclicGraph} ==>
              ClashNamed(steps, result.error)
  {
    edges, order := [], [];
    var refusal := CheckOwnership(steps);
    if refusal.Some? {
      return Failure(refusal.value), [], [];
    }
    var built := BuildEdges(steps);
    if built.Failure? {
      return Failure(built.error), [], [];
    }
    edges := built.value;
    var found := Order(built.value);
    if found.None? {
      return Failure(CyclicGraph), edges, [];
    }
    order := found.value;
    result := Rewrite(steps, built.value, found.value);
  }

  method Rewrite(steps: seq<Operation>, edges: seq<seq<nat>>, order: seq<nat>)
    returns (result: Result<seq<Operation>, Refusal>)
    requires |edges| == |steps| && EdgesValid(edges)
    requires Covers(order, |steps|) && Respects(edges, order)
    ensures result.Success? && Reordered(steps, edges, order, result.value)
  {
    CoversIsInjective(order, |steps|);
    var newIndex: seq<nat> := seq(|steps|, _ => 0);
    for index := 0 to |order|
      invariant |newIndex| == |steps|
      invariant forall k :: 0 <= k < index ==> newIndex[order[k]] == k
    {
      newIndex := newIndex[order[index] := index];
    }
    var held: seq<Option<Operation>> := seq(|steps|, i requires 0 <= i < |steps| => Some(steps[i]));
    var out: seq<Operation> := [];
    for k := 0 to |order|
      invariant |out| == k && |held| == |steps|
      invariant forall j :: k <= j < |order| ==> held[order[j]] == Some(steps[order[j]])
      invariant forall j :: 0 <= j < k ==>
                  out[j] == steps[order[j]].(dependencies := out[j].dependencies)
                  && Renamed(edges[order[j]], order, out[j].dependencies, j)
    {
      var index := order[k];
      if held[index].None? {
        return Failure(DuplicateOrderEntry);
      }
      var operation := held[index].value;
      held := held[index := None];
      var renamed := RenameEdges(edges, order, newIndex, k);
      out := out + [operation.(dependencies := renamed)];
    }
    return Success(out);
  }

  method RenameEdges(edges: seq<seq<nat>>, order: seq<nat>, newIndex: seq<nat>, k: nat) returns (renamed: seq<nat>)
    requires EdgesValid(edges) && |order| == |edges| == |newIndex| && k < |order| && Respects(edges, order)
    requires forall j :: 0 <= j < |order| ==> newIndex[order[j]] == j
    ensures Renamed(edges[order[k]], order, renamed, k)
  {
    var own := edges[order[k]];
    renamed := [];
    for e := 0 to |own|
      invariant Renamed(own[..e], order, renamed, k)
    {
      assert Ready(edges, order[..k], order[k]) && own[e] in own;
      var j :| 0 <= j < k && order[j] == own[e];
      renamed := renamed + [newIndex[own[e]]];
    }
    assert own[..|own|] == own;
  }

  // ---------------------------------------------------------------- what running may rely on

  /** The running order as the executor sees it: names owned once, and every want met by a listed
      dependency that runs earlier. */
  ghost predicate Planned(plan: seq<Operation>) {
    && Separate(plan)
    && (forall i :: 0 <= i < |plan| ==> Within(plan[i].dependencies, i))
    && forall i, want :: 0 <= i < |plan| && want in Wants(plan[i]) ==> MetEarlier(plan, i, want)
  }

  ghost predicate MetEarlier(plan: seq<Operation>, i: nat, want: Want)
    requires i < |plan|
  {
    exists d: nat :: d in plan[i].dependencies && d < i && Meets(plan[d], want)
  }

  /** No dependency is listed that meets no want. */
  ghost predicate EachNeeded(plan: seq<Operation>) {
    forall i, d :: 0 <= i < |plan| && d in plan[i].dependencies ==> Needed(plan, i, d)
  }

  ghost predicate Needed(plan: seq<Operation>, i: nat, d: nat)
    requires i < |plan|
  {
    d < |plan| && exists want :: want in Wants(plan[i]) && Meets(plan[d], want)
  }

  lemma ReorderedIsNeeded(steps: seq<Operation>, edges: seq<seq<nat>>, order: seq<nat>, plan: seq<Operation>)
    requires Reordered(steps, edges, order, plan)
    requires forall i :: 0 <= i < |steps| ==> EdgesMeet(steps, Wants(steps[i]), edges[i])
    ensures EachNeeded(plan)
  {
    hide Wants, Meets, Position;
    forall i, d | 0 <= i < |plan| && d in plan[i].dependencies ensures Needed(plan, i, d) {
      DependencyIsNeeded(steps, edges, order, plan, i, d);
    }
  }

  lemma DependencyIsNeeded(steps: seq<Operation>, edges: seq<seq<nat>>, order: seq<nat>, plan: seq<Operation>,
                           i: nat, d: nat)
    requires Reordered(steps, edges, order, plan) && i < |plan| && d in plan[i].dependencies
    requires forall k :: 0 <= k < |steps| ==> EdgesMeet(steps, Wants(steps[k]), edges[k])
    ensures Needed(plan, i, d)
  {
    hide Wants;
    var e :| 0 <= e < |plan[i].dependencies| && plan[i].dependencies[e] == d;
    SameWants(steps[order[i]], plan[i]);
    assert Renamed(edges[order[i]], order, plan[i].dependencies, i);
    var want := Wants(plan[i])[e];
    assert Position(steps, want, 0) == Some(order[d]);
    assert Meets(plan[d], want);
  }

  lemma SameWants(step: Operation, renamed: Operation)
    requires renamed == step.(dependencies := renamed.dependencies)
    ensures Wants(renamed) == Wants(step)
  {
  }

  lemma ReorderedIsPlanned(steps: seq<Operation>, edges: seq<seq<nat>>, order: seq<nat>, plan: seq<Operation>)
    requires Separate(steps) && Reordered(steps, edges, order, plan)
    requires forall i :: 0 <= i < |steps| ==> EdgesMeet(steps, Wants(steps[i]), edges[i])
    ensures Planned(plan) && EachNeeded(plan)
    ensures multiset(Bare(plan)) == multiset(Bare(steps))
  {
    CoversIsInjective(order, |steps|);
    ReorderedIsNeeded(steps, edges, order, plan);
    forall i, j | 0 <= j < i < |plan| ensures Compatible(plan[i], plan[j]) {
      SeparatePair(steps, order[i], order[j]);
    }
    forall i, want | 0 <= i < |plan| && want in Wants(plan[i]) ensures MetEarlier(plan, i, want) {
    }
    forall i | 0 <= i < |plan| ensures Within(plan[i].dependencies, i) {
      assert Renamed(edges[order[i]], order, plan[i].dependencies, i);
    }
    SelectPermutes(Bare(steps), order);
    assert Bare(plan) == Select(Bare(steps), order);
  }

  /** The steps without the dependencies that ordering fills in. */
  function Bare(steps: seq<Operation>): (out: seq<Operation>)
    ensures |out| == |steps|
    ensures forall k :: 0 <= k < |steps| ==> out[k] == steps[k].(dependencies := [])
  {
    seq(|steps|, k requires 0 <= k < |steps| => steps[k].(dependencies := []))
  }
}
