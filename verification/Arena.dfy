/** Generational identities. */
module ArenaModel {
  import opened Wrappers

  // An id names a slot and its occupant, and never a later occupant.

  const U32_MAX: nat := 0xFFFF_FFFF

  datatype Id = Id(index: nat, generation: nat)

  datatype Slot<T> = Slot(generation: nat, value: Option<T>)

  datatype Slots<T> = Slots(slots: seq<Slot<T>>, free: seq<nat>)

  function Nothing<T>(): Slots<T> { Slots([], []) }

  predicate Unique(s: seq<nat>) {
    forall i, j :: 0 <= i < j < |s| ==> s[i] != s[j]
  }

  /** The free list names vacant slots, each once; indices and generations fit 32 bits. */
  predicate Inv<T>(a: Slots<T>) {
    && |a.slots| <= U32_MAX + 1
    && (forall k :: 0 <= k < |a.slots| ==> a.slots[k].generation <= U32_MAX)
    && (forall k :: 0 <= k < |a.free| ==> a.free[k] < |a.slots| && a.slots[a.free[k]].value.None?)
    && Unique(a.free)
  }

  // ---------------------------------------------------------------- operations

  function NextGeneration(current: nat): Option<nat> {
    if current == U32_MAX then None else Some(current + 1)
  }

  function IndexForLen(len: nat): Option<nat> {
    if len > U32_MAX then None else Some(len)
  }

  /** Newest free slot first; one whose generation cannot advance is dropped for good. */
  function Inserted<T>(a: Slots<T>, value: T): (Slots<T>, Option<Id>)
    requires Inv(a)
    decreases |a.free|
  {
    if a.free != [] then
      var index, rest := a.free[|a.free| - 1], a.(free := a.free[..|a.free| - 1]);
      match NextGeneration(a.slots[index].generation)
      case None => Inserted(rest, value)
      case Some(generation) =>
        (rest.(slots := a.slots[index := Slot(generation, Some(value))]), Some(Id(index, generation)))
    else match IndexForLen(|a.slots|)
      case None => (a, None)
      case Some(index) => (a.(slots := a.slots + [Slot(0, Some(value))]), Some(Id(index, 0)))
  }

  function Get<T>(a: Slots<T>, id: Id): Option<T> {
    if id.index < |a.slots| && a.slots[id.index].generation == id.generation then a.slots[id.index].value else None
  }

  function Removed<T>(a: Slots<T>, id: Id): Slots<T> {
    if Get(a, id).None? then a
    else Slots(a.slots[id.index := Slot(id.generation, None)], a.free + [id.index])
  }

  /** Indices of the slots that hold a value, in order. */
  function Occupied<T>(slots: seq<Slot<T>>): (live: seq<nat>)
    ensures forall k :: k in live <==> 0 <= k < |slots| && slots[k].value.Some?
    ensures Unique(live)
  {
    if slots == [] then []
    else
      var last := |slots| - 1;
      var before := Occupied(slots[..last]);
      assert forall k :: 0 <= k < |before| ==> before[k] in before;
      before + (if slots[last].value.Some? then [last] else [])
  }

  function Emptied<T>(slots: seq<Slot<T>>): (vacant: seq<Slot<T>>)
    ensures |vacant| == |slots| && forall k :: 0 <= k < |slots| ==> vacant[k] == slots[k].(value := None)
  {
    if slots == [] then [] else Emptied(slots[..|slots| - 1]) + [slots[|slots| - 1].(value := None)]
  }

  function Cleared<T>(a: Slots<T>): Slots<T> {
    Slots(Emptied(a.slots), a.free + Occupied(a.slots))
  }

  // ---------------------------------------------------------------- what an arena means

  /** The values that resolve, by id. */
  function Live<T>(a: Slots<T>): map<Id, T> {
    map k | 0 <= k < |a.slots| && a.slots[k].value.Some? :: Id(k, a.slots[k].generation) := a.slots[k].value.value
  }

  /** Ids handed out so far: every generation a slot has been through. */
  predicate Issued<T>(a: Slots<T>, id: Id) {
    id.index < |a.slots| && id.generation <= a.slots[id.index].generation
  }

  lemma GetIsLookup<T>(a: Slots<T>, id: Id)
    ensures Get(a, id) == if id in Live(a) then Some(Live(a)[id]) else None
  {
    assert id in Live(a) <==>
      exists k :: 0 <= k < |a.slots| && a.slots[k].value.Some? && Id(k, a.slots[k].generation) == id;
    if Get(a, id).Some? {
      assert Id(id.index, a.slots[id.index].generation) == id;
    }
  }

  /** Free slots that can still be reused. */
  function Reusable<T>(slots: seq<Slot<T>>, free: seq<nat>): nat
    requires forall k :: 0 <= k < |free| ==> free[k] < |slots|
  {
    if free == [] then 0
    else
      var last := |free| - 1;
      Reusable(slots, free[..last]) + (if slots[free[last]].generation < U32_MAX then 1 else 0)
  }

  /** How many inserts in a row will succeed. */
  function Remaining<T>(a: Slots<T>): nat
    requires Inv(a)
  {
    Reusable(a.slots, a.free) + (U32_MAX + 1 - |a.slots|)
  }

  /** Changing slots the list does not mention changes nothing. */
  lemma {:induction false} ReusableElsewhere<T>(a: seq<Slot<T>>, b: seq<Slot<T>>, free: seq<nat>)
    requires |a| <= |b| && forall k :: 0 <= k < |free| ==>
              free[k] < |a| && a[free[k]].generation == b[free[k]].generation
    ensures Reusable(a, free) == Reusable(b, free)
    decreases |free|
  {
    if free == [] {
    } else {
      ReusableElsewhere(a, b, free[..|free| - 1]);
    }
  }

  /** An insert that returned this id: never issued before, it now resolves to its value; every other id
      resolves as it did, and one insert less remains. */
  ghost predicate Gained<T>(a: Slots<T>, b: Slots<T>, id: Id, value: T)
    requires Inv(a) && Inv(b)
  {
    && !Issued(a, id)
    && (forall other :: Issued(b, other) <==> Issued(a, other) || other == id)
    && Live(b) == Live(a)[id := value]
    && Remaining(b) == Remaining(a) - 1
  }

  /** An insert succeeds exactly while capacity remains; a failed one changes no id. */
  lemma {:induction false} InsertIsFresh<T>(a: Slots<T>, value: T)
    requires Inv(a)
    ensures var (b, id) := Inserted(a, value);
            && Inv(b)
            && (id.Some? <==> Remaining(a) > 0)
            && (id.Some? ==> Gained(a, b, id.value, value))
            && (id.None? ==> b.slots == a.slots && Live(b) == Live(a) && Remaining(b) == 0)
    decreases |a.free|
  {
    hide Live, Gained, Issued;
    if a.free == [] {
      if |a.slots| <= U32_MAX {
        AppendedSlot(a, value);
      }
    } else {
      var last := |a.free| - 1;
      if a.slots[a.free[last]].generation == U32_MAX {
        RetiredSlot(a, value);
        var rest := a.(free := a.free[..last]);
        InsertIsFresh(rest, value);
        var (b, id) := Inserted(rest, value);
        if id.Some? { RetiredGains(a, rest, b, id.value, value); }
      } else {
        ReusedSlot(a, value);
      }
    }
  }

  lemma RetiredSlot<T>(a: Slots<T>, value: T)
    requires Inv(a) && a.free != [] && a.slots[a.free[|a.free| - 1]].generation == U32_MAX
    ensures var rest := a.(free := a.free[..|a.free| - 1]);
            Inv(rest) && Live(rest) == Live(a) && Remaining(rest) == Remaining(a)
  {
  }

  lemma RetiredGains<T>(a: Slots<T>, rest: Slots<T>, b: Slots<T>, id: Id, value: T)
    requires Inv(a) && Inv(rest) && Inv(b) && rest.slots == a.slots && Remaining(rest) == Remaining(a)
    requires Live(rest) == Live(a)
    requires Gained(rest, b, id, value)
    ensures Gained(a, b, id, value)
  {
    assert forall other :: Issued(rest, other) <==> Issued(a, other);
  }

  lemma AppendedSlot<T>(a: Slots<T>, value: T)
    requires Inv(a) && a.free == [] && |a.slots| <= U32_MAX
    ensures var b := a.(slots := a.slots + [Slot(0, Some(value))]);
            Inv(b) && Gained(a, b, Id(|a.slots|, 0), value)
  {
    var b, id := a.(slots := a.slots + [Slot(0, Some(value))]), Id(|a.slots|, 0);
    assert forall k :: 0 <= k < |a.slots| ==> b.slots[k] == a.slots[k];
    assert b.slots[|a.slots|] == Slot(0, Some(value));
    LiveByLookup(b, Live(a)[id := value]) by {
      forall other ensures Get(b, other) == Lookup(Live(a)[id := value], other) {
        GetIsLookup(a, other);
      }
    }
  }

  lemma ReusedSlot<T>(a: Slots<T>, value: T)
    requires Inv(a) && a.free != [] && a.slots[a.free[|a.free| - 1]].generation < U32_MAX
    ensures var (b, id) := Inserted(a, value);
            id.Some? && Inv(b) && Gained(a, b, id.value, value) && Remaining(a) > 0
  {
    var (b, id) := Inserted(a, value);
    ReusableElsewhere(a.slots, b.slots, b.free);
    ReusedLive(a, value);
    hide Live;
  }

  lemma ReusedLive<T>(a: Slots<T>, value: T)
    requires Inv(a) && a.free != [] && a.slots[a.free[|a.free| - 1]].generation < U32_MAX
    ensures var (b, id) := Inserted(a, value);
            id.Some? && Live(b) == Live(a)[id.value := value]
  {
    hide Remaining, Reusable;
    var (b, id) := Inserted(a, value);
    LiveByLookup(b, Live(a)[id.value := value]) by {
      forall other ensures Get(b, other) == Lookup(Live(a)[id.value := value], other) {
        GetIsLookup(a, other);
      }
    }
  }

  function Lookup<T>(live: map<Id, T>, id: Id): Option<T> {
    if id in live then Some(live[id]) else None
  }

  lemma LiveByLookup<T>(a: Slots<T>, live: map<Id, T>)
    requires forall id :: Get(a, id) == Lookup(live, id)
    ensures Live(a) == live
  {
    forall id ensures Lookup(Live(a), id) == Lookup(live, id) {
      GetIsLookup(a, id);
      assert Get(a, id) == Lookup(live, id);
    }
    assert forall id :: id in Live(a) <==> Lookup(Live(a), id).Some?;
    assert forall id :: id in live <==> Lookup(live, id).Some?;
    assert forall id :: id in live ==> Lookup(Live(a), id) == Some(Live(a)[id]) && Lookup(live, id) == Some(live[id]);
  }

  /** Removing an id forgets exactly its own value. */
  lemma RemoveForgets<T>(a: Slots<T>, id: Id)
    requires Inv(a)
    ensures Inv(Removed(a, id))
    ensures Live(Removed(a, id)) == Live(a) - {id}
    ensures forall other :: Issued(Removed(a, id), other) <==> Issued(a, other)
  {
    var b := Removed(a, id);
    LiveByLookup(b, Live(a) - {id}) by {
      forall other ensures Get(b, other) == Lookup(Live(a) - {id}, other) {
        GetIsLookup(a, other);
      }
    }
  }

  lemma ClearForgetsAll<T>(a: Slots<T>)
    requires Inv(a)
    ensures Inv(Cleared(a))
    ensures Live(Cleared(a)) == map[]
    ensures forall other :: Issued(Cleared(a), other) <==> Issued(a, other)
    ensures forall k: nat :: k in Cleared(a).free <==> k in a.free || (k < |a.slots| && a.slots[k].value.Some?)
  {
    var b, live := Cleared(a), Occupied(a.slots);
    assert forall k :: 0 <= k < |live| ==> live[k] in live;
    assert forall k :: 0 <= k < |a.free| ==> a.free[k] !in live;
  }

  // ---------------------------------------------------------------- whole runs

  datatype Command<T> = Insert(value: T) | Remove(id: Id) | Clear

  function Apply<T>(a: Slots<T>, c: Command<T>): (Slots<T>, Option<Id>)
    requires Inv(a)
  {
    match c
    case Insert(value) => Inserted(a, value)
    case Remove(id) => (Removed(a, id), None)
    case Clear => (Cleared(a), None)
  }

  /** The arena reached, and for each command the id it returned, if it did. */
  function Run<T>(a: Slots<T>, commands: seq<Command<T>>): (end: (Slots<T>, seq<Option<Id>>))
    requires Inv(a)
    ensures |end.1| == |commands|
    decreases |commands|
  {
    if commands == [] then (a, [])
    else
      KeepsInv(a, commands[0]);
      var (b, id) := Apply(a, commands[0]);
      var (c, ids) := Run(b, commands[1..]);
      (c, [id] + ids)
  }

  lemma KeepsInv<T>(a: Slots<T>, c: Command<T>)
    requires Inv(a)
    ensures Inv(Apply(a, c).0)
    ensures forall id :: Issued(a, id) ==> Issued(Apply(a, c).0, id)
  {
    match c
    case Insert(value) => InsertIsFresh(a, value);
    case Remove(id) => RemoveForgets(a, id);
    case Clear => ClearForgetsAll(a);
  }

  /** The same commands on a plain map from ids to values, given the ids returned. */
  function Expected<T>(live: map<Id, T>, commands: seq<Command<T>>, ids: seq<Option<Id>>): map<Id, T>
    requires |ids| == |commands|
    decreases |commands|
  {
    if commands == [] then live
    else
      var next := match commands[0]
        case Insert(value) => if ids[0].Some? then live[ids[0].value := value] else live
        case Remove(gone) => live - {gone}
        case Clear => map[];
      Expected(next, commands[1..], ids[1..])
  }

  /** An arena is a map: after any run, an id resolves exactly as in the map that ran the same commands. */
  lemma {:induction false} ArenaIsMap<T>(a: Slots<T>, commands: seq<Command<T>>, id: Id)
    requires Inv(a)
    ensures Get(Run(a, commands).0, id) == Lookup(Expected(Live(a), commands, Run(a, commands).1), id)
    decreases |commands|
  {
    hide Inserted, Removed, Cleared, Inv, Live, Get;
    if commands == [] {
      GetIsLookup(a, id);
    } else {
      KeepsInv(a, commands[0]);
      var (b, answer) := Apply(a, commands[0]);
      match commands[0] {
        case Insert(value) => InsertIsFresh(a, value);
        case Remove(gone) => RemoveForgets(a, gone);
        case Clear => ClearForgetsAll(a);
      }
      ArenaIsMap(b, commands[1..], id);
      var ids := Run(b, commands[1..]).1;
      assert ([answer] + ids)[1..] == ids;
    }
  }

  predicate AllFresh<T>(a: Slots<T>, ids: seq<Option<Id>>) {
    && (forall i :: 0 <= i < |ids| && ids[i].Some? ==> !Issued(a, ids[i].value))
    && (forall i, j :: 0 <= i < j < |ids| && ids[i].Some? ==> ids[i] != ids[j])
  }

  /** No run returns an id issued before it, or the same id twice. */
  lemma {:induction false} IdsNeverRepeat<T>(a: Slots<T>, commands: seq<Command<T>>)
    requires Inv(a)
    ensures AllFresh(a, Run(a, commands).1)
    decreases |commands|
  {
    hide Inserted, Removed, Cleared, Inv, Issued, Live, Remaining;
    if commands == [] {
    } else {
      KeepsInv(a, commands[0]);
      var (b, id) := Apply(a, commands[0]);
      IdsNeverRepeat(b, commands[1..]);
      if commands[0].Insert? {
        InsertIsFresh(a, commands[0].value);
      }
    }
  }

  /** An id that was issued and no longer resolves never resolves again, through any reuse of its slot. */
  lemma {:induction false} StaleForever<T>(a: Slots<T>, commands: seq<Command<T>>, id: Id)
    requires Inv(a) && Issued(a, id) && Get(a, id).None?
    ensures Get(Run(a, commands).0, id).None?
    decreases |commands|
  {
    hide Inserted, Removed, Cleared, Inv, Issued, Get, Live;
    if commands == [] {
    } else {
      var c := commands[0];
      KeepsInv(a, c);
      var b := Apply(a, c).0;
      GetIsLookup(a, id);
      GetIsLookup(b, id);
      match c {
        case Insert(value) => InsertIsFresh(a, value);
        case Remove(gone) => RemoveForgets(a, gone);
        case Clear => ClearForgetsAll(a);
      }
      StaleForever(b, commands[1..], id);
    }
  }

  function Inserts<T>(values: seq<T>): seq<Command<T>> {
    if values == [] then [] else [Insert(values[0])] + Inserts(values[1..])
  }

  /** Of any number of inserts in a row, exactly as many succeed as capacity remained. */
  lemma {:induction false} RemainingIsExact<T>(a: Slots<T>, values: seq<T>)
    requires Inv(a)
    ensures var ids := Run(a, Inserts(values)).1;
            |ids| == |values| && forall i :: 0 <= i < |ids| ==> (ids[i].Some? <==> i < Remaining(a))
    decreases |values|
  {
    hide Inserted, Removed, Cleared, Inv, Issued, Live, Remaining;
    if values == [] {
    } else {
      InsertIsFresh(a, values[0]);
      var commands := Inserts(values);
      assert commands[0] == Insert(values[0]) && commands[1..] == Inserts(values[1..]);
      var (b, id) := Inserted(a, values[0]);
      RemainingIsExact(b, values[1..]);
      var ids := Run(b, Inserts(values[1..])).1;
      assert forall i :: 0 < i < |ids| + 1 ==> ([id] + ids)[i] == ids[i - 1];
    }
  }

  /** A freed slot is reused before the arena grows: the one freed last, under its next generation. */
  lemma ReusesNewest<T>(a: Slots<T>, id: Id, value: T)
    requires Inv(a) && Get(a, id).Some? && id.generation < U32_MAX
    ensures var freed := Removed(a, id);
            Inv(freed) && Inserted(freed, value).1 == Some(Id(id.index, id.generation + 1))
            && |Inserted(freed, value).0.slots| == |a.slots|
  {
    RemoveForgets(a, id);
  }

  /** With nothing free the next index is taken, in its first generation. */
  lemma GrowsWhenFull<T>(a: Slots<T>, value: T)
    requires Inv(a) && a.free == [] && |a.slots| <= U32_MAX
    ensures Inserted(a, value).1 == Some(Id(|a.slots|, 0))
  {
  }

  /** While nothing is removed every insert takes a new slot. */
  lemma {:induction false} InsertsGrow<T>(a: Slots<T>, values: seq<T>)
    requires Inv(a) && a.free == [] && |a.slots| + |values| <= U32_MAX + 1
    ensures var b := Run(a, Inserts(values)).0;
            Inv(b) && b.free == [] && |b.slots| == |a.slots| + |values|
    decreases |values|
  {
    hide Live, Gained, Issued, Remaining;
    if values == [] {
    } else {
      var commands := Inserts(values);
      assert commands[0] == Insert(values[0]) && commands[1..] == Inserts(values[1..]);
      InsertIsFresh(a, values[0]);
      InsertsGrow(Inserted(a, values[0]).0, values[1..]);
    }
  }

  /** 2^32 inserts in a row reach an arena with every index in use: nothing more can be inserted, and the
      preflight count underflows. */
  lemma FullArenaIsReached<T>(values: seq<T>)
    requires |values| == U32_MAX + 1
    ensures var full := Run(Nothing(), Inserts(values)).0;
            Inv(full) && |full.slots| == U32_MAX + 1 && Remaining(full) == 0
  {
    InsertsGrow(Nothing<T>(), values);
  }

  /** The newest free slot is reused, or dropped and the next one tried. */
  lemma PopSlot<T>(a: Slots<T>, value: T)
    requires Inv(a) && a.free != []
    ensures var index, rest := a.free[|a.free| - 1], a.(free := a.free[..|a.free| - 1]);
            && index < |a.slots| && Inv(rest)
            && match NextGeneration(a.slots[index].generation)
               case None => Inserted(a, value) == Inserted(rest, value)
               case Some(generation) =>
                 Inserted(a, value)
                 == (rest.(slots := a.slots[index := Slot(generation, Some(value))]), Some(Id(index, generation)))
  {
  }

  lemma NoFreeSlot<T>(a: Slots<T>, value: T)
    requires Inv(a) && a.free == []
    ensures Inserted(a, value) ==
            match IndexForLen(|a.slots|)
            case None => (a, None)
            case Some(index) => (a.(slots := a.slots + [Slot(0, Some(value))]), Some(Id(index, 0)))
  {
  }

  // ---------------------------------------------------------------- the arena object

  class Arena<T> {
    var slots: seq<Slot<T>>
    var free: seq<nat>

    function Value(): Slots<T>
      reads this
    {
      Slots(slots, free)
    }

    ghost predicate Valid()
      reads this
    {
      Inv(Value())
    }

    constructor ()
      ensures Valid() && Value() == Nothing()
    {
      slots, free := [], [];
    }

    method TryInsert(value: T) returns (id: Option<Id>)
      requires Valid()
      modifies this
      ensures Valid() && (Value(), id) == Inserted(old(Value()), value)
      ensures id.Some? <==> Remaining(old(Value())) > 0
      ensures id.Some? ==> !Issued(old(Value()), id.value) && Live(Value()) == Live(old(Value()))[id.value := value]
      ensures id.None? ==> Live(Value()) == Live(old(Value()))
    {
      InsertIsFresh(Value(), value);
      hide Live, Gained, Issued, Remaining, Inserted, Inv;
      while free != []
        invariant Inv(Value()) && Inserted(Value(), value) == Inserted(old(Value()), value)
        decreases |free|
      {
        PopSlot(Value(), value);
        var index := free[|free| - 1];
        free := free[..|free| - 1];
        var generation := NextGeneration(slots[index].generation);
        if generation.Some? {
          slots := slots[index := Slot(generation.value, Some(value))];
          return Some(Id(index, generation.value));
        }
      }
      NoFreeSlot(Value(), value);
      var index := IndexForLen(|slots|);
      if index.None? {
        return None;
      }
      slots := slots + [Slot(0, Some(value))];
      return Some(Id(index.value, 0));
    }

    method Get(id: Id) returns (value: Option<T>)
      requires Valid()
      ensures value == if id in Live(Value()) then Some(Live(Value())[id]) else None
    {
      GetIsLookup(Value(), id);
      if id.index < |slots| && slots[id.index].generation == id.generation {
        return slots[id.index].value;
      }
      return None;
    }

    method Remove(id: Id) returns (value: Option<T>)
      requires Valid()
      modifies this
      ensures Valid() && Value() == Removed(old(Value()), id) && Live(Value()) == Live(old(Value())) - {id}
      ensures value == if id in Live(old(Value())) then Some(Live(old(Value()))[id]) else None
    {
      RemoveForgets(Value(), id);
      GetIsLookup(Value(), id);
      if id.index >= |slots| || slots[id.index].generation != id.generation {
        return None;
      }
      value := slots[id.index].value;
      if value.None? {
        return None;
      }
      slots := slots[id.index := Slot(id.generation, None)];
      free := free + [id.index];
    }

    method Clear()
      requires Valid()
      modifies this
      ensures Valid() && Value() == Cleared(old(Value())) && Live(Value()) == map[]
    {
      ClearForgetsAll(Value());
      var live := Occupied(slots);
      var k := 0;
      ghost var before := slots;
      while k < |slots|
        invariant 0 <= k <= |slots| == |before| && free == old(free)
        invariant forall j :: 0 <= j < k ==> slots[j] == before[j].(value := None)
        invariant forall j :: k <= j < |slots| ==> slots[j] == before[j]
        decreases |slots| - k
      {
        slots := slots[k := slots[k].(value := None)];
        k := k + 1;
      }
      assert slots == Emptied(before);
      free := free + live;
    }

    /** The preflight count: one less than the inserts that will succeed, and on a full index space the
        subtraction underflows (None). */
    method InsertCapacity() returns (capacity: Option<nat>)
      requires Valid()
      ensures capacity.None? <==> |slots| == U32_MAX + 1
      ensures capacity.Some? ==> capacity.value + 1 == Remaining(Value())
    {
      var reusable := 0;
      for k := 0 to |free|
        invariant reusable == Reusable(slots, free[..k])
      {
        assert free[..k + 1][..k] == free[..k];
        if slots[free[k]].generation < U32_MAX {
          reusable := reusable + 1;
        }
      }
      assert free[..|free|] == free;
      if |slots| > U32_MAX {
        return None;
      }
      return Some(reusable + (U32_MAX - |slots|));
    }
  }
}
