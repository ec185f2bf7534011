/** Batches of replacements and the anchors that survive them. */
module EditMap {
  import opened Wrappers
  import opened Permutations

  // All replacements of a batch are stated in the coordinates of one text: validation, application in
  // reverse order, and anchors.

  /** One replaced range, as the caller submitted it; nothing orders the two ends yet. */
  datatype Span = Span(start: nat, end: nat)

  /** A range and the bytes that take its place. */
  datatype Replacement = Replacement(start: nat, end: nat, text: Bytes) {
    function NewEnd(): nat { start + |text| }
    function Delta(): int { |text| - (end - start) }
  }

  // ---------------------------------------------------------------- validation

  predicate InBounds(span: Span, len: nat) {
    span.start <= span.end <= len
  }

  /** Two edits of one batch that cannot both be meant: equal starts, or one reaching past the
      start of the other. */
  predicate Clash(a: Span, b: Span) {
    a.start == b.start || (a.start <= b.start && a.end > b.start)
  }

  /** What a caller may submit, whatever the order of submission. */
  ghost predicate Acceptable(edits: seq<Span>, len: nat) {
    && (forall i :: 0 <= i < |edits| ==> InBounds(edits[i], len))
    && (forall i, j :: 0 <= i < |edits| && 0 <= j < |edits| && i != j ==> !Clash(edits[i], edits[j]))
  }

  /** The geometry of a validated batch: in bounds, strictly increasing, disjoint. */
  ghost predicate BatchOk(edits: seq<Span>, len: nat) {
    forall i :: 0 <= i < |edits| ==>
      InBounds(edits[i], len)
      && (i + 1 < |edits| ==> edits[i].start < edits[i + 1].start && edits[i].end <= edits[i + 1].start)
  }

  function Spans(entries: seq<(nat, Span)>): (spans: seq<Span>)
    ensures |spans| == |entries|
    ensures forall k :: 0 <= k < |entries| ==> spans[k] == entries[k].1
  {
    seq(|entries|, k requires 0 <= k < |entries| => entries[k].1)
  }

  /** Sorted by start; equal starts keep the order of submission. */
  ghost predicate Before(a: (nat, Span), b: (nat, Span)) {
    a.1.start < b.1.start || (a.1.start == b.1.start && a.0 < b.0)
  }

  ghost predicate Indexed(entries: seq<(nat, Span)>, edits: seq<Span>) {
    forall k :: 0 <= k < |entries| ==> entries[k].0 < |edits| && entries[k].1 == edits[entries[k].0]
  }

  ghost predicate StablySorted(entries: seq<(nat, Span)>) {
    forall a, b :: 0 <= a < b < |entries| ==> Before(entries[a], entries[b])
  }

  function Indices(entries: seq<(nat, Span)>): (indices: seq<nat>)
    ensures |indices| == |entries|
    ensures forall k :: 0 <= k < |entries| ==> indices[k] == entries[k].0
  {
    seq(|entries|, k requires 0 <= k < |entries| => entries[k].0)
  }

  /** The first edits, sorted. */
  ghost predicate SortedPrefix(entries: seq<(nat, Span)>, edits: seq<Span>) {
    && |entries| == |edits|
    && Indexed(entries, edits) && Covers(Indices(entries), |edits|)
    && StablySorted(entries)
    && multiset(Spans(entries)) == multiset(edits)
  }

  /** Insertion sort by start, each edit carrying its index in the submission. */
  method SortByStart(edits: seq<Span>) returns (out: seq<(nat, Span)>)
    ensures |out| == |edits|
    ensures Indexed(out, edits) && Covers(Indices(out), |edits|)
    ensures StablySorted(out)
    ensures multiset(Spans(out)) == multiset(edits)
  {
    hide SortedPrefix, Indexed, StablySorted, Covers;
    out := [];
    assert edits[..0] == [];
    NothingSorted();
    for i := 0 to |edits|
      invariant SortedPrefix(out, edits[..i])
    {
      var j := |out|;
      while j > 0 && out[j - 1].1.start > edits[i].start
        invariant 0 <= j <= |out|
        invariant forall p :: j <= p < |out| ==> out[p].1.start > edits[i].start
      {
        j := j - 1;
      }
      assert edits[..i + 1] == edits[..i] + [edits[i]];
      assert |edits[..i]| == i;
      InsertKeepsSorted(out, edits[..i], j, edits[i]);
      out := out[..j] + [(i, edits[i])] + out[j..];
    }
    assert edits[..|edits|] == edits;
    PrefixIsSorted(out, edits);
  }

  lemma NothingSorted()
    ensures SortedPrefix([], [])
  {
  }

  lemma PrefixIsSorted(entries: seq<(nat, Span)>, edits: seq<Span>)
    requires SortedPrefix(entries, edits)
    ensures |entries| == |edits| && Indexed(entries, edits) && Covers(Indices(entries), |edits|)
    ensures StablySorted(entries) && multiset(Spans(entries)) == multiset(edits)
  {
  }

  lemma InsertKeepsSorted(entries: seq<(nat, Span)>, edits: seq<Span>, j: nat, span: Span)
    requires SortedPrefix(entries, edits) && j <= |entries|
    requires j > 0 ==> entries[j - 1].1.start <= span.start
    requires forall p :: j <= p < |entries| ==> entries[p].1.start > span.start
    ensures SortedPrefix(entries[..j] + [(|edits|, span)] + entries[j..], edits + [span])
  {
    InsertKeepsOrder(entries, edits, j, span);
    InsertKeepsContents(entries, edits, j, span);
  }

  /** Placed after every entry that does not start later, the next edit keeps the list sorted. */
  lemma InsertKeepsOrder(entries: seq<(nat, Span)>, edits: seq<Span>, j: nat, span: Span)
    requires |entries| == |edits| && Indexed(entries, edits) && StablySorted(entries)
    requires j <= |entries|
    requires j > 0 ==> entries[j - 1].1.start <= span.start
    requires forall p :: j <= p < |entries| ==> entries[p].1.start > span.start
    ensures StablySorted(entries[..j] + [(|edits|, span)] + entries[j..])
  {
    var out := entries[..j] + [(|edits|, span)] + entries[j..];
    forall a, b | 0 <= a < b < |out| ensures Before(out[a], out[b]) {
      if b == j && a < j - 1 {
        assert Before(entries[a], entries[j - 1]);
      }
    }
  }

  lemma InsertKeepsContents(entries: seq<(nat, Span)>, edits: seq<Span>, j: nat, span: Span)
    requires |entries| == |edits| && Indexed(entries, edits) && Covers(Indices(entries), |edits|)
    requires multiset(Spans(entries)) == multiset(edits)
    requires j <= |entries|
    ensures var out := entries[..j] + [(|edits|, span)] + entries[j..];
            Indexed(out, edits + [span]) && Covers(Indices(out), |edits| + 1)
            && multiset(Spans(out)) == multiset(edits + [span])
  {
    var out := entries[..j] + [(|edits|, span)] + entries[j..];
    assert Indices(out) == Indices(entries)[..j] + [|edits|] + Indices(entries)[j..];
    forall i: nat | i < |edits| + 1 ensures i in Indices(out) {
      if i == |edits| {
        assert Indices(out)[j] == i;
      } else {
        assert i in Indices(entries);
      }
    }
    assert Spans(out) == Spans(entries)[..j] + [span] + Spans(entries)[j..];
    assert Spans(entries) == Spans(entries)[..j] + Spans(entries)[j..];
  }

  /** Sort by start, then one sweep of bounds and of conflicts with the previous edit. */
  method CheckBatch(len: nat, edits: seq<Span>) returns (out: Result<seq<Span>, ()>)
    ensures out.Success? <==> Acceptable(edits, len)
    ensures out.Success? ==> BatchOk(out.value, len) && multiset(out.value) == multiset(edits)
  {
    var sorted := SortByStart(edits);
    var i := 0;
    while i < |sorted|
      invariant 0 <= i <= |sorted|
      invariant BatchOk(Spans(sorted[..i]), len)
    {
      var span := sorted[i].1;
      if !(span.start <= span.end && span.end <= len) {
        assert !InBounds(edits[sorted[i].0], len);
        return Failure(());
      }
      if i > 0 {
        var previous := sorted[i - 1].1;
        if previous.start == span.start || previous.end > span.start {
          assert Before(sorted[i - 1], sorted[i]);
          assert sorted[i - 1].0 != sorted[i].0 by { IndicesDistinct(sorted, i - 1, i); }
          assert Clash(edits[sorted[i - 1].0], edits[sorted[i].0]);
          return Failure(());
        }
      }
      assert Spans(sorted[..i + 1]) == Spans(sorted[..i]) + [span];
      i := i + 1;
    }
    assert sorted[..i] == sorted;
    BatchIsAcceptable(sorted, edits, len);
    var result := [];
    for k := 0 to |sorted|
      invariant result == Spans(sorted)[..k]
    {
      result := result + [sorted[k].1];
    }
    assert result == Spans(sorted);
    out := Success(result);
  }

  lemma IndicesDistinct(entries: seq<(nat, Span)>, a: nat, b: nat)
    requires a < b < |entries|
    requires StablySorted(entries)
    requires entries[a].0 == entries[b].0 ==> entries[a].1 == entries[b].1
    ensures entries[a].0 != entries[b].0
  {
    assert Before(entries[a], entries[b]);
  }

  lemma {:induction false} Chain(edits: seq<Span>, len: nat, i: nat, j: nat)
    requires BatchOk(edits, len)
    requires i < j < |edits|
    ensures edits[i].start < edits[j].start && edits[i].end <= edits[j].start
    decreases j - i
  {
    if i + 1 == j {
    } else {
      Chain(edits, len, i + 1, j);
    }
  }

  lemma BatchIsAcceptable(entries: seq<(nat, Span)>, edits: seq<Span>, len: nat)
    requires |entries| == |edits| && Indexed(entries, edits) && Covers(Indices(entries), |edits|)
    requires BatchOk(Spans(entries), len)
    ensures Acceptable(edits, len)
  {
    forall i | 0 <= i < |edits| ensures InBounds(edits[i], len) {
      assert i in Indices(entries);
      var k :| 0 <= k < |entries| && Indices(entries)[k] == i;
      assert InBounds(Spans(entries)[k], len);
    }
    forall i, j | 0 <= i < |edits| && 0 <= j < |edits| && i != j ensures !Clash(edits[i], edits[j]) {
      assert i in Indices(entries) && j in Indices(entries);
      var k :| 0 <= k < |entries| && Indices(entries)[k] == i;
      var l :| 0 <= l < |entries| && Indices(entries)[l] == j;
      if k < l {
        Chain(Spans(entries), len, k, l);
      } else {
        Chain(Spans(entries), len, l, k);
        assert InBounds(Spans(entries)[l], len);
      }
    }
  }

  // ---------------------------------------------------------------- application

  function SpansOf(edits: seq<Replacement>): (spans: seq<Span>)
    ensures |spans| == |edits|
    ensures forall k :: 0 <= k < |edits| ==> spans[k] == Span(edits[k].start, edits[k].end)
  {
    seq(|edits|, k requires 0 <= k < |edits| => Span(edits[k].start, edits[k].end))
  }

  /** The edits from position `from` on, in order and disjoint: a tail of a validated batch. */
  ghost predicate Tail(edits: seq<Replacement>, from: nat, len: nat)
  {
    if edits == [] then from <= len
    else from <= edits[0].start <= edits[0].end <= len && Tail(edits[1..], edits[0].end, len)
  }

  /** Validated batches are tails: the recursive form every proof below walks. */
  lemma {:induction false} BatchIsTail(edits: seq<Replacement>, from: nat, len: nat)
    requires BatchOk(SpansOf(edits), len)
    requires from <= len && (edits != [] ==> from <= edits[0].start)
    ensures Tail(edits, from, len)
  {
    if edits == [] {
    } else {
      var spans, rest := SpansOf(edits), SpansOf(edits[1..]);
      assert InBounds(spans[0], len);
      forall i | 0 <= i < |rest|
        ensures InBounds(rest[i], len)
        ensures i + 1 < |rest| ==> rest[i].start < rest[i + 1].start && rest[i].end <= rest[i + 1].start
      {
        assert rest[i] == spans[i + 1];
        assert InBounds(spans[i + 1], len);
        if i + 1 < |rest| { assert rest[i + 1] == spans[i + 2]; }
      }
      if |edits| > 1 { assert spans[0].end <= spans[1].start; }
      BatchIsTail(edits[1..], edits[0].end, len);
    }
  }

  function ReplaceRange(text: Bytes, start: nat, end: nat, inserted: Bytes): Bytes
    requires start <= end <= |text|
  {
    text[..start] + inserted + text[end..]
  }

  /** Reverse application: the last edit first, each at its original coordinates. Nothing before
      the first edit moves, so the pending ranges stay where the batch put them. */
  function ApplyReverse(text: Bytes, edits: seq<Replacement>): (out: Bytes)
    requires Tail(edits, 0, |text|)
    ensures forall from: nat | Tail(edits, from, |text|) :: |out| >= from && out[..from] == text[..from]
  {
    if edits == [] then text
    else
      TailWeakens(edits[1..], edits[0].end, 0, |text|);
      var later := ApplyReverse(text, edits[1..]);
      ReplaceRange(later, edits[0].start, edits[0].end, edits[0].text)
  }

  lemma TailWeakens(edits: seq<Replacement>, from: nat, lower: nat, len: nat)
    requires Tail(edits, from, len) && lower <= from
    ensures Tail(edits, lower, len)
  {
  }

  /** Dropping the first edits of a batch leaves a tail past the end of the last one dropped. */
  lemma {:induction false} TailDrops(edits: seq<Replacement>, from: nat, len: nat, k: nat)
    requires Tail(edits, from, len) && k < |edits|
    ensures Tail(edits[k + 1..], edits[k].end, len)
    ensures edits[k].start <= edits[k].end
    ensures Tail(edits[k..], edits[k].start, len)
  {
    if k == 0 {
    } else {
      TailDrops(edits[1..], edits[0].end, len, k - 1);
      assert edits[1..][k..] == edits[k + 1..] && edits[1..][k - 1..] == edits[k..];
    }
  }

  /** Simultaneous replacement, reading the original once from left to right. */
  function Simultaneous(text: Bytes, edits: seq<Replacement>, from: nat): Bytes
    requires Tail(edits, from, |text|)
  {
    if edits == [] then text[from..]
    else text[from..edits[0].start] + edits[0].text + Simultaneous(text, edits[1..], edits[0].end)
  }

  /** Applying a batch in reverse replaces all its ranges at once. */
  lemma {:induction false} ReverseIsSimultaneous(text: Bytes, edits: seq<Replacement>, from: nat)
    requires Tail(edits, 0, |text|) && Tail(edits, from, |text|)
    ensures ApplyReverse(text, edits) == text[..from] + Simultaneous(text, edits, from)
  {
    if edits == [] {
      assert text == text[..from] + text[from..];
    } else {
      var e := edits[0];
      TailWeakens(edits[1..], e.end, 0, |text|);
      var rest := Simultaneous(text, edits[1..], e.end);
      ReverseIsSimultaneous(text, edits[1..], e.end);
      SpliceAfter(text, rest, from, e);
    }
  }

  lemma SpliceAfter(text: Bytes, rest: Bytes, from: nat, e: Replacement)
    requires from <= e.start <= e.end <= |text|
    ensures ReplaceRange(text[..e.end] + rest, e.start, e.end, e.text)
         == text[..from] + (text[from..e.start] + e.text + rest)
  {
    var later := text[..e.end] + rest;
    assert later[..e.start] == text[..from] + text[from..e.start];
    assert later[e.end..] == rest;
  }

  // ---------------------------------------------------------------- anchors

  /** One anchor through one edit, with right affinity. */
  function MapPosition(position: int, start: int, oldEnd: int, newEnd: int): int {
    if position < start then position
    else if position >= oldEnd then newEnd + (position - oldEnd)
    else start
  }

  /** The anchor as the journal maps it: one edit at a time, in application order. */
  function FoldMap(position: int, edits: seq<Replacement>): int {
    if edits == [] then position
    else MapPosition(FoldMap(position, edits[1..]), edits[0].start, edits[0].end, edits[0].NewEnd())
  }

  /** The anchor in one pass over the original coordinates. */
  function DirectMap(position: int, edits: seq<Replacement>, delta: int): int {
    if edits == [] || position < edits[0].start then position + delta
    else if position >= edits[0].end then DirectMap(position, edits[1..], delta + edits[0].Delta())
    else edits[0].start + delta
  }

  /** No replaced range covers the byte at `position`. */
  ghost predicate Outside(position: int, edits: seq<Replacement>) {
    forall k :: 0 <= k < |edits| ==> !(edits[k].start <= position < edits[k].end)
  }

  lemma {:induction false} DirectMapShifts(position: int, edits: seq<Replacement>, delta: int)
    ensures DirectMap(position, edits, delta) == DirectMap(position, edits, 0) + delta
  {
    if edits == [] || position < edits[0].start || position < edits[0].end {
    } else {
      DirectMapShifts(position, edits[1..], delta + edits[0].Delta());
      DirectMapShifts(position, edits[1..], edits[0].Delta());
    }
  }

  /** Later edits never pull an anchor back across the end of an earlier one. */
  lemma {:induction false} DirectMapStaysPast(position: int, edits: seq<Replacement>, from: nat, len: nat)
    requires Tail(edits, from, len)
    ensures position >= from ==> DirectMap(position, edits, 0) >= from
    ensures position < from ==> DirectMap(position, edits, 0) == position
  {
    if edits == [] || position < edits[0].start || position < edits[0].end {
    } else {
      DirectMapStaysPast(position, edits[1..], edits[0].end, len);
      DirectMapShifts(position, edits[1..], edits[0].Delta());
    }
  }

  /** The fold over the published journal is the one-pass map. */
  lemma {:induction false} FoldIsDirect(position: int, edits: seq<Replacement>, from: nat, len: nat)
    requires Tail(edits, from, len)
    ensures FoldMap(position, edits) == DirectMap(position, edits, 0)
  {
    if edits == [] {
    } else {
      FoldIsDirect(position, edits[1..], edits[0].end, len);
      DirectMapStaysPast(position, edits[1..], edits[0].end, len);
      DirectMapShifts(position, edits[1..], edits[0].Delta());
    }
  }

  lemma {:induction false} FoldMapMonotone(a: int, b: int, edits: seq<Replacement>, from: nat, len: nat)
    requires Tail(edits, from, len)
    requires a <= b
    ensures FoldMap(a, edits) <= FoldMap(b, edits)
  {
    if edits == [] {
    } else {
      FoldMapMonotone(a, b, edits[1..], edits[0].end, len);
    }
  }

  /** Anchors inside the old text land inside the new one. */
  lemma {:induction false} AnchorStaysInBounds(position: nat, text: Bytes, edits: seq<Replacement>, from: nat)
    requires Tail(edits, 0, |text|) && Tail(edits, from, |text|)
    requires position <= |text|
    ensures 0 <= FoldMap(position, edits) <= |ApplyReverse(text, edits)|
  {
    if edits == [] {
    } else {
      TailWeakens(edits[1..], edits[0].end, 0, |text|);
      AnchorStaysInBounds(position, text, edits[1..], edits[0].end);
    }
  }

  /** An anchor outside every replaced range lands on the byte it named. */
  lemma {:induction false} AnchorKeepsByte(position: nat, text: Bytes, edits: seq<Replacement>, from: nat)
    requires Tail(edits, 0, |text|) && Tail(edits, from, |text|)
    requires position < |text| && Outside(position, edits)
    ensures 0 <= FoldMap(position, edits) < |ApplyReverse(text, edits)|
    ensures ApplyReverse(text, edits)[FoldMap(position, edits)] == text[position]
  {
    if edits == [] {
    } else {
      var e := edits[0];
      TailWeakens(edits[1..], e.end, 0, |text|);
      OutsideRest(position, edits);
      AnchorKeepsByte(position, text, edits[1..], e.end);
      FoldIsDirect(position, edits[1..], e.end, |text|);
      DirectMapStaysPast(position, edits[1..], e.end, |text|);
      AnchorThroughOne(ApplyReverse(text, edits[1..]), FoldMap(position, edits[1..]), e);
    }
  }

  lemma OutsideRest(position: int, edits: seq<Replacement>)
    requires edits != [] && Outside(position, edits)
    ensures !(edits[0].start <= position < edits[0].end) && Outside(position, edits[1..])
  {
    forall k | 0 <= k < |edits[1..]| ensures !(edits[1..][k].start <= position < edits[1..][k].end) {
      assert edits[1..][k] == edits[k + 1];
    }
  }

  lemma AnchorThroughOne(text: Bytes, position: nat, e: Replacement)
    requires e.start <= e.end <= |text| && position < |text|
    requires position < e.start || e.end <= position
    ensures var moved, out := MapPosition(position, e.start, e.end, e.NewEnd()),
              ReplaceRange(text, e.start, e.end, e.text);
            0 <= moved < |out| && out[moved] == text[position]
  {
  }

  /** Where every anchor lands: inside a replaced range at the start of what takes its place, else as far on as the
      edits that end before it have moved the text; an insertion right at the anchor stays before it. */
  lemma {:induction false} AnchorLands(position: nat, edits: seq<Replacement>, from: nat, len: nat, k: nat)
    requires Tail(edits, from, len) && k <= |edits|
    requires k > 0 ==> edits[k - 1].end <= position
    ensures k < |edits| && edits[k].start <= position < edits[k].end ==>
              FoldMap(position, edits) == edits[k].start + Shift(edits, k)
    ensures k == |edits| || position < edits[k].start ==> FoldMap(position, edits) == position + Shift(edits, k)
    decreases k
  {
    FoldIsDirect(position, edits, from, len);
    if k == 0 {
    } else {
      RestIsTail(edits, from, len);
      AnchorPassesFirst(position, edits, from, len, k);
      AnchorLands(position, edits[1..], edits[0].end, len, k - 1);
      FoldIsDirect(position, edits[1..], edits[0].end, len);
      DirectMapShifts(position, edits[1..], edits[0].Delta());
      if k < |edits| { ShiftUnfolds(edits, k); }
    }
  }

  lemma {:induction false} AnchorPassesFirst(position: nat, edits: seq<Replacement>, from: nat, len: nat, k: nat)
    requires Tail(edits, from, len) && 0 < k <= |edits| && edits[k - 1].end <= position
    ensures edits[0].start <= edits[0].end <= position
    decreases k
  {
    if k == 1 {
    } else {
      AnchorPassesFirst(position, edits[1..], edits[0].end, len, k - 1);
    }
  }

  /** No shift moves an edit back across the end of what precedes it. */
  lemma {:induction false} ShiftStaysPast(edits: seq<Replacement>, from: nat, len: nat, k: nat)
    requires Tail(edits, from, len) && k < |edits|
    ensures from <= edits[k].start + Shift(edits, k)
  {
    if k == 0 {
    } else {
      ShiftStaysPast(edits[1..], edits[0].end, len, k - 1);
      ShiftUnfolds(edits, k);
    }
  }

  lemma ShiftUnfolds(edits: seq<Replacement>, k: nat)
    requires 0 < k < |edits|
    ensures edits[1..][k - 1] == edits[k] && Shift(edits, k) == edits[0].Delta() + Shift(edits[1..], k - 1)
  {
  }

  /** The inserted bytes of edit k sit at its start, shifted by the edits before it. */
  lemma {:induction false} InsertedTextLands(text: Bytes, edits: seq<Replacement>, from: nat, k: nat)
    requires Tail(edits, 0, |text|) && Tail(edits, from, |text|)
    requires k < |edits|
    ensures from <= edits[k].start + Shift(edits, k)
    ensures StandsAt(ApplyReverse(text, edits), edits[k].start + Shift(edits, k), edits[k].text)
    decreases k
  {
    RestIsTail(edits, from, |text|);
    ShiftStaysPast(edits, from, |text|, k);
    ReverseUnfolds(text, edits);
    hide ApplyReverse, StandsAt, ReplaceRange, Tail;
    if k == 0 {
      StandsOwnText(ApplyReverse(text, edits[1..]), edits[0]);
    } else {
      InsertedTextLands(text, edits[1..], edits[0].end, k - 1);
      LaterTextStands(ApplyReverse(text, edits[1..]), edits, k);
    }
  }

  lemma RestIsTail(edits: seq<Replacement>, from: nat, len: nat)
    requires Tail(edits, from, len) && edits != []
    ensures Tail(edits[1..], edits[0].end, len) && Tail(edits[1..], 0, len)
  {
    TailWeakens(edits[1..], edits[0].end, 0, len);
  }

  lemma LaterTextStands(later: Bytes, edits: seq<Replacement>, k: nat)
    requires 0 < k < |edits| && edits[0].start <= edits[0].end <= |later|
    requires edits[0].end <= edits[1..][k - 1].start + Shift(edits[1..], k - 1)
    requires StandsAt(later, edits[1..][k - 1].start + Shift(edits[1..], k - 1), edits[1..][k - 1].text)
    ensures StandsAt(ReplaceRange(later, edits[0].start, edits[0].end, edits[0].text),
                     edits[k].start + Shift(edits, k), edits[k].text)
  {
    ShiftUnfolds(edits, k);
    hide Shift, StandsAt, ReplaceRange;
    StandsAfterSplice(later, edits[0], edits[1..][k - 1].start + Shift(edits[1..], k - 1), edits[k].text);
  }

  lemma ReverseUnfolds(text: Bytes, edits: seq<Replacement>)
    requires Tail(edits, 0, |text|) && edits != [] && Tail(edits[1..], 0, |text|)
    ensures var e, later := edits[0], ApplyReverse(text, edits[1..]);
            e.start <= e.end <= |later| && ApplyReverse(text, edits) == ReplaceRange(later, e.start, e.end, e.text)
  {
  }

  lemma StandsOwnText(later: Bytes, e: Replacement)
    requires e.start <= e.end <= |later|
    ensures StandsAt(ReplaceRange(later, e.start, e.end, e.text), e.start, e.text)
  {
    assert ReplaceRange(later, e.start, e.end, e.text)[e.start..e.NewEnd()] == e.text;
  }

  predicate StandsAt(text: Bytes, at: int, part: Bytes) {
    0 <= at && at + |part| <= |text| && text[at..at + |part|] == part
  }

  lemma StandsAfterSplice(later: Bytes, e: Replacement, at: int, part: Bytes)
    requires e.start <= e.end <= at && StandsAt(later, at, part)
    ensures StandsAt(ReplaceRange(later, e.start, e.end, e.text), at + e.Delta(), part)
  {
    var out := ReplaceRange(later, e.start, e.end, e.text);
    forall i | 0 <= i < |part| ensures out[at + e.Delta() + i] == part[i] {
      assert out[at + e.Delta() + i] == later[at..at + |part|][i];
    }
  }

  /** Length change of the first k edits of a batch. */
  function Shift(edits: seq<Replacement>, k: nat): int
    requires k <= |edits|
  {
    if k == 0 then 0 else edits[0].Delta() + Shift(edits[1..], k - 1)
  }
}
