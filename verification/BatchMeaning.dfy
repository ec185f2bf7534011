/** What a submitted batch of replacements means, in whatever order it was submitted. */
module BatchMeaning {
  import opened Wrappers
  import opened EditMap

  // ---------------------------------------------------------------- what is kept of a submission

  /** Replacements that change nothing are dropped before validation. */
  predicate Changes(edit: Replacement) {
    edit.start != edit.end || edit.text != []
  }

  function Meant(replacements: seq<Replacement>): seq<Replacement> {
    if replacements == [] then []
    else (if Changes(replacements[0]) then [replacements[0]] else []) + Meant(replacements[1..])
  }

  /** Replacement i of the submission does something and lies in the text. */
  ghost predicate Placed(replacements: seq<Replacement>, len: nat, i: nat)
    requires i < |replacements|
  {
    var e := replacements[i];
    e.start != e.end || e.text != [] ==> e.start <= e.end <= len
  }

  /** Of two replacements that do something one ends before the other starts, or where it starts, but they do not
      both start at once. */
  ghost predicate Parted(replacements: seq<Replacement>, i: nat, j: nat)
    requires i < |replacements| && j < |replacements|
  {
    var a, b := replacements[i], replacements[j];
    (a.start != a.end || a.text != []) && (b.start != b.end || b.text != []) ==>
      (a.end <= b.start && a.start < b.start) || (b.end <= a.start && b.start < a.start)
  }

  /** A batch that can be meant. */
  ghost predicate Submittable(replacements: seq<Replacement>, len: nat) {
    && (forall i :: 0 <= i < |replacements| ==> Placed(replacements, len, i))
    && forall i, j :: 0 <= i < |replacements| && 0 <= j < |replacements| && i != j ==> Parted(replacements, i, j)
  }

  /** Where the k-th kept replacement was submitted. */
  function PlaceOf(replacements: seq<Replacement>, k: nat): nat
    requires k < |Meant(replacements)|
  {
    if Changes(replacements[0]) then if k == 0 then 0 else PlaceOf(replacements[1..], k - 1) + 1
    else PlaceOf(replacements[1..], k) + 1
  }

  lemma {:induction false} PlaceHolds(replacements: seq<Replacement>, k: nat)
    requires k < |Meant(replacements)|
    ensures var i := PlaceOf(replacements, k);
            i < |replacements| && replacements[i] == Meant(replacements)[k] && Changes(replacements[i])
  {
    if Changes(replacements[0]) {
      if k > 0 { PlaceHolds(replacements[1..], k - 1); }
    } else {
      PlaceHolds(replacements[1..], k);
    }
  }

  lemma {:induction false} PlacesDiffer(replacements: seq<Replacement>, k: nat, l: nat)
    requires k < l < |Meant(replacements)|
    ensures PlaceOf(replacements, k) < PlaceOf(replacements, l)
  {
    if Changes(replacements[0]) {
      if k > 0 { PlacesDiffer(replacements[1..], k - 1, l - 1); }
    } else {
      PlacesDiffer(replacements[1..], k, l);
    }
  }

  lemma {:induction false} EachHasPlace(replacements: seq<Replacement>, i: nat) returns (k: nat)
    requires i < |replacements| && Changes(replacements[i])
    ensures k < |Meant(replacements)| && PlaceOf(replacements, k) == i
  {
    if i == 0 {
      k := 0;
    } else {
      k := EachHasPlace(replacements[1..], i - 1);
      if Changes(replacements[0]) { k := k + 1; }
    }
  }

  /** What is validated is acceptable exactly when the submission can be meant. */
  lemma MeantIsSubmitted(replacements: seq<Replacement>, len: nat)
    ensures Acceptable(SpansOf(Meant(replacements)), len) <==> Submittable(replacements, len)
  {
    if Submittable(replacements, len) {
      SubmittableIsAcceptable(replacements, len);
    }
    if Acceptable(SpansOf(Meant(replacements)), len) {
      AcceptableIsSubmittable(replacements, len);
    }
  }

  lemma SubmittableIsAcceptable(replacements: seq<Replacement>, len: nat)
    requires Submittable(replacements, len)
    ensures Acceptable(SpansOf(Meant(replacements)), len)
  {
    hide Meant, PlaceOf;
    var meant := Meant(replacements);
    forall i | 0 <= i < |meant| ensures InBounds(SpansOf(meant)[i], len) {
      PlaceHolds(replacements, i);
      assert Placed(replacements, len, PlaceOf(replacements, i));
    }
    forall i, j | 0 <= i < |meant| && 0 <= j < |meant| && i != j
      ensures !Clash(SpansOf(meant)[i], SpansOf(meant)[j])
    {
      PlaceHolds(replacements, i);
      PlaceHolds(replacements, j);
      if i < j { PlacesDiffer(replacements, i, j); } else { PlacesDiffer(replacements, j, i); }
      assert Parted(replacements, PlaceOf(replacements, i), PlaceOf(replacements, j));
    }
  }

  lemma AcceptableIsSubmittable(replacements: seq<Replacement>, len: nat)
    requires Acceptable(SpansOf(Meant(replacements)), len)
    ensures Submittable(replacements, len)
  {
    hide Meant, PlaceOf;
    var meant := Meant(replacements);
    forall i | 0 <= i < |replacements| ensures Placed(replacements, len, i) {
      if Changes(replacements[i]) {
        var k := EachHasPlace(replacements, i);
        PlaceHolds(replacements, k);
        assert InBounds(SpansOf(meant)[k], len);
      }
    }
    forall i, j | 0 <= i < |replacements| && 0 <= j < |replacements| && i != j ensures Parted(replacements, i, j) {
      if Changes(replacements[i]) && Changes(replacements[j]) {
        var k := EachHasPlace(replacements, i);
        var l := EachHasPlace(replacements, j);
        PlaceHolds(replacements, k);
        PlaceHolds(replacements, l);
        assert !Clash(SpansOf(meant)[k], SpansOf(meant)[l]) && !Clash(SpansOf(meant)[l], SpansOf(meant)[k]);
      }
    }
  }

  /** Each replacement that does something is kept as often as it was submitted, and nothing else is. */
  lemma {:induction false} MeantKeeps(replacements: seq<Replacement>, e: Replacement)
    ensures multiset(Meant(replacements))[e]
         == if e.start == e.end && e.text == [] then 0 else multiset(replacements)[e]
  {
    if replacements == [] {
    } else {
      MeantKeeps(replacements[1..], e);
      assert replacements == [replacements[0]] + replacements[1..];
    }
  }

  // ---------------------------------------------------------------- the text a batch leads to

  /** Sorted and disjoint, a batch is known by what is in it. */
  lemma {:induction false} SortedIsUnique(a: seq<Replacement>, b: seq<Replacement>, len: nat)
    requires BatchOk(SpansOf(a), len) && BatchOk(SpansOf(b), len) && multiset(a) == multiset(b)
    ensures a == b
  {
    hide BatchOk;
    assert |multiset(a)| == |a| && |multiset(b)| == |b|;
    if a == [] {
    } else {
      SameFirst(a, b, len);
      RestIsBatch(a, len);
      RestIsBatch(b, len);
      SortedIsUnique(a[1..], b[1..], len);
      assert a == [a[0]] + a[1..] && b == [b[0]] + b[1..];
    }
  }

  lemma SameFirst(a: seq<Replacement>, b: seq<Replacement>, len: nat)
    requires BatchOk(SpansOf(a), len) && BatchOk(SpansOf(b), len) && multiset(a) == multiset(b)
    requires a != [] && b != []
    ensures a[0] == b[0] && multiset(a[1..]) == multiset(b[1..])
  {
    hide BatchOk;
    FirstIsLeast(a, len);
    FirstIsLeast(b, len);
    assert a[0] in multiset(b) && b[0] in multiset(a);
    assert a == [a[0]] + a[1..] && b == [b[0]] + b[1..];
    assert multiset(a[1..]) == multiset(a) - multiset{a[0]};
    assert multiset(b[1..]) == multiset(b) - multiset{b[0]};
  }

  lemma FirstIsLeast(a: seq<Replacement>, len: nat)
    requires BatchOk(SpansOf(a), len) && a != []
    ensures forall e :: e in a ==> e == a[0] || a[0].start < e.start
  {
    forall e | e in a ensures e == a[0] || a[0].start < e.start {
      var k :| 0 <= k < |a| && a[k] == e;
      if k > 0 { Chain(SpansOf(a), len, 0, k); }
    }
  }

  lemma RestIsBatch(a: seq<Replacement>, len: nat)
    requires BatchOk(SpansOf(a), len) && a != []
    ensures BatchOk(SpansOf(a[1..]), len)
  {
    forall i | 0 <= i < |a[1..]|
      ensures InBounds(SpansOf(a[1..])[i], len)
      ensures i + 1 < |a[1..]| ==> SpansOf(a[1..])[i].start < SpansOf(a[1..])[i + 1].start
                                   && SpansOf(a[1..])[i].end <= SpansOf(a[1..])[i + 1].start
    {
      assert InBounds(SpansOf(a)[i + 1], len);
    }
  }

  /** Replacements that do nothing drop out of a batch without a trace. */
  lemma {:induction false} IdleDropsOut(text: Bytes, edits: seq<Replacement>, from: nat)
    requires Tail(edits, from, |text|)
    ensures Tail(Meant(edits), from, |text|)
    ensures Simultaneous(text, Meant(edits), from) == Simultaneous(text, edits, from)
    decreases |edits|
  {
    if edits == [] {
    } else {
      var e, rest := edits[0], edits[1..];
      IdleDropsOut(text, rest, e.end);
      if Changes(e) {
        assert Meant(edits) == [e] + Meant(rest) && Meant(edits)[1..] == Meant(rest);
      } else {
        assert Meant(edits) == [] + Meant(rest) == Meant(rest);
        StartsEarlier(text, Meant(rest), from, e.start);
        assert text[from..e.start] + [] == text[from..e.start];
      }
    }
  }

  lemma StartsEarlier(text: Bytes, edits: seq<Replacement>, from: nat, later: nat)
    requires from <= later <= |text| && Tail(edits, later, |text|)
    ensures Tail(edits, from, |text|)
    ensures Simultaneous(text, edits, from) == text[from..later] + Simultaneous(text, edits, later)
  {
    if edits == [] {
      assert text[from..] == text[from..later] + text[later..];
    } else {
      SpliceEarlier(text, from, later, edits[0].start, edits[0].text, Simultaneous(text, edits[1..], edits[0].end));
    }
  }

  lemma SpliceEarlier(text: Bytes, from: nat, later: nat, start: nat, inserted: Bytes, rest: Bytes)
    requires from <= later <= start <= |text|
    ensures text[from..start] + inserted + rest == text[from..later] + (text[later..start] + inserted + rest)
  {
    assert text[from..start] == text[from..later] + text[later..start];
  }

  /** A submission already in order means what it says: the text in which each of its ranges, as submitted, is
      replaced at once, whichever of the submitted replacements do nothing. */
  lemma PreparedMeansSubmission(text: Bytes, submitted: seq<Replacement>, prepared: seq<Replacement>)
    requires Tail(submitted, 0, |text|) && BatchOk(SpansOf(prepared), |text|)
    requires Submittable(submitted, |text|)
    requires forall e: Replacement ::
               multiset(prepared)[e] == if e.start == e.end && e.text == [] then 0 else multiset(submitted)[e]
    ensures Tail(prepared, 0, |text|)
    ensures Simultaneous(text, prepared, 0) == Simultaneous(text, submitted, 0)
  {
    hide Simultaneous, Submittable;
    var meant := Meant(submitted);
    forall e: Replacement ensures multiset(meant)[e] == multiset(prepared)[e] {
      MeantKeeps(submitted, e);
    }
    assert multiset(meant) == multiset(prepared);
    IdleDropsOut(text, submitted, 0);
    MeantIsSubmitted(submitted, |text|);
    TailIsBatch(meant, 0, |text|);
    SortedIsUnique(meant, prepared, |text|);
  }

  /** Edits in order whose starts differ are a validated batch. */
  lemma TailIsBatch(edits: seq<Replacement>, from: nat, len: nat)
    requires Tail(edits, from, len) && Acceptable(SpansOf(edits), len)
    ensures BatchOk(SpansOf(edits), len)
  {
    forall i | 0 <= i < |edits|
      ensures InBounds(SpansOf(edits)[i], len)
      ensures i + 1 < |edits| ==> SpansOf(edits)[i].start < SpansOf(edits)[i + 1].start
                                  && SpansOf(edits)[i].end <= SpansOf(edits)[i + 1].start
    {
      TailDrops(edits, from, len, i);
      if i + 1 < |edits| {
        assert edits[i + 1..][0] == edits[i + 1];
        assert !Clash(SpansOf(edits)[i], SpansOf(edits)[i + 1]);
      }
    }
  }
}
