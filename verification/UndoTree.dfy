/** Edits, revisions and the geometry of the branching undo tree. */
module UndoTree {
  import opened Wrappers

  datatype EditKind = Insert | Delete

  /** One buffer mutation; `text` is what it inserts or what it removes. */
  datatype Edit = Edit(at: nat, text: Bytes, kind: EditKind)

  /** Both directions of one transaction, each in the order the mutations were made. */
  datatype Group = Group(undo: seq<Edit>, redo: seq<Edit>)

  datatype Revision = Revision(parent: nat, lastChild: Option<nat>, undo: seq<Edit>, redo: seq<Edit>)

  datatype Tree = Tree(revisions: seq<Revision>, current: nat, pending: Option<Group>)

  datatype Action = Undo | Redo | Jump(target: nat)

  datatype HistoryError = Graph | Range | TextMismatch

  // ---------------------------------------------------------------- texts and edits

  function ApplyEdit(text: Bytes, edit: Edit): Result<Bytes, HistoryError> {
    if edit.at > |text| then Failure(Range)
    else if edit.kind.Insert? then Success(text[..edit.at] + edit.text + text[edit.at..])
    else if edit.at + |edit.text| > |text| then Failure(Range)
    else if text[edit.at..edit.at + |edit.text|] != edit.text then Failure(TextMismatch)
    else Success(text[..edit.at] + text[edit.at + |edit.text|..])
  }

  function Apply(text: Bytes, edits: seq<Edit>): Result<Bytes, HistoryError>
    decreases |edits|
  {
    if edits == [] then Success(text)
    else match ApplyEdit(text, edits[0])
      case Failure(error) => Failure(error)
      case Success(next) => Apply(next, edits[1..])
  }

  lemma {:induction false} ApplyConcat(text: Bytes, a: seq<Edit>, b: seq<Edit>)
    requires Apply(text, a).Success?
    ensures Apply(text, a + b) == Apply(Apply(text, a).value, b)
    decreases |a|
  {
    if a == [] {
      assert a + b == b;
    } else {
      assert (a + b)[1..] == a[1..] + b;
      ApplyConcat(ApplyEdit(text, a[0]).value, a[1..], b);
    }
  }

  /** The first failure decides. */
  lemma {:induction false} ApplyStops(text: Bytes, a: seq<Edit>, b: seq<Edit>)
    requires Apply(text, a).Failure?
    ensures Apply(text, a + b) == Apply(text, a)
    decreases |a|
  {
    assert (a + b)[0] == a[0] && (a + b)[1..] == a[1..] + b;
    if ApplyEdit(text, a[0]).Success? {
      ApplyStops(ApplyEdit(text, a[0]).value, a[1..], b);
    }
  }

  /** A group carries `before` to `after` and back. */
  ghost predicate Carries(before: Bytes, undo: seq<Edit>, redo: seq<Edit>, after: Bytes) {
    && Apply(before, redo) == Success(after)
    && Apply(after, Reverse(undo)) == Success(before)
  }

  /** Recording one more mutation and its inverse extends the group at both ends. */
  lemma CarriesExtends(before: Bytes, group: Group, middle: Bytes, undo: Edit, redo: Edit, after: Bytes)
    requires Carries(before, group.undo, group.redo, middle)
    requires Carries(middle, [undo], [redo], after)
    ensures Carries(before, group.undo + [undo], group.redo + [redo], after)
  {
    ApplyConcat(before, group.redo, [redo]);
    ReverseConcat(group.undo, [undo]);
    ApplyConcat(after, Reverse([undo]), Reverse(group.undo));
  }

  // ---------------------------------------------------------------- the tree

  predicate Parents(revs: seq<Revision>) {
    && |revs| > 0 && revs[0].parent == 0
    && forall i :: 0 < i < |revs| ==> revs[i].parent < i
  }

  predicate ChildOk(revs: seq<Revision>, i: nat)
    requires i < |revs|
  {
    revs[i].lastChild.Some? ==>
      var child := revs[i].lastChild.value;
      i < child < |revs| && revs[child].parent == i
  }

  predicate GraphOk(revs: seq<Revision>) {
    Parents(revs) && forall i :: 0 <= i < |revs| ==> ChildOk(revs, i)
  }

  predicate IsAncestor(revs: seq<Revision>, a: nat, n: nat)
    requires Parents(revs) && n < |revs|
    decreases n
  {
    a == n || (n > 0 && IsAncestor(revs, a, revs[n].parent))
  }

  function Depth(revs: seq<Revision>, n: nat): nat
    requires Parents(revs) && n < |revs|
    decreases n
  {
    if n == 0 then 0 else 1 + Depth(revs, revs[n].parent)
  }

  /** The first node on the way up from b that is also above a. */
  function Fork(revs: seq<Revision>, a: nat, b: nat): nat
    requires Parents(revs) && a < |revs| && b < |revs|
    decreases b
  {
    if b == 0 || IsAncestor(revs, b, a) then b else Fork(revs, a, revs[b].parent)
  }

  lemma {:induction false} RootIsAncestor(revs: seq<Revision>, n: nat)
    requires Parents(revs) && n < |revs|
    ensures IsAncestor(revs, 0, n)
    decreases n
  {
    if n == 0 {
    } else {
      RootIsAncestor(revs, revs[n].parent);
    }
  }

  lemma {:induction false} AncestorOrder(revs: seq<Revision>, a: nat, n: nat)
    requires Parents(revs) && n < |revs| && IsAncestor(revs, a, n)
    ensures a <= n
    ensures Depth(revs, a) <= Depth(revs, n)
    ensures a != n ==> Depth(revs, a) < Depth(revs, n)
    decreases n
  {
    if a == n {
    } else {
      AncestorOrder(revs, a, revs[n].parent);
    }
  }

  lemma {:induction false} AncestorTransitive(revs: seq<Revision>, a: nat, b: nat, n: nat)
    requires Parents(revs) && n < |revs| && b < |revs|
    requires IsAncestor(revs, b, n) && IsAncestor(revs, a, b)
    ensures IsAncestor(revs, a, n)
    decreases n
  {
    if b == n {
    } else {
      AncestorTransitive(revs, a, b, revs[n].parent);
    }
  }

  /** The fork is above both nodes, and below every other node above both. */
  lemma {:induction false} ForkIsLowestCommon(revs: seq<Revision>, a: nat, b: nat)
    requires Parents(revs) && a < |revs| && b < |revs|
    ensures var fork := Fork(revs, a, b);
            fork < |revs| && IsAncestor(revs, fork, a) && IsAncestor(revs, fork, b)
            && forall c: nat :: IsAncestor(revs, c, a) && IsAncestor(revs, c, b) ==> IsAncestor(revs, c, fork)
    decreases b
  {
    RootIsAncestor(revs, a);
    if b == 0 || IsAncestor(revs, b, a) {
    } else {
      ForkIsLowestCommon(revs, a, revs[b].parent);
    }
  }

  lemma LowestCommonIsUnique(revs: seq<Revision>, a: nat, b: nat, f: nat)
    requires Parents(revs) && a < |revs| && b < |revs| && f < |revs|
    requires IsAncestor(revs, f, a) && IsAncestor(revs, f, b)
    requires forall c: nat :: IsAncestor(revs, c, a) && IsAncestor(revs, c, b) ==> IsAncestor(revs, c, f)
    ensures f == Fork(revs, a, b)
  {
    ForkIsLowestCommon(revs, a, b);
    AncestorOrder(revs, f, Fork(revs, a, b));
    AncestorOrder(revs, Fork(revs, a, b), f);
  }

  /** A node that is not above the other one may step up without losing the fork. */
  lemma ForkStep(revs: seq<Revision>, a: nat, b: nat)
    requires Parents(revs) && a < |revs| && b < |revs|
    ensures !IsAncestor(revs, a, b) ==> a > 0 && Fork(revs, revs[a].parent, b) == Fork(revs, a, b)
    ensures !IsAncestor(revs, b, a) ==> b > 0 && Fork(revs, a, revs[b].parent) == Fork(revs, a, b)
  {
    RootIsAncestor(revs, a);
    RootIsAncestor(revs, b);
    if !IsAncestor(revs, a, b) {
      var parent := revs[a].parent;
      ForkIsLowestCommon(revs, parent, b);
      LowestCommonIsUnique(revs, a, b, Fork(revs, parent, b));
    }
  }

  /** Edits on the way up from n to a: each revision's inverses, last mutation first. */
  function UndoLeg(revs: seq<Revision>, n: nat, a: nat): seq<Edit>
    requires Parents(revs) && n < |revs| && IsAncestor(revs, a, n)
    decreases n
  {
    if n == a then [] else Reverse(revs[n].undo) + UndoLeg(revs, revs[n].parent, a)
  }

  /** Edits on the way down from a to n. */
  function RedoLeg(revs: seq<Revision>, a: nat, n: nat): seq<Edit>
    requires Parents(revs) && n < |revs| && IsAncestor(revs, a, n)
    decreases n
  {
    if n == a then [] else RedoLeg(revs, a, revs[n].parent) + revs[n].redo
  }

  function OpsBetween(revs: seq<Revision>, from: nat, to: nat): seq<Edit>
    requires Parents(revs) && from < |revs| && to < |revs|
  {
    ForkIsLowestCommon(revs, from, to);
    UndoLeg(revs, from, Fork(revs, from, to)) + RedoLeg(revs, Fork(revs, from, to), to)
  }

  /** One step of either cursor towards the fork accounts for exactly that revision's edits. */
  lemma CostStep(revs: seq<Revision>, from: nat, to: nat)
    requires Parents(revs) && from < |revs| && to < |revs|
    ensures !IsAncestor(revs, from, to) ==>
              |OpsBetween(revs, from, to)| == |revs[from].undo| + |OpsBetween(revs, revs[from].parent, to)|
    ensures !IsAncestor(revs, to, from) ==>
              |OpsBetween(revs, from, to)| == |OpsBetween(revs, from, revs[to].parent)| + |revs[to].redo|
  {
    ForkStep(revs, from, to);
    ForkIsLowestCommon(revs, from, to);
  }

  // ---------------------------------------------------------------- last-visited children

  /** Point every node from a down to the parent of n at its child on the way to n. */
  function Link(revs: seq<Revision>, a: nat, n: nat): (out: seq<Revision>)
    requires Parents(revs) && n < |revs| && IsAncestor(revs, a, n)
    ensures |out| == |revs|
    ensures forall i :: 0 <= i < |revs| ==> out[i] == revs[i].(lastChild := out[i].lastChild)
    ensures forall i :: n <= i < |revs| ==> out[i] == revs[i]
    decreases n
  {
    if n == a then revs
    else
      var parent := revs[n].parent;
      var above := Link(revs, a, parent);
      above[parent := above[parent].(lastChild := Some(n))]
  }

  lemma {:induction false} LinkKeepsGraph(revs: seq<Revision>, a: nat, n: nat)
    requires GraphOk(revs) && n < |revs| && IsAncestor(revs, a, n)
    ensures GraphOk(Link(revs, a, n))
    decreases n
  {
    if n == a {
    } else {
      var parent := revs[n].parent;
      LinkKeepsGraph(revs, a, parent);
      var above := Link(revs, a, parent);
      var out := Link(revs, a, n);
      forall i | 0 <= i < |out| ensures ChildOk(out, i) {
        assert ChildOk(above, i);
      }
    }
  }

  /** Relinking a leg writes only above its foot, so a pointer from the foot down may be set before. */
  lemma {:induction false} LinkIgnoresLater(revs: seq<Revision>, updated: seq<Revision>, a: nat, n: nat, at: nat)
    requires Parents(revs) && Parents(updated) && |updated| == |revs|
    requires n <= at < |revs| && IsAncestor(revs, a, n)
    requires updated == revs[at := revs[at].(lastChild := updated[at].lastChild)]
    ensures IsAncestor(updated, a, n) && Link(updated, a, n) == Link(revs, a, n)[at := updated[at]]
    decreases n
  {
    if n == a {
    } else {
      LinkIgnoresLater(revs, updated, a, revs[n].parent, at);
    }
  }

  /** Descend k times along last-visited children. */
  function Descend(revs: seq<Revision>, n: nat, k: nat): Option<nat>
    requires GraphOk(revs) && n < |revs|
    decreases k
  {
    if k == 0 then Some(n)
    else match revs[n].lastChild
      case None => None
      case Some(child) => assert ChildOk(revs, n); Descend(revs, child, k - 1)
  }

  ghost predicate LinkedLeg(revs: seq<Revision>, a: nat, n: nat)
    requires Parents(revs) && n < |revs|
    decreases n
  {
    IsAncestor(revs, a, n)
    && (n != a ==> revs[revs[n].parent].lastChild == Some(n) && LinkedLeg(revs, a, revs[n].parent))
  }

  lemma {:induction false} LinkLinks(revs: seq<Revision>, a: nat, n: nat)
    requires Parents(revs) && n < |revs| && IsAncestor(revs, a, n)
    ensures LinkedLeg(Link(revs, a, n), a, n)
    decreases n
  {
    if n == a {
    } else {
      var parent := revs[n].parent;
      LinkLinks(revs, a, parent);
      LinkedLegFrame(Link(revs, a, parent), Link(revs, a, n), a, parent);
    }
  }

  lemma {:induction false} LinkedLegFrame(revs: seq<Revision>, out: seq<Revision>, a: nat, n: nat)
    requires Parents(revs) && Parents(out) && |out| == |revs| && n < |revs|
    requires LinkedLeg(revs, a, n)
    requires forall i :: 0 <= i < n ==> out[i] == revs[i]
    requires out[n].parent == revs[n].parent
    ensures LinkedLeg(out, a, n)
    decreases n
  {
    if n == a {
    } else {
      LinkedLegFrame(revs, out, a, revs[n].parent);
    }
  }

  /** Along a linked leg, redo after redo descends from the top to the foot. */
  lemma {:induction false} DescendFollows(revs: seq<Revision>, a: nat, n: nat, extra: nat)
    requires GraphOk(revs) && a <= n < |revs| && LinkedLeg(revs, a, n)
    ensures Depth(revs, a) <= Depth(revs, n)
    ensures Descend(revs, a, Depth(revs, n) - Depth(revs, a) + extra) == Descend(revs, n, extra)
    decreases n
  {
    AncestorOrder(revs, a, n);
    if n == a {
    } else {
      AncestorOrder(revs, a, revs[n].parent);
      DescendFollows(revs, a, revs[n].parent, extra + 1);
    }
  }
}
