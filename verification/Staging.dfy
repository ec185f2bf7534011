/** Staging and unstaging one hunk: a byte-precise line splice on the index content. */
module Staging {
  import opened Wrappers

  datatype Line = Line(text: Bytes, newline: bool)

  datatype Origin = Context | Addition | Deletion

  datatype DiffLine = DiffLine(origin: Origin, line: Line)

  /** Line numbers count from one; a side without lines starts at the line before it. */
  datatype Hunk = Hunk(oldStart: nat, oldCount: nat, newStart: nat, newCount: nat, lines: seq<DiffLine>)

  // ---------------------------------------------------------------- lines and bytes

  function Terminated(line: Line): Bytes {
    line.text + (if line.newline then [NEWLINE] else [])
  }

  function Join(lines: seq<Line>): Bytes {
    if lines == [] then [] else Terminated(lines[0]) + Join(lines[1..])
  }

  function FirstNewline(bytes: Bytes): (at: nat)
    ensures at <= |bytes| && (forall k :: 0 <= k < at ==> bytes[k] != NEWLINE)
    ensures at < |bytes| ==> bytes[at] == NEWLINE
  {
    if bytes == [] || bytes[0] == NEWLINE then 0 else 1 + FirstNewline(bytes[1..])
  }

  function Split(bytes: Bytes): seq<Line>
    decreases |bytes|
  {
    if bytes == [] then []
    else
      var at := FirstNewline(bytes);
      if at == |bytes| then [Line(bytes, false)] else [Line(bytes[..at], true)] + Split(bytes[at + 1..])
  }

  /** Only the last line may lack its newline, and then it is not empty. */
  predicate WellFormed(lines: seq<Line>) {
    forall k :: 0 <= k < |lines| ==>
      NEWLINE !in lines[k].text && (!lines[k].newline ==> k == |lines| - 1 && lines[k].text != [])
  }

  method SplitLines(bytes: Bytes) returns (out: seq<Line>)
    ensures out == Split(bytes)
    ensures Join(out) == bytes && WellFormed(out)
  {
    hide Split, Join;
    out := [];
    var start := 0;
    assert bytes[0..] == bytes && [] + Split(bytes) == Split(bytes);
    for i := 0 to |bytes|
      invariant start <= i && forall k :: start <= k < i ==> bytes[k] != NEWLINE
      invariant Split(bytes) == out + Split(bytes[start..])
    {
      if bytes[i] == NEWLINE {
        SplitStep(bytes, start, i);
        var line := Line(bytes[start..i], true);
        assert out + ([line] + Split(bytes[i + 1..])) == (out + [line]) + Split(bytes[i + 1..]);
        out := out + [line];
        start := i + 1;
      }
    }
    SplitEnd(bytes[start..]);
    if start < |bytes| {
      out := out + [Line(bytes[start..], false)];
    } else {
      assert out + [] == out;
    }
    JoinOfSplit(bytes);
  }

  lemma SplitStep(bytes: Bytes, start: nat, i: nat)
    requires start <= i < |bytes| && bytes[i] == NEWLINE && forall k :: start <= k < i ==> bytes[k] != NEWLINE
    ensures Split(bytes[start..]) == [Line(bytes[start..i], true)] + Split(bytes[i + 1..])
  {
    var rest, at := bytes[start..], i - start;
    assert rest[at] == bytes[i] && forall k :: 0 <= k < at ==> rest[k] == bytes[start + k];
    NewlineAt(rest, at);
    assert rest[..at] == bytes[start..i] && rest[at + 1..] == bytes[i + 1..];
    hide FirstNewline;
  }

  lemma SplitEnd(bytes: Bytes)
    requires forall k :: 0 <= k < |bytes| ==> bytes[k] != NEWLINE
    ensures Split(bytes) == if bytes == [] then [] else [Line(bytes, false)]
  {
  }

  lemma NewlineAt(bytes: Bytes, at: nat)
    requires at < |bytes| && bytes[at] == NEWLINE && forall k :: 0 <= k < at ==> bytes[k] != NEWLINE
    ensures FirstNewline(bytes) == at
  {
  }

  lemma JoinCons(line: Line, lines: seq<Line>)
    ensures Join([line] + lines) == Terminated(line) + Join(lines)
  {
    assert ([line] + lines)[1..] == lines;
  }

  /** The first line and the rest. */
  lemma FirstLine(bytes: Bytes) returns (line: Line, rest: Bytes)
    requires FirstNewline(bytes) < |bytes|
    ensures line.newline && NEWLINE !in line.text && |rest| < |bytes|
    ensures Split(bytes) == [line] + Split(rest) && bytes == Terminated(line) + rest
  {
    var at := FirstNewline(bytes);
    line, rest := Line(bytes[..at], true), bytes[at + 1..];
    assert bytes == bytes[..at] + [NEWLINE] + rest;
  }

  lemma OneLine(bytes: Bytes)
    requires bytes != [] && FirstNewline(bytes) == |bytes|
    ensures Join(Split(bytes)) == bytes && WellFormed(Split(bytes))
  {
    assert [Line(bytes, false)][1..] == [] && Join([]) == [];
  }

  /** Joining undoes splitting, for every content. */
  lemma {:induction false} JoinOfSplit(bytes: Bytes)
    ensures Join(Split(bytes)) == bytes && WellFormed(Split(bytes))
    decreases |bytes|
  {
    if bytes == [] {
    } else if FirstNewline(bytes) == |bytes| {
      OneLine(bytes);
    } else {
      hide Split, Join, WellFormed, Terminated;
      var line, rest := FirstLine(bytes);
      JoinOfSplit(rest);
      JoinCons(line, Split(rest));
      WellFormedCons(line, Split(rest));
    }
  }

  lemma WellFormedCons(line: Line, lines: seq<Line>)
    requires NEWLINE !in line.text && line.newline
    ensures WellFormed([line] + lines) <==> WellFormed(lines)
  {
    var all := [line] + lines;
    assert forall k :: 0 <= k < |lines| ==> all[k + 1] == lines[k];
    if WellFormed(lines) {
      forall k | 0 <= k < |all|
        ensures NEWLINE !in all[k].text && (!all[k].newline ==> k == |all| - 1 && all[k].text != [])
      {
        if k > 0 { var j := k - 1; assert all[k] == lines[j]; }
      }
    }
  }

  /** Splitting undoes joining, for every well-formed list of lines. */
  lemma {:induction false} SplitOfJoin(lines: seq<Line>)
    requires WellFormed(lines)
    ensures Split(Join(lines)) == lines
    decreases |lines|
  {
    if lines == [] {
    } else {
      var line, rest := lines[0], lines[1..];
      var bytes := Join(lines);
      if line.newline {
        assert lines == [line] + rest;
        WellFormedCons(line, rest);
        SplitOfJoin(rest);
        assert bytes[..|line.text|] == line.text && bytes[|line.text| + 1..] == Join(rest);
        NewlineAt(bytes, |line.text|);
      } else {
        assert rest == [] && line.text + [] + Join(rest) == line.text;
        SplitEnd(line.text);
      }
    }
  }

  lemma {:induction false} JoinConcat(a: seq<Line>, b: seq<Line>)
    ensures Join(a + b) == Join(a) + Join(b)
    decreases |a|
  {
    if a == [] {
      assert a + b == b;
    } else {
      JoinConcat(a[1..], b);
      assert a == [a[0]] + a[1..] && a + b == [a[0]] + (a[1..] + b);
      JoinCons(a[0], a[1..]);
      JoinCons(a[0], a[1..] + b);
      hide Join, Terminated;
      var first, rest := Terminated(a[0]), Join(a[1..]);
      assert first + (rest + Join(b)) == (first + rest) + Join(b);
    }
  }

  // ---------------------------------------------------------------- the splice

  /** The index content with the region of `count` lines from line `start` replaced. */
  function RegionEdit(index: Bytes, start: nat, count: nat, lines: seq<Line>): Bytes {
    var base := Split(index);
    var lo := Min(if start == 0 then 0 else start - 1, |base|);
    var hi := Min(lo + count, |base|);
    Join(base[..lo] + lines + base[hi..])
  }

  method IndexRegionEdit(index: Bytes, start: nat, count: nat, lines: seq<Line>) returns (out: Bytes)
    ensures out == RegionEdit(index, start, count, lines)
  {
    hide Split, Join;
    var base := SplitLines(index);
    var lo := Min(if start == 0 then 0 else start - 1, |base|);
    var hi := Min(lo + count, |base|);
    out := AppendLines([], base[..lo]);
    out := AppendLines(out, lines);
    out := AppendLines(out, base[hi..]);
    JoinConcat(base[..lo], lines);
    JoinConcat(base[..lo] + lines, base[hi..]);
  }

  method AppendLines(bytes: Bytes, lines: seq<Line>) returns (out: Bytes)
    ensures out == bytes + Join(lines)
  {
    out := bytes;
    assert lines[..0] == [];
    for k := 0 to |lines|
      invariant out == bytes + Join(lines[..k])
    {
      out := out + lines[k].text;
      if lines[k].newline {
        out := out + [NEWLINE];
      }
      assert lines[..k + 1] == lines[..k] + [lines[k]];
      JoinConcat(lines[..k], [lines[k]]);
      assert Join([lines[k]]) == Terminated(lines[k]) + Join([]);
    }
    assert lines[..|lines|] == lines;
  }

  /** A side of the hunk: its lines without those of the other side. */
  function Side(lines: seq<DiffLine>, dropped: Origin): (side: seq<Line>)
    ensures forall line :: line in side <==> exists d :: d in lines && d.origin != dropped && d.line == line
  {
    if lines == [] then []
    else
      assert lines == [lines[0]] + lines[1..];
      (if lines[0].origin == dropped then [] else [lines[0].line]) + Side(lines[1..], dropped)
  }

  function OldSide(hunk: Hunk): seq<Line> { Side(hunk.lines, Addition) }

  function NewSide(hunk: Hunk): seq<Line> { Side(hunk.lines, Deletion) }

  /** A side keeps the order of the hunk: context and its own lines, each where it stood. */
  lemma {:induction false} SideConcat(a: seq<DiffLine>, b: seq<DiffLine>, dropped: Origin)
    ensures Side(a + b, dropped) == Side(a, dropped) + Side(b, dropped)
    decreases |a|
  {
    if a == [] {
      assert a + b == b;
    } else {
      SideConcat(a[1..], b, dropped);
      SideUnfolds(a, dropped);
      assert (a + b)[0] == a[0] && (a + b)[1..] == a[1..] + b;
      SideUnfolds(a + b, dropped);
    }
  }

  /** One line of the hunk after the other. */
  lemma SideUnfolds(lines: seq<DiffLine>, dropped: Origin)
    requires lines != []
    ensures Side(lines, dropped)
         == (if lines[0].origin == dropped then [] else [lines[0].line]) + Side(lines[1..], dropped)
    ensures Side([], dropped) == []
  {
  }

  method StageHunk(index: Bytes, hunk: Hunk) returns (out: Bytes)
    ensures out == Stage(index, hunk)
  {
    out := IndexRegionEdit(index, hunk.oldStart, hunk.oldCount, NewSide(hunk));
  }

  method UnstageHunk(index: Bytes, hunk: Hunk) returns (out: Bytes)
    ensures out == Unstage(index, hunk)
  {
    out := IndexRegionEdit(index, hunk.newStart, hunk.newCount, OldSide(hunk));
  }

  function Stage(index: Bytes, hunk: Hunk): Bytes {
    RegionEdit(index, hunk.oldStart, hunk.oldCount, NewSide(hunk))
  }

  function Unstage(index: Bytes, hunk: Hunk): Bytes {
    RegionEdit(index, hunk.newStart, hunk.newCount, OldSide(hunk))
  }

  /** The splice on any content and any numbers, stale ones too: the region is cut off at the end of the content. */
  lemma RegionEditCuts(front: seq<Line>, region: seq<Line>, rest: seq<Line>, start: nat, count: nat, put: seq<Line>)
    requires WellFormed(front + region + rest)
    requires |front| == (if start == 0 then 0 else start - 1) || (region + rest == [] && |front| < start)
    requires |region| == count || (|region| < count && rest == [])
    ensures RegionEdit(Join(front + region + rest), start, count, put) == Join(front + put + rest)
  {
    hide Join, Split, WellFormed;
    var base := front + region + rest;
    SplitOfJoin(base);
    assert base[..|front|] == front && base[|front| + |region|..] == rest;
  }

  // ---------------------------------------------------------------- what a hunk describes

  /** One side's numbers: lines counted from one; without lines, the line before the place. */
  predicate Numbers(start: nat, count: nat, before: nat, side: seq<Line>) {
    count == |side| && start == (if side == [] then before else before + 1)
  }

  predicate Framed(bytes: Bytes, before: seq<Line>, side: seq<Line>, after: seq<Line>) {
    Split(bytes) == before + side + after
  }

  /** The hunk's two sides take each other's place between the same lines, and its old numbers find the place
      in the old content. Its new numbers may be shifted by hunks before it. */
  ghost predicate DescribesOld(hunk: Hunk, base: Bytes, goal: Bytes) {
    exists before, after ::
      && Framed(base, before, OldSide(hunk), after) && Framed(goal, before, NewSide(hunk), after)
      && Numbers(hunk.oldStart, hunk.oldCount, |before|, OldSide(hunk))
  }

  /** The same with the new numbers finding the place in the new content. */
  ghost predicate DescribesNew(hunk: Hunk, base: Bytes, goal: Bytes) {
    exists before, after ::
      && Framed(base, before, OldSide(hunk), after) && Framed(goal, before, NewSide(hunk), after)
      && Numbers(hunk.newStart, hunk.newCount, |before|, NewSide(hunk))
  }

  /** A hunk that is the whole change from one content to another: both numbers find the one place. */
  ghost predicate Describes(hunk: Hunk, base: Bytes, goal: Bytes) {
    exists before, after ::
      && Framed(base, before, OldSide(hunk), after) && Framed(goal, before, NewSide(hunk), after)
      && Numbers(hunk.oldStart, hunk.oldCount, |before|, OldSide(hunk))
      && Numbers(hunk.newStart, hunk.newCount, |before|, NewSide(hunk))
  }

  /** When the region starts where the hunk means it: always when it holds lines, and at the very front;
      else the splice lands one line early, which shows unless every line put in equals the line jumped. */
  predicate LandsRight(bytes: Bytes, start: nat, count: nat, put: seq<Line>) {
    count > 0 || start == 0
    || (start <= |Split(bytes)| && forall k :: 0 <= k < |put| ==> put[k] == Split(bytes)[start - 1])
  }

  lemma RegionEditIsSplice(base: Bytes, before: seq<Line>, side: seq<Line>, after: seq<Line>, start: nat,
                           put: seq<Line>)
    requires Framed(base, before, side, after) && Numbers(start, |side|, |before|, side)
    ensures side != [] || start == 0 ==> RegionEdit(base, start, |side|, put) == Join(before + put + after)
    ensures side == [] && start > 0 ==>
              RegionEdit(base, start, |side|, put) == Join(before[..start - 1] + put + ([before[start - 1]] + after))
  {
    var lines := Split(base);
    var all := before + side + after;
    if side != [] || start == 0 {
      assert all[..|before|] == before && all[|before| + |side|..] == after;
    } else {
      assert all == before + after;
      assert all[..start - 1] == before[..start - 1] && all[start - 1..] == [before[start - 1]] + after;
    }
  }

  /** The splice turns one content into the other exactly when it lands right. */
  lemma SpliceIsExact(base: Bytes, goal: Bytes, before: seq<Line>, side: seq<Line>, put: seq<Line>, after: seq<Line>,
                      start: nat)
    requires Framed(base, before, side, after) && Framed(goal, before, put, after)
    requires Numbers(start, |side|, |before|, side)
    ensures RegionEdit(base, start, |side|, put) == goal <==> LandsRight(base, start, |side|, put)
  {
    JoinOfSplit(base);
    JoinOfSplit(goal);
    RegionEditIsSplice(base, before, side, after, start, put);
    if side == [] && start > 0 {
      assert Split(base)[start - 1] == (before + side + after)[start - 1] == before[start - 1];
      EarlySplice(before, put, after);
      assert before[..start - 1] + put + ([before[start - 1]] + after) == Early(before, put, after);
    }
  }

  function Early(before: seq<Line>, put: seq<Line>, after: seq<Line>): seq<Line>
    requires before != []
  {
    before[..|before| - 1] + put + ([before[|before| - 1]] + after)
  }

  /** Lines put in before the last line of what precedes give the same bytes only if they all equal it. */
  lemma EarlySplice(before: seq<Line>, put: seq<Line>, after: seq<Line>)
    requires before != [] && WellFormed(before + put + after)
    ensures Join(Early(before, put, after)) == Join(before + put + after)
       <==> forall k :: 0 <= k < |put| ==> put[k] == before[|before| - 1]
  {
    hide Join, Early, WellFormed;
    if forall k :: 0 <= k < |put| ==> put[k] == before[|before| - 1] {
      EarlyIsSame(before, put, after);
    } else if put[|put| - 1].newline {
      EarlyDiffers(before, put, after);
    } else {
      EarlyEndsOtherwise(before, put, after);
    }
  }

  lemma EarlyDiffers(before: seq<Line>, put: seq<Line>, after: seq<Line>)
    requires before != [] && WellFormed(before + put + after) && put != [] && put[|put| - 1].newline
    requires exists k :: 0 <= k < |put| && put[k] != before[|before| - 1]
    ensures Join(Early(before, put, after)) != Join(before + put + after)
  {
    hide Join, Split;
    EarlyIsWellFormed(before, put, after);
    if Join(Early(before, put, after)) == Join(before + put + after) {
      SplitOfJoin(Early(before, put, after));
      SplitOfJoin(before + put + after);
      hide WellFormed;
      var front, last := before[..|before| - 1], before[|before| - 1];
      assert front + [last] == before;
      ShiftedIsConstant(put, last, front, after);
      assert false;
    }
  }

  lemma EarlyIsSame(before: seq<Line>, put: seq<Line>, after: seq<Line>)
    requires before != [] && forall k :: 0 <= k < |put| ==> put[k] == before[|before| - 1]
    ensures Early(before, put, after) == before + put + after
  {
  }

  /** A line without newline put in must stay the last one. */
  lemma EarlyEndsOtherwise(before: seq<Line>, put: seq<Line>, after: seq<Line>)
    requires before != [] && WellFormed(before + put + after) && put != [] && !put[|put| - 1].newline
    ensures Join(Early(before, put, after)) != Join(before + put + after)
  {
    hide Join;
    var last := before[|before| - 1];
    var right := before + put + after;
    assert right[|before| + |put| - 1] == put[|put| - 1] && right[|before| - 1] == last;
    assert after == [];
    assert right == before + put;
    UnterminatedEnd(before + put);
    EndOfJoin(before[..|before| - 1] + put, last);
    assert Early(before, put, after) == before[..|before| - 1] + put + [last];
  }

  lemma EarlyIsWellFormed(before: seq<Line>, put: seq<Line>, after: seq<Line>)
    requires before != [] && put != [] && WellFormed(before + put + after) && put[|put| - 1].newline
    ensures WellFormed(Early(before, put, after))
  {
    var right, early := before + put + after, Early(before, put, after);
    var n := |before|;
    assert right[n - 1] == before[n - 1];
    forall k | 0 <= k < |early|
      ensures NEWLINE !in early[k].text && (!early[k].newline ==> k == |early| - 1 && early[k].text != [])
    {
      if k < n - 1 || k > n - 1 + |put| {
        assert early[k] == right[k];
      } else if k < n - 1 + |put| {
        var j := k + 1;
        assert early[k] == right[j] == put[k - (n - 1)];
      } else {
        assert early[k] == before[n - 1];
      }
    }
  }

  /** A run that can be moved past a line unchanged consists of that line. */
  lemma ShiftedIsConstant(put: seq<Line>, last: Line, front: seq<Line>, after: seq<Line>)
    requires front + put + ([last] + after) == (front + [last]) + put + after
    ensures forall k :: 0 <= k < |put| ==> put[k] == last
  {
    var a, b := front + put + ([last] + after), (front + [last]) + put + after;
    assert forall k :: 0 <= k < |put| ==> a[|front| + k] == put[k];
    assert b[|front|] == last;
    forall k | 0 <= k < |put|
      ensures put[k] == last
    {
      Shifted(put, last, a, b, |front|, k);
    }
  }

  lemma {:induction false} Shifted(put: seq<Line>, last: Line, a: seq<Line>, b: seq<Line>, at: nat, k: nat)
    requires a == b && k < |put| && at + |put| < |a|
    requires forall j :: 0 <= j < |put| ==> a[at + j] == put[j]
    requires forall j :: 0 <= j < |put| ==> b[at + 1 + j] == put[j]
    requires b[at] == last
    ensures put[k] == last
  {
    assert a[at + k] == put[k];
    if k == 0 {
    } else {
      Shifted(put, last, a, b, at, k - 1);
      var j := k - 1;
      assert b[at + 1 + j] == put[j];
    }
  }

  lemma UnterminatedEnd(lines: seq<Line>)
    requires WellFormed(lines) && lines != [] && !lines[|lines| - 1].newline
    ensures Join(lines) != [] && Join(lines)[|Join(lines)| - 1] != NEWLINE
  {
    var front, last := lines[..|lines| - 1], lines[|lines| - 1];
    assert lines == front + [last];
    EndOfJoin(front, last);
    assert last.text[|last.text| - 1] in last.text;
  }

  lemma EndOfJoin(front: seq<Line>, last: Line)
    ensures Join(front + [last]) == Join(front) + Terminated(last)
  {
    JoinConcat(front, [last]);
    assert Join([last]) == Terminated(last) + Join([]);
  }

  // ---------------------------------------------------------------- staging and unstaging

  function Swapped(lines: seq<DiffLine>): (swapped: seq<DiffLine>)
    ensures |swapped| == |lines|
  {
    if lines == [] then []
    else
      var origin := match lines[0].origin case Context => Context case Addition => Deletion case Deletion => Addition;
      [lines[0].(origin := origin)] + Swapped(lines[1..])
  }

  function Reversed(hunk: Hunk): Hunk {
    Hunk(hunk.newStart, hunk.newCount, hunk.oldStart, hunk.oldCount, Swapped(hunk.lines))
  }

  lemma {:induction false} SwappedSides(lines: seq<DiffLine>)
    ensures Side(Swapped(lines), Addition) == Side(lines, Deletion)
    ensures Side(Swapped(lines), Deletion) == Side(lines, Addition)
  {
    if lines == [] {
    } else {
      SwappedSides(lines[1..]);
    }
  }

  /** Unstaging a hunk is staging its reverse, and the reverse describes the change backwards. */
  lemma UnstageIsReverse(index: Bytes, hunk: Hunk, base: Bytes, goal: Bytes)
    ensures Unstage(index, hunk) == Stage(index, Reversed(hunk))
    ensures DescribesNew(hunk, base, goal) <==> DescribesOld(Reversed(hunk), goal, base)
    ensures DescribesOld(hunk, base, goal) <==> DescribesNew(Reversed(hunk), goal, base)
  {
    SwappedSides(hunk.lines);
  }

  /** Staging takes the index to the described content, byte for byte, exactly when the old region lands
      right; wherever in its diff the hunk stands. */
  lemma StageIsExact(hunk: Hunk, base: Bytes, goal: Bytes)
    requires DescribesOld(hunk, base, goal)
    ensures Stage(base, hunk) == goal <==> LandsRight(base, hunk.oldStart, hunk.oldCount, NewSide(hunk))
  {
    var before, after :|
      && Framed(base, before, OldSide(hunk), after) && Framed(goal, before, NewSide(hunk), after)
      && Numbers(hunk.oldStart, hunk.oldCount, |before|, OldSide(hunk));
    SpliceIsExact(base, goal, before, OldSide(hunk), NewSide(hunk), after, hunk.oldStart);
  }

  lemma UnstageIsExact(hunk: Hunk, base: Bytes, goal: Bytes)
    requires DescribesNew(hunk, base, goal)
    ensures Unstage(goal, hunk) == base <==> LandsRight(goal, hunk.newStart, hunk.newCount, OldSide(hunk))
  {
    UnstageIsReverse(goal, hunk, base, goal);
    SwappedSides(hunk.lines);
    StageIsExact(Reversed(hunk), goal, base);
  }

  // ---------------------------------------------------------------- the hunks of one diff

  /** Lines that follow `o` old and `n` new ones: common lines between hunks, each hunk's sides in their place,
      each number counting the lines of its own content. */
  ghost predicate Diff(hunks: seq<Hunk>, base: seq<Line>, goal: seq<Line>, o: nat, n: nat)
    decreases |hunks|, 1
  {
    if hunks == [] then base == goal
    else exists gap, restBase, restGoal :: DiffAt(hunks, base, goal, o, n, gap, restBase, restGoal)
  }

  ghost predicate DiffAt(hunks: seq<Hunk>, base: seq<Line>, goal: seq<Line>, o: nat, n: nat,
                         gap: seq<Line>, restBase: seq<Line>, restGoal: seq<Line>)
    requires hunks != []
    decreases |hunks|, 0
  {
    var hunk := hunks[0];
    && base == gap + OldSide(hunk) + restBase && goal == gap + NewSide(hunk) + restGoal
    && Numbers(hunk.oldStart, hunk.oldCount, o + |gap|, OldSide(hunk))
    && Numbers(hunk.newStart, hunk.newCount, n + |gap|, NewSide(hunk))
    && Diff(hunks[1..], restBase, restGoal, o + |gap| + |OldSide(hunk)|, n + |gap| + |NewSide(hunk)|)
  }

  /** Staged one by one, the last first, so that no hunk moves the place of one still to come. */
  function StageAll(index: Bytes, hunks: seq<Hunk>): Bytes {
    if hunks == [] then index else Stage(StageAll(index, hunks[1..]), hunks[0])
  }

  function UnstageAll(index: Bytes, hunks: seq<Hunk>): Bytes {
    if hunks == [] then index else Unstage(UnstageAll(index, hunks[1..]), hunks[0])
  }

  /** The old side has lines or starts at the front: so for every hunk cut with context. */
  predicate Anchored(hunks: seq<Hunk>) {
    forall k :: 0 <= k < |hunks| ==> hunks[k].oldCount > 0 || hunks[k].oldStart == 0
  }

  predicate AnchoredBack(hunks: seq<Hunk>) {
    forall k :: 0 <= k < |hunks| ==> hunks[k].newCount > 0 || hunks[k].newStart == 0
  }

  /** Behind a front that stays, staging the hunks of a diff last first replaces the old lines by the new. */
  lemma {:induction false} StageAllBehind(front: seq<Line>, hunks: seq<Hunk>, base: seq<Line>, goal: seq<Line>, n: nat)
    requires WellFormed(front + base) && WellFormed(goal)
    requires Diff(hunks, base, goal, |front|, n) && Anchored(hunks)
    ensures StageAll(Join(front + base), hunks) == Join(front + goal) && WellFormed(front + goal)
    decreases |hunks|
  {
    if hunks == [] {
    } else {
      hide Join, Split, Stage, WellFormed, OldSide, NewSide, Numbers;
      var gap, restBase, restGoal :| DiffAt(hunks, base, goal, |front|, n, gap, restBase, restGoal);
      var hunk := hunks[0];
      var before := front + gap;
      Regroup(front, gap, OldSide(hunk), restBase);
      RestIsWellFormed(gap + NewSide(hunk), restGoal);
      StageAllBehind(before + OldSide(hunk), hunks[1..], restBase, restGoal, n + |gap| + |NewSide(hunk)|);
      HunkAfterRest(front, gap, hunk, restGoal);
    }
  }

  /** The hunks behind it staged, one more takes its place. */
  lemma HunkAfterRest(front: seq<Line>, gap: seq<Line>, hunk: Hunk, rest: seq<Line>)
    requires WellFormed(front + gap + OldSide(hunk) + rest) && WellFormed(gap + NewSide(hunk) + rest)
    requires Numbers(hunk.oldStart, hunk.oldCount, |front + gap|, OldSide(hunk))
    requires hunk.oldCount > 0 || hunk.oldStart == 0
    ensures Stage(Join(front + gap + OldSide(hunk) + rest), hunk) == Join(front + (gap + NewSide(hunk) + rest))
    ensures WellFormed(front + (gap + NewSide(hunk) + rest))
  {
    hide Join, Stage, WellFormed, OldSide, NewSide, Numbers;
    StageBetween(front + gap, hunk, rest);
    Regroup(front, gap, NewSide(hunk), rest);
    SideOrFront(hunk, front + gap);
    FrontIsTerminated(front, gap, OldSide(hunk), rest, gap + NewSide(hunk) + rest);
  }

  lemma Regroup(front: seq<Line>, gap: seq<Line>, side: seq<Line>, rest: seq<Line>)
    ensures front + (gap + side + rest) == front + gap + side + rest
  {
  }

  lemma SideOrFront(hunk: Hunk, before: seq<Line>)
    requires Numbers(hunk.oldStart, hunk.oldCount, |before|, OldSide(hunk)) && (hunk.oldCount > 0 || hunk.oldStart == 0)
    ensures OldSide(hunk) != [] || before == []
  {
  }

  /** One hunk staged between lines whose number it names. */
  lemma StageBetween(before: seq<Line>, hunk: Hunk, after: seq<Line>)
    requires WellFormed(before + OldSide(hunk) + after)
    requires Numbers(hunk.oldStart, hunk.oldCount, |before|, OldSide(hunk)) && (hunk.oldCount > 0 || hunk.oldStart == 0)
    ensures Stage(Join(before + OldSide(hunk) + after), hunk) == Join(before + NewSide(hunk) + after)
  {
    var content := Join(before + OldSide(hunk) + after);
    SplitOfJoin(before + OldSide(hunk) + after);
    RegionEditIsSplice(content, before, OldSide(hunk), after, hunk.oldStart, NewSide(hunk));
  }

  lemma RestIsWellFormed(front: seq<Line>, rest: seq<Line>)
    requires WellFormed(front + rest)
    ensures WellFormed(rest)
  {
    assert forall k :: 0 <= k < |rest| ==> rest[k] == (front + rest)[|front| + k];
  }

  /** Lines that precede others in a well-formed content all end in a newline, so anything well-formed may
      follow them. */
  lemma FrontIsTerminated(front: seq<Line>, gap: seq<Line>, side: seq<Line>, after: seq<Line>, goal: seq<Line>)
    requires WellFormed(front + gap + side + after) && WellFormed(goal)
    requires side != [] || front + gap == []
    ensures WellFormed(front + goal)
  {
    var was, now := front + gap + side + after, front + goal;
    forall k | 0 <= k < |now|
      ensures NEWLINE !in now[k].text && (!now[k].newline ==> k == |now| - 1 && now[k].text != [])
    {
      if k < |front| {
        assert now[k] == was[k];
      } else {
        assert now[k] == goal[k - |front|];
      }
    }
  }

  /** Staging all hunks of a diff, last first, yields the new content byte for byte. */
  lemma StageAllIsGoal(hunks: seq<Hunk>, base: Bytes, goal: Bytes)
    requires Diff(hunks, Split(base), Split(goal), 0, 0) && Anchored(hunks)
    ensures StageAll(base, hunks) == goal
  {
    JoinOfSplit(base);
    JoinOfSplit(goal);
    assert [] + Split(base) == Split(base) && [] + Split(goal) == Split(goal);
    StageAllBehind([], hunks, Split(base), Split(goal), 0);
  }

  function ReversedAll(hunks: seq<Hunk>): (reversed: seq<Hunk>)
    ensures |reversed| == |hunks| && forall k :: 0 <= k < |hunks| ==> reversed[k] == Reversed(hunks[k])
  {
    seq(|hunks|, k requires 0 <= k < |hunks| => Reversed(hunks[k]))
  }

  lemma {:induction false} DiffReverses(hunks: seq<Hunk>, base: seq<Line>, goal: seq<Line>, o: nat, n: nat)
    requires Diff(hunks, base, goal, o, n)
    ensures Diff(ReversedAll(hunks), goal, base, n, o)
    decreases |hunks|
  {
    if hunks == [] {
    } else {
      var gap, restBase, restGoal :| DiffAt(hunks, base, goal, o, n, gap, restBase, restGoal);
      SwappedSides(hunks[0].lines);
      DiffReverses(hunks[1..], restBase, restGoal, o + |gap| + |OldSide(hunks[0])|, n + |gap| + |NewSide(hunks[0])|);
      assert ReversedAll(hunks)[1..] == ReversedAll(hunks[1..]);
      assert DiffAt(ReversedAll(hunks), goal, base, n, o, gap, restGoal, restBase);
    }
  }

  lemma {:induction false} UnstageAllIsReverse(index: Bytes, hunks: seq<Hunk>)
    ensures UnstageAll(index, hunks) == StageAll(index, ReversedAll(hunks))
    decreases |hunks|
  {
    if hunks == [] {
    } else {
      UnstageAllIsReverse(index, hunks[1..]);
      assert ReversedAll(hunks)[1..] == ReversedAll(hunks[1..]);
      UnstageIsReverse(UnstageAll(index, hunks[1..]), hunks[0], [], []);
    }
  }

  /** And unstaging them all, last first, yields the old content back. */
  lemma UnstageAllIsBase(hunks: seq<Hunk>, base: Bytes, goal: Bytes)
    requires Diff(hunks, Split(base), Split(goal), 0, 0) && AnchoredBack(hunks)
    ensures UnstageAll(goal, hunks) == base
  {
    DiffReverses(hunks, Split(base), Split(goal), 0, 0);
    UnstageAllIsReverse(goal, hunks);
    StageAllIsGoal(ReversedAll(hunks), goal, base);
  }

  /** A hunk cut with context: a side without lines is a content without lines. */
  predicate KeepsContext(hunk: Hunk, base: Bytes, goal: Bytes) {
    (hunk.oldCount == 0 ==> base == []) && (hunk.newCount == 0 ==> goal == [])
  }

  /** With context kept, staging and unstaging are inverses on the two contents, final newline or not. */
  lemma StageUnstageRoundTrip(hunk: Hunk, base: Bytes, goal: Bytes)
    requires Describes(hunk, base, goal) && KeepsContext(hunk, base, goal)
    ensures Stage(base, hunk) == goal && Unstage(goal, hunk) == base
    ensures Unstage(Stage(base, hunk), hunk) == base && Stage(Unstage(goal, hunk), hunk) == goal
  {
    StageIsExact(hunk, base, goal);
    UnstageIsExact(hunk, base, goal);
  }

  /** The line b inserted after the line a, without context. */
  const EARLY: Hunk := Hunk(1, 0, 2, 1, [DiffLine(Addition, Line([98], true))])

  lemma TwoLines()
    ensures Split([97, NEWLINE]) == [Line([97], true)]
    ensures Split([97, NEWLINE, 98, NEWLINE]) == [Line([97], true), Line([98], true)]
  {
    var a, b := Line([97], true), Line([98], true);
    assert Join([b]) == Terminated(b) + Join([]) && [a, b][1..] == [b];
    assert Join([a]) == [97, NEWLINE] && Join([a, b]) == [97, NEWLINE, 98, NEWLINE];
    hide Join, Split;
    SplitOfJoin([a]);
    SplitOfJoin([a, b]);
  }

  /** Such an insertion goes before the line it follows. */
  lemma InsertionLandsEarly()
    ensures var base, goal := [97, NEWLINE], [97, NEWLINE, 98, NEWLINE];
            Describes(EARLY, base, goal) && Stage(base, EARLY) != goal
  {
    hide Split, Join, Stage;
    var base: Bytes, goal: Bytes := [97, NEWLINE], [97, NEWLINE, 98, NEWLINE];
    var a, b := Line([97], true), Line([98], true);
    TwoLines();
    assert Side(EARLY.lines[1..], Addition) == [] && Side(EARLY.lines[1..], Deletion) == [];
    assert OldSide(EARLY) == [] && NewSide(EARLY) == [b];
    assert Framed(base, [a], OldSide(EARLY), []) && Framed(goal, [a], NewSide(EARLY), []);
    assert DescribesOld(EARLY, base, goal);
    assert Split(base)[0] == a && NewSide(EARLY)[0] == b && a.text[0] != b.text[0];
    StageIsExact(EARLY, base, goal);
  }

  // ---------------------------------------------------------------- untracked files

  function Added(lines: seq<Line>): (added: seq<DiffLine>)
    ensures |added| == |lines| && forall k :: 0 <= k < |lines| ==> added[k] == DiffLine(Addition, lines[k])
  {
    if lines == [] then [] else [DiffLine(Addition, lines[0])] + Added(lines[1..])
  }

  /** The one hunk of an untracked file, if it has any content. */
  function AllAddHunk(content: Bytes): Option<Hunk> {
    if Split(content) == [] then None else Some(Hunk(0, 0, 1, |Split(content)|, Added(Split(content))))
  }

  lemma {:induction false} AddedSides(lines: seq<Line>)
    ensures Side(Added(lines), Addition) == [] && Side(Added(lines), Deletion) == lines
  {
    if lines == [] {
    } else {
      AddedSides(lines[1..]);
    }
  }

  /** It describes the change from nothing, so staging it stores the file and unstaging it empties the entry. */
  lemma UntrackedStages(content: Bytes)
    requires content != []
    ensures AllAddHunk(content).Some?
    ensures var hunk := AllAddHunk(content).value;
            Describes(hunk, [], content) && Stage([], hunk) == content && Unstage(content, hunk) == []
  {
    var hunk := AllAddHunk(content).value;
    AddedSides(Split(content));
    assert Framed([], [], OldSide(hunk), []) && Framed(content, [], NewSide(hunk), []);
    StageUnstageRoundTrip(hunk, [], content);
  }
}
