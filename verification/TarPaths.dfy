/** What the paths of an archive mean: how they split, and where a link in one leads. */
module TarPaths {
  import opened Wrappers
  import opened TarFormat
  import opened TarStream
  import opened TarListing

  // ---------------------------------------------------------------- splitting

  lemma {:induction false} SlashFree(part: Bytes)
    requires SLASH !in part
    ensures FirstSlash(part) == |part| && Segments(part) == [part]
    decreases |part|
  {
    if part == [] {
    } else {
      assert part == [part[0]] + part[1..];
      SlashFree(part[1..]);
    }
  }

  lemma {:induction false} SlashAfter(part: Bytes, rest: Bytes)
    requires SLASH !in part
    ensures FirstSlash(part + [SLASH] + rest) == |part|
    decreases |part|
  {
    var s := part + [SLASH] + rest;
    if part == [] {
      assert s[0] == SLASH;
    } else {
      assert part == [part[0]] + part[1..] && s[0] == part[0] && s[1..] == part[1..] + [SLASH] + rest;
      SlashAfter(part[1..], rest);
    }
  }

  /** A slash separates, wherever it stands. */
  lemma {:induction false} SegmentsConcat(a: Bytes, b: Bytes)
    ensures Segments(a + [SLASH] + b) == Segments(a) + Segments(b)
    decreases |a|
  {
    hide Segments, FirstSlash;
    var at := FirstSlash(a);
    CutAtSlash(a);
    if at == |a| {
      assert a[..at] == a;
      SlashFree(a);
      FirstSegment(a, b);
    } else {
      var front, back := a[..at], a[at + 1..];
      assert a == front + [SLASH] + back && a + [SLASH] + b == front + [SLASH] + (back + [SLASH] + b);
      FirstSegment(front, back);
      FirstSegment(front, back + [SLASH] + b);
      SegmentsConcat(back, b);
      assert [front] + Segments(back) + Segments(b) == [front] + (Segments(back) + Segments(b));
    }
  }

  lemma FirstSegment(part: Bytes, rest: Bytes)
    requires SLASH !in part
    ensures Segments(part + [SLASH] + rest) == [part] + Segments(rest)
  {
    var s := part + [SLASH] + rest;
    SlashAfter(part, rest);
    assert s[..|part|] == part && s[|part| + 1..] == rest;
    hide FirstSlash;
  }

  lemma {:induction false} CutAtSlash(s: Bytes)
    ensures FirstSlash(s) < |s| ==> s[FirstSlash(s)] == SLASH
    ensures SLASH !in s[..FirstSlash(s)]
  {
    if s == [] || s[0] == SLASH {
    } else {
      CutAtSlash(s[1..]);
      assert s[..FirstSlash(s)] == [s[0]] + s[1..][..FirstSlash(s[1..])];
    }
  }

  lemma {:induction false} SegmentsAreSlashFree(s: Bytes)
    ensures Segments(s) != [] && forall part :: part in Segments(s) ==> SLASH !in part
    decreases |s|
  {
    var at := FirstSlash(s);
    CutAtSlash(s);
    if at == |s| {
      assert s[..at] == s;
    } else {
      SegmentsAreSlashFree(s[at + 1..]);
    }
  }

  /** The components of a path: those of its two halves at any slash, and of one segment itself, unless it is
      empty or a dot. */
  lemma ComponentsSplit(a: Bytes, b: Bytes, part: Bytes)
    ensures Components(a + [SLASH] + b) == Components(a) + Components(b)
    ensures SLASH !in part ==> Components(part) == if part == [] || part == [46] then [] else [part]
  {
    SegmentsConcat(a, b);
    MeaningfulsConcat(Segments(a), Segments(b));
    if SLASH !in part {
      SlashFree(part);
      assert [part][1..] == [];
      assert Meaningfuls([part]) == (if Meaningful(part) then [part] else []) + [];
    }
  }

  lemma {:induction false} MeaningfulsConcat(a: seq<Bytes>, b: seq<Bytes>)
    ensures Meaningfuls(a + b) == Meaningfuls(a) + Meaningfuls(b)
  {
    if a == [] {
      assert a + b == b;
    } else {
      assert (a + b)[0] == a[0] && (a + b)[1..] == a[1..] + b;
      MeaningfulsConcat(a[1..], b);
    }
  }

  /** The directory and the last segment make the path; without a slash there is no directory. */
  lemma {:induction false} ParentSplits(path: Bytes)
    ensures SLASH !in path ==> ParentOf(path) == []
    ensures SLASH in path ==>
              exists name: Bytes :: SLASH !in name && path == ParentOf(path) + [SLASH] + name
    decreases |path|
  {
    if path == [] {
    } else {
      var front, last := path[..|path| - 1], path[|path| - 1];
      assert path == front + [last];
      if last == SLASH {
        assert path == ParentOf(path) + [SLASH] + [];
      } else {
        ParentSplits(front);
        if SLASH in path {
          var name: Bytes :| SLASH !in name && front == ParentOf(front) + [SLASH] + name;
          assert path == ParentOf(path) + [SLASH] + (name + [last]);
        }
      }
    }
  }

  // ---------------------------------------------------------------- where a link leads

  /** The walk after one more segment. */
  ghost predicate StepsTo(at: seq<Bytes>, part: Bytes, to: seq<Bytes>) {
    if part == [] || part == [46] then to == at
    else if part == [46, 46] then (at == [] ==> to == []) && (at != [] ==> exists last :: at == to + [last])
    else to == at + [part]
  }

  lemma {:induction false} WalkConcat(at: seq<Bytes>, a: seq<Bytes>, b: seq<Bytes>)
    ensures WalkFrom(at, a + b) == WalkFrom(WalkFrom(at, a), b)
    decreases |a|
  {
    if a == [] {
      assert a + b == b;
    } else {
      assert (a + b)[0] == a[0] && (a + b)[1..] == a[1..] + b;
      if !Meaningful(a[0]) { WalkConcat(at, a[1..], b); }
      else if a[0] == DOT_DOT { WalkConcat(if at == [] then [] else at[..|at| - 1], a[1..], b); }
      else { WalkConcat(at + [a[0]], a[1..], b); }
    }
  }

  lemma WalkOne(at: seq<Bytes>, part: Bytes)
    ensures StepsTo(at, part, WalkFrom(at, [part]))
  {
    assert [part][1..] == [];
    if part == DOT_DOT && at != [] {
      assert Meaningful(part);
      assert WalkFrom(at, [part]) == WalkFrom(at[..|at| - 1], []) == at[..|at| - 1];
      assert at == at[..|at| - 1] + [at[|at| - 1]];
    }
  }

  /** Segment by segment: a name goes down, a parent reference up one and nowhere at the root, an empty segment
      or a dot stays; an absolute target starts at the root, a relative one in the directory of the link. */
  lemma ResolvedBySegments(link: Bytes, target: Bytes, part: Bytes)
    requires SLASH !in part
    ensures StepsTo(if target == [] then [] else ResolvedParts(link, target), part,
                    ResolvedParts(link, target + [SLASH] + part))
    ensures StepsTo(Components(ParentOf(link)), part, ResolvedParts(link, part))
  {
    hide Components, ParentOf;
    SlashFree(part);
    SegmentsConcat(target, part);
    var longer := target + [SLASH] + part;
    var base := if longer[0] == SLASH then [] else Components(ParentOf(link));
    assert target != [] ==> longer[0] == target[0];
    WalkConcat(base, Segments(target), [part]);
    WalkOne(WalkFrom(base, Segments(target)), part);
    WalkOne(Components(ParentOf(link)), part);
    if target == [] { SlashFree([]); }
  }

  lemma {:induction false} WalkKeeps(at: seq<Bytes>, parts: seq<Bytes>)
    ensures forall part :: part in WalkFrom(at, parts) ==>
              part in at || (part in parts && Meaningful(part) && part != DOT_DOT)
    decreases |parts|
  {
    if parts == [] {
    } else {
      if !Meaningful(parts[0]) { WalkKeeps(at, parts[1..]); }
      else if parts[0] == DOT_DOT { WalkKeeps(if at == [] then [] else at[..|at| - 1], parts[1..]); }
      else { WalkKeeps(at + [parts[0]], parts[1..]); }
    }
  }

  lemma {:induction false} JoinSplits(parts: seq<Bytes>)
    requires parts != [] && forall part :: part in parts ==> SLASH !in part
    ensures Segments(Join(parts)) == parts
  {
    SlashFree(parts[0]);
    if |parts| == 1 {
    } else {
      JoinSplits(parts[1..]);
      SegmentsConcat(parts[0], Join(parts[1..]));
      assert [parts[0]] + parts[1..] == parts;
    }
  }

  /** The resolved path spells those names, one slash in front of each, and the root alone as a slash. */
  lemma ResolvedSpells(link: Bytes, target: Bytes)
    ensures var parts := ResolvedParts(link, target);
            if parts == [] then Resolved(link, target) == [SLASH]
            else Segments(Resolved(link, target)) == [[]] + parts && [] !in parts && [46] !in parts
  {
    ResolvedAreNames(link, target);
    hide ResolvedParts, Segments;
    var parts := ResolvedParts(link, target);
    if parts != [] {
      PathOfNames(parts);
    }
  }

  lemma PathOfNames(parts: seq<Bytes>)
    requires parts != [] && forall part :: part in parts ==> SLASH !in part
    ensures Segments([SLASH] + Join(parts)) == [[]] + parts
  {
    hide Segments;
    JoinSplits(parts);
    hide Join;
    SlashFree([]);
    SegmentsConcat([], Join(parts));
    assert [] + [SLASH] + Join(parts) == [SLASH] + Join(parts);
  }

  lemma ResolvedAreNames(link: Bytes, target: Bytes)
    ensures forall part :: part in ResolvedParts(link, target) ==> SLASH !in part && Meaningful(part)
  {
    hide Segments, WalkFrom, ParentOf;
    SegmentsAreSlashFree(target);
    SegmentsAreSlashFree(ParentOf(link));
    WalkKeeps(if target != [] && target[0] == SLASH then [] else Components(ParentOf(link)), Segments(target));
  }

  /** A name followed by a parent reference is as good as neither. */
  lemma NameThenParent(link: Bytes, name: Bytes, rest: Bytes)
    requires SLASH !in name && Meaningful(name) && name != DOT_DOT && (rest != [] ==> rest[0] != SLASH)
    ensures Resolved(link, name + [SLASH] + DOT_DOT + [SLASH] + rest) == Resolved(link, rest)
  {
    hide Components, ParentOf;
    var base := Components(ParentOf(link));
    var longer := name + [SLASH] + DOT_DOT + [SLASH] + rest;
    assert longer[0] == name[0] != SLASH by { assert name[0] in name; }
    SegmentsConcat(name + [SLASH] + DOT_DOT, rest);
    SegmentsConcat(name, DOT_DOT);
    SlashFree(name);
    SlashFree(DOT_DOT);
    assert Segments(longer) == [name] + [DOT_DOT] + Segments(rest);
    WalkConcat(base, [name] + [DOT_DOT], Segments(rest));
    WalkConcat(base, [name], [DOT_DOT]);
    assert [name][1..] == [] && [DOT_DOT][1..] == [];
    assert WalkFrom(base, [name]) == base + [name];
    assert WalkFrom(base + [name], [DOT_DOT]) == (base + [name])[..|base|] == base;
  }

  /** A parent reference at the root stays there. */
  lemma RootHasNoParent(link: Bytes, rest: Bytes)
    ensures Resolved(link, [SLASH] + DOT_DOT + [SLASH] + rest) == Resolved(link, [SLASH] + rest)
  {
    hide Components, ParentOf;
    SegmentsConcat([SLASH] + DOT_DOT, rest);
    SegmentsConcat([], DOT_DOT);
    SegmentsConcat([], rest);
    SlashFree([]);
    SlashFree(DOT_DOT);
    assert [] + [SLASH] + DOT_DOT == [SLASH] + DOT_DOT && [] + [SLASH] + rest == [SLASH] + rest;
    WalkConcat([], [[]] + [DOT_DOT], Segments(rest));
    WalkConcat([], [[]], Segments(rest));
    WalkConcat([], [[]], [DOT_DOT]);
    WalkOne([], []);
    WalkOne([], DOT_DOT);
  }

  /** A relative target means the path of the link's directory joined with it, exactly for the links whose
      directory is spelled without parent references: those are not walked. */
  lemma RelativeIsJoined(link: Bytes)
    requires link != [] && link[0] == SLASH
    ensures (forall target: Bytes :: (target != [] ==> target[0] != SLASH) ==> JoinsDirectory(link, target))
            <==> DOT_DOT !in Components(ParentOf(link))
  {
    var directory := ParentOf(link);
    if DOT_DOT !in Components(directory) {
      forall target: Bytes | target != [] ==> target[0] != SLASH ensures JoinsDirectory(link, target) {
        CleanIsJoined(link, target);
      }
    } else {
      AbsoluteParent(link);
      SlashFree([]);
      WalkOne(Components(directory), []);
      ResolvedHasNoParentReference(link, directory + [SLASH] + []);
      assert !JoinsDirectory(link, []);
    }
  }

  /** Such a link: `/../l` that leads to `c` is resolved to `/../c`. */
  lemma ParentReferenceStays()
    ensures ResolvedParts([47, 46, 46, 47, 108], [99]) == [[46, 46], [99]]
  {
    hide Components;
    var link: Bytes, directory: Bytes := [47, 46, 46, 47, 108], [47, 46, 46];
    assert ParentOf(link) == directory by {
      assert link[..4] == [47, 46, 46, 47] && link[..4][..3] == directory;
    }
    ComponentsSplit([], [46, 46], [46, 46]);
    ComponentsSplit([], [], []);
    assert [] + [SLASH] + [46, 46] == directory;
    assert Components(directory) == [] + [[46, 46]] == [[46, 46]];
    SlashFree([99]);
    WalkOne([[46, 46]], [99]);
  }

  ghost predicate JoinsDirectory(link: Bytes, target: Bytes) {
    ResolvedParts(link, target) == ResolvedParts(link, ParentOf(link) + [SLASH] + target)
  }

  lemma AbsoluteParent(link: Bytes)
    requires link != [] && link[0] == SLASH
    ensures (ParentOf(link) + [SLASH])[0] == SLASH
  {
    ParentSplits(link);
    var name: Bytes :| SLASH !in name && link == ParentOf(link) + [SLASH] + name;
  }

  lemma CleanIsJoined(link: Bytes, target: Bytes)
    requires link != [] && link[0] == SLASH && DOT_DOT !in Components(ParentOf(link))
    requires target != [] ==> target[0] != SLASH
    ensures JoinsDirectory(link, target)
  {
    hide Segments, Meaningfuls, ParentOf, WalkFrom;
    var directory := ParentOf(link);
    AbsoluteParent(link);
    var joined := directory + [SLASH] + target;
    assert joined[0] == (directory + [SLASH])[0];
    SegmentsConcat(directory, target);
    WalkConcat([], Segments(directory), Segments(target));
    WalkClean([], Segments(directory));
    assert [] + Components(directory) == Components(directory);
  }

  /** Without parent references the walk collects the components. */
  lemma {:induction false} WalkClean(at: seq<Bytes>, parts: seq<Bytes>)
    requires DOT_DOT !in Meaningfuls(parts)
    ensures WalkFrom(at, parts) == at + Meaningfuls(parts)
    decreases |parts|
  {
    if parts == [] {
      assert at + [] == at;
    } else if !Meaningful(parts[0]) {
      WalkClean(at, parts[1..]);
      assert [] + Meaningfuls(parts[1..]) == Meaningfuls(parts[1..]);
    } else {
      assert parts[0] in Meaningfuls(parts);
      WalkClean(at + [parts[0]], parts[1..]);
      assert at + [parts[0]] + Meaningfuls(parts[1..]) == at + ([parts[0]] + Meaningfuls(parts[1..]));
    }
  }

  // ---------------------------------------------------------------- entries of a listing

  /** An entry is listed when its name has exactly one component more than the root, by that component, at the cost of
      its name and a record, and with a size only if it is a file; an entry escapes unless its name has the root's
      components first and more. */
  lemma EntryIsListed(root: seq<Bytes>, entry: StreamEntry, below: seq<Bytes>, leaf: Bytes)
    ensures Components(entry.name) == root + below ==> (Inside(root, entry) <==> below != [])
    ensures (forall parts :: Components(entry.name) != root + parts) ==> !Inside(root, entry)
    ensures IsChild(root, entry) <==> exists part :: Components(entry.name) == root + [part]
    ensures CostOf(entry) == |entry.name| + 48
    ensures Components(entry.name) == root + [leaf] ==>
              Inside(root, entry)
              && ChildOf(root, entry)
                 == DirEntry(leaf, entry.kind, if entry.kind == File then Some(entry.size) else None)
  {
    hide Components;
    var parts := Components(entry.name);
    if root <= parts {
      assert parts == root + parts[|root|..];
      if |parts| == |root| + 1 {
        assert parts == root + [parts[|root|]];
      }
    }
  }
}
