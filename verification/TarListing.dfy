/** The directory listing folded over a streamed archive. */
module TarListing {
  import opened Wrappers
  import opened TarFormat
  import opened TarStream

  const LIST_LIMIT: nat := 16 * 1024 * 1024
  /** Bytes one retained entry takes besides its name, on a 64-bit target. */
  const ENTRY_COST: nat := 48
  const DOT: Bytes := [46]
  const DOT_DOT: Bytes := [46, 46]

  datatype DirEntry = DirEntry(name: Bytes, kind: Kind, size: Option<nat>)

  datatype ListError = BadArchive(error: TarError) | Escapes(name: Bytes) | TooLarge | NoLinkTarget
    | NotADirectory(kind: Kind) | LinkChain

  datatype Listing = Listing(root: Option<seq<Bytes>>, symlink: Option<Bytes>, children: seq<DirEntry>, retained: nat)

  const EMPTY: Listing := Listing(None, None, [], 0)

  datatype Answer = Children(children: seq<DirEntry>) | LinkTo(target: Bytes)

  // ---------------------------------------------------------------- paths

  function FirstSlash(s: Bytes): (at: nat)
    ensures at <= |s|
  {
    if s == [] || s[0] == SLASH then 0 else 1 + FirstSlash(s[1..])
  }

  function Segments(s: Bytes): seq<Bytes>
    decreases |s|
  {
    var at := FirstSlash(s);
    if at == |s| then [s] else [s[..at]] + Segments(s[at + 1..])
  }

  predicate Meaningful(part: Bytes) {
    part != [] && part != DOT
  }

  function Meaningfuls(parts: seq<Bytes>): (kept: seq<Bytes>)
    ensures forall part :: part in kept <==> part in parts && Meaningful(part)
  {
    if parts == [] then []
    else
      assert parts == [parts[0]] + parts[1..];
      (if Meaningful(parts[0]) then [parts[0]] else []) + Meaningfuls(parts[1..])
  }

  function Components(name: Bytes): seq<Bytes> {
    Meaningfuls(Segments(name))
  }

  /** Everything before the last slash; nothing when there is none. */
  function ParentOf(path: Bytes): Bytes {
    if path == [] then [] else if path[|path| - 1] == SLASH then path[..|path| - 1] else ParentOf(path[..|path| - 1])
  }

  /** A target's segments walked lexically from a starting directory. */
  function WalkFrom(at: seq<Bytes>, parts: seq<Bytes>): seq<Bytes>
    decreases |parts|
  {
    if parts == [] then at
    else if !Meaningful(parts[0]) then WalkFrom(at, parts[1..])
    else if parts[0] == DOT_DOT then WalkFrom(if at == [] then [] else at[..|at| - 1], parts[1..])
    else WalkFrom(at + [parts[0]], parts[1..])
  }

  function Join(parts: seq<Bytes>): Bytes {
    if parts == [] then [] else if |parts| == 1 then parts[0] else parts[0] + [SLASH] + Join(parts[1..])
  }

  function ResolvedParts(link: Bytes, target: Bytes): seq<Bytes> {
    WalkFrom(if target != [] && target[0] == SLASH then [] else Components(ParentOf(link)), Segments(target))
  }

  function Resolved(link: Bytes, target: Bytes): Bytes {
    [SLASH] + Join(ResolvedParts(link, target))
  }

  method ResolveLink(link: Bytes, target: Bytes) returns (path: Bytes)
    ensures path == Resolved(link, target)
  {
    var at := if target != [] && target[0] == SLASH then [] else Components(ParentOf(link));
    var parts := Segments(target);
    for k := 0 to |parts|
      invariant WalkFrom(at, parts[k..]) == ResolvedParts(link, target)
    {
      assert parts[k..][1..] == parts[k + 1..];
      if Meaningful(parts[k]) {
        if parts[k] == DOT_DOT {
          if at != [] {
            at := at[..|at| - 1];
          }
        } else {
          at := at + [parts[k]];
        }
      }
    }
    return [SLASH] + Join(at);
  }

  /** Resolving leaves no parent reference unless the link's own directory was spelled with one. */
  lemma ResolvedHasNoParentReference(link: Bytes, target: Bytes)
    requires (target != [] && target[0] == SLASH) || DOT_DOT !in Components(ParentOf(link))
    ensures DOT_DOT !in ResolvedParts(link, target)
  {
    WalkAvoids(if target != [] && target[0] == SLASH then [] else Components(ParentOf(link)), Segments(target));
  }

  lemma {:induction false} WalkAvoids(at: seq<Bytes>, parts: seq<Bytes>)
    requires DOT_DOT !in at
    ensures DOT_DOT !in WalkFrom(at, parts)
    decreases |parts|
  {
    if parts == [] {
    } else {
      if !Meaningful(parts[0]) { WalkAvoids(at, parts[1..]); }
      else if parts[0] == DOT_DOT { WalkAvoids(if at == [] then [] else at[..|at| - 1], parts[1..]); }
      else { WalkAvoids(at + [parts[0]], parts[1..]); }
    }
  }

  // ---------------------------------------------------------------- the fold

  predicate Inside(root: seq<Bytes>, entry: StreamEntry) {
    root < Components(entry.name)
  }

  predicate IsChild(root: seq<Bytes>, entry: StreamEntry) {
    Inside(root, entry) && |Components(entry.name)| == |root| + 1
  }

  function CostOf(entry: StreamEntry): nat { |entry.name| + ENTRY_COST }

  function ChildOf(root: seq<Bytes>, entry: StreamEntry): DirEntry
    requires Inside(root, entry)
  {
    DirEntry(Components(entry.name)[|root|], entry.kind, if entry.kind.File? then Some(entry.size) else None)
  }

  function OnFirst(path: Bytes, listing: Listing, entry: StreamEntry): Result<Listing, ListError> {
    match entry.kind
    case Dir => Success(listing.(root := Some(Components(entry.name))))
    case Symlink =>
      if entry.link.None? || entry.link.value == [] then Failure(NoLinkTarget)
      else Success(listing.(symlink := Some(Resolved(path, entry.link.value))))
    case other => Failure(NotADirectory(other))
  }

  function OnEntry(path: Bytes, listing: Listing, entry: StreamEntry): Result<Listing, ListError> {
    if listing.symlink.Some? then Success(listing)
    else match listing.root
      case None => OnFirst(path, listing, entry)
      case Some(root) =>
        if !Inside(root, entry) then Failure(Escapes(entry.name))
        else if !IsChild(root, entry) then Success(listing)
        else if listing.retained + CostOf(entry) > LIST_LIMIT then Failure(TooLarge)
        else Success(listing.(children := listing.children + [ChildOf(root, entry)],
                              retained := listing.retained + CostOf(entry)))
  }

  function Fold(path: Bytes, listing: Listing, entries: seq<StreamEntry>): Result<Listing, ListError>
    decreases |entries|
  {
    if entries == [] then Success(listing)
    else match OnEntry(path, listing, entries[0])
      case Failure(error) => Failure(error)
      case Success(next) => Fold(path, next, entries[1..])
  }

  function FoldMore(path: Bytes, sofar: Result<Listing, ListError>,
                    entries: seq<StreamEntry>): Result<Listing, ListError> {
    match sofar
    case Failure(error) => Failure(error)
    case Success(listing) => Fold(path, listing, entries)
  }

  lemma {:induction false} FoldConcat(path: Bytes, listing: Listing, a: seq<StreamEntry>, b: seq<StreamEntry>)
    ensures Fold(path, listing, a + b) == FoldMore(path, Fold(path, listing, a), b)
    decreases |a|
  {
    if a == [] {
      assert a + b == b;
    } else {
      assert (a + b)[0] == a[0] && (a + b)[1..] == a[1..] + b;
      var next := OnEntry(path, listing, a[0]);
      if next.Success? {
        FoldConcat(path, next.value, a[1..], b);
      }
    }
  }

  // ---------------------------------------------------------------- what is listed

  ghost function ChildrenUnder(root: seq<Bytes>, entries: seq<StreamEntry>): seq<DirEntry> {
    if entries == [] then []
    else (if IsChild(root, entries[0]) then [ChildOf(root, entries[0])] else []) + ChildrenUnder(root, entries[1..])
  }

  ghost function ChildrenCost(root: seq<Bytes>, entries: seq<StreamEntry>): nat {
    if entries == [] then 0
    else (if IsChild(root, entries[0]) then CostOf(entries[0]) else 0) + ChildrenCost(root, entries[1..])
  }

  ghost predicate AllInside(root: seq<Bytes>, entries: seq<StreamEntry>) {
    forall k :: 0 <= k < |entries| ==> Inside(root, entries[k])
  }

  /** Below a rooted listing: success exactly when nothing escapes and the children's cost stays
      within the limit, and then the children are precisely the entries one level below, in order. */
  lemma {:induction false} FoldListsChildren(path: Bytes, listing: Listing, entries: seq<StreamEntry>)
    requires listing.symlink.None? && listing.root.Some? && listing.retained <= LIST_LIMIT
    ensures var root := listing.root.value;
            && (Fold(path, listing, entries).Success? <==>
                  AllInside(root, entries) && listing.retained + ChildrenCost(root, entries) <= LIST_LIMIT)
            && (Fold(path, listing, entries).Success? ==>
                  Fold(path, listing, entries).value
                  == listing.(children := listing.children + ChildrenUnder(root, entries),
                              retained := listing.retained + ChildrenCost(root, entries)))
    decreases |entries|
  {
    hide Components;
    var root := listing.root.value;
    if entries == [] {
      assert listing.children + [] == listing.children;
    } else {
      var next := OnEntry(path, listing, entries[0]);
      assert AllInside(root, entries) <==> Inside(root, entries[0]) && AllInside(root, entries[1..]) by {
        assert forall k :: 0 < k < |entries| ==> entries[k] == entries[1..][k - 1];
        assert forall k :: 0 <= k < |entries| - 1 ==> entries[1..][k] == entries[k + 1];
      }
      if next.Success? {
        FoldListsChildren(path, next.value, entries[1..]);
        if IsChild(root, entries[0]) {
          assert listing.children + ([ChildOf(root, entries[0])] + ChildrenUnder(root, entries[1..]))
              == (listing.children + [ChildOf(root, entries[0])]) + ChildrenUnder(root, entries[1..]);
        } else {
          assert [] + ChildrenUnder(root, entries[1..]) == ChildrenUnder(root, entries[1..]);
        }
      }
    }
  }

  /** After a symlink answer everything else is drained. */
  lemma {:induction false} FoldDrains(path: Bytes, listing: Listing, entries: seq<StreamEntry>)
    requires listing.symlink.Some?
    ensures Fold(path, listing, entries) == Success(listing)
  {
    if entries == [] {
    } else {
      FoldDrains(path, listing, entries[1..]);
    }
  }

  /** The listing of a whole archive, by its first entry. */
  lemma ListingIsExact(path: Bytes, entries: seq<StreamEntry>)
    requires entries != []
    ensures var first, rest := entries[0], entries[1..];
            var listed := Fold(path, EMPTY, entries);
            match first.kind
            case Dir =>
              var root := Components(first.name);
              && (listed.Success? <==> AllInside(root, rest) && ChildrenCost(root, rest) <= LIST_LIMIT)
              && (listed.Success? ==>
                  listed.value == Listing(Some(root), None, ChildrenUnder(root, rest), ChildrenCost(root, rest)))
            case Symlink =>
              && (listed.Success? <==> first.link.Some? && first.link.value != [])
              && (listed.Success? ==> listed.value == EMPTY.(symlink := Some(Resolved(path, first.link.value))))
            case other => listed == Failure(NotADirectory(other))
  {
    hide Components, Resolved;
    var first := OnEntry(path, EMPTY, entries[0]);
    if first.Success? {
      if first.value.symlink.Some? {
        FoldDrains(path, first.value, entries[1..]);
      } else {
        FoldListsChildren(path, first.value, entries[1..]);
        var root := first.value.root.value;
        assert [] + ChildrenUnder(root, entries[1..]) == ChildrenUnder(root, entries[1..]);
      }
    }
  }

  // ---------------------------------------------------------------- chunks

  datatype Heard = Heard(listing: Listing, stream: Stream)

  /** Entry errors come first: the parser only reaches a later byte after the entries before it. */
  function Listen(path: Bytes, listing: Listing, fed: Fed): Result<Heard, ListError> {
    match Fold(path, listing, fed.entries)
    case Failure(error) => Failure(error)
    case Success(next) =>
      match fed
      case Stopped(_, error) => Failure(BadArchive(error))
      case Going(_, state) => Success(Heard(next, state))
  }

  function ListenAll(path: Bytes, listing: Listing, s: Stream, chunks: seq<Bytes>): Result<Heard, ListError>
    requires StreamOk(s)
    decreases |chunks|
  {
    if chunks == [] then Success(Heard(listing, s))
    else match Listen(path, listing, Run(s, chunks[0]))
      case Failure(error) => Failure(error)
      case Success(heard) => ListenAll(path, heard.listing, heard.stream, chunks[1..])
  }

  /** The verdict of a listing does not depend on how the transfer was chunked. */
  lemma {:induction false} ListingIgnoresChunking(path: Bytes, listing: Listing, s: Stream, chunks: seq<Bytes>)
    requires StreamOk(s)
    ensures ListenAll(path, listing, s, chunks) == Listen(path, listing, Run(s, Flatten(chunks)))
    decreases |chunks|
  {
    hide Run, OnEntry;
    if chunks == [] {
      RunNothing(s);
    } else {
      var first, rest := Run(s, chunks[0]), Flatten(chunks[1..]);
      RunConcat(s, chunks[0], rest);
      if first.Going? {
        FoldConcat(path, listing, first.entries, Run(first.state, rest).entries);
        var heard := Listen(path, listing, first);
        if heard.Success? {
          ListingIgnoresChunking(path, heard.value.listing, first.state, chunks[1..]);
        }
      }
    }
  }

  lemma RunNothing(s: Stream)
    requires StreamOk(s)
    ensures Run(s, []) == Going([], s)
  {
  }

  /** The answer once the stream has ended. */
  function AnswerOf(heard: Heard): Result<Answer, ListError> {
    match FinishOf(heard.stream)
    case Some(error) => Failure(BadArchive(error))
    case None => Success(if heard.listing.symlink.Some? then LinkTo(heard.listing.symlink.value)
                         else Children(heard.listing.children))
  }

  // ---------------------------------------------------------------- the consumer object

  class ListingConsumer {
    const path: Bytes
    const parser: StreamParser
    var root: Option<seq<Bytes>>
    var symlink: Option<Bytes>
    var children: seq<DirEntry>
    var retained: nat

    ghost predicate Valid()
      reads this, parser, parser.header
    {
      parser.Valid()
    }

    function Now(): Listing
      reads this
    {
      Listing(root, symlink, children, retained)
    }

    constructor (listed: Bytes)
      ensures Valid() && fresh(parser) && fresh(parser.header)
      ensures path == listed && Now() == EMPTY && parser.State() == INITIAL
    {
      path := listed;
      root, symlink, children, retained := None, None, [], 0;
      parser := new StreamParser();
    }

    method Feed(chunk: Bytes) returns (result: Result<(), ListError>)
      requires Valid()
      modifies this, parser, parser.header
      ensures match Listen(path, old(Now()), Run(old(parser.State()), chunk))
              case Failure(error) => result == Failure(error)
              case Success(heard) =>
                result == Success(()) && Valid() && Now() == heard.listing && parser.State() == heard.stream
    {
      var entries, error := parser.Feed(chunk);
      var failed := TakeEntries(entries);
      if failed.Some? {
        return Failure(failed.value);
      }
      if error.Some? {
        return Failure(BadArchive(error.value));
      }
      return Success(());
    }

    /** Entries after the first failure are ignored. */
    method TakeEntries(entries: seq<StreamEntry>) returns (failed: Option<ListError>)
      modifies this
      ensures match Fold(path, old(Now()), entries)
              case Failure(error) => failed == Some(error)
              case Success(listing) => failed.None? && Now() == listing
    {
      failed := None;
      for k := 0 to |entries|
        invariant match failed
                  case None => Fold(path, Now(), entries[k..]) == Fold(path, old(Now()), entries)
                  case Some(error) => Fold(path, old(Now()), entries) == Failure(error)
      {
        assert entries[k..][1..] == entries[k + 1..];
        if failed.None? {
          failed := Take(entries[k]);
        }
      }
    }

    method Take(entry: StreamEntry) returns (failed: Option<ListError>)
      modifies this
      ensures match OnEntry(path, old(Now()), entry)
              case Failure(error) => failed == Some(error)
              case Success(listing) => failed.None? && Now() == listing
    {
      if symlink.Some? {
        return None;
      }
      if root.None? {
        match entry.kind
        case Dir =>
          root := Some(Components(entry.name));
          return None;
        case Symlink =>
          if entry.link.None? || entry.link.value == [] {
            return Some(NoLinkTarget);
          }
          var target := ResolveLink(path, entry.link.value);
          symlink := Some(target);
          return None;
        case other =>
          return Some(NotADirectory(other));
      }
      var parts, depth := Components(entry.name), |root.value|;
      if |parts| <= depth || parts[..depth] != root.value {
        return Some(Escapes(entry.name));
      }
      if |parts| == depth + 1 {
        var cost := |entry.name| + ENTRY_COST;
        if retained + cost > LIST_LIMIT {
          return Some(TooLarge);
        }
        retained := retained + cost;
        var size := if entry.kind.File? then Some(entry.size) else None;
        children := children + [DirEntry(parts[depth], entry.kind, size)];
      }
      return None;
    }

    method Finish() returns (result: Result<Answer, ListError>)
      requires Valid()
      ensures result == AnswerOf(Heard(Now(), parser.State()))
    {
      var error := parser.Finish();
      if error.Some? {
        return Failure(BadArchive(error.value));
      }
      return Success(if symlink.Some? then LinkTo(symlink.value) else Children(children));
    }
  }

  // ---------------------------------------------------------------- one path, one hop

  /** The answer of one pass over a path's archive, as its chunks arrive. */
  function Listed(path: Bytes, chunks: seq<Bytes>): Result<Answer, ListError> {
    match ListenAll(path, EMPTY, INITIAL, chunks)
    case Failure(error) => Failure(error)
    case Success(heard) => AnswerOf(heard)
  }

  /** A link is followed once, a link behind it refused. */
  function ListVia(path: Bytes, fetch: Bytes -> seq<Bytes>): Result<seq<DirEntry>, ListError> {
    match Listed(path, fetch(path))
    case Failure(error) => Failure(error)
    case Success(Children(children)) => Success(children)
    case Success(LinkTo(target)) =>
      match Listed(target, fetch(target))
      case Failure(error) => Failure(error)
      case Success(Children(children)) => Success(children)
      case Success(LinkTo(_)) => Failure(LinkChain)
  }

  method ListOnce(path: Bytes, chunks: seq<Bytes>) returns (result: Result<Answer, ListError>)
    ensures result == Listed(path, chunks)
  {
    hide Run, Fold;
    var consumer := new ListingConsumer(path);
    for k := 0 to |chunks|
      invariant consumer.Valid() && consumer.path == path && fresh(consumer) && fresh(consumer.parser)
      invariant fresh(consumer.parser.header)
      invariant ListenAll(path, consumer.Now(), consumer.parser.State(), chunks[k..])
             == ListenAll(path, EMPTY, INITIAL, chunks)
    {
      assert chunks[k..][1..] == chunks[k + 1..];
      var fed := consumer.Feed(chunks[k]);
      if fed.Failure? {
        return Failure(fed.error);
      }
    }
    result := consumer.Finish();
  }

  /** The children of a path, `fetch` giving the chunks the engine would stream for each path. */
  method ListDir(path: Bytes, fetch: Bytes -> seq<Bytes>) returns (result: Result<seq<DirEntry>, ListError>)
    ensures result == ListVia(path, fetch)
  {
    hide Listed;
    var first := ListOnce(path, fetch(path));
    if first.Failure? {
      return Failure(first.error);
    }
    match first.value
    case Children(children) =>
      return Success(children);
    case LinkTo(target) =>
      var second := ListOnce(target, fetch(target));
      if second.Failure? {
        return Failure(second.error);
      }
      match second.value {
        case Children(children) => return Success(children);
        case LinkTo(_) => return Failure(LinkChain);
      }
  }

  /** The entries of an archive that is whole and well formed. */
  predicate Streams(chunks: seq<Bytes>, entries: seq<StreamEntry>) {
    var fed := Run(INITIAL, Flatten(chunks));
    fed.Going? && FinishOf(fed.state).None? && fed.entries == entries
  }

  /** What one pass must answer for such an archive, by its first entry. */
  ghost predicate Says(path: Bytes, entries: seq<StreamEntry>, answer: Result<Answer, ListError>)
    requires entries != []
  {
    var first, rest := entries[0], entries[1..];
    match first.kind
    case Dir =>
      var root := Components(first.name);
      if AllInside(root, rest) && ChildrenCost(root, rest) <= LIST_LIMIT then
        answer == Success(Children(ChildrenUnder(root, rest)))
      else answer.Failure?
    case Symlink =>
      answer == if first.link.Some? && first.link.value != [] then Success(LinkTo(Resolved(path, first.link.value)))
                else Failure(NoLinkTarget)
    case other => answer == Failure(NotADirectory(other))
  }

  lemma ListedSays(path: Bytes, chunks: seq<Bytes>, entries: seq<StreamEntry>)
    requires Streams(chunks, entries) && entries != []
    ensures Says(path, entries, Listed(path, chunks))
  {
    ListingIgnoresChunking(path, EMPTY, INITIAL, chunks);
    ListingIsExact(path, entries);
    hide Components, Resolved, Run, Fold, ChildrenUnder, AllInside, ChildrenCost;
    if entries[0].kind.Symlink? { BadLinkFails(path, entries); }
  }

  lemma BadLinkFails(path: Bytes, entries: seq<StreamEntry>)
    requires entries != [] && entries[0].kind.Symlink?
    ensures entries[0].link.None? || entries[0].link.value == [] ==> Fold(path, EMPTY, entries) == Failure(NoLinkTarget)
  {
  }

  /** The listing of a path whose archives are well formed: a directory's entries one level below it, of the path
      itself or of the one its link resolves to; a second link and everything else is refused. */
  lemma ListDirFollowsOneLink(path: Bytes, fetch: Bytes -> seq<Bytes>, entries: seq<StreamEntry>,
                              behind: seq<StreamEntry>)
    requires Streams(fetch(path), entries) && entries != []
    requires entries[0].kind.Symlink? && entries[0].link.Some? && entries[0].link.value != [] ==>
               Streams(fetch(Resolved(path, entries[0].link.value)), behind) && behind != []
    ensures var result := ListVia(path, fetch);
            match entries[0].kind
            case Dir => Lists(entries, result)
            case Symlink =>
              if entries[0].link.None? || entries[0].link.value == [] then result == Failure(NoLinkTarget)
              else (match behind[0].kind
                    case Dir => Lists(behind, result)
                    case Symlink =>
                      result == Failure(if behind[0].link.Some? && behind[0].link.value != [] then LinkChain
                                        else NoLinkTarget)
                    case other => result == Failure(NotADirectory(other)))
            case other => result == Failure(NotADirectory(other))
  {
    hide Listed, Streams, Components, Resolved, ChildrenUnder, AllInside, ChildrenCost;
    ListedSays(path, fetch(path), entries);
    if entries[0].kind.Symlink? && entries[0].link.Some? && entries[0].link.value != [] {
      var target := Resolved(path, entries[0].link.value);
      ListedSays(target, fetch(target), behind);
    }
  }

  /** The listing of a directory's archive: its children, all of them, unless an entry stands outside it or they
      cost too much. */
  ghost predicate Lists(entries: seq<StreamEntry>, result: Result<seq<DirEntry>, ListError>)
    requires entries != []
  {
    var root, rest := Components(entries[0].name), entries[1..];
    if AllInside(root, rest) && ChildrenCost(root, rest) <= LIST_LIMIT then result == Success(ChildrenUnder(root, rest))
    else result.Failure?
  }

  /** However the engine cuts its transfers, the listing is the same. */
  lemma ListDirIgnoresChunking(path: Bytes, fetch: Bytes -> seq<Bytes>, other: Bytes -> seq<Bytes>)
    requires forall p :: Flatten(fetch(p)) == Flatten(other(p))
    ensures ListVia(path, fetch) == ListVia(path, other)
  {
    forall p ensures Listed(p, fetch(p)) == Listed(p, other(p)) {
      ListingIgnoresChunking(p, EMPTY, INITIAL, fetch(p));
      ListingIgnoresChunking(p, EMPTY, INITIAL, other(p));
    }
    hide Listed;
  }
}
