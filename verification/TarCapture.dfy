/** Bounded captures: what a cut archive still says, and the bytes a bounded read returns. */
module TarCapture {
  import opened Wrappers
  import opened TarFormat
  import Listing = TarListing

  /** Room above the requested bytes for framing. */
  const HEADER_SLACK: nat := 65536

  // ---------------------------------------------------------------- the front of an archive

  /** The first entries of the whole archive, each clamped to the cut; only the last can be short. */
  ghost predicate InitialRun(part: seq<Entry>, whole: seq<Entry>, cut: nat) {
    |part| <= |whole|
    && forall k :: 0 <= k < |part| ==>
         part[k] == whole[k].(end := Min(whole[k].end, cut)) && (k < |part| - 1 ==> whole[k].end <= cut)
  }

  /** The same record read from the whole and from the cut archive. */
  lemma CutRecordIsFront(bytes: Bytes, cut: nat, offset: nat, pending: Option<Bytes>, other: Option<Bytes>)
    requires offset + BLOCK <= cut <= |bytes|
    ensures bytes[..cut][offset..offset + BLOCK] == bytes[offset..offset + BLOCK]
    ensures var whole, part := ReadRecord(bytes, true, offset, pending), ReadRecord(bytes[..cut], false, offset, other);
            whole.Success? && part.Success? ==>
              InitialRun(part.value.entries, whole.value.entries, cut)
              && |part.value.entries| == |whole.value.entries| <= 1
              && (|whole.value.entries| == 1 ==> whole.value.entries[0].end <= whole.value.next)
              && (part.value.cut <==> whole.value.next > cut)
              && (!part.value.cut ==> part.value.next == whole.value.next)
  {
    hide EntryName, Override, HeaderSize, LinkTarget, Padded;
    var header := bytes[offset..offset + BLOCK];
    assert bytes[..cut][offset..offset + BLOCK] == header;
    if HeaderSize(header).Success? {
      PaddedIsSizeAndPadding(HeaderSize(header).value);
    }
  }

  lemma {:induction false} PrefixIsInitialRun(bytes: Bytes, cut: nat, offset: nat, pending: Option<Bytes>,
                                              other: Option<Bytes>)
    requires offset <= cut <= |bytes|
    requires ParseFrom(bytes, true, offset, pending).Success? && ParseFrom(bytes[..cut], false, offset, other).Success?
    ensures InitialRun(ParseFrom(bytes[..cut], false, offset, other).value,
                       ParseFrom(bytes, true, offset, pending).value, cut)
    decreases |bytes| - offset
  {
    hide ReadRecord;
    if offset + BLOCK > cut {
    } else {
      CutRecordIsFront(bytes, cut, offset, pending, other);
      if !AllZero(bytes[offset..offset + BLOCK]) {
        var whole, part := ReadRecord(bytes, true, offset, pending).value,
          ReadRecord(bytes[..cut], false, offset, other).value;
        CompleteIsNotCut(bytes, offset, pending);
        if !part.cut {
          PrefixIsInitialRun(bytes, cut, whole.next, whole.pending, part.pending);
        }
      }
    }
  }

  lemma CompleteIsNotCut(bytes: Bytes, offset: nat, pending: Option<Bytes>)
    requires offset + BLOCK <= |bytes|
    ensures ReadRecord(bytes, true, offset, pending).Success? ==> !ReadRecord(bytes, true, offset, pending).value.cut
  {
    hide EntryName, Override, HeaderSize, LinkTarget, Padded;
  }

  // ---------------------------------------------------------------- when the front still parses

  /** The cut falls inside the payload of a long-name or pax record, and the bytes left of it are not a name. */
  predicate CutRefused(bytes: Bytes, cut: nat, offset: nat, pending: Option<Bytes>)
    requires offset <= |bytes|
    decreases |bytes| - offset
  {
    offset + BLOCK <= cut && offset + BLOCK <= |bytes| && !AllZero(bytes[offset..offset + BLOCK])
    && match ReadRecord(bytes, true, offset, pending)
       case Failure(_) => false
       case Success(record) =>
         if record.next > cut then SplitsName(bytes, cut, offset, pending)
         else CutRefused(bytes, cut, record.next, record.pending)
  }

  predicate SplitsName(bytes: Bytes, cut: nat, offset: nat, pending: Option<Bytes>)
    requires offset + BLOCK <= |bytes|
  {
    var flag, start := Flag(bytes[offset..offset + BLOCK]), offset + BLOCK;
    HoldsName(flag) && start <= cut < PayloadEnd(bytes, offset) && cut <= |bytes|
    && Override(flag, bytes[start..cut], pending).Failure?
  }

  /** Where the payload of the record at an offset ends, padding not counted. */
  function PayloadEnd(bytes: Bytes, offset: nat): nat
    requires offset + BLOCK <= |bytes|
  {
    match HeaderSize(bytes[offset..offset + BLOCK])
    case Failure(_) => offset
    case Success(size) => offset + BLOCK + size
  }

  /** The record that the cut reaches into reads from the capture unless it is a name split that way. */
  lemma CutRecordReads(bytes: Bytes, cut: nat, offset: nat, pending: Option<Bytes>)
    requires offset + BLOCK <= cut <= |bytes| && ReadRecord(bytes, true, offset, pending).Success?
    ensures ReadRecord(bytes[..cut], false, offset, pending).Success? <==> !SplitsName(bytes, cut, offset, pending)
    ensures PayloadEnd(bytes, offset) <= cut ==>
              ReadRecord(bytes[..cut], false, offset, pending).Success?
              && ReadRecord(bytes[..cut], false, offset, pending).value.pending
                 == ReadRecord(bytes, true, offset, pending).value.pending
  {
    hide EntryName, HeaderSize, LinkTarget, Padded, NulTerminated, PaxFrom;
    var header := bytes[offset..offset + BLOCK];
    assert bytes[..cut][offset..offset + BLOCK] == header;
    var size, start := HeaderSize(header).value, offset + BLOCK;
    PaddedIsSizeAndPadding(size);
    if start + size <= cut {
      assert bytes[..cut][start..start + size] == bytes[start..start + size];
    } else {
      assert bytes[..cut][start..cut] == bytes[start..cut];
    }
  }

  lemma PayloadWithin(bytes: Bytes, offset: nat, pending: Option<Bytes>)
    requires offset + BLOCK <= |bytes| && ReadRecord(bytes, true, offset, pending).Success?
    ensures PayloadEnd(bytes, offset) <= ReadRecord(bytes, true, offset, pending).value.next
  {
    hide EntryName, Override, HeaderSize, LinkTarget, Padded;
    PaddedIsSizeAndPadding(HeaderSize(bytes[offset..offset + BLOCK]).value);
  }

  /** A capture of an accepted archive is accepted exactly when the cut leaves no broken name. */
  lemma {:induction false} PrefixParses(bytes: Bytes, cut: nat, offset: nat, pending: Option<Bytes>)
    requires offset <= cut <= |bytes| && ParseFrom(bytes, true, offset, pending).Success?
    ensures ParseFrom(bytes[..cut], false, offset, pending).Success? <==> !CutRefused(bytes, cut, offset, pending)
    decreases |bytes| - offset
  {
    hide ReadRecord, PayloadEnd, Flag, SplitsName;
    if offset + BLOCK > cut {
    } else {
      assert bytes[..cut][offset..offset + BLOCK] == bytes[offset..offset + BLOCK];
      if !AllZero(bytes[offset..offset + BLOCK]) {
        var record := ReadRecord(bytes, true, offset, pending).value;
        CompleteIsNotCut(bytes, offset, pending);
        PayloadWithin(bytes, offset, pending);
        CutRecordReads(bytes, cut, offset, pending);
        CutRecordIsFront(bytes, cut, offset, pending, pending);
        if record.next <= cut {
          PrefixParses(bytes, cut, record.next, record.pending);
        }
      }
    }
  }

  /** An entry whose content starts within the cut is still there. */
  lemma {:induction false} EarlyEntrySurvives(bytes: Bytes, cut: nat, offset: nat, pending: Option<Bytes>,
                                              other: Option<Bytes>)
    requires offset <= cut <= |bytes|
    requires ParseFrom(bytes, true, offset, pending).Success? && ParseFrom(bytes[..cut], false, offset, other).Success?
    requires var whole := ParseFrom(bytes, true, offset, pending).value; whole != [] && whole[0].start <= cut
    ensures ParseFrom(bytes[..cut], false, offset, other).value != []
    decreases |bytes| - offset
  {
    hide ReadRecord;
    FirstStartsLater(bytes, offset, pending);
    CutRecordIsFront(bytes, cut, offset, pending, other);
    var whole, part := ReadRecord(bytes, true, offset, pending).value,
      ReadRecord(bytes[..cut], false, offset, other).value;
    CompleteIsNotCut(bytes, offset, pending);
    if whole.entries == [] {
      var rest := ParseFrom(bytes, true, whole.next, whole.pending).value;
      assert [] + rest == rest;
      FirstStartsLater(bytes, whole.next, whole.pending);
      EarlyEntrySurvives(bytes, cut, whole.next, whole.pending, part.pending);
    }
  }

  lemma FirstStartsLater(bytes: Bytes, offset: nat, pending: Option<Bytes>)
    requires offset <= |bytes| && ParseFrom(bytes, true, offset, pending).Success?
    ensures ParseFrom(bytes, true, offset, pending).value != [] ==>
              offset + BLOCK <= |bytes| && !AllZero(bytes[offset..offset + BLOCK])
              && offset + BLOCK <= ParseFrom(bytes, true, offset, pending).value[0].start
    decreases |bytes| - offset
  {
    hide EntryName, Override, HeaderSize, LinkTarget, Padded;
    if offset + BLOCK > |bytes| || AllZero(bytes[offset..offset + BLOCK]) {
    } else {
      var record := ReadRecord(bytes, true, offset, pending).value;
      CompleteIsNotCut(bytes, offset, pending);
      FirstStartsLater(bytes, record.next, record.pending);
    }
  }

  // ---------------------------------------------------------------- bounded reads

  datatype ReadError = BadArchive(error: TarError) | NoEntry | NotAFile(kind: Kind) | NoLinkTarget | LinkChain

  function CutAt(archive: Bytes, max: nat): (cut: nat)
    ensures cut <= |archive|
  {
    Min(max + HEADER_SLACK, |archive|)
  }

  /** What the reader makes of the bytes a bounded read captures. */
  function ReadOf(archive: Bytes, max: nat): Result<seq<Entry>, TarError> {
    ParseFrom(archive[..CutAt(archive, max)], CutAt(archive, max) == |archive|, 0, None)
  }

  /** The answer for an archive that is no link: the front of its first entry's content. */
  function Reading(archive: Bytes, max: nat): Result<Bytes, ReadError> {
    match ReadOf(archive, max)
    case Failure(error) => Failure(BadArchive(error))
    case Success(entries) =>
      if entries == [] then Failure(NoEntry)
      else if !entries[0].kind.File? then Failure(NotAFile(entries[0].kind))
      else
        EntriesInBounds(archive[..CutAt(archive, max)], CutAt(archive, max) == |archive|, 0, None);
        assert entries[0] in entries;
        var content := archive[entries[0].start..entries[0].end];
        Success(content[..Min(max, |content|)])
  }

  /** The resolved target when the capture is a symlink's. */
  function LinkOf(path: Bytes, archive: Bytes, max: nat): Result<Option<Bytes>, ReadError> {
    match ReadOf(archive, max)
    case Failure(error) => Failure(BadArchive(error))
    case Success(entries) =>
      if entries == [] || !entries[0].kind.Symlink? then Success(None)
      else if entries[0].link.None? || entries[0].link.value == [] then Failure(NoLinkTarget)
      else Success(Some(Listing.Resolved(path, entries[0].link.value)))
  }

  /** A link is followed once, a link behind it refused. */
  function ReadVia(path: Bytes, fetch: Bytes -> Bytes, max: nat): Result<Bytes, ReadError> {
    match LinkOf(path, fetch(path), max)
    case Failure(error) => Failure(error)
    case Success(None) => Reading(fetch(path), max)
    case Success(Some(target)) =>
      match LinkOf(target, fetch(target), max)
      case Failure(error) => Failure(error)
      case Success(Some(_)) => Failure(LinkChain)
      case Success(None) => Reading(fetch(target), max)
  }

  /** The bounded read of a path, `fetch` giving the archive the engine would send for each path. */
  method ReadFile(path: Bytes, fetch: Bytes -> Bytes, max: nat) returns (result: Result<Bytes, ReadError>)
    ensures result == ReadVia(path, fetch, max)
  {
    hide ParseFrom, Reading;
    var archive := fetch(path);
    var parsed := Parse(archive[..CutAt(archive, max)], CutAt(archive, max) == |archive|);
    if parsed.Failure? {
      return Failure(BadArchive(parsed.error));
    }
    var link := SymlinkTarget(path, parsed.value);
    if link.Failure? {
      return Failure(link.error);
    }
    if link.value.Some? {
      archive := fetch(link.value.value);
      parsed := Parse(archive[..CutAt(archive, max)], CutAt(archive, max) == |archive|);
      if parsed.Failure? {
        return Failure(BadArchive(parsed.error));
      }
      var again := SymlinkTarget(link.value.value, parsed.value);
      if again.Failure? {
        return Failure(again.error);
      }
      if again.value.Some? {
        return Failure(LinkChain);
      }
    }
    result := FirstContent(archive, max, parsed.value);
  }

  method SymlinkTarget(path: Bytes, entries: seq<Entry>) returns (link: Result<Option<Bytes>, ReadError>)
    ensures forall archive, max :: ReadOf(archive, max) == Success(entries) ==> link == LinkOf(path, archive, max)
  {
    if entries == [] || !entries[0].kind.Symlink? {
      return Success(None);
    }
    if entries[0].link.None? || entries[0].link.value == [] {
      return Failure(NoLinkTarget);
    }
    var target := Listing.ResolveLink(path, entries[0].link.value);
    return Success(Some(target));
  }

  method FirstContent(archive: Bytes, max: nat, entries: seq<Entry>) returns (result: Result<Bytes, ReadError>)
    requires ReadOf(archive, max) == Success(entries)
    ensures result == Reading(archive, max)
  {
    hide ParseFrom, ReadOf, CutAt;
    if entries == [] {
      return Failure(NoEntry);
    }
    var first := entries[0];
    if !first.kind.File? {
      return Failure(NotAFile(first.kind));
    }
    var captured := archive[..CutAt(archive, max)];
    FirstInBounds(archive, max);
    var content := captured[first.start..first.end];
    assert content == archive[first.start..first.end];
    return Success(content[..Min(max, |content|)]);
  }

  lemma FirstInBounds(archive: Bytes, max: nat)
    requires ReadOf(archive, max).Success? && ReadOf(archive, max).value != []
    ensures ReadOf(archive, max).value[0].start <= ReadOf(archive, max).value[0].end <= CutAt(archive, max)
  {
    hide ParseFrom;
    EntriesInBounds(archive[..CutAt(archive, max)], CutAt(archive, max) == |archive|, 0, None);
    assert ReadOf(archive, max).value[0] in ReadOf(archive, max).value;
  }

  lemma {:induction false} EntriesInBounds(bytes: Bytes, complete: bool, offset: nat, pending: Option<Bytes>)
    requires offset <= |bytes| && ParseFrom(bytes, complete, offset, pending).Success?
    ensures forall entry :: entry in ParseFrom(bytes, complete, offset, pending).value ==>
              entry.start <= entry.end <= |bytes|
    decreases |bytes| - offset
  {
    hide EntryName, Override, HeaderSize, LinkTarget, Padded;
    if offset + BLOCK > |bytes| || AllZero(bytes[offset..offset + BLOCK]) {
    } else {
      var record := ReadRecord(bytes, complete, offset, pending).value;
      if !record.cut {
        EntriesInBounds(bytes, complete, record.next, record.pending);
      }
    }
  }

  /** A bounded capture of an accepted archive is read exactly when its cut leaves no broken name. */
  lemma CaptureParses(archive: Bytes, max: nat)
    requires ParseFrom(archive, true, 0, None).Success?
    ensures ReadOf(archive, max).Success? <==> !CutRefused(archive, CutAt(archive, max), 0, None)
  {
    hide ParseFrom, CutRefused;
    PrefixParses(archive, CutAt(archive, max), 0, None);
    if CutAt(archive, max) == |archive| {
      assert archive[..CutAt(archive, max)] == archive;
      UncutIsNotRefused(archive, 0, None);
    }
  }

  lemma {:induction false} UncutIsNotRefused(bytes: Bytes, offset: nat, pending: Option<Bytes>)
    requires offset <= |bytes|
    ensures !CutRefused(bytes, |bytes|, offset, pending)
    decreases |bytes| - offset
  {
    hide ReadRecord, SplitsName;
    if offset + BLOCK > |bytes| || AllZero(bytes[offset..offset + BLOCK]) {
    } else {
      match ReadRecord(bytes, true, offset, pending)
      case Failure(_) =>
      case Success(record) => UncutIsNotRefused(bytes, record.next, record.pending);
    }
  }

  /** Never the wrong bytes: whatever the cut, a read of an accepted archive that succeeds returns bytes from
      the start of its first entry, a file; and where the framing before it fits the slack, exactly the first
      min(max, size) of them. */
  lemma ReadIsFront(archive: Bytes, max: nat)
    requires ParseFrom(archive, true, 0, None).Success? && Reading(archive, max).Success?
    ensures var whole := ParseFrom(archive, true, 0, None).value;
            && whole != [] && whole[0].kind.File? && whole[0].start <= whole[0].end <= |archive|
            && Reading(archive, max).value <= archive[whole[0].start..Min(whole[0].end, whole[0].start + max)]
            && (whole[0].start <= HEADER_SLACK ==>
                  Reading(archive, max).value == archive[whole[0].start..Min(whole[0].end, whole[0].start + max)])
  {
    hide ParseFrom;
    var cut := CutAt(archive, max);
    var seen, whole := ReadOf(archive, max).value, ParseFrom(archive, true, 0, None).value;
    EntriesInBounds(archive, true, 0, None);
    EntriesInBounds(archive[..cut], cut == |archive|, 0, None);
    assert seen[0] in seen;
    SeenIsInitialRun(archive, max);
    assert whole[0] in whole && seen[0] == whole[0].(end := Min(whole[0].end, cut));
    hide ReadOf;
    ClampedFront(archive, whole[0].start, whole[0].end, seen[0].end, cut, max);
  }

  /** The front of a content clamped to the capture. */
  lemma ClampedFront(archive: Bytes, start: nat, end: nat, seen: nat, cut: nat, max: nat)
    requires start <= seen <= end <= |archive| && cut == CutAt(archive, max) && seen == Min(end, cut)
    ensures var content, front := archive[start..seen], archive[start..Min(end, start + max)];
            content[..Min(max, |content|)] <= front
              && (start <= HEADER_SLACK ==> content[..Min(max, |content|)] == front)
  {
    var content, front := archive[start..seen], archive[start..Min(end, start + max)];
    var kept := Min(max, |content|);
    assert content[..kept] == archive[start..start + kept] == front[..kept];
  }

  lemma SeenIsInitialRun(archive: Bytes, max: nat)
    requires ParseFrom(archive, true, 0, None).Success? && ReadOf(archive, max).Success?
    ensures InitialRun(ReadOf(archive, max).value, ParseFrom(archive, true, 0, None).value, CutAt(archive, max))
  {
    hide ParseFrom;
    var cut := CutAt(archive, max);
    if cut == |archive| {
      assert archive[..cut] == archive;
      EntriesInBounds(archive, true, 0, None);
      var whole := ParseFrom(archive, true, 0, None).value;
      assert forall k :: 0 <= k < |whole| ==> whole[k] in whole;
    } else {
      PrefixIsInitialRun(archive, cut, 0, None, None);
    }
  }

  /** When whole archive and capture both parse and the framing before a regular file fits the slack, the
      bounded read is exactly the first min(max, size) bytes of the file. */
  lemma BoundedReadIsExact(archive: Bytes, max: nat)
    requires ParseFrom(archive, true, 0, None).Success? && ReadOf(archive, max).Success?
    requires var whole := ParseFrom(archive, true, 0, None).value;
             whole != [] && whole[0].kind.File? && whole[0].start <= HEADER_SLACK
    ensures var whole := ParseFrom(archive, true, 0, None).value;
            whole[0].start <= whole[0].end <= |archive|
            && Reading(archive, max) == Success(archive[whole[0].start..Min(whole[0].end, whole[0].start + max)])
  {
    hide ParseFrom;
    EntriesInBounds(archive, true, 0, None);
    var whole := ParseFrom(archive, true, 0, None).value;
    assert whole[0] in whole;
    FirstIsSeen(archive, max);
    assert ReadOf(archive, max).value[0].kind.File?;
    ReadIsFront(archive, max);
  }

  // ---------------------------------------------------------------- one hop over a link

  /** The archive and its capture parse, and the framing of the first entry fits the slack. */
  predicate Readable(archive: Bytes, max: nat) {
    var whole := ParseFrom(archive, true, 0, None);
    whole.Success? && ReadOf(archive, max).Success? && whole.value != [] && whole.value[0].start <= HEADER_SLACK
  }

  function FirstOf(archive: Bytes): (first: Entry)
    requires ParseFrom(archive, true, 0, None).Success? && ParseFrom(archive, true, 0, None).value != []
    ensures first.start <= first.end <= |archive|
  {
    EntriesInBounds(archive, true, 0, None);
    assert ParseFrom(archive, true, 0, None).value[0] in ParseFrom(archive, true, 0, None).value;
    ParseFrom(archive, true, 0, None).value[0]
  }

  predicate Leads(entry: Entry) {
    entry.kind.Symlink? && entry.link.Some? && entry.link.value != []
  }

  /** What a read is to answer for an archive with this first entry, when it leads nowhere. */
  function Wanted(archive: Bytes, max: nat): Result<Bytes, ReadError>
    requires ParseFrom(archive, true, 0, None).Success? && ParseFrom(archive, true, 0, None).value != []
  {
    var first := FirstOf(archive);
    match first.kind
    case File => Success(archive[first.start..Min(first.end, first.start + max)])
    case Symlink => Failure(NoLinkTarget)
    case other => Failure(NotAFile(other))
  }

  /** A bounded read of a path: the front of the file at the path, or of the file its link leads to; a link that
      leads to a link, or to nothing, and every other kind is refused. */
  lemma ReadFollowsOneLink(path: Bytes, fetch: Bytes -> Bytes, max: nat)
    requires Readable(fetch(path), max)
    requires var first := FirstOf(fetch(path));
             Leads(first) ==> Readable(fetch(Listing.Resolved(path, first.link.value)), max)
    ensures var first := FirstOf(fetch(path));
            ReadVia(path, fetch, max)
            == if !Leads(first) then Wanted(fetch(path), max)
               else var behind := fetch(Listing.Resolved(path, first.link.value));
                    if Leads(FirstOf(behind)) then Failure(LinkChain) else Wanted(behind, max)
  {
    hide ParseFrom, ReadOf, Readable, Wanted, Reading, LinkOf;
    FirstDecides(path, fetch(path), max);
    if Leads(FirstOf(fetch(path))) {
      var target := Listing.Resolved(path, FirstOf(fetch(path)).link.value);
      FirstDecides(target, fetch(target), max);
    }
  }

  /** The capture shows the first entry of the whole. */
  lemma FirstDecides(path: Bytes, archive: Bytes, max: nat)
    requires Readable(archive, max)
    ensures ParseFrom(archive, true, 0, None).Success? && ParseFrom(archive, true, 0, None).value != []
    ensures var first := FirstOf(archive);
            if Leads(first) then LinkOf(path, archive, max) == Success(Some(Listing.Resolved(path, first.link.value)))
            else if first.kind.Symlink? then LinkOf(path, archive, max) == Failure(NoLinkTarget)
                                             && Wanted(archive, max) == Failure(NoLinkTarget)
            else LinkOf(path, archive, max) == Success(None) && Reading(archive, max) == Wanted(archive, max)
  {
    hide ParseFrom;
    var whole := ParseFrom(archive, true, 0, None).value;
    FirstIsSeen(archive, max);
    if whole[0].kind.File? {
      BoundedReadIsExact(archive, max);
    }
  }

  lemma FirstIsSeen(archive: Bytes, max: nat)
    requires Readable(archive, max)
    ensures var seen, whole := ReadOf(archive, max).value, ParseFrom(archive, true, 0, None).value;
            seen != [] && seen[0].kind == whole[0].kind && seen[0].link == whole[0].link
  {
    hide ParseFrom;
    var cut := CutAt(archive, max);
    SeenIsInitialRun(archive, max);
    if cut == |archive| {
      assert archive[..cut] == archive;
    } else {
      EarlyEntrySurvives(archive, cut, 0, None, None);
    }
  }

  /** Never the wrong bytes, over a link as well: whatever is returned is a front of a file that stands first in
      the archive of the path, or in the one of the path its link resolves to. */
  lemma ReadViaIsFront(path: Bytes, fetch: Bytes -> Bytes, max: nat)
    requires forall p :: ParseFrom(fetch(p), true, 0, None).Success?
    requires ReadVia(path, fetch, max).Success?
    ensures exists p :: FrontOfFile(fetch(p), max, ReadVia(path, fetch, max).value)
                        && (p == path || LinkOf(path, fetch(path), max) == Success(Some(p)))
  {
    hide ParseFrom, LinkOf, Reading, FrontOfFile;
    var link := LinkOf(path, fetch(path), max).value;
    var p := if link.Some? then link.value else path;
    SuccessIsFront(fetch(p), max);
  }

  ghost predicate FrontOfFile(archive: Bytes, max: nat, bytes: Bytes) {
    var whole := ParseFrom(archive, true, 0, None);
    whole.Success? && whole.value != [] && whole.value[0].kind.File?
    && bytes <= archive[FirstOf(archive).start..Min(FirstOf(archive).end, FirstOf(archive).start + max)]
  }

  lemma SuccessIsFront(archive: Bytes, max: nat)
    requires ParseFrom(archive, true, 0, None).Success? && Reading(archive, max).Success?
    ensures FrontOfFile(archive, max, Reading(archive, max).value)
  {
    hide ParseFrom, Reading;
    ReadIsFront(archive, max);
  }
}
