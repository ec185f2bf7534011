/** The two readers agree, and a truncated capture reads as the front of the whole archive. */
module TarAgreement {
  import opened Wrappers
  import opened TarFormat
  import opened TarStream

  // ---------------------------------------------------------------- one record, streamed

  predicate AtBoundary(s: Stream) {
    s.header == [] && s.content == [] && s.contentLeft == 0 && s.padLeft == 0 && !s.ended
  }

  /** What the content of a record, all of it, does to a stream armed for it. */
  function ContentFed(armed: Fed, content: Bytes): Fed {
    if armed.Stopped? || |content| == 0 || |content| > armed.state.contentLeft then armed
    else match OnContentEnd(Consumed(armed.state, content))
      case Stopped(_, error) => Stopped(armed.entries, error)
      case Going(_, state) => Going(armed.entries, state.(padLeft := 0))
  }

  /** What a complete record does to the stream standing at its header. */
  function RecordFed(s: Stream, header: Bytes, content: Bytes): Fed
    requires |header| == BLOCK
  {
    ContentFed(OnHeader(s, header), content)
  }

  /** Armed for `size` bytes of content, nothing else in flight. */
  predicate Armed(s: Stream, size: nat) {
    s.header == [] && s.content == [] && s.contentLeft == s.contentSize == size && s.padLeft == 0 && !s.ended
  }

  lemma HeaderArms(s: Stream, header: Bytes)
    requires AtBoundary(s) && |header| == BLOCK && !AllZero(header)
    ensures OnHeader(s, header).Going? ==>
              HeaderSize(header).Success? && Armed(OnHeader(s, header).state, HeaderSize(header).value)
  {
  }

  ghost predicate WholeRecord(bytes: Bytes, offset: nat, size: nat) {
    offset + BLOCK + Padded(size) <= |bytes| && !AllZero(bytes[offset..offset + BLOCK])
    && HeaderSize(bytes[offset..offset + BLOCK]) == Success(size)
  }

  lemma RunsHeader(s: Stream, bytes: Bytes, offset: nat)
    requires AtBoundary(s) && offset + BLOCK <= |bytes|
    ensures Run(s, bytes[offset..]) == Continue(OnHeader(s, bytes[offset..offset + BLOCK]), bytes[offset + BLOCK..])
  {
    var header := bytes[offset..offset + BLOCK];
    assert bytes[offset..] == header + bytes[offset + BLOCK..];
    RunConcat(s, header, bytes[offset + BLOCK..]);
    RunHeader(s, header);
    assert s.header + header == header && s.(header := []) == s;
  }

  /** After the content comes its padding, then whatever follows the record. */
  lemma RunsContent(s: Stream, bytes: Bytes, start: nat, size: nat)
    requires StreamOk(s) && !s.ended && s.padLeft == 0 && 0 < size == s.contentLeft == s.contentSize
    requires start + Padded(size) <= |bytes|
    ensures Run(s, bytes[start..])
         == match OnContentEnd(Consumed(s, bytes[start..start + size]))
            case Stopped(_, error) => Stopped([], error)
            case Going(_, state) => Run(state.(padLeft := 0), bytes[start + Padded(size)..])
  {
    PaddedIsSizeAndPadding(size);
    var content, padding := bytes[start..start + size], bytes[start + size..start + Padded(size)];
    var rest := bytes[start + Padded(size)..];
    assert bytes[start..] == content + (padding + rest);
    RunConcat(s, content, padding + rest);
    RunContent(s, content);
    var ended := OnContentEnd(Consumed(s, content));
    if ended.Going? {
      RunConcat(ended.state, padding, rest);
      RunPadding(ended.state, padding);
      AfterNothing(Run(ended.state.(padLeft := 0), rest));
      AfterNothing(Run(ended.state, padding + rest));
    }
  }

  lemma ContentRuns(armed: Fed, bytes: Bytes, start: nat, size: nat)
    requires armed.Going? && Armed(armed.state, size) && start + Padded(size) <= |bytes|
    ensures var fed := ContentFed(armed, bytes[start..start + size]);
            (fed.Going? ==> AtBoundary(fed.state))
            && Continue(armed, bytes[start..]) == Continue(fed, bytes[start + Padded(size)..])
  {
    if size > 0 {
      RunsContent(armed.state, bytes, start, size);
      assert armed.entries + [] == armed.entries;
    }
  }

  lemma RecordRuns(s: Stream, bytes: Bytes, offset: nat, size: nat)
    requires AtBoundary(s) && WholeRecord(bytes, offset, size)
    ensures var start := offset + BLOCK;
            var fed := RecordFed(s, bytes[offset..start], bytes[start..start + size]);
            (fed.Going? ==> AtBoundary(fed.state))
            && Run(s, bytes[offset..]) == Continue(fed, bytes[start + Padded(size)..])
  {
    hide Run, OnHeader, OnContentEnd, HeaderSize, Padded;
    var start := offset + BLOCK;
    RunsHeader(s, bytes, offset);
    HeaderArms(s, bytes[offset..start]);
    var armed := OnHeader(s, bytes[offset..start]);
    if armed.Going? {
      ContentRuns(armed, bytes, start, size);
    }
  }

  /** A record whose content or padding is missing can never be finished. */
  lemma CutRecordIsRejected(s: Stream, bytes: Bytes, offset: nat, size: nat)
    requires AtBoundary(s) && offset + BLOCK <= |bytes| < offset + BLOCK + Padded(size)
    requires !AllZero(bytes[offset..offset + BLOCK]) && HeaderSize(bytes[offset..offset + BLOCK]) == Success(size)
    ensures !Accepted(Run(s, bytes[offset..]))
  {
    hide Run, OnHeader, OnContentEnd, HeaderSize, Padded;
    var start := offset + BLOCK;
    RunsHeader(s, bytes, offset);
    PaddedIsSizeAndPadding(size);
    HeaderArms(s, bytes[offset..start]);
    var armed := OnHeader(s, bytes[offset..start]);
    if armed.Going? {
      CutContentIsRejected(armed.state, bytes[start..], size);
    }
  }

  lemma CutContentIsRejected(s: Stream, rest: Bytes, size: nat)
    requires Armed(s, size) && |rest| < size + Padding(size)
    ensures !Accepted(Run(s, rest))
  {
    hide Override, Padding;
    if rest == [] {
      PaddingOfNothing();
    } else if |rest| < size {
      RunContent(s, rest);
    } else {
      var content, padding := rest[..size], rest[size..];
      assert rest == content + padding;
      RunConcat(s, content, padding);
      RunContent(s, content);
      var ended := OnContentEnd(Consumed(s, content));
      if ended.Going? {
        RunPadding(ended.state, padding);
      }
    }
  }

  lemma PaddingOfNothing()
    ensures Padding(0) == 0
  {
  }

  // ---------------------------------------------------------------- agreement

  /** All the bytes were consumed without error and the stream may end there. */
  predicate Accepted(fed: Fed) {
    fed.Going? && FinishOf(fed.state).None?
  }

  predicate SameEntry(streamed: StreamEntry, entry: Entry) {
    streamed.kind == entry.kind && streamed.link == entry.link && streamed.size == entry.end - entry.start
  }

  predicate SameEntries(streamed: seq<StreamEntry>, entries: seq<Entry>) {
    |streamed| == |entries| && forall k :: 0 <= k < |entries| ==> SameEntry(streamed[k], entries[k])
  }

  /** What only the stream checks, record by record: it reads mode and owners, and it never
      completes a long-name record of length zero, so it then still reads the header's own name. */
  predicate StreamReads(bytes: Bytes, offset: nat, pending: Option<Bytes>)
    requires offset <= |bytes|
    decreases |bytes| - offset
  {
    if offset + BLOCK > |bytes| || AllZero(bytes[offset..offset + BLOCK]) then true
    else
      var header, start := bytes[offset..offset + BLOCK], offset + BLOCK;
      match HeaderSize(header)
      case Failure(_) => true
      case Success(size) =>
        if start + Padded(size) > |bytes| then true
        else
          var after := StreamOverride(header, bytes[start..start + size], pending);
          (IsMeta(Flag(header)) || EntryFacts(header, size, pending).Success?)
          && (after.Success? ==> StreamReads(bytes, start + Padded(size), after.value))
  }

  /** At one offset, with these overrides in hand, the two readers give the same verdict and, if
      they accept, the same entries. */
  ghost predicate AgreeAt(bytes: Bytes, offset: nat, s: Stream, pending: Option<Bytes>)
    requires offset <= |bytes| && StreamOk(s)
  {
    var fed, parsed := Run(s, bytes[offset..]), ParseFrom(bytes, true, offset, pending);
    && (Accepted(fed) <==> parsed.Success? && StreamReads(bytes, offset, s.pending))
    && (Accepted(fed) ==> SameEntries(fed.entries, parsed.value))
  }

  /** The streaming reader accepts exactly the archives the whole-buffer reader accepts and whose
      further fields it can read; the entries then agree one by one. */
  lemma {:induction false} ReadersAgreeFrom(bytes: Bytes, offset: nat, s: Stream, pending: Option<Bytes>)
    requires offset <= |bytes| && AtBoundary(s)
    requires s.pending.Some? ==> pending.Some?
    ensures AgreeAt(bytes, offset, s, pending)
    decreases |bytes| - offset
  {
    hide Run, OnHeader, OnContentEnd, EntryFacts, ReadRecord, WholeRead, RecordFed, FinishOf, HeaderSize, Padded;
    if offset + BLOCK > |bytes| {
      TailAgrees(s, bytes[offset..]);
    } else if AllZero(bytes[offset..offset + BLOCK]) {
      EndMarkerAccepted(s, bytes, offset);
    } else if HeaderSize(bytes[offset..offset + BLOCK]).Failure? {
      BadHeaderRejected(s, bytes, offset, pending);
    } else {
      var size := HeaderSize(bytes[offset..offset + BLOCK]).value;
      PaddedIsSizeAndPadding(size);
      if offset + BLOCK + Padded(size) > |bytes| {
        CutRecordIsRejected(s, bytes, offset, size);
        CutRecordFails(bytes, offset, size, pending);
      } else {
        var start, next := offset + BLOCK, offset + BLOCK + Padded(size);
        var header, content := bytes[offset..start], bytes[start..start + size];
        RecordRuns(s, bytes, offset, size);
        RecordAgrees(header, content, offset, s, pending);
        var fed, read := RecordFed(s, header, content), WholeRead(header, content, offset, pending);
        if fed.Going? {
          ReadersAgreeFrom(bytes, next, fed.state, read.value.0);
        }
        WholeRecordJoins(bytes, offset, size, s, pending);
      }
    }
  }

  /** Agreement after a whole record is agreement before it. */
  lemma WholeRecordJoins(bytes: Bytes, offset: nat, size: nat, s: Stream, pending: Option<Bytes>)
    requires AtBoundary(s) && WholeRecord(bytes, offset, size) && size <= Padded(size)
    requires s.pending.Some? ==> pending.Some?
    requires var start := offset + BLOCK;
             var header, content := bytes[offset..start], bytes[start..start + size];
             var fed, read := RecordFed(s, header, content), WholeRead(header, content, offset, pending);
             fed.Going? ==> StreamOk(fed.state) && read.Success?
                            && AgreeAt(bytes, start + Padded(size), fed.state, read.value.0)
    ensures AgreeAt(bytes, offset, s, pending)
  {
    hide Run, OnHeader, OnContentEnd, EntryFacts, WholeRead, RecordFed, FinishOf, HeaderSize, Padded, ParseFrom,
      StreamReads,
      StreamOverride;
    var start, next := offset + BLOCK, offset + BLOCK + Padded(size);
    var header, content := bytes[offset..start], bytes[start..start + size];
    RecordRuns(s, bytes, offset, size);
    ParseUnfolds(bytes, offset, size, pending);
    StreamReadsUnfolds(bytes, offset, size, s.pending);
    RecordAgrees(header, content, offset, s, pending);
    var fed, read := RecordFed(s, header, content), WholeRead(header, content, offset, pending);
  }

  lemma ParseUnfolds(bytes: Bytes, offset: nat, size: nat, pending: Option<Bytes>)
    requires WholeRecord(bytes, offset, size) && size <= Padded(size)
    ensures var start := offset + BLOCK;
            ParseFrom(bytes, true, offset, pending) ==
            match WholeRead(bytes[offset..start], bytes[start..start + size], offset, pending)
            case Failure(error) => Failure(error)
            case Success(read) => Prepend(read.1, ParseFrom(bytes, true, start + Padded(size), read.0))
  {
    hide WholeRead, ReadRecord, HeaderSize, Padded;
    ReadsWhole(bytes, offset, size, pending);
  }

  lemma StreamReadsUnfolds(bytes: Bytes, offset: nat, size: nat, pending: Option<Bytes>)
    requires WholeRecord(bytes, offset, size) && size <= Padded(size)
    ensures var start := offset + BLOCK;
            var header, content := bytes[offset..start], bytes[start..start + size];
            var after := StreamOverride(header, content, pending);
            StreamReads(bytes, offset, pending) <==>
              (IsMeta(Flag(header)) || EntryFacts(header, size, pending).Success?)
              && (after.Success? ==> StreamReads(bytes, start + Padded(size), after.value))
  {
    hide EntryFacts, StreamOverride, HeaderSize, Padded;
  }

  lemma EndMarkerAccepted(s: Stream, bytes: Bytes, offset: nat)
    requires AtBoundary(s) && offset + BLOCK <= |bytes| && AllZero(bytes[offset..offset + BLOCK])
    ensures Accepted(Run(s, bytes[offset..])) && Run(s, bytes[offset..]).entries == []
  {
    hide Run, HeaderSize;
    RunsHeader(s, bytes, offset);
    RunEnded(s.(ended := true), bytes[offset + BLOCK..]);
  }

  lemma BadHeaderRejected(s: Stream, bytes: Bytes, offset: nat, pending: Option<Bytes>)
    requires AtBoundary(s) && offset + BLOCK <= |bytes|
    requires !AllZero(bytes[offset..offset + BLOCK]) && HeaderSize(bytes[offset..offset + BLOCK]).Failure?
    ensures Run(s, bytes[offset..]).Stopped? && ReadRecord(bytes, true, offset, pending).Failure?
  {
    hide Run, HeaderSize;
    RunsHeader(s, bytes, offset);
  }

  lemma CutRecordFails(bytes: Bytes, offset: nat, size: nat, pending: Option<Bytes>)
    requires offset + BLOCK <= |bytes| < offset + BLOCK + Padded(size)
    requires HeaderSize(bytes[offset..offset + BLOCK]) == Success(size)
    ensures ReadRecord(bytes, true, offset, pending).Failure?
  {
    hide HeaderSize;
  }

  lemma TailAgrees(s: Stream, rest: Bytes)
    requires AtBoundary(s) && |rest| < BLOCK
    ensures Accepted(Run(s, rest)) <==> AllZero(rest)
    ensures Run(s, rest).entries == []
  {
    if rest != [] {
      RunHeader(s, rest);
      assert s.header + rest == rest;
    }
  }

  /** A whole record as the whole-buffer reader sees it. */
  function WholeRead(header: Bytes, content: Bytes, offset: nat, pending: Option<Bytes>)
    : Result<(Option<Bytes>, seq<Entry>), TarError>
    requires |header| == BLOCK
  {
    if IsMeta(Flag(header)) then
      match Override(Flag(header), content, pending)
      case Failure(error) => Failure(error)
      case Success(after) => Success((after, []))
    else
      match EntryName(header, pending)
      case Failure(error) => Failure(error)
      case Success(_) =>
        match LinkTarget(header)
        case Failure(error) => Failure(error)
        case Success(link) =>
          Success((None, [Entry(KindOf(Flag(header)), offset + BLOCK, offset + BLOCK + |content|, link)]))
  }

  lemma ReadsWhole(bytes: Bytes, offset: nat, size: nat, pending: Option<Bytes>)
    requires WholeRecord(bytes, offset, size)
    ensures var start := offset + BLOCK;
            ReadRecord(bytes, true, offset, pending) ==
            match WholeRead(bytes[offset..start], bytes[start..start + size], offset, pending)
            case Failure(error) => Failure(error)
            case Success(read) => Success(Record(read.0, read.1, start + Padded(size), false))
  {
    hide EntryName, Override, HeaderSize, LinkTarget, Padded;
    PaddedIsSizeAndPadding(size);
  }

  /** One whole record: the stream goes on exactly when the other reader does and the record's
      further fields can be read; both then see the same entry, if it is one. */
  lemma RecordAgrees(header: Bytes, content: Bytes, offset: nat, s: Stream, pending: Option<Bytes>)
    requires AtBoundary(s) && |header| == BLOCK && !AllZero(header) && HeaderSize(header) == Success(|content|)
    requires s.pending.Some? ==> pending.Some?
    ensures var fed, read := RecordFed(s, header, content), WholeRead(header, content, offset, pending);
            && (fed.Going? ==> read.Success? && SameEntries(fed.entries, read.value.1)
                               && (fed.state.pending.Some? ==> read.value.0.Some?))
            && (fed.Going? <==>
                  read.Success? && (IsMeta(Flag(header)) || EntryFacts(header, |content|, s.pending).Success?))
            && (fed.Going? ==> Success(fed.state.pending) == StreamOverride(header, content, s.pending))
  {
    hide RecordFed, WholeRead, EntryFacts, StreamOverride, HeaderSize, AllZero;
    if IsMeta(Flag(header)) {
      MetaRecordAgrees(header, content, offset, s, pending);
    } else {
      EntryAgrees(header, content, offset, s, pending);
      EntryEndsOverride(header, content, s, pending);
      EntryReads(header, content, offset, s.pending, pending);
    }
  }

  lemma EntryEndsOverride(header: Bytes, content: Bytes, s: Stream, pending: Option<Bytes>)
    requires |header| == BLOCK && !IsMeta(Flag(header))
    ensures StreamOverride(header, content, s.pending) == Success(None)
  {
  }

  lemma EntryReads(header: Bytes, content: Bytes, offset: nat, streamed: Option<Bytes>, pending: Option<Bytes>)
    requires |header| == BLOCK && !IsMeta(Flag(header)) && (streamed.Some? ==> pending.Some?)
    ensures EntryFacts(header, |content|, streamed).Success? ==> WholeRead(header, content, offset, pending).Success?
  {
    hide HeaderName, LinkTarget, Octal;
  }

  /** A record that only carries a name override, or nothing. */
  lemma MetaRecordAgrees(header: Bytes, content: Bytes, offset: nat, s: Stream, pending: Option<Bytes>)
    requires AtBoundary(s) && |header| == BLOCK && !AllZero(header) && HeaderSize(header) == Success(|content|)
    requires IsMeta(Flag(header)) && (s.pending.Some? ==> pending.Some?)
    ensures var fed, read := RecordFed(s, header, content), WholeRead(header, content, offset, pending);
            && (fed.Going? <==> read.Success?)
            && (fed.Going? ==>
                  && SameEntries(fed.entries, read.value.1)
                  && (fed.state.pending.Some? ==> read.value.0.Some?)
                  && Success(fed.state.pending) == StreamOverride(header, content, s.pending))
  {
    MetaAgrees(Flag(header), content, s.pending, pending);
    hide Override, HeaderSize, AllZero, EntryFacts, Padding;
    assert [] + content == content;
  }

  lemma MetaAgrees(flag: Byte, content: Bytes, streamed: Option<Bytes>, pending: Option<Bytes>)
    requires IsMeta(flag) && (streamed.Some? ==> pending.Some?)
    ensures Override(flag, content, streamed).Success? <==> Override(flag, content, pending).Success?
    ensures Override(flag, content, streamed).Success? && Override(flag, content, streamed).value.Some? ==>
              Override(flag, content, pending).value.Some?
    ensures content == [] ==> Override(flag, [], pending).Success?
    ensures content == [] && streamed.Some? ==> Override(flag, [], pending).value.Some?
    ensures !HoldsName(flag) ==> Override(flag, [], streamed) == Override(flag, content, streamed)
  {
    hide PaxStep;
  }

  /** The override the stream holds after a whole record. */
  function StreamOverride(header: Bytes, content: Bytes, pending: Option<Bytes>): Result<Option<Bytes>, TarError>
    requires |header| == BLOCK
  {
    if !IsMeta(Flag(header)) then Success(None)
    else if content == [] then Success(pending)
    else Override(Flag(header), content, pending)
  }

  lemma EntryAgrees(header: Bytes, content: Bytes, offset: nat, s: Stream, pending: Option<Bytes>)
    requires AtBoundary(s) && |header| == BLOCK && !AllZero(header) && HeaderSize(header) == Success(|content|)
    requires !IsMeta(Flag(header))
    requires s.pending.Some? ==> pending.Some?
    ensures var facts, read := EntryFacts(header, |content|, s.pending), WholeRead(header, content, offset, pending);
            && (facts.Success? ==> read.Success? && SameEntries([facts.value], read.value.1))
            && RecordFed(s, header, content).Going? == facts.Success?
            && (facts.Success? ==> RecordFed(s, header, content).entries == [facts.value]
                                   && RecordFed(s, header, content).state.pending == None)
  {
    var armed := OnHeader(s, header);
    if armed.Going? {
      assert !HoldsName(armed.state.flag);
      assert forall c, p :: Override(armed.state.flag, c, p) == Success(p);
    }
  }

  /** From the first byte: whatever the stream accepts, under any chunking, the whole-buffer reader
      accepts with the same kinds, link targets and content lengths in the same order. */
  lemma ReadersAgree(bytes: Bytes, chunks: seq<Bytes>)
    requires Flatten(chunks) == bytes
    ensures Accepted(FeedAll(INITIAL, chunks)) <==>
              ParseFrom(bytes, true, 0, None).Success? && StreamReads(bytes, 0, None)
    ensures Accepted(FeedAll(INITIAL, chunks)) ==>
              SameEntries(FeedAll(INITIAL, chunks).entries, ParseFrom(bytes, true, 0, None).value)
  {
    ChunkingIsInvisible(INITIAL, chunks);
    assert bytes[0..] == bytes;
    ReadersAgreeFrom(bytes, 0, INITIAL, None);
  }

  predicate OctalFacts(header: Bytes)
    requires |header| == BLOCK
  {
    Octal(header[100..108]).Success? && Octal(header[108..116]).Success? && Octal(header[116..124]).Success?
  }

  /** Archives whose entries carry octal modes and owners and whose long-name records are not empty. */
  predicate PlainRecords(bytes: Bytes, offset: nat)
    requires offset <= |bytes|
    decreases |bytes| - offset
  {
    if offset + BLOCK > |bytes| || AllZero(bytes[offset..offset + BLOCK]) then true
    else
      var header := bytes[offset..offset + BLOCK];
      match HeaderSize(header)
      case Failure(_) => true
      case Success(size) =>
        if offset + BLOCK + Padded(size) > |bytes| then true
        else
          (if IsMeta(Flag(header)) then Flag(header) == FLAG_LONGNAME ==> size > 0 else OctalFacts(header))
          && PlainRecords(bytes, offset + BLOCK + Padded(size))
  }

  /** On such archives the two readers accept the same inputs. */
  lemma {:induction false} PlainArchivesStream(bytes: Bytes, offset: nat, pending: Option<Bytes>)
    requires offset <= |bytes| && PlainRecords(bytes, offset)
    requires ParseFrom(bytes, true, offset, pending).Success?
    ensures StreamReads(bytes, offset, pending)
    decreases |bytes| - offset
  {
    hide ReadRecord, HeaderSize, Override, EntryFacts, EntryName, LinkTarget, Octal, Padded;
    if offset + BLOCK > |bytes| || AllZero(bytes[offset..offset + BLOCK]) {
    } else {
      var header, start := bytes[offset..offset + BLOCK], offset + BLOCK;
      RecordIsWhole(bytes, offset, pending);
      var size := HeaderSize(header).value;
      PaddedIsSizeAndPadding(size);
      ReadsWhole(bytes, offset, size, pending);
      if IsMeta(Flag(header)) {
        if size == 0 { EmptyOverride(Flag(header), pending); }
      } else {
        PlainFacts(header, size, pending);
      }
      PlainArchivesStream(bytes, start + Padded(size),
                          WholeRead(header, bytes[start..start + size], offset, pending).value.0);
    }
  }

  lemma RecordIsWhole(bytes: Bytes, offset: nat, pending: Option<Bytes>)
    requires offset + BLOCK <= |bytes| && !AllZero(bytes[offset..offset + BLOCK])
    requires ReadRecord(bytes, true, offset, pending).Success?
    ensures HeaderSize(bytes[offset..offset + BLOCK]).Success?
    ensures WholeRecord(bytes, offset, HeaderSize(bytes[offset..offset + BLOCK]).value)
  {
    hide EntryName, Override, HeaderSize, LinkTarget, Padded;
    if HeaderSize(bytes[offset..offset + BLOCK]).Success? {
      PaddedIsSizeAndPadding(HeaderSize(bytes[offset..offset + BLOCK]).value);
    }
  }

  lemma EmptyOverride(flag: Byte, pending: Option<Bytes>)
    requires IsMeta(flag) && flag != FLAG_LONGNAME
    ensures Override(flag, [], pending) == Success(pending)
  {
  }

  lemma PlainFacts(header: Bytes, size: nat, pending: Option<Bytes>)
    requires |header| == BLOCK && EntryName(header, pending).Success? && LinkTarget(header).Success?
    requires Octal(header[100..108]).Success? && Octal(header[108..116]).Success? && Octal(header[116..124]).Success?
    ensures EntryFacts(header, size, pending).Success?
  {
    hide EntryName, LinkTarget, Octal;
    ModeFits(header[100..108]);
  }

  /** Eight octal characters never reach 32 bits, so the mode check cannot fail on its own. */
  lemma ModeFits(field: Bytes)
    requires |field| == 8
    ensures Octal(field).Success? ==> Octal(field).value < U32_LIMIT
  {
    var text := UpToNul(field);
    UpToNulLength(field);
    var digits := TrimSpaces(text);
    TrimLength(text);
    var number := if digits != [] && digits[0] == PLUS then digits[1..] else digits;
    if Digits(number, 8) {
      ValueBound(number);
      PowerMonotone(|number|, 8);
    }
  }

  lemma {:induction false} UpToNulLength(s: Bytes)
    ensures |UpToNul(s)| <= |s|
  {
    if s == [] || s[0] == 0 {
    } else {
      UpToNulLength(s[1..]);
    }
  }

  lemma {:induction false} TrimLength(s: Bytes)
    ensures |TrimSpaces(s)| <= |s|
    decreases |s|
  {
    if s == [] || s[|s| - 1] != SPACE {
    } else {
      TrimLength(s[..|s| - 1]);
    }
  }

  function Power8(n: nat): (p: nat)
    ensures p > 0
  {
    if n == 0 then 1 else 8 * Power8(n - 1)
  }

  lemma {:induction false} PowerMonotone(a: nat, b: nat)
    requires a <= b
    ensures Power8(a) <= Power8(b)
    decreases b
  {
    if a == b {
    } else {
      PowerMonotone(a, b - 1);
    }
  }

  lemma {:induction false} ValueBound(digits: Bytes)
    requires Digits(digits, 8)
    ensures Value(digits, 8) < Power8(|digits|)
  {
    if digits == [] {
    } else {
      ValueBound(digits[..|digits| - 1]);
    }
  }
}
