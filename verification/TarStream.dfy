/** The incremental tar reader. */
module TarStream {
  import opened Wrappers
  import opened TarFormat

  // A byte-at-a-time account of its grammar, and the parser object that consumes whole chunks.

  datatype StreamEntry = StreamEntry(name: Bytes, kind: Kind, size: nat, mode: nat, uid: nat, gid: nat,
                                     link: Option<Bytes>)

  datatype Stream = Stream(header: Bytes, content: Bytes, contentSize: nat, contentLeft: nat, padLeft: nat,
                           keep: bool, flag: Byte, pending: Option<Bytes>, ended: bool)

  const INITIAL: Stream := Stream([], [], 0, 0, 0, false, 0, None, false)

  /** Entries in the order they were emitted, then the state reached or the first error. */
  datatype Fed = Going(entries: seq<StreamEntry>, state: Stream) | Stopped(entries: seq<StreamEntry>, error: TarError)

  predicate StreamOk(s: Stream) { |s.header| < BLOCK }

  // ---------------------------------------------------------------- one byte

  function EntryFacts(header: Bytes, size: nat, pending: Option<Bytes>): Result<StreamEntry, TarError>
    requires |header| == BLOCK
  {
    match EntryName(header, pending)
    case Failure(error) => Failure(error)
    case Success(name) =>
      match LinkTarget(header)
      case Failure(error) => Failure(error)
      case Success(link) =>
        match Octal(header[100..108])
        case Failure(error) => Failure(error)
        case Success(mode) =>
          if mode >= U32_LIMIT then Failure(ModeOverflow)
          else match Octal(header[108..116])
            case Failure(error) => Failure(error)
            case Success(uid) =>
              match Octal(header[116..124])
              case Failure(error) => Failure(error)
              case Success(gid) => Success(StreamEntry(name, KindOf(Flag(header)), size, mode, uid, gid, link))
  }

  function OnHeader(s: Stream, header: Bytes): Fed
    requires |header| == BLOCK
  {
    if AllZero(header) then Going([], s.(ended := true))
    else match HeaderSize(header)
      case Failure(error) => Stopped([], error)
      case Success(size) =>
        var armed := s.(contentSize := size, contentLeft := size, keep := HoldsName(Flag(header)),
                        flag := Flag(header));
        if IsMeta(Flag(header)) then Going([], armed)
        else match EntryFacts(header, size, s.pending)
          case Failure(error) => Stopped([], error)
          case Success(entry) => Going([entry], armed.(pending := None))
  }

  function OnContentEnd(s: Stream): Fed {
    match Override(s.flag, s.content, s.pending)
    case Failure(error) => Stopped([], error)
    case Success(pending) => Going([], s.(pending := pending, padLeft := Padding(s.contentSize), content := []))
  }

  function Step(s: Stream, b: Byte): (fed: Fed)
    requires StreamOk(s)
    ensures fed.Going? ==> StreamOk(fed.state)
  {
    if s.ended then Going([], s)
    else if s.padLeft > 0 then Going([], s.(padLeft := s.padLeft - 1))
    else if s.contentLeft > 0 then
      var taken := s.(content := if s.keep then s.content + [b] else s.content, contentLeft := s.contentLeft - 1);
      if taken.contentLeft == 0 then OnContentEnd(taken) else Going([], taken)
    else
      var header := s.header + [b];
      if |header| == BLOCK then OnHeader(s.(header := []), header) else Going([], s.(header := header))
  }

  function After(entries: seq<StreamEntry>, fed: Fed): Fed {
    fed.(entries := entries + fed.entries)
  }

  function Run(s: Stream, bytes: Bytes): (fed: Fed)
    requires StreamOk(s)
    ensures fed.Going? ==> StreamOk(fed.state)
    decreases |bytes|
  {
    if bytes == [] then Going([], s)
    else
      var first := Step(s, bytes[0]);
      if first.Stopped? then first else After(first.entries, Run(first.state, bytes[1..]))
  }

  /** What follows a feed: nothing after an error, else the next bytes from the state reached. */
  function Continue(fed: Fed, bytes: Bytes): Fed
    requires fed.Going? ==> StreamOk(fed.state)
  {
    if fed.Stopped? then fed else After(fed.entries, Run(fed.state, bytes))
  }

  lemma {:induction false} RunConcat(s: Stream, a: Bytes, b: Bytes)
    requires StreamOk(s)
    ensures Run(s, a + b) == Continue(Run(s, a), b)
    decreases |a|
  {
    if a == [] {
      assert a + b == b;
      AfterNothing(Run(s, b));
    } else {
      assert (a + b)[0] == a[0] && (a + b)[1..] == a[1..] + b;
      var first := Step(s, a[0]);
      if first.Going? {
        RunConcat(first.state, a[1..], b);
        var rest := Run(first.state, a[1..]);
        if rest.Going? {
          AfterAfter(first.entries, rest.entries, Run(rest.state, b));
        }
      }
    }
  }

  lemma AfterNothing(fed: Fed)
    ensures After([], fed) == fed
  {
    assert [] + fed.entries == fed.entries;
  }

  lemma AfterAfter(a: seq<StreamEntry>, b: seq<StreamEntry>, fed: Fed)
    ensures After(a, After(b, fed)) == After(a + b, fed)
  {
    assert a + (b + fed.entries) == (a + b) + fed.entries;
  }

  // ---------------------------------------------------------------- any chunking

  function FeedAll(s: Stream, chunks: seq<Bytes>): Fed
    requires StreamOk(s)
    decreases |chunks|
  {
    if chunks == [] then Going([], s)
    else
      var first := Run(s, chunks[0]);
      if first.Stopped? then first else After(first.entries, FeedAll(first.state, chunks[1..]))
  }

  /** However the bytes are cut into chunks: the same entries, then the same state or first error. */
  lemma {:induction false} ChunkingIsInvisible(s: Stream, chunks: seq<Bytes>)
    requires StreamOk(s)
    ensures FeedAll(s, chunks) == Run(s, Flatten(chunks))
    decreases |chunks|
  {
    if chunks == [] {
    } else {
      RunConcat(s, chunks[0], Flatten(chunks[1..]));
      var first := Run(s, chunks[0]);
      if first.Going? {
        ChunkingIsInvisible(first.state, chunks[1..]);
      }
    }
  }

  // ---------------------------------------------------------------- runs of bytes at once

  lemma {:induction false} RunEnded(s: Stream, bytes: Bytes)
    requires StreamOk(s) && s.ended
    ensures Run(s, bytes) == Going([], s)
    decreases |bytes|
  {
    if bytes == [] {
    } else {
      RunEnded(s, bytes[1..]);
    }
  }

  lemma {:induction false} RunPadding(s: Stream, bytes: Bytes)
    requires StreamOk(s) && !s.ended && |bytes| <= s.padLeft
    ensures Run(s, bytes) == Going([], s.(padLeft := s.padLeft - |bytes|))
    decreases |bytes|
  {
    if bytes == [] {
    } else {
      RunPadding(s.(padLeft := s.padLeft - 1), bytes[1..]);
    }
  }

  function Consumed(s: Stream, bytes: Bytes): Stream
    requires |bytes| <= s.contentLeft
  {
    s.(content := if s.keep then s.content + bytes else s.content, contentLeft := s.contentLeft - |bytes|)
  }

  lemma {:induction false} RunContent(s: Stream, bytes: Bytes)
    requires StreamOk(s) && !s.ended && s.padLeft == 0 && 0 < |bytes| <= s.contentLeft
    ensures Run(s, bytes) == if |bytes| == s.contentLeft then OnContentEnd(Consumed(s, bytes))
              else Going([], Consumed(s, bytes))
    decreases |bytes|
  {
    var one := Consumed(s, bytes[..1]);
    assert bytes[..1] == [bytes[0]];
    if |bytes| > 1 {
      assert s.content + bytes[..1] + bytes[1..] == s.content + bytes;
      RunContent(one, bytes[1..]);
      assert Consumed(one, bytes[1..]) == Consumed(s, bytes);
      AfterNothing(Run(one, bytes[1..]));
    } else {
      assert bytes == bytes[..1];
    }
  }

  lemma {:induction false} RunHeader(s: Stream, bytes: Bytes)
    requires StreamOk(s) && !s.ended && s.padLeft == 0 && s.contentLeft == 0
    requires 0 < |bytes| <= BLOCK - |s.header|
    ensures Run(s, bytes) == if |s.header + bytes| == BLOCK then OnHeader(s.(header := []), s.header + bytes)
                             else Going([], s.(header := s.header + bytes))
    decreases |bytes|
  {
    if |bytes| > 1 {
      var one := s.(header := s.header + [bytes[0]]);
      assert one.header + bytes[1..] == s.header + bytes;
      RunHeader(one, bytes[1..]);
      AfterNothing(Run(one, bytes[1..]));
    } else {
      assert bytes == [bytes[0]];
    }
  }

  // ---------------------------------------------------------------- end of stream

  function FinishOf(s: Stream): Option<TarError> {
    if s.ended then None
    else if s.contentLeft > 0 || s.padLeft > 0 then Some(TruncatedContent)
    else if !AllZero(s.header) then Some(TruncatedHeader)
    else None
  }

  // ---------------------------------------------------------------- the parser object

  class StreamParser {
    const header: array<Byte>
    var headerLen: nat
    var content: Bytes
    var contentSize: nat
    var contentLeft: nat
    var padLeft: nat
    var keepContent: bool
    var pendingFlag: Byte
    var pendingName: Option<Bytes>
    var ended: bool

    ghost predicate Valid()
      reads this, header
    {
      header.Length == BLOCK && headerLen < BLOCK
    }

    ghost function State(): Stream
      requires Valid()
      reads this, header
    {
      Stream(header[..headerLen], content, contentSize, contentLeft, padLeft, keepContent, pendingFlag, pendingName,
             ended)
    }

    constructor ()
      ensures Valid() && fresh(header)
      ensures State() == INITIAL
    {
      header := new Byte[BLOCK](_ => 0);
      headerLen, content, contentSize, contentLeft, padLeft := 0, [], 0, 0, 0;
      keepContent, pendingFlag, pendingName, ended := false, 0, None, false;
    }

    /** Consume one chunk: as many bytes at a time as the current phase takes. */
    method Feed(bytes: Bytes) returns (entries: seq<StreamEntry>, error: Option<TarError>)
      requires Valid()
      modifies this, header
      ensures Matches(Run(old(State()), bytes), entries, error)
    {
      entries, error := [], None;
      var rest := bytes;
      AfterNothing(Run(State(), bytes));
      while rest != []
        invariant Valid() && error.None?
        invariant Run(old(State()), bytes) == After(entries, Run(State(), rest))
        decreases |rest|
      {
        if ended {
          RunEnded(State(), rest);
          return;
        }
        var take := Take(|rest|);
        var bite := rest[..take];
        assert rest == bite + rest[take..];
        RunConcat(State(), bite, rest[take..]);
        ghost var before := entries;
        ghost var was := State();
        var emitted;
        emitted, error := Bite(bite);
        entries := entries + emitted;
        if error.Some? {
          return;
        }
        AfterAfter(before, emitted, Run(State(), rest[take..]));
        rest := rest[take..];
      }
    }

    /** How much of the remaining bytes the current phase takes at once. */
    function Take(available: nat): (take: nat)
      requires Valid() && available > 0
      reads this, header
      ensures 0 < take <= available
    {
      if padLeft > 0 then Min(padLeft, available)
      else if contentLeft > 0 then Min(contentLeft, available)
      else Min(BLOCK - headerLen, available)
    }

    method Bite(bytes: Bytes) returns (entries: seq<StreamEntry>, error: Option<TarError>)
      requires Valid() && !ended && 0 < |bytes|
      requires |bytes| == Take(|bytes|)
      modifies this, header
      ensures Matches(Run(old(State()), bytes), entries, error)
    {
      entries, error := [], None;
      if padLeft > 0 {
        RunPadding(State(), bytes);
        padLeft := padLeft - |bytes|;
      } else if contentLeft > 0 {
        error := TakeContent(bytes);
      } else {
        entries, error := TakeHeader(bytes);
      }
    }

    /** The parser reports what the byte-wise account says, and stands in its state unless stopped. */
    ghost predicate Matches(fed: Fed, entries: seq<StreamEntry>, error: Option<TarError>)
      reads this, header
    {
      match fed
      case Going(emitted, state) => error.None? && entries == emitted && Valid() && State() == state
      case Stopped(emitted, failure) => error == Some(failure) && entries == emitted
    }

    method TakeContent(bytes: Bytes) returns (error: Option<TarError>)
      requires Valid() && !ended && padLeft == 0 && 0 < |bytes| <= contentLeft
      modifies this
      ensures Matches(Run(old(State()), bytes), [], error)
    {
      RunContent(State(), bytes);
      error := None;
      if keepContent {
        content := content + bytes;
      }
      contentLeft := contentLeft - |bytes|;
      if contentLeft == 0 {
        padLeft := (BLOCK - contentSize % BLOCK) % BLOCK;
        error := FinishRecord();
        if error.None? {
          content := [];
        }
      }
    }

    method TakeHeader(bytes: Bytes) returns (entries: seq<StreamEntry>, error: Option<TarError>)
      requires Valid() && !ended && padLeft == 0 && contentLeft == 0 && 0 < |bytes| <= BLOCK - headerLen
      modifies this, header
      ensures Matches(Run(old(State()), bytes), entries, error)
    {
      RunHeader(State(), bytes);
      entries, error := [], None;
      CopyIntoHeader(bytes);
      if headerLen + |bytes| == BLOCK {
        headerLen := 0;
        assert header[..] == header[..BLOCK];
        entries, error := ReadHeader();
      } else {
        headerLen := headerLen + |bytes|;
      }
    }

    method CopyIntoHeader(bytes: Bytes)
      requires Valid() && headerLen + |bytes| <= BLOCK
      modifies header
      ensures header[..headerLen + |bytes|] == old(header[..headerLen]) + bytes
    {
      for k := 0 to |bytes|
        invariant header[..headerLen + k] == old(header[..headerLen]) + bytes[..k]
      {
        header[headerLen + k] := bytes[k];
      }
    }

    /** A full header block: classify it, arm content consumption, emit a real entry at once. */
    method ReadHeader() returns (entries: seq<StreamEntry>, error: Option<TarError>)
      requires Valid() && headerLen == 0
      modifies this
      ensures Matches(OnHeader(old(State()), header[..]), entries, error)
    {
      hide HeaderSize, EntryFacts, AllZero;
      entries, error := [], None;
      var block := header[..];
      if AllZero(block) {
        ended := true;
        return;
      }
      var size := HeaderSize(block);
      if size.Failure? {
        return [], Some(size.error);
      }
      contentSize, contentLeft := size.value, size.value;
      keepContent, pendingFlag := HoldsName(block[156]), block[156];
      if !IsMeta(block[156]) {
        var name := pendingName;
        pendingName := None;
        var facts := EntryFacts(block, size.value, name);
        if facts.Failure? {
          return [], Some(facts.error);
        }
        entries := [facts.value];
      }
    }

    /** A long-name or pax payload is complete: fold it into the pending override. */
    method FinishRecord() returns (error: Option<TarError>)
      requires Valid()
      modifies this`pendingName
      ensures match Override(pendingFlag, content, old(pendingName))
              case Success(name) => error.None? && pendingName == name
              case Failure(failure) => error == Some(failure)
    {
      error := None;
      if pendingFlag == FLAG_LONGNAME {
        match NulTerminated(content)
        case Success(name) => pendingName := Some(name);
        case Failure(failure) => error := Some(failure);
      } else if pendingFlag == FLAG_PAX {
        var path := PaxPath(content);
        match path
        case Success(Some(name)) => pendingName := Some(name);
        case Success(None) =>
        case Failure(failure) => error := Some(failure);
      }
    }

    method Finish() returns (error: Option<TarError>)
      requires Valid()
      ensures error == FinishOf(State())
    {
      if ended {
        return None;
      }
      if contentLeft > 0 || padLeft > 0 {
        return Some(TruncatedContent);
      }
      for k := 0 to headerLen
        invariant forall j :: 0 <= j < k ==> header[j] == 0
      {
        if header[k] != 0 {
          assert State().header[k] != 0;
          return Some(TruncatedHeader);
        }
      }
      return None;
    }
  }
}
