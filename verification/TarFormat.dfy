/** Fields of tar headers and the whole-archive reader. */
module TarFormat {
  import opened Wrappers

  // The ustar Interchange Format and the pax Extended Header of the pax utility, with GNU long-name
  // records. Names are bytes; whether they are UTF-8 decides acceptance.

  const BLOCK: nat := 512
  const USTAR: Bytes := [117, 115, 116, 97, 114]
  const PATH_KEY: Bytes := [112, 97, 116, 104, 61]
  const SLASH: Byte := 47
  const SPACE: Byte := 32
  const PLUS: Byte := 43
  const U64_LIMIT: nat := 0x1_0000_0000_0000_0000
  const U32_LIMIT: nat := 0x1_0000_0000

  /** Type flags: GNU long name, pax per-file, GNU long link, pax global, directory, symlink, file. */
  const FLAG_LONGNAME: Byte := 76
  const FLAG_PAX: Byte := 120
  const FLAG_LONGLINK: Byte := 75
  const FLAG_GLOBAL: Byte := 103
  const FLAG_DIR: Byte := 53
  const FLAG_SYMLINK: Byte := 50
  const FLAG_FILE: Byte := 48

  datatype Kind = File | Dir | Symlink | Other

  datatype TarError =
    | TruncatedHeader
    | TruncatedContent
    | NotUstar
    | NonUtf8Name
    | Base256Field
    | MalformedOctal
    | MalformedPaxLength
    | PaxOverrun
    | NonUtf8PaxPath
    | ModeOverflow

  // ---------------------------------------------------------------- bytes

  predicate Continuation(b: Byte) { 0x80 <= b < 0xC0 }

  /** Length of the well-formed UTF-8 sequence at the front, or 0 (RFC 3629, section 4). */
  function LeadLength(s: Bytes): (n: nat)
    ensures n <= |s|
  {
    if s == [] then 0
    else if s[0] < 0x80 then 1
    else if |s| < 2 || !Continuation(s[1]) then 0
    else if 0xC2 <= s[0] < 0xE0 then 2
    else if |s| < 3 || !Continuation(s[2]) then 0
    else if 0xE0 <= s[0] < 0xF0 then
      if (s[0] == 0xE0 && s[1] < 0xA0) || (s[0] == 0xED && s[1] >= 0xA0) then 0 else 3
    else if |s| < 4 || !Continuation(s[3]) then 0
    else if 0xF0 <= s[0] < 0xF5 then
      if (s[0] == 0xF0 && s[1] < 0x90) || (s[0] == 0xF4 && s[1] >= 0x90) then 0 else 4
    else 0
  }

  predicate Utf8(s: Bytes)
    decreases |s|
  {
    s == [] || (LeadLength(s) > 0 && Utf8(s[LeadLength(s)..]))
  }

  predicate AllZero(s: Bytes) {
    forall k :: 0 <= k < |s| ==> s[k] == 0
  }

  function UpToNul(s: Bytes): Bytes {
    if s == [] || s[0] == 0 then [] else [s[0]] + UpToNul(s[1..])
  }

  function NulTerminated(s: Bytes): Result<Bytes, TarError> {
    if Utf8(UpToNul(s)) then Success(UpToNul(s)) else Failure(NonUtf8Name)
  }

  function TrimSpaces(s: Bytes): Bytes {
    if s != [] && s[|s| - 1] == SPACE then TrimSpaces(s[..|s| - 1]) else s
  }

  /** Digits of a radix, an optional plus sign in front; None when malformed or past 64 bits. */
  function ParseUnsigned(text: Bytes, radix: nat): Option<nat>
    requires 2 <= radix <= 10
  {
    var digits := if text != [] && text[0] == PLUS then text[1..] else text;
    if digits == [] || !Digits(digits, radix) || Value(digits, radix) >= U64_LIMIT then None
    else Some(Value(digits, radix))
  }

  predicate Digits(s: Bytes, radix: nat) {
    forall k :: 0 <= k < |s| ==> 48 <= s[k] < 48 + radix
  }

  function Value(digits: Bytes, radix: nat): nat
    requires Digits(digits, radix)
  {
    if digits == [] then 0
    else Value(digits[..|digits| - 1], radix) * radix + (digits[|digits| - 1] - 48)
  }

  /** An octal field, NUL or space terminated; base-256 fields are refused, not misread. */
  function Octal(field: Bytes): Result<nat, TarError> {
    if field != [] && field[0] >= 0x80 then Failure(Base256Field)
    else match NulTerminated(field)
      case Failure(error) => Failure(error)
      case Success(text) =>
        var digits := TrimSpaces(text);
        if digits == [] then Success(0)
        else match ParseUnsigned(digits, 8)
          case None => Failure(MalformedOctal)
          case Some(value) => Success(value)
  }

  /** `prefix/name` when the prefix field is set, else the name field alone. */
  function HeaderName(header: Bytes): Result<Bytes, TarError>
    requires |header| == BLOCK
  {
    match NulTerminated(header[0..100])
    case Failure(error) => Failure(error)
    case Success(name) =>
      match NulTerminated(header[345..500])
      case Failure(error) => Failure(error)
      case Success(prefix) => Success(if prefix == [] then name else prefix + [SLASH] + name)
  }

  // ---------------------------------------------------------------- pax records

  /** Index of the first space, or the length. */
  function Gap(s: Bytes): (gap: nat)
    ensures gap <= |s|
    ensures gap < |s| ==> s[gap] == SPACE
    ensures forall k :: 0 <= k < gap ==> s[k] != SPACE
  {
    if s == [] || s[0] == SPACE then 0 else 1 + Gap(s[1..])
  }

  /** Length of the record at the front, digits and all. */
  function PaxLength(rest: Bytes): (length: Result<nat, TarError>)
    ensures length.Success? ==> Gap(rest) + 1 < length.value <= |rest|
  {
    var gap := Gap(rest);
    if gap == |rest| || !Utf8(rest[..gap]) then Failure(MalformedPaxLength)
    else match ParseUnsigned(rest[..gap], 10)
      case None => Failure(MalformedPaxLength)
      case Some(length) => if gap + 1 < length <= |rest| then Success(length) else Failure(PaxOverrun)
  }

  /** The value of a path record, its final newline dropped; None for every other key. */
  function PathValue(record: Bytes): Option<Bytes> {
    if !(PATH_KEY <= record) then None
    else
      var value := record[|PATH_KEY|..];
      Some(if value != [] && value[|value| - 1] == NEWLINE then value[..|value| - 1] else value)
  }

  /** One record: how far it reaches, and the override after it. */
  function PaxStep(rest: Bytes, path: Option<Bytes>): (step: Result<(nat, Option<Bytes>), TarError>)
    ensures step.Success? ==> 0 < step.value.0 <= |rest|
  {
    match PaxLength(rest)
    case Failure(error) => Failure(error)
    case Success(length) =>
      match PathValue(rest[Gap(rest) + 1..length])
      case None => Success((length, path))
      case Some(value) => if Utf8(value) then Success((length, Some(value))) else Failure(NonUtf8PaxPath)
  }

  /** The last path override among the records, if any. */
  function PaxFrom(rest: Bytes, path: Option<Bytes>): Result<Option<Bytes>, TarError>
    decreases |rest|
  {
    if rest == [] then Success(path)
    else match PaxStep(rest, path)
      case Failure(error) => Failure(error)
      case Success(step) => PaxFrom(rest[step.0..], step.1)
  }

  method PaxPath(content: Bytes) returns (result: Result<Option<Bytes>, TarError>)
    ensures result == PaxFrom(content, None)
  {
    var path, rest := None, content;
    while rest != []
      invariant PaxFrom(rest, path) == PaxFrom(content, None)
      decreases |rest|
    {
      var step := PaxStep(rest, path);
      if step.Failure? {
        return Failure(step.error);
      }
      rest, path := rest[step.value.0..], step.value.1;
    }
    return Success(path);
  }

  // ---------------------------------------------------------------- records

  function KindOf(flag: Byte): Kind {
    if flag == FLAG_FILE || flag == 0 then File
    else if flag == FLAG_DIR then Dir
    else if flag == FLAG_SYMLINK then Symlink
    else Other
  }

  predicate IsMeta(flag: Byte) {
    flag in {FLAG_LONGNAME, FLAG_PAX, FLAG_LONGLINK, FLAG_GLOBAL}
  }

  predicate HoldsName(flag: Byte) {
    flag in {FLAG_LONGNAME, FLAG_PAX}
  }

  function Padding(size: nat): nat {
    (BLOCK - size % BLOCK) % BLOCK
  }

  function Padded(size: nat): nat {
    (size + BLOCK - 1) / BLOCK * BLOCK
  }

  lemma PaddedIsSizeAndPadding(size: nat)
    ensures Padded(size) == size + Padding(size)
  {
  }

  function Flag(header: Bytes): Byte
    requires |header| == BLOCK
  {
    header[156]
  }

  /** The declared size of a header that is an archive header at all. */
  function HeaderSize(header: Bytes): Result<nat, TarError>
    requires |header| == BLOCK
  {
    if header[257..262] != USTAR then Failure(NotUstar) else Octal(header[124..136])
  }

  /** The link target of a symlink header; other kinds carry none. */
  function LinkTarget(header: Bytes): Result<Option<Bytes>, TarError>
    requires |header| == BLOCK
  {
    if !KindOf(Flag(header)).Symlink? then Success(None)
    else match NulTerminated(header[157..257])
      case Failure(error) => Failure(error)
      case Success(target) => Success(Some(target))
  }

  /** The name override after a long-name or pax record with this content. */
  function Override(flag: Byte, content: Bytes, pending: Option<Bytes>): Result<Option<Bytes>, TarError> {
    if flag == FLAG_LONGNAME then
      match NulTerminated(content)
      case Failure(error) => Failure(error)
      case Success(name) => Success(Some(name))
    else if flag == FLAG_PAX then
      match PaxFrom(content, None)
      case Failure(error) => Failure(error)
      case Success(path) => Success(if path.Some? then path else pending)
    else Success(pending)
  }

  function EntryName(header: Bytes, pending: Option<Bytes>): Result<Bytes, TarError>
    requires |header| == BLOCK
  {
    if pending.Some? then Success(pending.value) else HeaderName(header)
  }

  // ---------------------------------------------------------------- the whole-archive reader

  /** Kind, where the content sits in the capture, and the link target; names are only validated. */
  datatype Entry = Entry(kind: Kind, start: nat, end: nat, link: Option<Bytes>)

  /** One record read at an offset: the override it leaves, the entry it is, where the next one is. */
  datatype Record = Record(pending: Option<Bytes>, entries: seq<Entry>, next: nat, cut: bool)

  function ReadRecord(bytes: Bytes, complete: bool, offset: nat, pending: Option<Bytes>): (r: Result<Record, TarError>)
    requires offset + BLOCK <= |bytes|
    ensures r.Success? ==> offset < r.value.next <= |bytes|
  {
    var header := bytes[offset..offset + BLOCK];
    match HeaderSize(header)
    case Failure(error) => Failure(error)
    case Success(size) =>
      var start := offset + BLOCK;
      var end, next := Min(start + size, |bytes|), Min(start + Padded(size), |bytes|);
      var cut := next - start < Padded(size);
      if cut && complete then Failure(TruncatedContent)
      else if IsMeta(Flag(header)) then
        match Override(Flag(header), bytes[start..end], pending)
        case Failure(error) => Failure(error)
        case Success(after) => Success(Record(after, [], next, cut))
      else
        match EntryName(header, pending)
        case Failure(error) => Failure(error)
        case Success(_) =>
          match LinkTarget(header)
          case Failure(error) => Failure(error)
          case Success(link) => Success(Record(None, [Entry(KindOf(Flag(header)), start, end, link)], next, cut))
  }

  /** The entries from an offset on. A capture cut inside content keeps the entry with its data
      clamped; a cut header ends a truncated capture silently and fails a complete one. */
  function ParseFrom(bytes: Bytes, complete: bool, offset: nat, pending: Option<Bytes>): Result<seq<Entry>, TarError>
    requires offset <= |bytes|
    decreases |bytes| - offset
  {
    if offset + BLOCK > |bytes| then
      if complete && !AllZero(bytes[offset..]) then Failure(TruncatedHeader) else Success([])
    else if AllZero(bytes[offset..offset + BLOCK]) then Success([])
    else match ReadRecord(bytes, complete, offset, pending)
      case Failure(error) => Failure(error)
      case Success(record) =>
        if record.cut then Success(record.entries)
        else Prepend(record.entries, ParseFrom(bytes, complete, record.next, record.pending))
  }

  method Parse(bytes: Bytes, complete: bool) returns (result: Result<seq<Entry>, TarError>)
    ensures result == ParseFrom(bytes, complete, 0, None)
  {
    var entries: seq<Entry>, pending, offset := [], None, 0;
    PrependNothing(ParseFrom(bytes, complete, 0, None));
    while true
      invariant 0 <= offset <= |bytes|
      invariant ParseFrom(bytes, complete, 0, None) == Prepend(entries, ParseFrom(bytes, complete, offset, pending))
      decreases |bytes| - offset
    {
      if offset + BLOCK > |bytes| {
        if complete && !AllZero(bytes[offset..]) {
          return Failure(TruncatedHeader);
        }
        assert entries + [] == entries;
        return Success(entries);
      }
      if AllZero(bytes[offset..offset + BLOCK]) {
        assert entries + [] == entries;
        return Success(entries);
      }
      var record := ReadRecord(bytes, complete, offset, pending);
      if record.Failure? {
        return Failure(record.error);
      }
      ghost var rest := ParseFrom(bytes, complete, record.value.next, record.value.pending);
      PrependConcat(entries, record.value.entries, rest);
      entries := entries + record.value.entries;
      if record.value.cut {
        return Success(entries);
      }
      pending, offset := record.value.pending, record.value.next;
    }
  }

  function Prepend<T>(first: seq<T>, rest: Result<seq<T>, TarError>): Result<seq<T>, TarError> {
    if rest.Failure? then rest else Success(first + rest.value)
  }

  lemma PrependNothing<T>(rest: Result<seq<T>, TarError>)
    ensures Prepend([], rest) == rest
  {
    if rest.Success? {
      assert [] + rest.value == rest.value;
    }
  }

  lemma PrependConcat<T>(a: seq<T>, b: seq<T>, rest: Result<seq<T>, TarError>)
    ensures Prepend(a, Prepend(b, rest)) == Prepend(a + b, rest)
  {
    if rest.Success? {
      assert a + (b + rest.value) == (a + b) + rest.value;
    }
  }
}
