/** The archive written for one file transfer, and both readers reading it back. */
module TarWriter {
  import opened Wrappers
  import opened TarFormat
  import opened TarStream
  import opened TarAgreement
  import opened TarCapture
  import Listing = TarListing

  const NAME_WIDTH: nat := 100
  const ZERO: Byte := 48

  datatype Meta = Meta(mode: nat, uid: nat, gid: nat)

  /** A number wider than its field makes the copy into the block panic. */
  datatype Outcome<T> = Written(value: T) | Refused | Panicked

  function Zeros(n: nat): (z: Bytes)
    ensures |z| == n && AllZero(z)
  {
    seq(n, _ => 0)
  }

  // ---------------------------------------------------------------- numbers

  function OctalDigits(value: nat): Bytes {
    if value < 8 then [ZERO + value] else OctalDigits(value / 8) + [ZERO + value % 8]
  }

  /** At least `width` digits, zeros in front. */
  function OctalText(value: nat, width: nat): Bytes {
    var digits := OctalDigits(value);
    seq(if |digits| < width then width - |digits| else 0, _ => ZERO) + digits
  }

  lemma {:induction false} DigitsSpellValue(value: nat)
    ensures Digits(OctalDigits(value), 8) && Value(OctalDigits(value), 8) == value && OctalDigits(value) != []
  {
    if value >= 8 {
      DigitsSpellValue(value / 8);
      var front := OctalDigits(value / 8);
      assert OctalDigits(value)[..|OctalDigits(value)| - 1] == front;
    } else {
      var digits := OctalDigits(value);
      assert digits[..0] == [];
      assert Value(digits[..0], 8) == 0;
    }
  }

  lemma {:induction false} DigitCount(value: nat, width: nat)
    requires width > 0
    ensures |OctalDigits(value)| <= width <==> value < Power8(width)
    decreases value
  {
    if value >= 8 {
      if width == 1 {
        DigitsSpellValue(value / 8);
        assert Power8(1) == 8 by { assert Power8(0) == 1; }
      } else {
        DigitCount(value / 8, width - 1);
      }
    } else {
      PowerMonotone(1, width);
      assert Power8(1) == 8 by { assert Power8(0) == 1; }
    }
  }

  lemma {:induction false} LeadingZeros(zeros: Bytes, digits: Bytes)
    requires (forall k :: 0 <= k < |zeros| ==> zeros[k] == ZERO) && Digits(digits, 8)
    ensures Digits(zeros + digits, 8) && Value(zeros + digits, 8) == Value(digits, 8)
    decreases |zeros| + |digits|
  {
    var all := zeros + digits;
    if digits != [] {
      assert all[..|all| - 1] == zeros + digits[..|digits| - 1];
      LeadingZeros(zeros, digits[..|digits| - 1]);
    } else {
      assert all == zeros;
      if zeros != [] {
        assert zeros[..|zeros| - 1] + [] == zeros[..|zeros| - 1];
        LeadingZeros(zeros[..|zeros| - 1], []);
      }
    }
  }

  /** A number fills its field exactly when it has no more digits than the field, and it then reads back. */
  lemma OctalTextReads(value: nat, width: nat, tail: Bytes)
    requires 0 < width <= 11
    ensures |OctalText(value, width)| == width <==> value < Power8(width)
    ensures value < Power8(width) ==> Octal(OctalText(value, width) + [0] + tail) == Success(value)
  {
    DigitCount(value, width);
    DigitsSpellValue(value);
    if value < Power8(width) {
      hide Octal, Power8;
      var digits, text := OctalDigits(value), OctalText(value, width);
      var zeros := text[..width - |digits|];
      assert text == zeros + digits;
      LeadingZeros(zeros, digits);
      PowerMonotone(width, 11);
      PowerEleven();
      DigitsRead(text, tail);
    }
  }

  lemma DigitsRead(text: Bytes, tail: Bytes)
    requires text != [] && Digits(text, 8) && Value(text, 8) < U64_LIMIT
    ensures Octal(text + [0] + tail) == Success(Value(text, 8))
  {
    hide Value;
    TextBeforeNul(text, tail);
    AsciiIsUtf8(text);
    assert text + [0] + tail == text + ([0] + tail);
    assert (text + [0] + tail)[0] == text[0];
  }

  lemma PowerEleven()
    ensures Power8(11) < U64_LIMIT && Power8(6) == 262144
  {
    assert Power8(3) == 512;
    assert Power8(6) == 262144;
    assert Power8(9) == 8 * 8 * 8 * Power8(6);
  }

  lemma {:induction false} TextBeforeNul(text: Bytes, tail: Bytes)
    requires 0 !in text
    ensures UpToNul(text + ([0] + tail)) == text
  {
    if text == [] {
      assert (text + ([0] + tail))[0] == 0;
    } else {
      assert (text + ([0] + tail))[1..] == text[1..] + ([0] + tail);
      TextBeforeNul(text[1..], tail);
    }
  }

  lemma {:induction false} WholeText(text: Bytes)
    requires 0 !in text
    ensures UpToNul(text) == text
  {
    if text == [] {
    } else {
      WholeText(text[1..]);
    }
  }

  lemma {:induction false} AsciiIsUtf8(text: Bytes)
    requires forall k :: 0 <= k < |text| ==> text[k] < 0x80
    ensures Utf8(text)
    decreases |text|
  {
    if text == [] {
    } else {
      AsciiIsUtf8(text[1..]);
    }
  }

  // ---------------------------------------------------------------- the header

  predicate Writable(name: Bytes) {
    name != [] && |name| <= NAME_WIDTH && SLASH !in name && 0 !in name
  }

  predicate Fits(meta: Meta, size: nat) {
    meta.mode < Power8(7) && meta.uid < Power8(7) && meta.gid < Power8(7) && size < Power8(11)
  }

  function Sum(s: Bytes): nat {
    if s == [] then 0 else Sum(s[..|s| - 1]) + s[|s| - 1]
  }

  const SPACES: Bytes := [SPACE, SPACE, SPACE, SPACE, SPACE, SPACE, SPACE, SPACE]

  /** The block with its checksum field read as eight spaces. */
  function Blanked(block: Bytes): Bytes
    requires |block| == BLOCK
  {
    block[..148] + SPACES + block[156..]
  }

  predicate NumberAt(block: Bytes, lo: nat, hi: nat, value: nat)
    requires lo < hi <= |block|
  {
    block[lo..hi] == OctalText(value, hi - lo - 1) + [0]
  }

  /** Permission bits, owners, size, and a modification time of zero. */
  predicate Numbered(block: Bytes, size: nat, meta: Meta)
    requires |block| == BLOCK
  {
    && NumberAt(block, 100, 108, meta.mode) && NumberAt(block, 108, 116, meta.uid)
    && NumberAt(block, 116, 124, meta.gid)
    && NumberAt(block, 124, 136, size) && NumberAt(block, 136, 148, 0)
  }

  /** Every byte of the header but its checksum. */
  predicate Stamped(block: Bytes, name: Bytes, size: nat, meta: Meta) {
    && |block| == BLOCK && |name| <= NAME_WIDTH
    && block[..|name|] == name && AllZero(block[|name|..100])
    && Numbered(block, size, meta)
    && block[156] == FLAG_FILE && AllZero(block[157..257])
    && block[257..262] == USTAR && block[262] == 0 && block[263..265] == [ZERO, ZERO] && AllZero(block[265..])
  }

  predicate Checksummed(block: Bytes)
    requires |block| == BLOCK
  {
    block[148..156] == OctalText(Sum(Blanked(block)), 6) + [0, SPACE]
  }

  lemma {:induction false} SumBound(s: Bytes)
    ensures Sum(s) <= 255 * |s|
  {
    if s == [] {
    } else {
      SumBound(s[..|s| - 1]);
    }
  }

  /** The checksum always fits its six digits. */
  lemma ChecksumFits(block: Bytes)
    requires |block| == BLOCK
    ensures |OctalText(Sum(block), 6)| == 6
  {
    SumBound(block);
    PowerEleven();
    OctalTextReads(Sum(block), 6, []);
  }

  method Copy(block: array<Byte>, at: nat, text: Bytes)
    requires at + |text| <= block.Length
    modifies block
    ensures block[at..at + |text|] == text
    ensures forall k :: 0 <= k < at || at + |text| <= k < block.Length ==> block[k] == old(block[k])
  {
    for k := 0 to |text|
      invariant block[at..at + k] == text[..k]
      invariant forall j :: 0 <= j < at || at + k <= j < block.Length ==> block[j] == old(block[j])
    {
      block[at + k] := text[k];
      assert block[at..at + k + 1] == block[at..at + k] + [text[k]];
    }
  }

  method PutOctal(block: array<Byte>, lo: nat, hi: nat, value: nat) returns (fits: bool)
    requires lo + 1 < hi <= block.Length && hi - lo <= 12
    modifies block
    ensures fits <==> value < Power8(hi - lo - 1)
    ensures fits ==> NumberAt(block[..], lo, hi, value)
    ensures forall k :: 0 <= k < lo || hi <= k < block.Length ==> block[k] == old(block[k])
  {
    OctalTextReads(value, hi - lo - 1, []);
    var text := OctalText(value, hi - lo - 1) + [0];
    if |text| != hi - lo {
      return false;
    }
    Copy(block, lo, text);
    assert block[..][lo..hi] == block[lo..lo + |text|];
    return true;
  }

  method SumOf(block: array<Byte>) returns (sum: nat)
    ensures sum == Sum(block[..])
  {
    sum := 0;
    for k := 0 to block.Length
      invariant sum == Sum(block[..k])
    {
      assert block[..k + 1][..k] == block[..k];
      sum := sum + block[k];
    }
    assert block[..block.Length] == block[..];
  }

  method Header(name: Bytes, size: nat, meta: Meta) returns (outcome: Outcome<Bytes>)
    ensures outcome.Refused? <==> !Writable(name)
    ensures outcome.Written? <==> Writable(name) && Fits(meta, size)
    ensures outcome.Written? ==> Stamped(outcome.value, name, size, meta) && Checksummed(outcome.value)
  {
    if name == [] || |name| > NAME_WIDTH || SLASH in name || 0 in name {
      return Refused;
    }
    var block := new Byte[BLOCK](_ => 0);
    Copy(block, 0, name);
    var fits := PutNumbers(block, size, meta);
    if !fits {
      return Panicked;
    }
    assert block[..][..|name|] == block[0..|name|];
    PutConstants(block, name, size, meta);
    ghost var stamped := block[..];
    PutChecksum(block);
    StampedElsewhere(stamped, block[..], name, size, meta);
    return Written(block[..]);
  }

  /** The type, the magic and the version. */
  method PutConstants(block: array<Byte>, name: Bytes, size: nat, meta: Meta)
    requires block.Length == BLOCK && Numbered(block[..], size, meta) && |name| <= NAME_WIDTH
    requires block[..][..|name|] == name && AllZero(block[|name|..100]) && AllZero(block[148..])
    modifies block
    ensures Stamped(block[..], name, size, meta)
  {
    hide NumberAt;
    ghost var before := block[..];
    block[156] := FLAG_FILE;
    Copy(block, 257, USTAR);
    Copy(block, 263, [ZERO, ZERO]);
    ghost var after := block[..];
    assert after[..156] == before[..156];
    NumberedElsewhere(before, after, size, meta);
    assert after[..|name|] == before[..|name|] && after[|name|..100] == before[|name|..100];
    assert after[257..262] == block[257..262] && after[263..265] == block[263..265];
    assert forall k :: 157 <= k < 257 || k == 262 || 265 <= k < BLOCK ==> after[k] == before[148..][k - 148];
  }

  lemma NumberedElsewhere(a: Bytes, b: Bytes, size: nat, meta: Meta)
    requires |a| == |b| == BLOCK && a[..148] == b[..148] && Numbered(a, size, meta)
    ensures Numbered(b, size, meta)
  {
    hide OctalText;
    assert forall k :: 0 <= k < 148 ==> b[k] == b[..148][k] == a[..148][k] == a[k];
    assert b[100..108] == a[100..108] && b[108..116] == a[108..116] && b[116..124] == a[116..124];
    assert b[124..136] == a[124..136] && b[136..148] == a[136..148];
  }

  lemma StampedElsewhere(a: Bytes, b: Bytes, name: Bytes, size: nat, meta: Meta)
    requires Stamped(a, name, size, meta) && |b| == BLOCK && a[..148] == b[..148] && a[156..] == b[156..]
    ensures Stamped(b, name, size, meta)
  {
    hide Numbered;
    NumberedElsewhere(a, b, size, meta);
    assert a[..|name|] == a[..148][..|name|] && b[..|name|] == b[..148][..|name|];
    assert a[|name|..100] == a[..148][|name|..100] && b[|name|..100] == b[..148][|name|..100];
    assert forall k :: 156 <= k < BLOCK ==> b[k] == b[156..][k - 156] == a[156..][k - 156] == a[k];
    assert b[157..257] == a[157..257] && b[257..262] == a[257..262] && b[263..265] == a[263..265]
      && b[265..] == a[265..];
  }

  method PutChecksum(block: array<Byte>)
    requires block.Length == BLOCK
    modifies block
    ensures Checksummed(block[..])
    ensures block[..148] == old(block[..148]) && block[156..] == old(block[156..])
  {
    Copy(block, 148, SPACES);
    var sum := SumOf(block);
    ghost var blanked := block[..];
    ChecksumFits(blanked);
    Copy(block, 148, OctalText(sum, 6) + [0, SPACE]);
    assert block[..][148..156] == block[148..156];
    assert Blanked(block[..]) == blanked;
  }

  method PutNumbers(block: array<Byte>, size: nat, meta: Meta) returns (fits: bool)
    requires block.Length == BLOCK
    modifies block
    ensures fits <==> Fits(meta, size)
    ensures fits ==> Numbered(block[..], size, meta)
    ensures forall k :: 0 <= k < 100 || 148 <= k < BLOCK ==> block[k] == old(block[k])
  {
    hide OctalText, Power8;
    fits := PutOctal(block, 100, 108, meta.mode);
    if !fits { return; }
    fits := PutOctal(block, 108, 116, meta.uid);
    if !fits { return; }
    fits := PutOctal(block, 116, 124, meta.gid);
    if !fits { return; }
    fits := PutOctal(block, 124, 136, size);
    if !fits { return; }
    fits := PutOctal(block, 136, 148, 0);
  }

  // ---------------------------------------------------------------- reading the header back

  lemma StampedNumber(block: Bytes, lo: nat, hi: nat, value: nat)
    requires lo + 1 < hi <= |block| && hi - lo <= 12 && NumberAt(block, lo, hi, value) && value < Power8(hi - lo - 1)
    ensures Octal(block[lo..hi]) == Success(value)
  {
    OctalTextReads(value, hi - lo - 1, []);
    assert OctalText(value, hi - lo - 1) + [0] + [] == block[lo..hi];
  }

  lemma StampedName(block: Bytes, name: Bytes)
    requires |block| == BLOCK && Writable(name) && Utf8(name)
    requires block[..|name|] == name && AllZero(block[|name|..100]) && AllZero(block[345..500])
    ensures HeaderName(block) == Success(name)
  {
    if |name| == 100 {
      WholeText(name);
      assert block[0..100] == name;
    } else {
      assert block[0..100] == name + ([0] + block[|name| + 1..100]) by {
        assert block[|name|..100][0] == 0;
      }
      TextBeforeNul(name, block[|name| + 1..100]);
    }
    assert block[345..500][0] == 0;
  }

  lemma ModeBound(meta: Meta, size: nat)
    requires Fits(meta, size)
    ensures meta.mode < U32_LIMIT
  {
    PowerMonotone(7, 9);
    PowerEleven();
    assert Power8(9) == 8 * 8 * 8 * Power8(6);
  }

  /** A stamped header is read back field by field. */
  lemma StampedReads(block: Bytes, name: Bytes, size: nat, meta: Meta)
    requires Stamped(block, name, size, meta) && Writable(name) && Utf8(name) && Fits(meta, size)
    ensures !AllZero(block) && HeaderSize(block) == Success(size) && Flag(block) == FLAG_FILE
    ensures EntryFacts(block, size, None) == Success(StreamEntry(name, File, size, meta.mode, meta.uid, meta.gid, None))
  {
    hide Octal, HeaderName, NumberAt, Power8;
    assert block[156] != 0;
    StampedNumber(block, 124, 136, size);
    StampedNumber(block, 100, 108, meta.mode);
    StampedNumber(block, 108, 116, meta.uid);
    StampedNumber(block, 116, 124, meta.gid);
    assert AllZero(block[345..500]) by {
      assert forall k :: 0 <= k < 155 ==> block[345..500][k] == block[265..][k + 80];
    }
    StampedName(block, name);
    ModeBound(meta, size);
  }

  /** Its checksum field reads as the sum of its bytes with the field itself taken as spaces. */
  lemma ChecksumReads(block: Bytes)
    requires |block| == BLOCK && Checksummed(block)
    ensures Octal(block[148..156]) == Success(Sum(Blanked(block)))
  {
    var text := OctalText(Sum(Blanked(block)), 6);
    ChecksumFits(Blanked(block));
    OctalTextReads(Sum(Blanked(block)), 6, [SPACE]);
    assert text + [0] + [SPACE] == text + [0, SPACE];
  }

  // ---------------------------------------------------------------- the archive

  /** Header, content, padding, end marker. */
  function Archive(block: Bytes, content: Bytes): Bytes {
    block + (content + (Zeros(Padding(|content|)) + Zeros(2 * BLOCK)))
  }

  lemma ArchiveLayout(block: Bytes, content: Bytes)
    requires |block| == BLOCK
    ensures var archive, start, next := Archive(block, content), BLOCK, BLOCK + Padded(|content|);
            && |archive| == next + 2 * BLOCK
            && archive[0..start] == block && archive[start..start + |content|] == content
            && AllZero(archive[next..next + BLOCK])
  {
    PaddedIsSizeAndPadding(|content|);
  }

  /** Both readers, the stream under any chunking, see exactly one regular file with this name, size,
      mode and owners; its data range is the content. */
  ghost predicate ReadsBackAs(archive: Bytes, name: Bytes, meta: Meta, content: Bytes) {
    && BLOCK + |content| <= |archive|
    && ParseFrom(archive, true, 0, None) == Success([Entry(File, BLOCK, BLOCK + |content|, None)])
    && archive[BLOCK..BLOCK + |content|] == content
    && forall chunks: seq<Bytes> :: Flatten(chunks) == archive ==>
         && Accepted(FeedAll(INITIAL, chunks))
         && FeedAll(INITIAL, chunks).entries
           == [StreamEntry(name, File, |content|, meta.mode, meta.uid, meta.gid, None)]
  }

  lemma WrittenArchiveReadsBack(block: Bytes, name: Bytes, meta: Meta, content: Bytes)
    requires |block| == BLOCK && Stamped(block, name, |content|, meta) && Writable(name) && Utf8(name)
    requires Fits(meta, |content|)
    ensures ReadsBackAs(Archive(block, content), name, meta, content)
  {
    hide Run, OnHeader, OnContentEnd, EntryFacts, RecordFed, FinishOf, HeaderSize, Padded, Stamped, ReadRecord, Archive,
      AllZero, Power8;
    var archive, size := Archive(block, content), |content|;
    var next := BLOCK + Padded(size);
    StampedReads(block, name, size, meta);
    ArchiveLayout(block, content);
    PaddedIsSizeAndPadding(size);
    ParseUnfolds(archive, 0, size, None);
    EntryAgrees(block, content, 0, INITIAL, None);
    assert [Entry(File, BLOCK, BLOCK + size, None)] + [] == [Entry(File, BLOCK, BLOCK + size, None)];
    assert archive[0..] == archive;
    RecordRuns(INITIAL, archive, 0, size);
    var fed := RecordFed(INITIAL, block, content);
    EndMarkerAccepted(fed.state, archive, next);
    assert fed.entries + [] == fed.entries;
    forall chunks: seq<Bytes> | Flatten(chunks) == archive
      ensures FeedAll(INITIAL, chunks) == Run(INITIAL, archive)
    {
      ChunkingIsInvisible(INITIAL, chunks);
    }
  }

  /** A bounded read of a written archive returns the front of the content, whatever the bound. */
  lemma WrittenFileReadsBounded(block: Bytes, name: Bytes, meta: Meta, content: Bytes, max: nat)
    requires |block| == BLOCK && Stamped(block, name, |content|, meta)
    requires Writable(name) && Utf8(name) && Fits(meta, |content|)
    ensures Reading(Archive(block, content), max) == Success(content[..Min(max, |content|)])
  {
    hide Stamped, ParseFrom, Archive, Padded, HeaderSize, AllZero, CutRefused, Reading;
    var archive, size := Archive(block, content), |content|;
    WrittenArchiveReadsBack(block, name, meta, content);
    NoNameIsCut(block, name, meta, content, CutAt(archive, max));
    CaptureParses(archive, max);
    BoundedReadIsExact(archive, max);
    assert archive[BLOCK..BLOCK + Min(max, size)] == archive[BLOCK..BLOCK + size][..Min(max, size)];
  }

  lemma NoNameIsCut(block: Bytes, name: Bytes, meta: Meta, content: Bytes, cut: nat)
    requires |block| == BLOCK && Stamped(block, name, |content|, meta)
    requires Writable(name) && Utf8(name) && Fits(meta, |content|)
    ensures !CutRefused(Archive(block, content), cut, 0, None)
  {
    hide Stamped, Archive, Padded, AllZero, Fits, ReadRecord, Flag, SplitsName, CutRefused;
    WrittenRecordReads(block, name, meta, content);
    StampedReads(block, name, |content|, meta);
    ArchiveLayout(block, content);
    NotAName(Archive(block, content), cut, 0, None);
    LoneRecordIsNotRefused(Archive(block, content), cut, BLOCK + Padded(|content|));
  }

  lemma WrittenRecordReads(block: Bytes, name: Bytes, meta: Meta, content: Bytes)
    requires |block| == BLOCK && Stamped(block, name, |content|, meta)
    requires Writable(name) && Utf8(name) && Fits(meta, |content|)
    ensures |Archive(block, content)| >= BLOCK
    ensures ReadRecord(Archive(block, content), true, 0, None)
         == Success(Record(None, [Entry(File, BLOCK, BLOCK + |content|, None)], BLOCK + Padded(|content|), false))
  {
    hide Stamped, Archive, Padded, Padding, HeaderSize, AllZero, Fits, ReadRecord, Flag, WholeRead, Writable, Utf8,
      EntryFacts;
    StampedReads(block, name, |content|, meta);
    ArchiveLayout(block, content);
    PaddedIsSizeAndPadding(|content|);
    FileRecordIsWhole(block, name, meta, content);
    FirstReadsWhole(Archive(block, content), block, content, [Entry(File, BLOCK, BLOCK + |content|, None)]);
  }

  lemma FirstReadsWhole(bytes: Bytes, block: Bytes, content: Bytes, entries: seq<Entry>)
    requires |block| == BLOCK && BLOCK + Padded(|content|) <= |bytes| && bytes[0..BLOCK] == block
    requires BLOCK + |content| <= |bytes| && bytes[BLOCK..BLOCK + |content|] == content
    requires !AllZero(block) && HeaderSize(block) == Success(|content|)
    requires WholeRead(block, content, 0, None) == Success((None, entries))
    ensures ReadRecord(bytes, true, 0, None) == Success(Record(None, entries, BLOCK + Padded(|content|), false))
  {
    hide Padded, HeaderSize, AllZero, ReadRecord, Flag, WholeRead;
    PaddedIsSizeAndPadding(|content|);
    ReadsWhole(bytes, 0, |content|, None);
  }

  lemma LoneRecordIsNotRefused(bytes: Bytes, cut: nat, next: nat)
    requires next + BLOCK <= |bytes| && AllZero(bytes[next..next + BLOCK])
    requires ReadRecord(bytes, true, 0, None).Success? && ReadRecord(bytes, true, 0, None).value.next == next
    requires !SplitsName(bytes, cut, 0, None)
    ensures !CutRefused(bytes, cut, 0, None)
  {
    hide ReadRecord, SplitsName, AllZero;
    var record := ReadRecord(bytes, true, 0, None).value;
    assert !CutRefused(bytes, cut, next, record.pending);
  }

  lemma NotAName(bytes: Bytes, cut: nat, offset: nat, pending: Option<Bytes>)
    requires offset + BLOCK <= |bytes| && Flag(bytes[offset..offset + BLOCK]) == FLAG_FILE
    ensures !SplitsName(bytes, cut, offset, pending)
  {
    hide Flag, Override;
  }

  // ---------------------------------------------------------------- a capture that splits a name

  /** The header of a long-name record of two bytes. */
  function NameHeader(): (header: Bytes)
    ensures |OctalText(2, 11)| == 11 ==> |header| == BLOCK
  {
    Zeros(124) + (OctalText(2, 11) + [0]) + Zeros(20) + [FLAG_LONGNAME] + Zeros(100) + USTAR + Zeros(250)
  }

  lemma NameHeaderReads()
    ensures |NameHeader()| == BLOCK && !AllZero(NameHeader())
    ensures Flag(NameHeader()) == FLAG_LONGNAME && HeaderSize(NameHeader()) == Success(2)
  {
    hide Octal, OctalText;
    PowerMonotone(1, 11);
    assert Power8(1) == 8 by { assert Power8(0) == 1; }
    OctalTextReads(2, 11, []);
    var header := NameHeader();
    assert header[124..136] == OctalText(2, 11) + [0] + [];
    assert header[257..262] == USTAR && header[156] == FLAG_LONGNAME;
  }

  /** A letter of two bytes. */
  const LETTER: Bytes := [0xC3, 0xA9]

  /** A file, then a long-name record whose name is one letter. */
  function FileThenName(block: Bytes, content: Bytes): Bytes {
    block + content + (NameHeader() + (LETTER + Zeros(510)))
  }

  /** Reading one byte of a file of 64512 is refused when a name record behind the file is split by the capture:
      the whole archive is accepted, its front is not. */
  lemma SplitNameIsRefused(block: Bytes, name: Bytes, meta: Meta, content: Bytes)
    requires |block| == BLOCK && |content| == 64512 && Stamped(block, name, |content|, meta)
    requires Writable(name) && Utf8(name) && Fits(meta, |content|)
    ensures ParseFrom(FileThenName(block, content), true, 0, None) == Success([Entry(File, BLOCK, BLOCK + 64512, None)])
    ensures Reading(FileThenName(block, content), 1) == Failure(BadArchive(NonUtf8Name))
  {
    hide Stamped, AllZero, HeaderSize, NameHeader, FileThenName, Fits;
    var archive := FileThenName(block, content);
    FileThenNameLayout(block, content);
    WholeArchiveParses(block, name, meta, content);
    FrontIsRefused(block, name, meta, content);
  }

  lemma FileThenNameLayout(block: Bytes, content: Bytes)
    requires |block| == BLOCK && |content| == 64512
    ensures var archive := FileThenName(block, content);
            && |archive| == 66048 && archive[0..512] == block && archive[512..65024] == content
            && archive[65024..65536] == NameHeader() && archive[65536..65538] == LETTER
            && archive[65536..65537] == [0xC3]
    ensures Padded(64512) == 64512 && Padded(2) == 512
  {
    NameHeaderReads();
    hide NameHeader, AllZero, Flag, HeaderSize, Zeros;
    var archive, tail := FileThenName(block, content), NameHeader() + (LETTER + Zeros(510));
    assert archive[..65024] == block + content && archive[65024..] == tail;
    assert archive[0..512] == archive[..65024][0..512] && archive[512..65024] == archive[..65024][512..];
    assert tail[0..512] == NameHeader() && tail[512..514] == LETTER;
    assert archive[65024..65536] == tail[0..512] && archive[65536..65538] == tail[512..514];
    assert archive[65536..65537] == LETTER[..1];
  }

  lemma LetterIsAName()
    ensures NulTerminated(LETTER) == Success(LETTER) && NulTerminated([0xC3]) == Failure(NonUtf8Name)
  {
    WholeText(LETTER);
    var half: Bytes := [0xC3];
    WholeText(half);
    assert LETTER[2..] == [] && LeadLength(LETTER) == 2;
    assert LeadLength(half) == 0;
  }

  lemma NameRecordReads()
    ensures WholeRead(NameHeader(), LETTER, 65024, None) == Success((Some(LETTER), []))
  {
    NameHeaderReads();
    LetterIsAName();
    hide NameHeader, HeaderSize, AllZero, NulTerminated;
  }

  lemma FileRecordIsWhole(block: Bytes, name: Bytes, meta: Meta, content: Bytes)
    requires |block| == BLOCK && Stamped(block, name, |content|, meta)
    requires Writable(name) && Utf8(name) && Fits(meta, |content|)
    ensures WholeRead(block, content, 0, None) == Success((None, [Entry(File, BLOCK, BLOCK + |content|, None)]))
  {
    StampedReads(block, name, |content|, meta);
    EntryReads(block, content, 0, None, None);
    hide Stamped, AllZero, HeaderSize, EntryFacts, EntryName;
  }

  lemma WholeArchiveParses(block: Bytes, name: Bytes, meta: Meta, content: Bytes)
    requires |block| == BLOCK && |content| == 64512 && Stamped(block, name, |content|, meta)
    requires Writable(name) && Utf8(name) && Fits(meta, |content|)
    ensures ParseFrom(FileThenName(block, content), true, 0, None) == Success([Entry(File, BLOCK, BLOCK + 64512, None)])
  {
    hide Stamped, AllZero, HeaderSize, NameHeader, FileThenName, Fits, ReadRecord, Padded, EntryFacts, NulTerminated,
      WholeRead, ParseFrom;
    var archive := FileThenName(block, content);
    var entry := Entry(File, BLOCK, BLOCK + 64512, None);
    FileThenNameLayout(block, content);
    StampedReads(block, name, |content|, meta);
    NameHeaderReads();
    FileRecordIsWhole(block, name, meta, content);
    NameRecordReads();
    ParseUnfolds(archive, 0, 64512, None);
    ParseUnfolds(archive, 65024, 2, None);
    NothingLeft(archive);
    assert ParseFrom(archive, true, 65024, None) == Success([]);
    assert [entry] + [] == [entry];
  }

  lemma NothingLeft(archive: Bytes)
    requires |archive| == 66048
    ensures ParseFrom(archive, true, 66048, Some(LETTER)) == Success([])
  {
    assert archive[66048..] == [];
  }

  lemma FileRecordReads(bytes: Bytes, block: Bytes, name: Bytes, size: nat, meta: Meta)
    requires |block| == BLOCK && BLOCK + Padded(size) <= |bytes| && bytes[0..BLOCK] == block
    requires Stamped(block, name, size, meta) && Writable(name) && Utf8(name) && Fits(meta, size)
    ensures ReadRecord(bytes, false, 0, None)
         == Success(Record(None, [Entry(File, BLOCK, BLOCK + size, None)], BLOCK + Padded(size), false))
  {
    hide Stamped, HeaderSize, EntryName, LinkTarget, Octal, Padded, AllZero;
    StampedReads(block, name, size, meta);
    PaddedIsSizeAndPadding(size);
    assert EntryName(block, None).Success? && LinkTarget(block) == Success(None) by { hide AllZero, HeaderSize; }
  }

  lemma SplitRecordFails(bytes: Bytes)
    requires |bytes| == 65537 && bytes[65024..65536] == NameHeader() && bytes[65536..65537] == [0xC3]
    ensures ReadRecord(bytes, false, 65024, None) == Failure(NonUtf8Name) && !AllZero(bytes[65024..65536])
  {
    NameHeaderReads();
    LetterIsAName();
    hide NameHeader, HeaderSize, AllZero, NulTerminated;
    assert Padded(2) == 512;
  }

  lemma FrontIsRefused(block: Bytes, name: Bytes, meta: Meta, content: Bytes)
    requires |block| == BLOCK && |content| == 64512 && Stamped(block, name, |content|, meta)
    requires Writable(name) && Utf8(name) && Fits(meta, |content|)
    ensures Reading(FileThenName(block, content), 1) == Failure(BadArchive(NonUtf8Name))
  {
    hide Stamped, AllZero, HeaderSize, NameHeader, FileThenName, Fits, Padded, NulTerminated, EntryFacts, ReadRecord;
    var archive := FileThenName(block, content);
    FileThenNameLayout(block, content);
    var front := archive[..65537];
    assert front[0..512] == block && front[65024..65536] == NameHeader() && front[65536..65537] == [0xC3];
    StampedReads(block, name, |content|, meta);
    FileRecordReads(front, block, name, |content|, meta);
    SplitRecordFails(front);
    assert ParseFrom(front, false, 65024, None) == Failure(NonUtf8Name);
  }

  // ---------------------------------------------------------------- a capture that cuts a header

  /** Reading 300 bytes of a file of 65024 cuts the header behind it: the capture is accepted as it is and the
      read succeeds; the same bytes taken as a whole archive are refused. */
  lemma CutHeaderIsAccepted(block: Bytes, name: Bytes, meta: Meta, content: Bytes, tail: Bytes)
    requires |block| == BLOCK && |content| == 65024 && Stamped(block, name, |content|, meta)
    requires Writable(name) && Utf8(name) && Fits(meta, |content|)
    requires |tail| >= BLOCK && !AllZero(tail[..300])
    ensures var archive, entry := block + content + tail, Entry(File, BLOCK, BLOCK + 65024, None);
            && CutAt(archive, 300) == 65836
            && ParseFrom(archive[..65836], false, 0, None) == Success([entry])
            && ParseFrom(archive[..65836], true, 0, None) == Failure(TruncatedHeader)
            && Reading(archive, 300) == Success(content[..300])
  {
    hide Stamped, AllZero, HeaderSize, Fits, Padded, NulTerminated, EntryFacts, ReadRecord, WholeRead;
    var archive, front := block + content + tail, (block + content + tail)[..65836];
    var entry := Entry(File, BLOCK, BLOCK + 65024, None);
    assert front[0..512] == block && front[512..65536] == content && front[65536..] == tail[..300];
    assert Padded(65024) == 65024 by { PaddedIsSizeAndPadding(65024); }
    StampedReads(block, name, |content|, meta);
    FileRecordIsWhole(block, name, meta, content);
    FileRecordReads(front, block, name, |content|, meta);
    FirstReadsWhole(front, block, content, [entry]);
    CutHeaderEnds(front, 65536, None);
    assert [entry] + [] == [entry];
    assert ReadOf(archive, 300) == Success([entry]);
    assert archive[512..65536] == content;
  }

  lemma CutHeaderEnds(bytes: Bytes, offset: nat, pending: Option<Bytes>)
    requires offset <= |bytes| < offset + BLOCK && !AllZero(bytes[offset..])
    ensures ParseFrom(bytes, false, offset, pending) == Success([])
    ensures ParseFrom(bytes, true, offset, pending) == Failure(TruncatedHeader)
  {
  }

  /** An owner of eight octal digits is one too wide for its field: no refusal, a panic. */
  method WideOwnerPanics() returns (outcome: Outcome<Bytes>)
    ensures outcome.Panicked?
  {
    assert Power8(7) == 2097152 by {
      assert Power8(3) == 512;
      assert Power8(6) == 262144;
    }
    outcome := Header([97], 0, Meta(420, 2097152, 0));
  }

  // ---------------------------------------------------------------- one file written

  /** What follows the last slash. */
  function FileName(path: Bytes): Bytes {
    if path == [] || path[|path| - 1] == SLASH then [] else FileName(path[..|path| - 1]) + [path[|path| - 1]]
  }

  /** An absolute path is its directory, a slash and its name. */
  lemma {:induction false} PathSplits(path: Bytes)
    requires SLASH in path
    ensures Listing.ParentOf(path) + [SLASH] + FileName(path) == path
    ensures SLASH !in FileName(path)
    decreases |path|
  {
    var front, last := path[..|path| - 1], path[|path| - 1];
    assert path == front + [last];
    if last == SLASH {
    } else {
      PathSplits(front);
      assert Listing.ParentOf(path) + [SLASH] + FileName(path) == (Listing.ParentOf(front) + [SLASH] + FileName(front))
        + [last];
    }
  }

  lemma {:induction false} NameIsUtf8(path: Bytes, front: Bytes, name: Bytes)
    requires Utf8(path) && path == front + [SLASH] + name
    ensures Utf8(name)
    decreases |front|
  {
    var n := LeadLength(path);
    if front == [] {
      assert path[1..] == name;
    } else {
      assert n <= |front| by {
        assert path[|front|] == SLASH;
      }
      assert path[n..] == front[n..] + [SLASH] + name;
      NameIsUtf8(path[n..], front[n..], name);
    }
  }

  datatype Transfer = Transfer(parent: Bytes, archive: Bytes)

  /** What is sent for one file: the directory it is extracted into and the archive. */
  method WriteFile(path: Bytes, meta: Meta, content: Bytes) returns (outcome: Outcome<Transfer>)
    requires Utf8(path)
    ensures var absolute := path != [] && path[0] == SLASH && path[|path| - 1] != SLASH;
            var name := FileName(path);
            && (outcome.Refused? <==> !absolute || |name| > NAME_WIDTH || 0 in name)
            && (outcome.Written? ==>
                  && Fits(meta, |content|) && Writable(name)
                  && outcome.value.parent == (if Listing.ParentOf(path) == [] then [SLASH] else Listing.ParentOf(path))
                  && ReadsBackAs(outcome.value.archive, name, meta, content))
            && (outcome.Panicked? ==> !Fits(meta, |content|))
  {
    if path == [] || path[0] != SLASH || path[|path| - 1] == SLASH {
      return Refused;
    }
    PathSplits(path);
    var parent, name := Listing.ParentOf(path), FileName(path);
    NameIsUtf8(path, parent, name);
    var header := Header(name, |content|, meta);
    match header
    case Refused => return Refused;
    case Panicked => return Panicked;
    case Written(block) =>
      WrittenArchiveReadsBack(block, name, meta, content);
      return Written(Transfer(if parent == [] then [SLASH] else parent, Archive(block, content)));
  }
}
