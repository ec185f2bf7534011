/** What the fields of a header, the records before it and the bytes of a name mean. */
module TarHeaders {
  import opened Wrappers
  import opened TarFormat
  import opened TarStream
  import opened TarAgreement
  import opened TarWriter

  // ---------------------------------------------------------------- names are Unicode texts

  /** The code points a text may hold. */
  predicate Scalar(c: nat) { c < 0xD800 || 0xE000 <= c < 0x11_0000 }

  function Encoded(c: nat): Bytes
    requires Scalar(c)
  {
    if c < 0x80 then [c]
    else if c < 0x800 then [0xC0 + c / 64, 0x80 + c % 64]
    else if c < 0x1_0000 then [0xE0 + c / 64 / 64, 0x80 + c / 64 % 64, 0x80 + c % 64]
    else
      CodeBound(c);
      [0xF0 + c / 64 / 64 / 64, 0x80 + c / 64 / 64 % 64, 0x80 + c / 64 % 64, 0x80 + c % 64]
  }

  lemma CodeBound(c: nat)
    requires c < 0x11_0000
    ensures c / 64 / 64 / 64 <= 4
  {
  }

  ghost predicate Scalars(text: seq<nat>) { forall k :: 0 <= k < |text| ==> Scalar(text[k]) }

  function EncodedAll(text: seq<nat>): Bytes
    requires Scalars(text)
  {
    if text == [] then [] else Encoded(text[0]) + EncodedAll(text[1..])
  }

  /** The code point that a sequence of bytes is to stand for. */
  function Decoded(s: Bytes): int
    requires 1 <= |s| <= 4
  {
    if |s| == 1 then s[0]
    else if |s| == 2 then (s[0] as int - 0xC0) * 64 + (s[1] as int - 0x80)
    else if |s| == 3 then ((s[0] as int - 0xE0) * 64 + (s[1] as int - 0x80)) * 64 + (s[2] as int - 0x80)
    else (((s[0] as int - 0xF0) * 64 + (s[1] as int - 0x80)) * 64 + (s[2] as int - 0x80)) * 64 + (s[3] as int - 0x80)
  }

  lemma LeadBound(s: Bytes)
    ensures LeadLength(s) <= 4
  {
  }

  lemma TwoBytes(s: Bytes)
    requires LeadLength(s) == 2
    ensures var c := Decoded(s[..2]); 0x80 <= c < 0x800 && Encoded(c) == s[..2]
  {
    var hi: nat, lo: nat := s[0] as int - 0xC0, s[1] as int - 0x80;
    assert Decoded(s[..2]) == hi * 64 + lo;
    Divided(hi, lo);
  }

  lemma Divided(hi: nat, lo: nat)
    requires lo < 64
    ensures (hi * 64 + lo) / 64 == hi && (hi * 64 + lo) % 64 == lo
  {
  }

  lemma ThreeBytes(s: Bytes)
    requires LeadLength(s) == 3
    ensures var c := Decoded(s[..3]); 0x800 <= c < 0x1_0000 && Scalar(c) && Encoded(c) == s[..3]
  {
    var hi: nat, mid: nat, lo: nat := s[0] as int - 0xE0, s[1] as int - 0x80, s[2] as int - 0x80;
    assert Decoded(s[..3]) == (hi * 64 + mid) * 64 + lo;
    Divided(hi * 64 + mid, lo);
    Divided(hi, mid);
  }

  lemma FourBytes(s: Bytes)
    requires LeadLength(s) == 4
    ensures var c := Decoded(s[..4]); 0x1_0000 <= c < 0x11_0000 && Encoded(c) == s[..4]
  {
    var top: nat, hi: nat, mid: nat, lo: nat :=
      s[0] as int - 0xF0, s[1] as int - 0x80, s[2] as int - 0x80, s[3] as int - 0x80;
    assert Decoded(s[..4]) == ((top * 64 + hi) * 64 + mid) * 64 + lo;
    Divided((top * 64 + hi) * 64 + mid, lo);
    Divided(top * 64 + hi, mid);
    Divided(top, hi);
  }

  /** The sequence at the front of well-formed bytes is the encoding of a code point. */
  lemma LeadDecodes(s: Bytes)
    requires LeadLength(s) > 0
    ensures LeadLength(s) <= 4 && Decoded(s[..LeadLength(s)]) >= 0
    ensures Scalar(Decoded(s[..LeadLength(s)])) && Encoded(Decoded(s[..LeadLength(s)])) == s[..LeadLength(s)]
  {
    LeadBound(s);
    hide LeadLength, Encoded, Decoded;
    if LeadLength(s) == 1 {
      OneByte(s);
    } else if LeadLength(s) == 2 {
      TwoBytes(s);
    } else if LeadLength(s) == 3 {
      ThreeBytes(s);
    } else {
      FourBytes(s);
    }
  }

  lemma OneByte(s: Bytes)
    requires LeadLength(s) == 1
    ensures Decoded(s[..1]) == s[0] < 0x80 && Encoded(s[0]) == s[..1]
  {
  }

  /** And the other way round. */
  lemma EncodedLeads(c: nat, rest: Bytes)
    requires Scalar(c)
    ensures LeadLength(Encoded(c) + rest) == |Encoded(c)| > 0
  {
    if 0x800 <= c < 0x1_0000 {
      assert c / 64 / 64 == 0 ==> c / 64 >= 32;
      assert c / 64 / 64 == 13 && c / 64 % 64 >= 32 ==> c >= 0xD800;
    } else if c >= 0x1_0000 {
      CodeBound(c);
      assert c / 64 / 64 / 64 == 0 ==> c / 64 / 64 >= 16;
      assert c / 64 / 64 / 64 == 4 ==> c / 64 / 64 % 64 < 16;
    }
  }

  lemma {:induction false} EncodedIsUtf8(text: seq<nat>)
    requires Scalars(text)
    ensures Utf8(EncodedAll(text))
    decreases |text|
  {
    if text == [] {
    } else {
      var rest := EncodedAll(text[1..]);
      EncodedLeads(text[0], rest);
      EncodedIsUtf8(text[1..]);
      hide LeadLength, Encoded;
      assert (Encoded(text[0]) + rest)[|Encoded(text[0])|..] == rest;
    }
  }

  lemma {:induction false} Utf8Decodes(s: Bytes) returns (text: seq<nat>)
    requires Utf8(s)
    ensures Scalars(text) && EncodedAll(text) == s
    decreases |s|
  {
    hide LeadLength, Encoded, Decoded;
    if s == [] {
      text := [];
    } else {
      var n := LeadLength(s);
      LeadDecodes(s);
      var rest := Utf8Decodes(s[n..]);
      text := [Decoded(s[..n])] + rest;
      assert text[1..] == rest && s == s[..n] + s[n..];
    }
  }

  /** Bytes are accepted as a name exactly when they are the encoding of some text. */
  lemma Utf8IsEncoding(s: Bytes)
    ensures Utf8(s) <==> exists text :: Scalars(text) && EncodedAll(text) == s
  {
    if Utf8(s) {
      var text := Utf8Decodes(s);
    }
    if text :| Scalars(text) && EncodedAll(text) == s {
      EncodedIsUtf8(text);
    }
  }

  // ---------------------------------------------------------------- text and number fields

  /** A field that holds a text, filled up with zeros. */
  ghost predicate Holds(header: Bytes, lo: nat, hi: nat, text: Bytes) {
    lo + |text| <= hi <= |header| && header[lo..lo + |text|] == text && AllZero(header[lo + |text|..hi]) && 0 !in text
  }

  lemma FieldReads(header: Bytes, lo: nat, hi: nat, text: Bytes)
    requires Holds(header, lo, hi, text)
    ensures UpToNul(header[lo..hi]) == text
  {
    var field := header[lo..hi];
    var zeros := field[|text|..];
    assert zeros == header[lo + |text|..hi];
    assert field == text + zeros;
    if zeros == [] {
      WholeText(text);
      assert field == text;
    } else {
      TextBeforeNul(text, zeros[1..]);
      assert zeros == [0] + zeros[1..];
    }
  }

  /** A header of any kind, by its fields. */
  ghost predicate Labelled(header: Bytes, flag: Byte, name: Bytes, prefix: Bytes, link: Bytes) {
    && |header| == 512 && header[156] == flag
    && Holds(header, 0, 100, name) && Holds(header, 157, 257, link) && Holds(header, 345, 500, prefix)
  }

  /** Name, kind and link target of any header: the prefix and a slash before the name if there is a prefix, files by
      a zero byte or the digit 0, directories by 5, symlinks by 2, and a link target for those alone. A name that is
      no text is refused; a pending name comes before the header's own. */
  lemma LabelledReads(header: Bytes, flag: Byte, name: Bytes, prefix: Bytes, link: Bytes, pending: Bytes)
    requires Labelled(header, flag, name, prefix, link)
    ensures EntryName(header, None) == (if !Utf8(name) || !Utf8(prefix) then Failure(NonUtf8Name)
                                        else Success(if prefix == [] then name else prefix + [47] + name))
    ensures EntryName(header, Some(pending)) == Success(pending)
    ensures HeaderSize(header) == if header[257..262] == [117, 115, 116, 97, 114] then Octal(header[124..136])
                                  else Failure(NotUstar)
    ensures Flag(header) == flag && (IsMeta(flag) <==> flag in {76, 120, 75, 103})
    ensures KindOf(flag) == if flag == 48 || flag == 0 then File else if flag == 53 then Dir
                            else if flag == 50 then Symlink else Other
    ensures LinkTarget(header) == if flag != 50 then Success(None)
                                  else if Utf8(link) then Success(Some(link)) else Failure(NonUtf8Name)
  {
    hide Utf8, Holds, Octal;
    FieldReads(header, 0, 100, name);
    FieldReads(header, 157, 257, link);
    FieldReads(header, 345, 500, prefix);
  }

  /** An octal number may be followed by spaces, and by anything after a zero byte; no digits at all are zero, and a
      number in base 256 is refused. */
  lemma OctalReads(digits: Bytes, spaces: Bytes, tail: Bytes)
    requires Digits(digits, 8) && Value(digits, 8) < U64_LIMIT && forall k :: 0 <= k < |spaces| ==> spaces[k] == 32
    ensures Octal(digits + spaces + [0] + tail) == Success(Value(digits, 8))
    ensures Octal(digits + spaces) == Success(Value(digits, 8))
    ensures forall first: Byte :: first >= 128 ==> Octal([first] + tail) == Failure(Base256Field)
  {
    hide Octal, Value, TrimSpaces, UpToNul;
    var text := digits + spaces;
    TextBeforeNul(text, tail);
    WholeText(text);
    assert text + [0] + tail == text + ([0] + tail);
    SpacesTrimmed(digits, spaces);
    OctalOfText(text + [0] + tail, digits, spaces);
    OctalOfText(text, digits, spaces);
    forall first: Byte | first >= 128 ensures Octal([first] + tail) == Failure(Base256Field) {
      Base256Refused([first] + tail);
    }
  }

  lemma Base256Refused(field: Bytes)
    requires field != [] && field[0] >= 0x80
    ensures Octal(field) == Failure(Base256Field)
  {
  }

  lemma OctalOfText(field: Bytes, digits: Bytes, spaces: Bytes)
    requires Digits(digits, 8) && Value(digits, 8) < U64_LIMIT && forall k :: 0 <= k < |spaces| ==> spaces[k] == SPACE
    requires UpToNul(field) == digits + spaces && TrimSpaces(digits + spaces) == digits
    requires digits + spaces != [] ==> field != [] && field[0] == (digits + spaces)[0]
    requires digits + spaces == [] ==> field == [] || field[0] == 0
    ensures Octal(field) == Success(Value(digits, 8))
  {
    hide Value, TrimSpaces, UpToNul;
    AsciiIsUtf8(digits + spaces);
    if digits == [] { NoDigits(digits); }
    hide Utf8;
  }

  lemma NoDigits(digits: Bytes)
    requires Digits(digits, 8) && digits == []
    ensures Value(digits, 8) == 0
  {
  }

  lemma {:induction false} SpacesTrimmed(digits: Bytes, spaces: Bytes)
    requires Digits(digits, 8) && forall k :: 0 <= k < |spaces| ==> spaces[k] == SPACE
    ensures TrimSpaces(digits + spaces) == digits
    decreases |spaces|
  {
    if spaces == [] {
      assert digits + spaces == digits;
    } else {
      assert (digits + spaces)[..|digits + spaces| - 1] == digits + spaces[..|spaces| - 1];
      SpacesTrimmed(digits, spaces[..|spaces| - 1]);
    }
  }

  /** Content is padded to the next whole block, never by a whole one. */
  lemma PaddingIsLeast(size: nat)
    ensures Padded(size) % 512 == 0 && size <= Padded(size) < size + 512
  {
  }

  // ---------------------------------------------------------------- records before an entry

  const PATH: Bytes := [112, 97, 116, 104]

  /** A pax record: its own length in decimal, a space, key, equals sign, value and newline. */
  function PaxRecord(digits: Bytes, key: Bytes, value: Bytes): Bytes {
    digits + [32] + (key + [61] + value + [10])
  }

  lemma {:induction false} GapAfter(digits: Bytes, rest: Bytes)
    requires Digits(digits, 10)
    ensures Gap(digits + [SPACE] + rest) == |digits|
    decreases |digits|
  {
    var s := digits + [SPACE] + rest;
    if digits == [] {
      assert s[0] == SPACE;
    } else {
      assert s[0] == digits[0] && s[1..] == digits[1..] + [SPACE] + rest;
      GapAfter(digits[1..], rest);
    }
  }

  lemma IsPathRecord(key: Bytes, value: Bytes)
    requires 61 !in key
    ensures PathValue(key + [61] + value + [10]) == if key == PATH then Some(value) else None
  {
    var record := key + [61] + value + [10];
    assert record[|key|] == 61;
    assert PATH_KEY <= record ==> forall k :: 0 <= k < 5 ==> record[k] == PATH_KEY[k];
    if key == PATH {
      assert PATH_KEY <= record && record[|PATH_KEY|..] == value + [10];
      assert (value + [10])[..|value|] == value;
    } else if |key| > 4 {
      assert record[4] == key[4] && key[4] in key;
    } else if |key| == 4 {
      assert record[..4] == key;
    }
  }

  /** One record: a path overrides the one before it and must be a text, any other key is passed over. */
  lemma PaxRecordReads(digits: Bytes, key: Bytes, value: Bytes, rest: Bytes, path: Option<Bytes>)
    requires digits != [] && Digits(digits, 10) && 61 !in key
    requires Value(digits, 10) == |PaxRecord(digits, key, value)| < U64_LIMIT
    ensures PaxFrom(PaxRecord(digits, key, value) + rest, path)
         == if key != [112, 97, 116, 104] then PaxFrom(rest, path)
            else if Utf8(value) then PaxFrom(rest, Some(value)) else Failure(NonUtf8PaxPath)
  {
    hide Value, Utf8, Gap, PathValue;
    var record, body := PaxRecord(digits, key, value), key + [61] + value + [10];
    var all := record + rest;
    assert all == digits + [SPACE] + (body + rest);
    GapAfter(digits, body + rest);
    assert all[..|digits|] == digits && all[|digits| + 1..|record|] == body && all[|record|..] == rest;
    assert digits[0] != PLUS;
    AsciiIsUtf8(digits);
    IsPathRecord(key, value);
    assert PaxLength(all) == Success(|record|);
  }

  /** Records are refused that have no length, one that covers no key, or one past the end. */
  lemma PaxRefused(digits: Bytes, rest: Bytes, path: Option<Bytes>)
    requires digits != [] && Digits(digits, 10) && Value(digits, 10) < U64_LIMIT
    requires Value(digits, 10) <= |digits| + 1 || |digits + [32] + rest| < Value(digits, 10)
    ensures PaxFrom(digits + [32] + rest, path) == Failure(PaxOverrun)
    ensures rest != [] && 32 !in rest ==> PaxFrom(rest, path) == Failure(MalformedPaxLength)
  {
    hide Value, Utf8, Gap, PathValue;
    var all := digits + [SPACE] + rest;
    GapAfter(digits, rest);
    assert all[..|digits|] == digits && digits[0] != PLUS;
    AsciiIsUtf8(digits);
    assert PaxLength(all) == Failure(PaxOverrun);
    if rest != [] && 32 !in rest {
      assert Gap(rest) == |rest|;
    }
  }

  /** Stream and pending name after a name record and the entry behind it: the record names exactly that entry,
      whatever its own header says, and nothing is pending afterwards. */
  lemma NameRecordNames(s: Stream, marker: Bytes, content: Bytes, name: Bytes, header: Bytes, body: Bytes)
    requires AtBoundary(s) && |marker| == BLOCK == |header| && !AllZero(marker) && !AllZero(header)
    requires marker[156] in {76, 120} && HeaderSize(marker) == Success(|content|) && content != []
    requires Override(Flag(marker), content, s.pending) == Success(Some(name))
    requires header[156] !in {76, 120, 75, 103} && HeaderSize(header) == Success(|body|)
    requires EntryFacts(header, |body|, Some(name)).Success?
    ensures RecordFed(s, marker, content).Going? && RecordFed(s, marker, content).entries == []
    ensures var named := RecordFed(s, marker, content).state;
            && named.pending == Some(name)
            && RecordFed(named, header, body).Going?
            && RecordFed(named, header, body).entries == [EntryFacts(header, |body|, Some(name)).value]
            && EntryFacts(header, |body|, Some(name)).value.name == name
            && RecordFed(named, header, body).state.pending == None
  {
    hide HeaderSize, AllZero, Override, EntryFacts, Padding;
    HeaderArms(s, marker);
    assert [] + content == content;
    NamedByPending(header, |body|, name);
    OtherOverride(Flag(header), []);
  }

  lemma NamedByPending(header: Bytes, size: nat, name: Bytes)
    requires |header| == BLOCK && EntryFacts(header, size, Some(name)).Success?
    ensures EntryFacts(header, size, Some(name)).value.name == name
  {
    hide Octal, LinkTarget;
  }

  lemma OtherOverride(flag: Byte, content: Bytes)
    requires !IsMeta(flag)
    ensures Override(flag, content, None) == Success(None)
  {
  }

  /** A long-name record holds the name up to its first zero byte, and is refused when that is no text; a pax header
      without records leaves the name pending before it. */
  lemma LongNameReads(name: Bytes, tail: Bytes, pending: Option<Bytes>)
    requires 0 !in name
    ensures Override(76, name, pending) == (if Utf8(name) then Success(Some(name)) else Failure(NonUtf8Name))
    ensures Override(76, name + [0] + tail, pending) == Override(76, name, pending)
    ensures Override(120, [], pending) == Success(pending)
  {
    hide Utf8;
    WholeText(name);
    TextBeforeNul(name, tail);
    assert name + [0] + tail == name + ([0] + tail);
  }
}
