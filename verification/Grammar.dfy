/** The key grammar: an incremental parse of accumulated keys, asked again at every key. */
module Grammar {
  import opened Wrappers

  datatype Op = Delete | Yank | Change | Indent | Dedent

  /** A compiled search is named by its pattern; which patterns compile is a parameter. */
  datatype Motion =
    | Left | Down | Up | Right
    | WordForward | WordBackward | WordEnd
    | FirstNonBlank | Underscore | LineStart | LineEnd | Column
    | FirstLine | LastLine
    | FindChar(ch: char, till: bool, backward: bool)
    | Search(pattern: string)
    | SearchBackward(pattern: string)
    | BigWordForward | BigWordBackward | BigWordEnd
    | WordEndBackward | BigWordEndBackward
    | ParagraphBackward | ParagraphForward
    | MatchPair

  datatype Object = Word | BigWord | Quote(mark: char) | Bracket(open: char, close: char)

  datatype Target =
    | Moved(motion: Motion)
    | Within(inner: bool, obj: Object)
    | Linewise
    | SurroundDelete(ch: char)
    | SurroundChange(from: char, to: char)
    | SurroundAdd(ch: char, around: Target)

  datatype Command = Command(op: Option<Op>, register: Option<char>, count: Option<nat>, target: Target, keys: string)

  type QueryError = string

  /** The error a search pattern is refused with, if it is. */
  type Refusal = string -> Option<QueryError>

  datatype Parse = Incomplete | Invalid | BadQuery(error: QueryError) | Complete(command: Command)

  // ---------------------------------------------------------------- tables

  function OpOf(c: char): Option<Op> {
    match c
    case 'd' => Some(Delete)
    case 'y' => Some(Yank)
    case 'c' => Some(Change)
    case '>' => Some(Indent)
    case '<' => Some(Dedent)
    case _ => None
  }

  function OpKey(op: Op): char {
    match op
    case Delete => 'd'
    case Yank => 'y'
    case Change => 'c'
    case Indent => '>'
    case Dedent => '<'
  }

  predicate Pairs(c: char) {
    c in {'b', '(', ')', 'B', '{', '}', 'r', '[', ']', 'a', '<', '>', '"', '\'', '`'}
  }

  function ObjectOf(c: char): Option<Object> {
    if c == 'w' then Some(Word)
    else if c == 'W' then Some(BigWord)
    else if c in {'"', '\'', '`'} then Some(Quote(c))
    else if c in {'(', ')'} then Some(Bracket('(', ')'))
    else if c in {'[', ']'} then Some(Bracket('[', ']'))
    else if c in {'{', '}'} then Some(Bracket('{', '}'))
    else if c in {'<', '>'} then Some(Bracket('<', '>'))
    else None
  }

  function SimpleMotion(rest: string): Option<Motion> {
    if rest == "h" then Some(Left)
    else if rest == "j" then Some(Down)
    else if rest == "k" then Some(Up)
    else if rest == "l" then Some(Right)
    else if rest == "w" then Some(WordForward)
    else if rest == "b" then Some(WordBackward)
    else if rest == "e" then Some(WordEnd)
    else if rest == "W" then Some(BigWordForward)
    else if rest == "B" then Some(BigWordBackward)
    else if rest == "E" then Some(BigWordEnd)
    else if rest == "%" then Some(MatchPair)
    else if rest == "0" then Some(LineStart)
    else if rest == "^" then Some(FirstNonBlank)
    else if rest == "_" then Some(Underscore)
    else if rest == "$" then Some(LineEnd)
    else if rest == "|" then Some(Column)
    else if rest == "gg" then Some(FirstLine)
    else if rest == "ge" then Some(WordEndBackward)
    else if rest == "gE" then Some(BigWordEndBackward)
    else if rest == "{" then Some(ParagraphBackward)
    else if rest == "}" then Some(ParagraphForward)
    else if rest == "G" then Some(LastLine)
    else None
  }

  // ---------------------------------------------------------------- the head: register, counts, operator

  predicate Digit(c: char) { '0' <= c <= '9' }

  predicate Alphanumeric(c: char) { Digit(c) || 'a' <= c <= 'z' || 'A' <= c <= 'Z' }

  predicate Register(c: char) { Alphanumeric(c) || c == '+' }

  function DigitRun(s: string): (n: nat)
    ensures n <= |s|
    ensures forall k :: 0 <= k < n ==> Digit(s[k])
    ensures n < |s| ==> !Digit(s[n])
  {
    if s == [] || !Digit(s[0]) then 0 else 1 + DigitRun(s[1..])
  }

  function DigitValue(c: char): nat
    requires Digit(c)
  {
    c as int - '0' as int
  }

  function Number(digits: string): nat
    requires forall k :: 0 <= k < |digits| ==> Digit(digits[k])
  {
    if digits == [] then 0
    else Number(digits[..|digits| - 1]) * 10 + DigitValue(digits[|digits| - 1])
  }

  function LeadingNumber(s: string): nat { Number(s[..DigitRun(s)]) }

  function AfterNumber(s: string): string { s[DigitRun(s)..] }

  function Max1(n: nat): nat { if n == 0 then 1 else n }

  function Combined(first: nat, second: nat): Option<nat> {
    if first == 0 && second == 0 then None else Some(Max1(first) * Max1(second))
  }

  datatype Head = Halt(parse: Parse) | Head(register: Option<char>, count: Option<nat>, op: Option<Op>, rest: string)

  /** Keys after an operator: a second count, unless the next key is a zero. */
  function SecondCount(s: string): nat { if s != [] && s[0] != '0' then LeadingNumber(s) else 0 }

  function AfterSecond(s: string): string { if s != [] && s[0] != '0' then AfterNumber(s) else s }

  /** The part of the head after the operator. */
  function HeadAfter(register: Option<char>, first: nat, op: Option<Op>, t: string): Head {
    Head(register, Combined(first, SecondCount(t)), op, AfterSecond(t))
  }

  /** The operator and what follows, given the register and the first count. */
  function HeadFrom(register: Option<char>, first: nat, s: string): Head {
    var op := if s == [] then None else OpOf(s[0]);
    HeadAfter(register, first, op, if op.Some? then s[1..] else s)
  }

  function HeadOf(keys: string): (head: Head)
    ensures head.Head? ==> |head.rest| <= |keys|
    ensures head.Halt? ==> head.parse.Incomplete? || head.parse.Invalid?
  {
    if keys == [] || keys[0] == '0' then HeadFrom(None, 0, keys)
    else if keys[0] != '"' then HeadFrom(None, LeadingNumber(keys), AfterNumber(keys))
    else if |keys| == 1 then Halt(Incomplete)
    else if !Register(keys[1]) then Halt(Invalid)
    else HeadFrom(Some(keys[1]), LeadingNumber(keys[2..]), AfterNumber(keys[2..]))
  }

  // ---------------------------------------------------------------- the target

  datatype Aim = Aimed(target: Target) | Pending | Wrong | Refused(error: QueryError)

  /** Index of the first carriage return, or the length. */
  function Return(s: string): (at: nat)
    ensures at <= |s|
    ensures forall k :: 0 <= k < at ==> s[k] != '\r'
    ensures at < |s| ==> s[at] == '\r'
  {
    if s == [] || s[0] == '\r' then 0 else 1 + Return(s[1..])
  }

  function SearchAim(refuse: Refusal, backward: bool, tail: string): Aim {
    var end := Return(tail);
    if end == |tail| then Pending
    else if end != |tail| - 1 || end == 0 then Wrong
    else match refuse(tail[..end])
      case Some(error) => Refused(error)
      case None => Aimed(Moved(if backward then SearchBackward(tail[..end]) else Search(tail[..end])))
  }

  /** `ds`, `cs` and `ys`: the keys before the mark of a `ys` must be a complete yank themselves. */
  function SurroundAim(refuse: Refusal, op: Op, tail: string): Aim
    decreases |tail|, 2
  {
    match op
    case Delete =>
      if tail == [] then Pending
      else if !Pairs(tail[0]) || |tail| > 1 then Wrong
      else Aimed(SurroundDelete(tail[0]))
    case Change =>
      if |tail| < 2 then Pending
      else if !Pairs(tail[0]) || !Pairs(tail[1]) || |tail| > 2 then Wrong
      else Aimed(SurroundChange(tail[0], tail[1]))
    case _ =>
      var motion := if tail == [] then [] else tail[..|tail| - 1];
      if motion == [] || !Pairs(tail[|tail| - 1]) then Pending
      else match Parsed(refuse, ['y'] + motion)
        case Complete(command) => Aimed(SurroundAdd(tail[|tail| - 1], command.target))
        case Incomplete => Pending
        case Invalid => Wrong
        case BadQuery(error) => Refused(error)
  }

  predicate Surrounds(op: Option<Op>) { op in {Some(Delete), Some(Change), Some(Yank)} }

  function AimOf(refuse: Refusal, op: Option<Op>, rest: string): Aim
    requires rest != []
    decreases |rest|, 0
  {
    if Surrounds(op) && rest[0] == 's' then
      SurroundAim(refuse, op.value, rest[1..])
    else if op.Some? && |rest| == 1 && rest[0] == OpKey(op.value) then Aimed(Linewise)
    else if rest[0] in {'i', 'a'} then
      if |rest| < 2 then Pending
      else if ObjectOf(rest[1]).None? || |rest| > 2 then Wrong
      else Aimed(Within(rest[0] == 'i', ObjectOf(rest[1]).value))
    else if rest[0] in {'/', '?'} then SearchAim(refuse, rest[0] == '?', rest[1..])
    else if rest[0] in {'f', 'F', 't', 'T'} then
      if |rest| < 2 then Pending
      else if |rest| > 2 then Wrong
      else Aimed(Moved(FindChar(rest[1], rest[0] in {'t', 'T'}, rest[0] in {'F', 'T'})))
    else if SimpleMotion(rest).Some? then Aimed(Moved(SimpleMotion(rest).value))
    else if rest == "g" then Pending
    else Wrong
  }

  function Parsed(refuse: Refusal, keys: string): Parse
    decreases |keys|, 1
  {
    match HeadOf(keys)
    case Halt(parse) => parse
    case Head(register, count, op, rest) =>
      if rest == [] then Incomplete
      else match AimOf(refuse, op, rest)
        case Aimed(target) => Complete(Command(op, register, count, target, keys))
        case Pending => Incomplete
        case Wrong => Invalid
        case Refused(error) => BadQuery(error)
  }

  /** The parse as it runs: an index moving over register, digits and operator. */
  method ParseKeys(refuse: Refusal, keys: string) returns (parse: Parse)
    ensures parse == Parsed(refuse, keys)
    decreases |keys|, 1
  {
    hide HeadFrom, HeadOf;
    var i, register := 0, None;
    if keys != [] && keys[0] == '"' {
      if |keys| == 1 {
        HeadCases(keys);
        return Incomplete;
      }
      if !Register(keys[1]) {
        HeadCases(keys);
        return Invalid;
      }
      i, register := 2, Some(keys[1]);
    }
    var first := 0;
    if keys != [] && keys[0] != '0' {
      first, i := ReadNumber(keys, i);
    }
    HeadCases(keys);
    hide Register, LeadingNumber, AfterNumber;
    var op, count, end := ReadOperator(register, first, keys, i);
    var rest := keys[end..];
    if rest == [] {
      return Incomplete;
    }
    hide AimOf;
    var aim := ParseTarget(refuse, op, rest);
    match aim
    case Aimed(target) => return Complete(Command(op, register, count, target, keys));
    case Pending => return Incomplete;
    case Wrong => return Invalid;
    case Refused(error) => return BadQuery(error);
  }

  /** The keys after register, counts and operator. */
  method ParseTarget(refuse: Refusal, op: Option<Op>, rest: string) returns (aim: Aim)
    requires rest != []
    ensures aim == AimOf(refuse, op, rest)
    decreases |rest|, 0
  {
    hide SurroundAim, SearchAim, Parsed;
    if rest[0] == 's' && (op == Some(Delete) || op == Some(Change) || op == Some(Yank)) {
      aim := ParseSurround(refuse, op.value, rest[1..]);
      return;
    }
    if op.Some? && |rest| == 1 && rest[0] == OpKey(op.value) {
      return Aimed(Linewise);
    }
    if rest[0] == 'i' || rest[0] == 'a' {
      if |rest| < 2 {
        return Pending;
      }
      var obj := ObjectOf(rest[1]);
      return if obj.None? || |rest| > 2 then Wrong else Aimed(Within(rest[0] == 'i', obj.value));
    }
    if rest[0] == '/' || rest[0] == '?' {
      aim := ParseSearch(refuse, rest[0] == '?', rest[1..]);
      return;
    }
    if rest[0] in {'f', 'F', 't', 'T'} {
      if |rest| < 2 {
        return Pending;
      }
      if |rest| > 2 {
        return Wrong;
      }
      return Aimed(Moved(FindChar(rest[1], rest[0] == 't' || rest[0] == 'T', rest[0] == 'F' || rest[0] == 'T')));
    }
    var motion := SimpleMotion(rest);
    return if motion.Some? then Aimed(Moved(motion.value)) else if rest == "g" then Pending else Wrong;
  }

  method ParseSearch(refuse: Refusal, backward: bool, tail: string) returns (aim: Aim)
    ensures aim == SearchAim(refuse, backward, tail)
  {
    var end := 0;
    while end < |tail| && tail[end] != '\r'
      invariant 0 <= end <= |tail| && forall k :: 0 <= k < end ==> tail[k] != '\r'
    {
      end := end + 1;
    }
    assert end == Return(tail);
    if end == |tail| {
      return Pending;
    }
    if end != |tail| - 1 || end == 0 {
      return Wrong;
    }
    var error := refuse(tail[..end]);
    if error.Some? {
      return Refused(error.value);
    }
    return Aimed(Moved(if backward then SearchBackward(tail[..end]) else Search(tail[..end])));
  }

  method ParseSurround(refuse: Refusal, op: Op, tail: string) returns (aim: Aim)
    requires Surrounds(Some(op))
    ensures aim == SurroundAim(refuse, op, tail)
    decreases |tail|, 2
  {
    hide Parsed;
    match op
    case Delete =>
      if tail == [] {
        return Pending;
      }
      return if !Pairs(tail[0]) || |tail| > 1 then Wrong else Aimed(SurroundDelete(tail[0]));
    case Change =>
      if |tail| < 2 {
        return Pending;
      }
      return if !Pairs(tail[0]) || !Pairs(tail[1]) || |tail| > 2 then Wrong
        else Aimed(SurroundChange(tail[0], tail[1]));
    case Yank =>
      if |tail| < 2 || !Pairs(tail[|tail| - 1]) {
        return Pending;
      }
      var inner := ParseKeys(refuse, ['y'] + tail[..|tail| - 1]);
      match inner
      case Complete(command) => return Aimed(SurroundAdd(tail[|tail| - 1], command.target));
      case Incomplete => return Pending;
      case Invalid => return Wrong;
      case BadQuery(error) => return Refused(error);
  }

  lemma HeadCases(keys: string)
    ensures HeadOf(keys) ==
            if keys == [] || keys[0] == '0' then HeadFrom(None, 0, keys[0..])
            else if keys[0] != '"' then HeadFrom(None, LeadingNumber(keys[0..]), AfterNumber(keys[0..]))
            else if |keys| == 1 then Halt(Incomplete)
            else if !Register(keys[1]) then Halt(Invalid)
            else HeadFrom(Some(keys[1]), LeadingNumber(keys[2..]), AfterNumber(keys[2..]))
  {
    hide HeadFrom, LeadingNumber, AfterNumber, Register;
    assert keys[0..] == keys;
  }

  method ReadOperator(register: Option<char>, first: nat, keys: string, start: nat)
    returns (op: Option<Op>, count: Option<nat>, end: nat)
    requires start <= |keys|
    ensures end <= |keys| && HeadFrom(register, first, keys[start..]) == Head(register, count, op, keys[end..])
  {
    end := start;
    op := if end < |keys| then OpOf(keys[end]) else None;
    if op.Some? {
      end := end + 1;
    }
    hide OpOf, LeadingNumber, AfterNumber;
    var second := 0;
    if end < |keys| && keys[end] != '0' {
      second, end := ReadNumber(keys, end);
    }
    count := Combined(first, second);
  }

  method ReadNumber(keys: string, start: nat) returns (number: nat, end: nat)
    requires start <= |keys|
    ensures start <= end <= |keys|
    ensures number == LeadingNumber(keys[start..]) && keys[end..] == AfterNumber(keys[start..])
  {
    number, end := 0, start;
    while end < |keys| && Digit(keys[end])
      invariant start <= end <= |keys|
      invariant forall k :: start <= k < end ==> Digit(keys[k])
      invariant number == Number(keys[start..end])
    {
      assert keys[start..end + 1][..end - start] == keys[start..end];
      number := number * 10 + DigitValue(keys[end]);
      end := end + 1;
    }
    RunIs(keys[start..], end - start);
    assert keys[start..][..end - start] == keys[start..end] && keys[start..][end - start..] == keys[end..];
  }

  lemma {:induction false} RunIs(s: string, n: nat)
    requires n <= |s| && (forall k :: 0 <= k < n ==> Digit(s[k])) && (n < |s| ==> !Digit(s[n]))
    ensures DigitRun(s) == n
  {
    if n == 0 {
    } else {
      RunIs(s[1..], n - 1);
    }
  }

  // ---------------------------------------------------------------- prefixes

  lemma RunOfPrefix(s: string, n: nat)
    requires n <= |s|
    ensures DigitRun(s[..n]) == if n <= DigitRun(s) then n else DigitRun(s)
  {
    RunIs(s[..n], if n <= DigitRun(s) then n else DigitRun(s));
  }

  /** What is left of a cut string after its number. */
  lemma NumberOfPrefix(s: string, n: nat)
    requires n <= |s|
    ensures n <= DigitRun(s) ==> AfterNumber(s[..n]) == []
    ensures n > DigitRun(s) ==>
              LeadingNumber(s[..n]) == LeadingNumber(s) && AfterNumber(s[..n]) == AfterNumber(s)[..n - DigitRun(s)]
  {
    hide DigitRun, Number, Digit;
    RunOfPrefix(s, n);
    if n > DigitRun(s) {
      SliceOfPrefix(s, n, DigitRun(s));
    }
  }

  lemma SliceOfPrefix(s: string, n: nat, d: nat)
    requires d <= n <= |s|
    ensures s[..n][..d] == s[..d] && s[..n][d..] == s[d..][..n - d]
  {
  }

  /** Cut inside the head nothing is left to aim at; cut later the head is the same. */
  predicate CutHead(whole: Head, cut: Head, lost: nat) {
    whole.Head?
    && (lost >= |whole.rest| ==> cut == Halt(Incomplete) || (cut.Head? && cut.rest == []))
    && (lost < |whole.rest| ==> cut == whole.(rest := whole.rest[..|whole.rest| - lost]))
  }

  lemma SecondOfPrefix(t: string, m: nat)
    requires m <= |t|
    ensures m <= |t| - |AfterSecond(t)| ==> AfterSecond(t[..m]) == []
    ensures m > |t| - |AfterSecond(t)| ==>
              SecondCount(t[..m]) == SecondCount(t)
                && AfterSecond(t[..m]) == AfterSecond(t)[..m - (|t| - |AfterSecond(t)|)]
  {
    NumberOfPrefix(t, m);
  }

  lemma HeadAfterPrefix(register: Option<char>, first: nat, op: Option<Op>, t: string, m: nat)
    requires m <= |t|
    ensures CutHead(HeadAfter(register, first, op, t), HeadAfter(register, first, op, t[..m]), |t| - m)
  {
    SecondOfPrefix(t, m);
    hide SecondCount, AfterSecond, Combined;
  }

  lemma HeadFromPrefix(register: Option<char>, first: nat, s: string, n: nat)
    requires n <= |s|
    ensures CutHead(HeadFrom(register, first, s), HeadFrom(register, first, s[..n]), |s| - n)
  {
    hide OpOf, Combined, SecondCount, AfterSecond, CutHead;
    if n == 0 {
      CutAtStart(register, first, s);
      assert s[..0] == [];
    } else {
      var op := OpOf(s[0]);
      if op.Some? {
        assert s[..n][1..] == s[1..][..n - 1];
        HeadAfterPrefix(register, first, op, s[1..], n - 1);
      } else {
        HeadAfterPrefix(register, first, op, s, n);
      }
      assert s[..n][0] == s[0];
    }
  }

  lemma CutAtStart(register: Option<char>, first: nat, s: string)
    ensures CutHead(HeadFrom(register, first, s), HeadFrom(register, first, []), |s|)
  {
    hide OpOf, Combined, LeadingNumber;
  }

  lemma HeadPrefix(keys: string, n: nat)
    requires HeadOf(keys).Head? && n <= |keys|
    ensures CutHead(HeadOf(keys), HeadOf(keys[..n]), |keys| - n)
  {
    hide HeadFrom;
    if n == 0 {
      assert keys[..n] == [];
      HeadFromNothing();
    } else if keys[0] == '0' {
      HeadFromPrefix(None, 0, keys, n);
    } else if keys[0] != '"' {
      AfterFirstPrefix(None, keys, n);
    } else if n >= 2 {
      assert keys[..n][2..] == keys[2..][..n - 2];
      AfterFirstPrefix(Some(keys[1]), keys[2..], n - 2);
    } else {
      HeadFromShrinks(Some(keys[1]), LeadingNumber(keys[2..]), AfterNumber(keys[2..]));
    }
  }

  lemma HeadFromNothing()
    ensures HeadFrom(None, 0, []).Head? && HeadFrom(None, 0, []).rest == []
  {
  }

  lemma HeadFromShrinks(register: Option<char>, first: nat, s: string)
    ensures HeadFrom(register, first, s).Head? && |HeadFrom(register, first, s).rest| <= |s|
    ensures s == [] ==> HeadFrom(register, first, s).rest == []
  {
  }

  lemma AfterFirstPrefix(register: Option<char>, s: string, n: nat)
    requires n <= |s|
    ensures CutHead(HeadFrom(register, LeadingNumber(s), AfterNumber(s)),
                    HeadFrom(register, LeadingNumber(s[..n]), AfterNumber(s[..n])), |s| - n)
  {
    hide HeadFrom;
    NumberOfPrefix(s, n);
    HeadFromShrinks(register, LeadingNumber(s), AfterNumber(s));
    if n <= DigitRun(s) {
      HeadFromShrinks(register, LeadingNumber(s[..n]), []);
    } else {
      HeadFromPrefix(register, LeadingNumber(s), AfterNumber(s), n - DigitRun(s));
    }
  }

  /** A target, or a search for a pattern that is refused. */
  predicate Settled(aim: Aim) { aim.Aimed? || aim.Refused? }

  predicate Answered(parse: Parse) { parse.Complete? || parse.BadQuery? }

  lemma {:induction false} AimPrefix(refuse: Refusal, op: Option<Op>, rest: string, n: nat)
    requires 0 < n < |rest| && Settled(AimOf(refuse, op, rest))
    ensures AimOf(refuse, op, rest[..n]) == Pending
    decreases |rest|, 0
  {
    hide SurroundAim, SimpleMotion, ObjectOf;
    assert rest[..n][0] == rest[0];
    if Surrounds(op) && rest[0] == 's' {
      assert rest[..n][1..] == rest[1..][..n - 1];
      SurroundPrefix(refuse, op.value, rest[1..], n - 1);
    } else if rest[0] in {'/', '?'} {
      assert rest[..n][1..] == rest[1..][..n - 1];
      ReturnOfPrefix(rest[1..], n - 1);
    } else if rest[0] !in {'i', 'a', 'f', 'F', 't', 'T'} {
      LongMotion(rest, n);
    }
  }

  /** The motions of two keys start with a key that is none by itself. */
  lemma LongMotion(rest: string, n: nat)
    requires 0 < n < |rest| && SimpleMotion(rest).Some?
    ensures rest[..n] == "g" && SimpleMotion(rest[..n]).None?
  {
  }

  lemma ReturnOfPrefix(s: string, n: nat)
    requires n <= Return(s)
    ensures Return(s[..n]) == n
  {
  }

  lemma {:induction false} SurroundPrefix(refuse: Refusal, op: Op, tail: string, n: nat)
    requires n < |tail| && Settled(SurroundAim(refuse, op, tail))
    ensures op.Delete? || op.Change? || op.Yank? ==> SurroundAim(refuse, op, tail[..n]) == Pending
    decreases |tail|, 2
  {
    if op.Yank? && n >= 2 {
      var motion := tail[..|tail| - 1];
      assert tail[..n][..n - 1] == tail[..n - 1];
      assert (['y'] + motion)[..n] == ['y'] + tail[..n - 1];
      PrefixIsIncomplete(refuse, ['y'] + motion, n);
    }
  }

  /** The commands are a prefix-free language: whatever keys lead to a complete command, or to one with a bad
      pattern, every shorter piece of them is incomplete. */
  lemma {:induction false} PrefixIsIncomplete(refuse: Refusal, keys: string, n: nat)
    requires Answered(Parsed(refuse, keys)) && n < |keys|
    ensures Parsed(refuse, keys[..n]) == Incomplete
    decreases |keys|, 1
  {
    hide HeadOf, AimOf;
    HeadPrefix(keys, n);
    var Head(register, count, op, rest) := HeadOf(keys);
    var lost := |keys| - n;
    if lost < |rest| {
      AimPrefix(refuse, op, rest, |rest| - lost);
    }
  }

  /** Keys once answered, invalid ones too, never become a command by typing on. */
  lemma RefusalIsFinal(refuse: Refusal, keys: string, more: string)
    requires more != [] && !Parsed(refuse, keys).Incomplete?
    ensures !Answered(Parsed(refuse, keys + more))
  {
    if Answered(Parsed(refuse, keys + more)) {
      assert (keys + more)[..|keys|] == keys;
      PrefixIsIncomplete(refuse, keys + more, |keys|);
    }
  }

  // ---------------------------------------------------------------- key by key

  /** The answers given while keys arrive one by one, and what is still pending. */
  function Typed(refuse: Refusal, pending: string, keys: string): (seq<Parse>, string)
    decreases |keys|
  {
    if keys == [] then ([], pending)
    else
      var held := pending + [keys[0]];
      match Parsed(refuse, held)
      case Incomplete => Typed(refuse, held, keys[1..])
      case answer =>
        var (answers, left) := Typed(refuse, [], keys[1..]);
        ([answer] + answers, left)
  }

  lemma {:induction false} OneCommandTyped(refuse: Refusal, command: string, typed: nat, more: string)
    requires Parsed(refuse, command).Complete? && typed < |command|
    ensures var (answers, left) := Typed(refuse, [], more);
            Typed(refuse, command[..typed], command[typed..] + more) == ([Parsed(refuse, command)] + answers, left)
    decreases |command| - typed
  {
    hide Parsed;
    var keys := command[typed..] + more;
    assert command[..typed] + [keys[0]] == command[..typed + 1];
    assert keys[1..] == command[typed + 1..] + more;
    if typed + 1 < |command| {
      PrefixIsIncomplete(refuse, command, typed + 1);
      OneCommandTyped(refuse, command, typed + 1, more);
    } else {
      assert command[..typed + 1] == command && command[typed + 1..] + more == more;
    }
  }

  predicate AllComplete(refuse: Refusal, commands: seq<string>) {
    forall k :: 0 <= k < |commands| ==> Parsed(refuse, commands[k]).Complete?
  }

  function Answers(refuse: Refusal, commands: seq<string>): seq<Parse> {
    if commands == [] then [] else [Parsed(refuse, commands[0])] + Answers(refuse, commands[1..])
  }

  lemma NothingIsIncomplete(refuse: Refusal)
    ensures Parsed(refuse, []) == Incomplete
  {
  }

  /** Typed one key at a time, a text of commands is read as exactly those commands, none cut short
      and none running into the next. */
  lemma {:induction false} CommandsTyped(refuse: Refusal, commands: seq<string>)
    requires AllComplete(refuse, commands)
    ensures Typed(refuse, [], Flatten(commands)) == (Answers(refuse, commands), [])
    decreases |commands|
  {
    hide Parsed;
    if commands == [] {
    } else {
      NothingIsIncomplete(refuse);
      assert commands[0][..0] == [] && commands[0][0..] == commands[0];
      OneCommandTyped(refuse, commands[0], 0, Flatten(commands[1..]));
      CommandsTyped(refuse, commands[1..]);
    }
  }

  /** A text is a sequence of commands in at most one way. */
  lemma {:induction false} OneReading(refuse: Refusal, a: seq<string>, b: seq<string>)
    requires AllComplete(refuse, a) && AllComplete(refuse, b) && Flatten(a) == Flatten(b)
    ensures a == b
  {
    CommandsTyped(refuse, a);
    CommandsTyped(refuse, b);
    AnswersTell(refuse, a, b);
  }

  lemma {:induction false} AnswersTell(refuse: Refusal, a: seq<string>, b: seq<string>)
    requires AllComplete(refuse, a) && AllComplete(refuse, b) && Answers(refuse, a) == Answers(refuse, b)
    ensures a == b
    decreases |a|
  {
    hide Parsed;
    if a == [] || b == [] {
    } else {
      KeysKept(refuse, a[0]);
      KeysKept(refuse, b[0]);
      FirstAnswer(refuse, a);
      FirstAnswer(refuse, b);
      hide Answers;
      AnswersTell(refuse, a[1..], b[1..]);
      assert a == [a[0]] + a[1..] && b == [b[0]] + b[1..];
    }
  }

  lemma FirstAnswer(refuse: Refusal, commands: seq<string>)
    requires commands != []
    ensures Answers(refuse, commands) != []
    ensures Answers(refuse, commands)[0] == Parsed(refuse, commands[0])
    ensures Answers(refuse, commands)[1..] == Answers(refuse, commands[1..])
  {
    hide Parsed;
  }

  lemma KeysKept(refuse: Refusal, keys: string)
    requires Parsed(refuse, keys).Complete?
    ensures Parsed(refuse, keys).command.keys == keys
  {
  }
}
