/** Commands written as keys, and the exact set of commands the grammar can read. */
module GrammarSpelling {
  import opened Wrappers
  import opened Grammar

  // ---------------------------------------------------------------- spelling

  function DigitOf(n: nat): (c: char)
    requires n < 10
    ensures Digit(c) && DigitValue(c) == n && (c == '0' <==> n == 0)
  {
    ('0' as int + n) as char
  }

  function Decimal(n: nat): string {
    if n < 10 then [DigitOf(n)] else Decimal(n / 10) + [DigitOf(n % 10)]
  }

  function MotionKeys(motion: Motion): string {
    match motion
    case Left => "h"
    case Down => "j"
    case Up => "k"
    case Right => "l"
    case WordForward => "w"
    case WordBackward => "b"
    case WordEnd => "e"
    case FirstNonBlank => "^"
    case Underscore => "_"
    case LineStart => "0"
    case LineEnd => "$"
    case Column => "|"
    case FirstLine => "gg"
    case LastLine => "G"
    case FindChar(ch, till, backward) =>
      [if till then if backward then 'T' else 't' else if backward then 'F' else 'f', ch]
    case Search(pattern) => ['/'] + (pattern + ['\r'])
    case SearchBackward(pattern) => ['?'] + (pattern + ['\r'])
    case BigWordForward => "W"
    case BigWordBackward => "B"
    case BigWordEnd => "E"
    case WordEndBackward => "ge"
    case BigWordEndBackward => "gE"
    case ParagraphBackward => "{"
    case ParagraphForward => "}"
    case MatchPair => "%"
  }

  function ObjectKey(obj: Object): char {
    match obj
    case Word => 'w'
    case BigWord => 'W'
    case Quote(mark) => mark
    case Bracket(open, _) => open
  }

  function TargetKeys(op: Option<Op>, target: Target): string
    decreases target
  {
    match target
    case Moved(motion) => MotionKeys(motion)
    case Within(inner, obj) => [if inner then 'i' else 'a', ObjectKey(obj)]
    case Linewise => if op.Some? then [OpKey(op.value)] else []
    case SurroundDelete(ch) => ['s', ch]
    case SurroundChange(from, to) => ['s', from, to]
    case SurroundAdd(ch, around) => ['s'] + (TargetKeys(Some(Yank), around) + [ch])
  }

  /** The keys that name an object: a bracket pair by either of its two, nothing for marks that are no pair. */
  function MarksOf(obj: Object): set<char> {
    match obj
    case Word => {'w'}
    case BigWord => {'W'}
    case Quote(mark) => if mark in {'"', '\'', '`'} then {mark} else {}
    case Bracket(open, close) =>
      if (open, close) in {('(', ')'), ('[', ']'), ('{', '}'), ('<', '>')} then {open, close} else {}
  }

  /** The quotes and brackets, and a letter for each kind of bracket. */
  function SurroundMarks(): set<char> {
    MarksOf(Quote('"')) + MarksOf(Quote('\'')) + MarksOf(Quote('`'))
    + MarksOf(Bracket('(', ')')) + MarksOf(Bracket('[', ']')) + MarksOf(Bracket('{', '}')) + MarksOf(Bracket('<', '>'))
    + {'b', 'r', 'B', 'a'}
  }

  /** A pattern that compiles, an obj that exists, a surround of its own operator. */
  predicate Fits(refuse: Refusal, op: Option<Op>, target: Target) {
    match target
    case Moved(Search(pattern)) => Searchable(refuse, pattern)
    case Moved(SearchBackward(pattern)) => Searchable(refuse, pattern)
    case Moved(_) => true
    case Within(_, obj) => MarksOf(obj) != {}
    case Linewise => op.Some?
    case SurroundDelete(ch) => op == Some(Delete) && Pairs(ch)
    case SurroundChange(from, to) => op == Some(Change) && Pairs(from) && Pairs(to)
    case SurroundAdd(ch, around) => op == Some(Yank) && Pairs(ch) && Fits(refuse, op, around)
  }

  predicate Searchable(refuse: Refusal, pattern: string) {
    pattern != [] && '\r' !in pattern && refuse(pattern).None?
  }

  /** Counts may stand before the operator and after it. */
  datatype Spelling = Spelling(register: Option<char>, first: Option<nat>, op: Option<Op>, second: Option<nat>,
                               target: Target)

  function CountKeys(count: Option<nat>): string { if count.Some? then Decimal(count.value) else [] }

  function OpKeys(op: Option<Op>): string { if op.Some? then [OpKey(op.value)] else [] }

  function RegisterKeys(register: Option<char>): string { if register.Some? then ['"', register.value] else [] }

  function AfterCount(sp: Spelling): string {
    OpKeys(sp.op) + (CountKeys(sp.second) + TargetKeys(sp.op, sp.target))
  }

  function Keys(sp: Spelling): string {
    RegisterKeys(sp.register) + (CountKeys(sp.first) + AfterCount(sp))
  }

  predicate WellSpelled(refuse: Refusal, sp: Spelling) {
    && (sp.register.Some? ==> Register(sp.register.value))
    && (sp.first.Some? ==> sp.first.value > 0) && (sp.second.Some? ==> sp.second.value > 0)
    && (sp.second.Some? ==> sp.op.Some?)
    && Fits(refuse, sp.op, sp.target)
  }

  /** The line-start key right behind a count is one more digit of it; and a register without an
      operator always starts one. */
  predicate ZeroIsSwallowed(sp: Spelling) {
    sp.target == Moved(LineStart) && (sp.second.Some? || (sp.op.None? && (sp.first.Some? || sp.register.Some?)))
  }

  function CountOf(sp: Spelling): Option<nat> {
    match (sp.first, sp.second)
    case (None, None) => None
    case (Some(a), None) => Some(a)
    case (None, Some(b)) => Some(b)
    case (Some(a), Some(b)) => Some(a * b)
  }

  // ---------------------------------------------------------------- numbers read back

  lemma {:induction false} DecimalReads(n: nat)
    ensures var d := Decimal(n);
            && d != [] && (forall k :: 0 <= k < |d| ==> Digit(d[k])) && Number(d) == n && (n > 0 ==> d[0] != '0')
  {
    var d := Decimal(n);
    if n >= 10 {
      DecimalReads(n / 10);
      assert d[..|d| - 1] == Decimal(n / 10);
    } else {
      assert d[..0] == [] && Number(d[..0]) == 0;
    }
  }

  /** A count in front of other keys is read and dropped. */
  lemma CountReads(count: Option<nat>, rest: string)
    requires rest != [] ==> !Digit(rest[0])
    ensures LeadingNumber(CountKeys(count) + rest) == (if count.Some? then count.value else 0)
    ensures AfterNumber(CountKeys(count) + rest) == rest
  {
    var d := CountKeys(count);
    if count.Some? {
      DecimalReads(count.value);
    }
    RunIs(d + rest, |d|);
    assert (d + rest)[..|d|] == d && (d + rest)[|d|..] == rest;
  }

  lemma SwallowedZero(count: Option<nat>)
    ensures AfterNumber(CountKeys(count) + "0") == []
  {
    var d := CountKeys(count);
    if count.Some? {
      DecimalReads(count.value);
    }
    RunIs(d + "0", |d| + 1);
  }

  // ---------------------------------------------------------------- targets read back

  predicate Starts(c: char) { c != '"' && (Digit(c) ==> c == '0') }

  predicate Simple(motion: Motion) {
    !motion.FindChar? && !motion.Search? && !motion.SearchBackward?
  }

  lemma SimpleReads(motion: Motion)
    requires Simple(motion)
    ensures var keys := MotionKeys(motion);
            && keys != [] && SimpleMotion(keys) == Some(motion) && Starts(keys[0]) && OpOf(keys[0]).None?
            && keys[0] !in {'s', 'i', 'a', '/', '?', 'f', 'F', 't', 'T'} && (keys[0] == '0' <==> motion.LineStart?)
  {
  }

  lemma MotionReads(refuse: Refusal, op: Option<Op>, motion: Motion)
    requires Fits(refuse, op, Moved(motion))
    ensures var keys := MotionKeys(motion);
            && keys != [] && Starts(keys[0]) && OpOf(keys[0]).None? && (keys[0] == '0' <==> motion.LineStart?)
            && AimOf(refuse, op, keys) == Aimed(Moved(motion))
  {
    hide AimOf, SimpleMotion;
    if Simple(motion) {
      SimpleReads(motion);
      SimpleAims(refuse, op, motion);
    } else if motion.FindChar? {
      FindAims(refuse, op, motion);
    } else {
      SearchAims(refuse, op, motion.pattern, motion.SearchBackward?);
    }
  }

  lemma SimpleAims(refuse: Refusal, op: Option<Op>, motion: Motion)
    requires Simple(motion)
    ensures MotionKeys(motion) != [] && AimOf(refuse, op, MotionKeys(motion)) == Aimed(Moved(motion))
  {
    SimpleReads(motion);
    hide MotionKeys, OpOf, SurroundAim, SimpleMotion;
    if op.Some? { OpReads(op.value); }
  }

  lemma FindAims(refuse: Refusal, op: Option<Op>, motion: Motion)
    requires motion.FindChar?
    ensures AimOf(refuse, op, MotionKeys(motion)) == Aimed(Moved(motion))
  {
    hide SurroundAim, SimpleMotion;
  }

  lemma SearchAims(refuse: Refusal, op: Option<Op>, pattern: string, backward: bool)
    requires Searchable(refuse, pattern)
    ensures var mark := if backward then '?' else '/';
            AimOf(refuse, op, [mark] + (pattern + ['\r']))
            == Aimed(Moved(if backward then SearchBackward(pattern) else Search(pattern)))
  {
    hide SurroundAim, SimpleMotion;
    var tail := pattern + ['\r'];
    assert ([if backward then '?' else '/'] + tail)[1..] == tail;
    ReturnIs(tail, |pattern|);
    assert tail[..|pattern|] == pattern;
  }

  lemma ReturnIs(s: string, n: nat)
    requires n < |s| && s[n] == '\r' && forall k :: 0 <= k < n ==> s[k] != '\r'
    ensures Return(s) == n
  {
  }

  /** A yank with nothing before its target. */
  lemma YankHead(t: string)
    requires t != [] && Starts(t[0])
    ensures HeadOf(['y'] + t) == Head(None, None, Some(Yank), t)
  {
    CountReads(None, ['y'] + t);
    assert CountKeys(None) + (['y'] + t) == ['y'] + t;
    SecondReads(None, t);
  }

  lemma SecondReads(count: Option<nat>, t: string)
    requires t != [] && (if count.Some? then !Digit(t[0]) && count.value > 0 else Starts(t[0]))
    ensures SecondCount(CountKeys(count) + t) == (if count.Some? then count.value else 0)
    ensures AfterSecond(CountKeys(count) + t) == t
  {
    if count.Some? {
      DecimalReads(count.value);
      CountReads(count, t);
    } else {
      assert CountKeys(count) + t == t;
      if t[0] != '0' {
        CountReads(count, t);
      }
    }
  }

  lemma {:induction false} TargetReads(refuse: Refusal, op: Option<Op>, target: Target)
    requires Fits(refuse, op, target)
    ensures var keys := TargetKeys(op, target);
            && keys != [] && Starts(keys[0]) && (op.None? ==> OpOf(keys[0]).None?)
            && (keys[0] == '0' <==> target == Moved(LineStart))
            && AimOf(refuse, op, keys) == Aimed(target)
    decreases target
  {
    hide HeadOf;
    match target
    case Moved(motion) => MotionReads(refuse, op, motion);
    case SurroundAdd(ch, around) =>
      var t := TargetKeys(op, around);
      TargetReads(refuse, op, around);
      YankHead(t);
      var tail := t + [ch];
      assert TargetKeys(op, target)[1..] == tail;
      assert tail[..|tail| - 1] == t;
      SurroundReads(refuse, t, around, ch);
    case _ =>
  }

  lemma SurroundReads(refuse: Refusal, t: string, around: Target, ch: char)
    requires t != [] && Pairs(ch) && HeadOf(['y'] + t) == Head(None, None, Some(Yank), t)
    requires AimOf(refuse, Some(Yank), t) == Aimed(around)
    ensures SurroundAim(refuse, Yank, t + [ch]) == Aimed(SurroundAdd(ch, around))
  {
    hide AimOf, HeadOf;
    assert (t + [ch])[..|t + [ch]| - 1] == t;
    assert Parsed(refuse, ['y'] + t).Complete?;
  }

  // ---------------------------------------------------------------- commands read back

  lemma BodyReads(refuse: Refusal, sp: Spelling, first: nat)
    requires WellSpelled(refuse, sp) && !(sp.target == Moved(LineStart) && sp.second.Some?)
    ensures HeadFrom(sp.register, first, AfterCount(sp))
         == Head(sp.register, Combined(first, if sp.second.Some? then sp.second.value else 0), sp.op,
                 TargetKeys(sp.op, sp.target))
  {
    hide AimOf, Fits, TargetKeys, LeadingNumber, AfterNumber;
    TargetReads(refuse, sp.op, sp.target);
    var t := TargetKeys(sp.op, sp.target);
    SecondReads(sp.second, t);
    if sp.op.Some? {
      OpReads(sp.op.value);
      assert AfterCount(sp)[1..] == CountKeys(sp.second) + t;
    } else {
      assert AfterCount(sp) == t && CountKeys(None) + t == t;
    }
  }

  lemma OpReads(op: Op)
    ensures OpOf(OpKey(op)) == Some(op) && !Digit(OpKey(op)) && OpKey(op) != '"'
  {
  }

  /** Where the keys after the first count start. */
  lemma BodyStarts(refuse: Refusal, sp: Spelling)
    requires WellSpelled(refuse, sp)
    ensures var body := AfterCount(sp);
            && body != [] && Starts(body[0])
            && (body[0] == '0' ==> sp.op.None? && sp.target == Moved(LineStart) && body == "0")
  {
    hide AimOf, Fits;
    TargetReads(refuse, sp.op, sp.target);
    if sp.op.Some? {
      OpReads(sp.op.value);
    } else {
      assert AfterCount(sp) == TargetKeys(sp.op, sp.target);
    }
  }

  lemma FrontReads(refuse: Refusal, sp: Spelling)
    requires WellSpelled(refuse, sp)
    requires !(sp.op.None? && sp.target == Moved(LineStart) && (sp.first.Some? || sp.register.Some?))
    ensures HeadOf(Keys(sp)) == HeadFrom(sp.register, if sp.first.Some? then sp.first.value else 0, AfterCount(sp))
  {
    hide HeadFrom, AfterCount, LeadingNumber, AfterNumber, Fits;
    var body := AfterCount(sp);
    BodyStarts(refuse, sp);
    var front := CountKeys(sp.first) + body;
    if sp.register.Some? {
      CountReads(sp.first, body);
      assert Keys(sp)[2..] == front;
    } else {
      assert Keys(sp) == front;
      if sp.first.Some? {
        DecimalReads(sp.first.value);
        CountReads(sp.first, body);
      } else {
        assert front == body;
        if body[0] != '0' {
          CountReads(None, body);
        }
      }
    }
  }

  /** A well-spelled command is read back as itself, register, counts, operator and target, unless its
      line-start key is swallowed by a count: then the keys are still incomplete. */
  lemma SpellingReads(refuse: Refusal, sp: Spelling)
    requires WellSpelled(refuse, sp)
    ensures Parsed(refuse, Keys(sp)) ==
            if ZeroIsSwallowed(sp) then Incomplete
            else Complete(Command(sp.op, sp.register, CountOf(sp), sp.target, Keys(sp)))
  {
    hide AimOf, Fits, HeadOf, HeadFrom, TargetKeys, Keys, AfterCount;
    if ZeroIsSwallowed(sp) {
      SwallowedIsIncomplete(refuse, sp);
    } else {
      FrontReads(refuse, sp);
      BodyReads(refuse, sp, if sp.first.Some? then sp.first.value else 0);
      TargetReads(refuse, sp.op, sp.target);
      CountsCombine(sp);
    }
  }

  /** After a register the line-start key waits for more. */
  lemma RegisterThenZero(refuse: Refusal)
    ensures Parsed(refuse, "\"a0") == Incomplete
  {
    var sp := Spelling(Some('a'), None, None, None, Moved(LineStart));
    SpellingReads(refuse, sp);
    assert Keys(sp) == "\"a0";
  }

  lemma CountsCombine(sp: Spelling)
    requires (sp.first.Some? ==> sp.first.value > 0) && (sp.second.Some? ==> sp.second.value > 0)
    ensures CountOf(sp) == Combined(if sp.first.Some? then sp.first.value else 0,
                                    if sp.second.Some? then sp.second.value else 0)
  {
  }

  lemma SwallowedIsIncomplete(refuse: Refusal, sp: Spelling)
    requires WellSpelled(refuse, sp) && ZeroIsSwallowed(sp)
    ensures Parsed(refuse, Keys(sp)) == Incomplete
  {
    hide AimOf, Fits, AfterNumber, LeadingNumber;
    if sp.op.Some? {
      SwallowedZero(sp.second);
      DecimalReads(sp.second.value);
      OpReads(sp.op.value);
      FrontReads(refuse, sp);
      assert AfterCount(sp)[1..] == CountKeys(sp.second) + "0";
    } else {
      SwallowedZero(sp.first);
      assert AfterCount(sp) == "0";
      if sp.register.Some? {
        assert Keys(sp)[2..] == CountKeys(sp.first) + "0";
      } else {
        DecimalReads(sp.first.value);
        assert Keys(sp) == CountKeys(sp.first) + "0";
      }
    }
  }

  // ---------------------------------------------------------------- and nothing else

  lemma {:induction false} AimFits(refuse: Refusal, op: Option<Op>, rest: string)
    requires rest != [] && AimOf(refuse, op, rest).Aimed?
    ensures Fits(refuse, op, AimOf(refuse, op, rest).target)
    ensures AimOf(refuse, op, rest).target == Moved(LineStart) ==> rest == "0"
    decreases |rest|, 0
  {
    if Surrounds(op) && rest[0] == 's' {
      SurroundFits(refuse, op.value, rest[1..]);
    }
  }

  lemma {:induction false} SurroundFits(refuse: Refusal, op: Op, tail: string)
    requires SurroundAim(refuse, op, tail).Aimed? && (op.Delete? || op.Change? || op.Yank?)
    ensures Fits(refuse, Some(op), SurroundAim(refuse, op, tail).target) && !SurroundAim(refuse, op, tail).target.Moved?
    decreases |tail|, 2
  {
    hide HeadOf;
    if op.Yank? {
      var motion := tail[..|tail| - 1];
      YankOp(motion);
      AimFits(refuse, Some(Yank), HeadOf(['y'] + motion).rest);
    }
  }

  lemma YankOp(motion: string)
    ensures HeadOf(['y'] + motion).Head? && HeadOf(['y'] + motion).op == Some(Yank)
              && |HeadOf(['y'] + motion).rest| <= |motion|
  {
    RunIs(['y'] + motion, 0);
  }

  /** An object is read from each of its marks, and from no other key. */
  lemma MarksRead(refuse: Refusal, op: Option<Op>, inner: bool, c: char, obj: Object)
    ensures AimOf(refuse, op, [if inner then 'i' else 'a', c]) == Aimed(Within(inner, obj)) <==> c in MarksOf(obj)
    ensures Pairs(c) <==> c in SurroundMarks()
  {
    ObjectsByMark(c, obj);
    hide SurroundAim, ObjectOf;
  }

  lemma ObjectsByMark(c: char, obj: Object)
    ensures ObjectOf(c) == Some(obj) <==> c in MarksOf(obj)
  {
  }

  /** A register is a letter, a digit or the plus sign; any other key behind the quote is refused. */
  lemma RegistersRead(refuse: Refusal, r: char)
    ensures var keys := ['"', r] + "yy";
            Parsed(refuse, keys) == if 'a' <= r <= 'z' || 'A' <= r <= 'Z' || '0' <= r <= '9' || r == '+'
                                    then Complete(Command(Some(Yank), Some(r), None, Linewise, keys))
                                    else Invalid
  {
    hide SurroundAim, SimpleMotion;
    var keys := ['"', r] + "yy";
    assert keys[2..] == "yy" && DigitRun("yy") == 0 && "yy"[0..] == "yy" && "yy"[1..] == "y";
    assert DigitRun("y") == 0 && "y"[0..] == "y";
    assert LeadingNumber("yy") == 0 && AfterNumber("yy") == "yy" by { assert "yy"[..0] == []; }
    assert LeadingNumber("y") == 0 && AfterNumber("y") == "y" by { assert "y"[..0] == []; }
  }

  /** The five operators by their keys. */
  lemma OperatorsRead(refuse: Refusal, key: char, op: Op)
    requires (key, op) in {('d', Delete), ('y', Yank), ('c', Change), ('>', Indent), ('<', Dedent)}
    ensures Parsed(refuse, [key, 'w']) == Complete(Command(Some(op), None, None, Moved(WordForward), [key, 'w']))
    ensures Parsed(refuse, [key, key]) == Complete(Command(Some(op), None, None, Linewise, [key, key]))
  {
    OperatorHead(key, op, 'w');
    OperatorHead(key, op, key);
    WordAims(refuse, op);
    DoubledAims(refuse, op);
    hide HeadOf, AimOf;
  }

  lemma WordAims(refuse: Refusal, op: Op)
    ensures AimOf(refuse, Some(op), ['w']) == Aimed(Moved(WordForward))
  {
    hide SurroundAim;
  }

  lemma DoubledAims(refuse: Refusal, op: Op)
    ensures AimOf(refuse, Some(op), [OpKey(op)]) == Aimed(Linewise)
  {
    hide SurroundAim, SimpleMotion, SearchAim;
  }

  lemma OperatorHead(key: char, op: Op, next: char)
    requires (key, op) in {('d', Delete), ('y', Yank), ('c', Change), ('>', Indent), ('<', Dedent)}
    requires !Digit(next)
    ensures HeadOf([key, next]) == Head(None, None, Some(op), [next])
  {
    var keys := [key, next];
    RunIs(keys, 0);
    RunIs([next], 0);
    assert keys[..0] == [] && keys[0..] == keys && keys[1..] == [next] && [next][..0] == [] && [next][0..] == [next];
  }

  /** The canonical spelling of a command. */
  function Canonical(c: Command): Spelling {
    Spelling(c.register, c.count, c.op, None, c.target)
  }

  predicate WellFormed(refuse: Refusal, c: Command) {
    WellSpelled(refuse, Canonical(c)) && !ZeroIsSwallowed(Canonical(c))
  }

  lemma HeadFromFacts(register: Option<char>, first: nat, s: string)
    ensures var head := HeadFrom(register, first, s);
            && head.Head? && head.register == register && (head.count.Some? ==> head.count.value > 0)
            && (head.op.None? && head.rest == "0" && (s != [] ==> s[0] == '0' || !Digit(s[0])) ==>
                  s == "0" && head.count == Combined(first, 0))
  {
    hide OpOf;
    if s != [] && OpOf(s[0]).None? && s[0] != '0' {
      RunIs(s, if Digit(s[0]) then DigitRun(s) else 0);
    }
  }

  lemma HeadFacts(keys: string)
    ensures var head := HeadOf(keys);
            head.Head? ==>
              && (head.register.Some? ==> Register(head.register.value))
              && (head.count.Some? ==> head.count.value > 0)
              && (head.op.None? && head.rest == "0" ==> head.register.None? && head.count.None?)
  {
    hide HeadFrom;
    if keys == [] || keys[0] == '0' {
      HeadFromFacts(None, 0, keys);
    } else if keys[0] != '"' {
      HeadFromFacts(None, LeadingNumber(keys), AfterNumber(keys));
    } else if |keys| > 1 {
      HeadFromFacts(Some(keys[1]), LeadingNumber(keys[2..]), AfterNumber(keys[2..]));
    }
  }

  /** The commands that some keys spell are exactly the well-formed ones. */
  lemma CommandsExactly(refuse: Refusal, c: Command)
    ensures (exists keys :: Parsed(refuse, keys) == Complete(c.(keys := keys))) <==> WellFormed(refuse, c)
  {
    hide AimOf, HeadOf, Fits, Keys;
    if WellFormed(refuse, c) {
      SpellingReads(refuse, Canonical(c));
      var keys := Keys(Canonical(c));
      assert Parsed(refuse, keys) == Complete(c.(keys := keys));
    }
    if keys :| Parsed(refuse, keys) == Complete(c.(keys := keys)) {
      HeadFacts(keys);
      AimFits(refuse, HeadOf(keys).op, HeadOf(keys).rest);
    }
  }
}
