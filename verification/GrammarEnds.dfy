/** Which incomplete keys can still become a command. */
module GrammarEnds {
  import opened Wrappers
  import opened Grammar
  import opened GrammarSpelling

  // ---------------------------------------------------------------- keys that lead nowhere

  /** The target keys wait for more although nothing can complete them: a surround change whose first mark is none,
      and a surround of a motion that is no motion. */
  predicate Hopeless(refuse: Refusal, op: Option<Op>, rest: string)
    requires rest != []
    decreases |rest|
  {
    if op == Some(Change) then |rest| == 2 && rest[0] == 's' && !Pairs(rest[1])
    else if op == Some(Yank) && rest[0] == 's' && |rest| > 1 then
      YankOp(rest[1..]);
      var inner := HeadOf(['y'] + rest[1..]);
      Parsed(refuse, ['y'] + rest[1..]).Invalid?
      || (Parsed(refuse, ['y'] + rest[1..]).Incomplete? && inner.rest != [] && Hopeless(refuse, inner.op, inner.rest))
    else false
  }

  predicate HopelessKeys(refuse: Refusal, keys: string) {
    HeadOf(keys).Head? && HeadOf(keys).rest != [] && Hopeless(refuse, HeadOf(keys).op, HeadOf(keys).rest)
  }

  // ---------------------------------------------------------------- heads that go on

  /** More keys behind a target's first ones go to the target. */
  lemma HeadExtends(keys: string, more: string)
    requires HeadOf(keys).Head? && HeadOf(keys).rest != []
    ensures HeadOf(keys + more) == HeadOf(keys).(rest := HeadOf(keys).rest + more)
  {
    assert keys != [];
    hide HeadOf;
    HeadStays(keys, more);
    HeadPrefix(keys + more, |keys|);
    assert (keys + more)[..|keys|] == keys;
    var rest := HeadOf(keys + more).rest;
    RestIsSuffix(keys + more);
    SuffixEnds(keys, more, rest);
  }

  lemma SuffixEnds(keys: string, more: string, rest: string)
    requires |more| <= |rest| <= |keys + more| && (keys + more)[|keys + more| - |rest|..] == rest
    ensures rest == rest[..|rest| - |more|] + more
  {
    var n := |rest| - |more|;
    assert rest[n..] == (keys + more)[|keys|..] == more;
  }

  lemma HeadStays(keys: string, more: string)
    requires HeadOf(keys).Head? && keys != []
    ensures HeadOf(keys + more).Head?
  {
    assert (keys + more)[0] == keys[0];
    assert |keys| >= 2 ==> (keys + more)[1] == keys[1];
  }

  lemma RestIsSuffix(keys: string)
    requires HeadOf(keys).Head?
    ensures |HeadOf(keys).rest| <= |keys| && keys[|keys| - |HeadOf(keys).rest|..] == HeadOf(keys).rest
  {
    hide HeadFrom, LeadingNumber, AfterNumber, Register;
    if keys == [] || keys[0] == '0' {
      HeadFromSuffix(None, 0, keys);
    } else if keys[0] != '"' {
      HeadFromSuffix(None, LeadingNumber(keys), AfterNumber(keys));
      NumberLeavesSuffix(keys);
    } else {
      HeadFromSuffix(Some(keys[1]), LeadingNumber(keys[2..]), AfterNumber(keys[2..]));
      NumberLeavesSuffix(keys[2..]);
    }
  }

  lemma NumberLeavesSuffix(s: string)
    ensures |AfterNumber(s)| <= |s| && s[|s| - |AfterNumber(s)|..] == AfterNumber(s)
  {
  }

  lemma HeadFromSuffix(register: Option<char>, first: nat, s: string)
    ensures var head := HeadFrom(register, first, s);
            head.Head? && |head.rest| <= |s| && s[|s| - |head.rest|..] == head.rest
  {
    hide OpOf, Combined, LeadingNumber;
  }

  /** A key that is neither digit nor operator starts the target. */
  lemma MotionKeyStays(keys: string, key: char)
    requires HeadOf(keys).Head? && HeadOf(keys).rest == [] && !Digit(key) && OpOf(key).None? && key != '"'
    ensures HeadOf(keys + [key]).Head? && HeadOf(keys + [key]).rest == [key]
  {
    hide HeadOf, OpOf, Digit;
    var longer := keys + [key];
    if keys == [] {
      OneKeyHead(key);
      assert longer == [key];
    } else {
      HeadStays(keys, [key]);
      HeadPrefix(longer, |keys|);
      assert longer[..|keys|] == keys;
      if keys[0] == '"' { QuoteNeedsRegister(keys); }
    }
    LastKeyStays(longer, key);
    RestIsSuffix(longer);
  }

  lemma QuoteNeedsRegister(keys: string)
    requires HeadOf(keys).Head? && keys != [] && keys[0] == '"'
    ensures |keys| >= 2
  {
  }

  lemma OneKeyHead(key: char)
    requires key != '"'
    ensures HeadOf([key]).Head?
  {
  }

  lemma LastKeyStays(keys: string, key: char)
    requires keys != [] && keys[|keys| - 1] == key && HeadOf(keys).Head?
    requires !Digit(key) && OpOf(key).None? && key != '"' && (keys[0] == '"' ==> |keys| > 2)
    ensures HeadOf(keys).rest != [] && HeadOf(keys).rest[|HeadOf(keys).rest| - 1] == key
  {
    hide HeadFrom, OpOf, LeadingNumber, AfterNumber, Digit;
    if keys[0] == '0' {
      HeadFromKeeps(None, 0, keys, key);
    } else if keys[0] != '"' {
      KeyStays(None, keys, key);
    } else {
      hide Register;
      KeyStays(Some(keys[1]), keys[2..], key);
    }
  }

  lemma KeyStays(register: Option<char>, s: string, key: char)
    requires s != [] && s[|s| - 1] == key && !Digit(key) && OpOf(key).None?
    ensures var head := HeadFrom(register, LeadingNumber(s), AfterNumber(s));
            head.Head? && head.rest != [] && head.rest[|head.rest| - 1] == key
  {
    hide HeadFrom, OpOf;
    HeadFromKeeps(register, LeadingNumber(s), AfterNumber(s), key);
  }

  lemma HeadFromKeeps(register: Option<char>, first: nat, s: string, key: char)
    requires s != [] && s[|s| - 1] == key && !Digit(key) && OpOf(key).None?
    ensures var head := HeadFrom(register, first, s);
            head.Head? && head.rest != [] && head.rest[|head.rest| - 1] == key
  {
    hide OpOf, Combined, LeadingNumber;
    var t := if OpOf(s[0]).Some? then s[1..] else s;
    assert t != [] && t[|t| - 1] == key;
  }

  // ---------------------------------------------------------------- what completes, what never does

  lemma LeftMoves(refuse: Refusal, op: Option<Op>)
    ensures AimOf(refuse, op, "h") == Aimed(Moved(Left))
  {
    hide SurroundAim;
  }

  lemma {:induction false} KeysComplete(refuse: Refusal, keys: string) returns (more: string)
    requires Parsed(refuse, keys).Incomplete? && !HopelessKeys(refuse, keys)
    ensures Answered(Parsed(refuse, keys + more))
    decreases if HeadOf(keys).Head? then |HeadOf(keys).rest| else 0, 2
  {
    hide AimOf;
    match HeadOf(keys)
    case Halt(_) =>
      more := "ah";
      QuoteCompletes(refuse, keys);
    case Head(_, _, op, rest) =>
      hide HeadOf;
      if rest == [] {
        more := "h";
        MotionKeyStays(keys, 'h');
        LeftMoves(refuse, HeadOf(keys + "h").op);
      } else {
        more := PendingCompletes(refuse, op, rest);
        HeadExtends(keys, more);
      }
  }

  lemma QuoteCompletes(refuse: Refusal, keys: string)
    requires HeadOf(keys).Halt? && Parsed(refuse, keys).Incomplete?
    ensures Answered(Parsed(refuse, keys + "ah"))
  {
    hide AimOf;
    assert keys == "\"";
    var longer := keys + "ah";
    assert longer[2..] == "h" && DigitRun("h") == 0 && "h"[0..] == "h";
    assert HeadOf(longer).Head? && HeadOf(longer).rest == "h";
    LeftMoves(refuse, HeadOf(longer).op);
  }

  lemma {:induction false} PendingCompletes(refuse: Refusal, op: Option<Op>, rest: string) returns (more: string)
    requires rest != [] && AimOf(refuse, op, rest) == Pending && !Hopeless(refuse, op, rest)
    ensures more != [] && Settled(AimOf(refuse, op, rest + more))
    decreases |rest|, 1
  {
    hide HeadOf, Parsed;
    if Surrounds(op) && rest[0] == 's' {
      more := SurroundCompletes(refuse, op.value, rest);
      assert (rest + more)[1..] == rest[1..] + more;
    } else {
      more := PlainCompletes(refuse, op, rest);
    }
  }

  /** Objects, searches, characters to find and motions of two keys. */
  lemma PlainCompletes(refuse: Refusal, op: Option<Op>, rest: string) returns (more: string)
    requires rest != [] && AimOf(refuse, op, rest) == Pending && !(Surrounds(op) && rest[0] == 's')
    ensures more != [] && Settled(AimOf(refuse, op, rest + more))
  {
    hide AimOf;
    if rest[0] in {'i', 'a'} {
      more := "w";
      ObjectCompletes(refuse, op, rest);
    } else if rest[0] in {'/', '?'} {
      more := if |rest| == 1 then "x\r" else "\r";
      SearchCompletes(refuse, op, rest, more);
    } else if rest[0] in {'f', 'F', 't', 'T'} {
      more := "x";
      FindCompletes(refuse, op, rest);
    } else {
      more := "g";
      MotionCompletes(refuse, op, rest);
    }
  }

  lemma ObjectCompletes(refuse: Refusal, op: Option<Op>, rest: string)
    requires rest != [] && AimOf(refuse, op, rest) == Pending && rest[0] in {'i', 'a'}
    ensures Settled(AimOf(refuse, op, rest + "w"))
  {
    hide SurroundAim, SimpleMotion, SearchAim;
  }

  lemma SearchCompletes(refuse: Refusal, op: Option<Op>, rest: string, more: string)
    requires rest != [] && AimOf(refuse, op, rest) == Pending && rest[0] in {'/', '?'}
    requires more == if |rest| == 1 then "x\r" else "\r"
    ensures Settled(AimOf(refuse, op, rest + more))
  {
    hide SurroundAim, SimpleMotion, ObjectOf;
    var tail := rest[1..] + more;
    assert (rest + more)[1..] == tail;
    EndsAt(tail, |tail| - 1);
  }

  lemma FindCompletes(refuse: Refusal, op: Option<Op>, rest: string)
    requires rest != [] && AimOf(refuse, op, rest) == Pending && rest[0] in {'f', 'F', 't', 'T'}
    ensures Settled(AimOf(refuse, op, rest + "x"))
  {
    hide SurroundAim, SimpleMotion, SearchAim, ObjectOf;
  }

  lemma MotionCompletes(refuse: Refusal, op: Option<Op>, rest: string)
    requires rest != [] && AimOf(refuse, op, rest) == Pending && !(Surrounds(op) && rest[0] == 's')
    requires rest[0] !in {'i', 'a', '/', '?', 'f', 'F', 't', 'T'}
    ensures Settled(AimOf(refuse, op, rest + "g"))
  {
    hide SurroundAim, SearchAim, ObjectOf;
    assert rest == "g";
    assert rest + "g" == "gg";
  }

  lemma EndsAt(s: string, n: nat)
    requires n < |s| && s[n] == '\r' && forall k :: 0 <= k < n ==> s[k] != '\r'
    ensures Return(s) == n
  {
  }

  lemma {:induction false} SurroundCompletes(refuse: Refusal, op: Op, rest: string) returns (more: string)
    requires rest != [] && rest[0] == 's' && (op.Delete? || op.Change? || op.Yank?)
    requires SurroundAim(refuse, op, rest[1..]) == Pending && !Hopeless(refuse, Some(op), rest)
    ensures more != [] && Settled(SurroundAim(refuse, op, rest[1..] + more))
    decreases |rest|, 0
  {
    hide HeadOf, Parsed, AimOf;
    var tail := rest[1..];
    match op
    case Delete =>
      more := "b";
    case Change =>
      more := if tail == [] then "bb" else "b";
    case Yank =>
      if tail == [] {
        more := "hb";
        MotionSurrounds(refuse);
        assert tail + more == "hb";
      } else {
        YankOp(tail);
        var keys := ['y'] + tail;
        var inner := "";
        if Parsed(refuse, keys).Incomplete? {
          assert !HopelessKeys(refuse, keys);
          inner := KeysComplete(refuse, keys);
        }
        assert Answered(Parsed(refuse, keys + inner)) by { assert keys + "" == keys; }
        more := inner + "b";
        MarkSurrounds(refuse, tail + inner);
        assert ['y'] + (tail + inner) == keys + inner;
        assert tail + more == (tail + inner) + ['b'];
      }
  }

  lemma MotionSurrounds(refuse: Refusal)
    ensures SurroundAim(refuse, Yank, "hb").Aimed?
  {
    hide AimOf;
    var keys := "yh";
    assert "hb"[..1] == "h" && ['y'] + "h" == keys;
    assert DigitRun(keys) == 0 && keys[0..] == keys && keys[1..] == "h" && DigitRun("h") == 0 && "h"[0..] == "h";
    LeftMoves(refuse, Some(Yank));
    assert Parsed(refuse, keys).Complete?;
  }

  lemma MarkSurrounds(refuse: Refusal, motion: string)
    requires motion != []
    ensures Answered(Parsed(refuse, ['y'] + motion)) ==> Settled(SurroundAim(refuse, Yank, motion + ['b']))
  {
    hide Parsed;
    assert (motion + ['b'])[..|motion|] == motion;
  }

  lemma {:induction false} HopelessStays(refuse: Refusal, op: Option<Op>, rest: string, more: string)
    requires rest != [] && Hopeless(refuse, op, rest) && AimOf(refuse, op, rest) == Pending
    ensures !Settled(AimOf(refuse, op, rest + more))
    decreases |rest|
  {
    hide HeadOf, Parsed;
    if more == [] {
      assert rest + more == rest;
    } else {
      var tail := rest[1..] + more;
      assert (rest + more)[1..] == tail && (rest + more)[0] == 's';
      if op == Some(Yank) {
        var motion := rest[1..] + more[..|more| - 1];
        assert tail[..|tail| - 1] == motion;
        assert ['y'] + motion == (['y'] + rest[1..]) + more[..|more| - 1];
        YankNeverAnswers(refuse, rest[1..], more[..|more| - 1]) by {
          var inner := HeadOf(['y'] + rest[1..]);
          if !Parsed(refuse, ['y'] + rest[1..]).Invalid? {
            YankOp(rest[1..]);
            PendingInside(refuse, ['y'] + rest[1..]);
            HopelessStays(refuse, inner.op, inner.rest, more[..|more| - 1]);
          }
        }
      } else {
        assert tail[0] == rest[1];
      }
    }
  }

  lemma PendingInside(refuse: Refusal, keys: string)
    requires Parsed(refuse, keys).Incomplete? && HeadOf(keys).Head? && HeadOf(keys).rest != []
    ensures AimOf(refuse, HeadOf(keys).op, HeadOf(keys).rest) == Pending
  {
    hide AimOf, HeadOf;
  }

  lemma YankNeverAnswers(refuse: Refusal, t: string, more: string)
    requires Parsed(refuse, ['y'] + t).Invalid?
             || (HeadOf(['y'] + t).Head? && HeadOf(['y'] + t).rest != []
                 && !Settled(AimOf(refuse, HeadOf(['y'] + t).op, HeadOf(['y'] + t).rest + more)))
    ensures !Answered(Parsed(refuse, ['y'] + t + more))
  {
    hide HeadOf, AimOf;
    if Parsed(refuse, ['y'] + t).Invalid? {
      if more == [] {
        assert ['y'] + t + more == ['y'] + t;
      } else {
        RefusalIsFinal(refuse, ['y'] + t, more);
      }
    } else {
      HeadExtends(['y'] + t, more);
    }
  }

  /** Incomplete keys can still become a command, or one with a bad pattern, exactly unless they are hopeless. */
  lemma IncompleteExactly(refuse: Refusal, keys: string)
    requires Parsed(refuse, keys) == Incomplete
    ensures (exists more :: Answered(Parsed(refuse, keys + more))) <==> !HopelessKeys(refuse, keys)
  {
    hide HeadOf, AimOf, Parsed;
    if HopelessKeys(refuse, keys) {
      PendingInside(refuse, keys);
      forall more ensures !Answered(Parsed(refuse, keys + more)) {
        HopelessStays(refuse, HeadOf(keys).op, HeadOf(keys).rest, more);
        HeadExtends(keys, more);
        NotSettled(refuse, keys + more);
      }
    } else {
      var more := KeysComplete(refuse, keys);
    }
  }

  lemma NotSettled(refuse: Refusal, keys: string)
    requires HeadOf(keys).Head? && HeadOf(keys).rest != []
    requires !Settled(AimOf(refuse, HeadOf(keys).op, HeadOf(keys).rest))
    ensures !Answered(Parsed(refuse, keys))
  {
    hide HeadOf, AimOf;
  }

  /** Such keys: a change of the surround `z`. */
  lemma BadMarksWait(refuse: Refusal)
    ensures Parsed(refuse, "csz") == Incomplete && HopelessKeys(refuse, "csz")
    ensures forall more :: !Answered(Parsed(refuse, "csz" + more))
  {
    hide AimOf, Hopeless;
    RunIs("csz", 0);
    RunIs("sz", 0);
    assert "csz"[..0] == [] && "csz"[0..] == "csz" && "csz"[1..] == "sz" && "sz"[..0] == [] && "sz"[0..] == "sz";
    assert HeadOf("csz") == Head(None, None, Some(Change), "sz");
    hide HeadOf;
    ChangeWaits(refuse);
    IncompleteExactly(refuse, "csz");
  }

  lemma ChangeWaits(refuse: Refusal)
    ensures AimOf(refuse, Some(Change), "sz") == Pending && Hopeless(refuse, Some(Change), "sz")
  {
    assert "sz"[1..] == "z";
  }
}
