/** What simple patterns come to: classes, sets, suffixes and references of the manual
    (Lua 5.2 Reference Manual, section 6.4.1), and where they are found. */
module LuaPatternUses {
  import opened Common
  import opened LuaPattern
  import opened LuaMatch

  // ----- Classes -----

  /** The locale knows letter `l` and its capital. */
  ghost predicate Sane(loc: Locale, l: char, capital: char) {
    && l in "acdglpsuwx" && loc.lower(l) == l && loc.isLower(l)
    && loc.lower(capital) == l && !loc.isLower(capital)
  }

  /** `%l` stands for the characters of a class, and the capital for all others. */
  lemma {:induction false} ClassItem(m: Ctx, s: nat, p: nat, l: char, capital: char)
    requires s < |m.src| && p + 1 < |m.pat| && m.pat[p] == '%' && Sane(m.loc, l, capital)
    ensures EndOfClass(m.pat, p) == EndAt(p + 2)
    ensures m.pat[p + 1] == l ==> (SingleAt(m, s, p, p + 2) <==> m.loc.test(l, m.src[s]))
    ensures m.pat[p + 1] == capital ==> (SingleAt(m, s, p, p + 2) <==> !m.loc.test(l, m.src[s]))
  {
    var letters := "acdglpsuwx";
    assert "acdglpsuwxz" == letters + "z";
  }

  /** `%` and any other character stand for that character, `%z` for a zero byte,
      a character with no meaning for itself, a dot for all. */
  lemma {:induction false} OtherItem(m: Ctx, s: nat, p: nat)
    requires s < |m.src| && p < |m.pat|
    ensures m.pat[p] == '%' && p + 1 < |m.pat| && m.loc.lower(m.pat[p + 1]) !in "acdglpsuwxz"
        ==> (SingleAt(m, s, p, p + 2) <==> m.src[s] == m.pat[p + 1])
    ensures m.pat[p] == '%' && p + 1 < |m.pat| && m.pat[p + 1] == 'z' && m.loc.lower('z') == 'z' && m.loc.isLower('z')
        ==> (SingleAt(m, s, p, p + 2) <==> m.src[s] == '\0')
    ensures m.pat[p] !in "%[." ==> (SingleAt(m, s, p, p + 1) <==> m.src[s] == m.pat[p])
    ensures m.pat[p] == '.' ==> SingleAt(m, s, p, p + 1)
  {
    assert "acdglpsuwxz"[10] == 'z';
    assert "%[."[0] == '%' && "%[."[1] == '[' && "%[."[2] == '.';
  }

  // ----- Sets -----

  /** `[%l]` and `[^%l]`: a set of one class, and its complement. */
  lemma {:induction false} ClassSet(m: Ctx, s: nat, p: nat, neg: bool, l: char, capital: char)
    requires var q := if neg then p + 2 else p + 1;
      && q + 2 < |m.pat| && m.pat[p] == '[' && (neg ==> m.pat[p + 1] == '^')
      && m.pat[q] == '%' && (m.pat[q + 1] == l || m.pat[q + 1] == capital) && m.pat[q + 2] == ']'
    requires s < |m.src| && Sane(m.loc, l, capital)
    ensures var ep, x := if neg then p + 5 else p + 4, m.pat[if neg then p + 3 else p + 2];
      && EndOfClass(m.pat, p) == EndAt(ep)
      && (SingleAt(m, s, p, ep) <==> (m.loc.test(l, m.src[s]) == ((x == l) != neg)))
  {
    var q := if neg then p + 2 else p + 1;
    assert SetEnd(m.pat, q) == Some(q + 3);
    InSetAny(m, m.src[s], p, q + 2);
    ItemsStep(m.loc, m.pat, q, q + 2, m.src[s]);
    ItemsEnd(m.loc, m.pat, q + 2, q + 2, m.src[s]);
    assert "acdglpsuwxz" == "acdglpsuwx" + "z";
    hide SetItems, AnyHas, InSet, SetEnd;
  }

  /** `[x-y]` and `[xy]`, for characters with no other meaning in a set. */
  lemma {:induction false} RangeSet(m: Ctx, s: nat, p: nat)
    requires s < |m.src| && p + 3 < |m.pat| && m.pat[p] == '[' && m.pat[p + 1] !in "%^-]" && m.pat[p + 2] !in "%^]"
    ensures p + 4 < |m.pat| && m.pat[p + 2] == '-' && m.pat[p + 3] !in "%^-]" && m.pat[p + 4] == ']' ==>
      EndOfClass(m.pat, p) == EndAt(p + 5) && (SingleAt(m, s, p, p + 5) <==> m.pat[p + 1] <= m.src[s] <= m.pat[p + 3])
    ensures m.pat[p + 2] != '-' && m.pat[p + 3] == ']' ==>
      && EndOfClass(m.pat, p) == EndAt(p + 4)
      && (SingleAt(m, s, p, p + 4) <==> m.src[s] == m.pat[p + 1] || m.src[s] == m.pat[p + 2])
  {
    SpecialInSet(m.pat[p + 1]);
    SpecialInSet(m.pat[p + 2]);
    SpecialInSet(m.pat[p + 3]);
    var c := m.src[s];
    if p + 4 < |m.pat| && m.pat[p + 2] == '-' && m.pat[p + 3] !in "%^-]" && m.pat[p + 4] == ']' {
      assert SetEnd(m.pat, p + 3) == Some(p + 5) && SetEnd(m.pat, p + 2) == Some(p + 5);
      InSetAny(m, c, p, p + 4);
      ItemsStep(m.loc, m.pat, p + 1, p + 4, c);
      ItemsEnd(m.loc, m.pat, p + 4, p + 4, c);
    } else if m.pat[p + 2] != '-' && m.pat[p + 3] == ']' {
      assert SetEnd(m.pat, p + 2) == Some(p + 4);
      InSetAny(m, c, p, p + 3);
      ItemsStep(m.loc, m.pat, p + 1, p + 3, c);
      ItemsStep(m.loc, m.pat, p + 2, p + 3, c);
      ItemsEnd(m.loc, m.pat, p + 3, p + 3, c);
    }
    hide SetItems, AnyHas, InSet, MatchClass;
  }

  /** A bracket right behind the opening one, and a minus sign right before the closing one,
      stand for themselves. */
  lemma {:induction false} EdgeSet(m: Ctx, s: nat, p: nat)
    requires s < |m.src| && p + 2 < |m.pat| && m.pat[p] == '['
    ensures m.pat[p + 1] == ']' && m.pat[p + 2] == ']' ==>
      EndOfClass(m.pat, p) == EndAt(p + 3) && (SingleAt(m, s, p, p + 3) <==> m.src[s] == ']')
    ensures p + 3 < |m.pat| && m.pat[p + 1] !in "%^-]" && m.pat[p + 2] == '-' && m.pat[p + 3] == ']' ==>
      && EndOfClass(m.pat, p) == EndAt(p + 4)
      && (SingleAt(m, s, p, p + 4) <==> m.src[s] == m.pat[p + 1] || m.src[s] == '-')
  {
    SpecialInSet(m.pat[p + 1]);
    var c := m.src[s];
    if m.pat[p + 1] == ']' && m.pat[p + 2] == ']' {
      InSetAny(m, c, p, p + 2);
      ItemsStep(m.loc, m.pat, p + 1, p + 2, c);
      ItemsEnd(m.loc, m.pat, p + 2, p + 2, c);
    } else if p + 3 < |m.pat| && m.pat[p + 1] !in "%^-]" && m.pat[p + 2] == '-' && m.pat[p + 3] == ']' {
      assert SetEnd(m.pat, p + 2) == Some(p + 4);
      InSetAny(m, c, p, p + 3);
      ItemsStep(m.loc, m.pat, p + 1, p + 3, c);
      ItemsStep(m.loc, m.pat, p + 2, p + 3, c);
      ItemsEnd(m.loc, m.pat, p + 3, p + 3, c);
    }
    hide SetItems, AnyHas, InSet, MatchClass;
  }

  lemma {:induction false} SpecialInSet(c: char)
    ensures c in "%^-]" <==> c == '%' || c == '^' || c == '-' || c == ']'
    ensures c in "%^]" <==> c == '%' || c == '^' || c == ']'
  {
  }

  // ----- Suffixes -----

  /** An item that is neither a capture, an anchor nor one of `%b`, `%f` and `%1`. */
  predicate Plain(pat: string, p: nat) {
    && p < |pat| && pat[p] != '(' && pat[p] != ')' && pat[p] != '$'
    && (pat[p] == '%' ==> p + 1 < |pat| && pat[p + 1] != 'b' && pat[p + 1] != 'f' && !('0' <= pat[p + 1] <= '9'))
  }

  lemma {:induction false} PlainStep(m: Ctx, s: nat, p: nat, caps: seq<Cap>)
    requires Plain(m.pat, p) && s <= |m.src| && CapsOk(caps, s)
    ensures StepAt(m, s, p, caps) == ItemStep(m, s, p, caps)
  {
  }

  lemma {:induction false} MatchedHere(m: Ctx, s: nat, caps: seq<Cap>)
    requires s <= |m.src| && CapsOk(caps, s)
    ensures Preferred(m, s, |m.pat|, caps, Match(s, caps)) && !Fails(m, s, |m.pat|, caps)
  {
    assert StepAt(m, s, |m.pat|, caps) == Halt(Match(s, caps));
    HaltPreferred(m, s, |m.pat|, caps);
    assert Follow(m, s, |m.pat|, caps, []) == Match(s, caps);
  }

  /** A last item without suffix: one character. */
  lemma {:induction false} ItemLast(m: Ctx, s: nat, p: nat, caps: seq<Cap>)
    requires Plain(m.pat, p) && s <= |m.src| && CapsOk(caps, s) && EndOfClass(m.pat, p) == EndAt(|m.pat|)
    ensures Preferred(m, s, p, caps, if SingleAt(m, s, p, |m.pat|) then Match(s + 1, caps) else NoMatch)
  {
    hide SingleAt, EndOfClass;
    PlainStep(m, s, p, caps);
    if StepAt(m, s, p, caps).Go? {
      CapsLater(caps, s, s + 1);
      MatchedHere(m, s + 1, caps);
      GoPreferred(m, s, p, caps, Match(s + 1, caps));
    } else {
      HaltPreferred(m, s, p, caps);
    }
  }

  /** How often an item with a suffix is repeated where `n` characters of it follow:
      at most once, as often as possible, or not at all. */
  function Wanted(suffix: char, n: nat): nat {
    if suffix == '?' then (if n == 0 then 0 else 1) else if suffix == '-' then 0 else n
  }

  /** If the rest of the pattern matches behind them, that is the outcome. */
  lemma {:induction false} RunThen(m: Ctx, s: nat, p: nat, caps: seq<Cap>, ep: nat, n: nat, out: Out)
    requires Plain(m.pat, p) && s + n <= |m.src| && CapsOk(caps, s) && p < ep < |m.pat|
    requires EndOfClass(m.pat, p) == EndAt(ep) && m.pat[ep] in {'?', '*', '+', '-'}
    requires forall i: nat | s <= i < s + n :: SingleAt(m, i, p, ep)
    requires !SingleAt(m, s + n, p, ep) && (m.pat[ep] == '+' ==> n > 0)
    requires var k := Wanted(m.pat[ep], n);
      CapsOk(caps, s + k) && out != NoMatch && Preferred(m, s + k, ep + 1, caps, out)
    ensures Preferred(m, s, p, caps, out)
  {
    hide SingleAt, EndOfClass, Preferred;
    PlainStep(m, s, p, caps);
    var t, k := Suffix(m.pat[ep]).value, Wanted(m.pat[ep], n);
    NoMore(m, s, p, ep, n);
    assert Repeats(m, s, p, ep, n);
    RepeatsMore(m, s, p, ep, n);
    assert Repeats(m, s, p, ep, k);
    assert FirstChoice(m, s, p, caps, t, ep, k);
    ChosenPreferred(m, s, p, caps, t, ep, k, out);
  }

  /** `+` wants one at least. */
  lemma {:induction false} RunNone(m: Ctx, s: nat, p: nat, caps: seq<Cap>, ep: nat)
    requires Plain(m.pat, p) && s <= |m.src| && CapsOk(caps, s) && p < ep < |m.pat|
    requires EndOfClass(m.pat, p) == EndAt(ep) && m.pat[ep] == '+' && !SingleAt(m, s, p, ep)
    ensures Preferred(m, s, p, caps, NoMatch)
  {
    hide SingleAt, EndOfClass, Preferred;
    PlainStep(m, s, p, caps);
    PlusNone(m, s, p, caps, ep);
  }

  /** A last item with a suffix. */
  lemma {:induction false} RunLast(m: Ctx, s: nat, p: nat, caps: seq<Cap>, ep: nat, n: nat)
    requires Plain(m.pat, p) && s + n <= |m.src| && CapsOk(caps, s) && p < ep == |m.pat| - 1
    requires EndOfClass(m.pat, p) == EndAt(ep) && m.pat[ep] in {'?', '*', '+', '-'}
    requires forall i: nat | s <= i < s + n :: SingleAt(m, i, p, ep)
    requires !SingleAt(m, s + n, p, ep)
    ensures Preferred(m, s, p, caps,
      match m.pat[ep]
      case '?' => Match(if n == 0 then s else s + 1, caps)
      case '*' => Match(s + n, caps)
      case '+' => if n == 0 then NoMatch else Match(s + n, caps)
      case _ => Match(s, caps))
  {
    hide SingleAt, EndOfClass, Preferred;
    if m.pat[ep] == '+' && n == 0 {
      RunNone(m, s, p, caps, ep);
    } else {
      var k := Wanted(m.pat[ep], n);
      CapsLater(caps, s, s + k);
      MatchedHere(m, s + k, caps);
      RunThen(m, s, p, caps, ep, n, Match(s + k, caps));
    }
  }

  // ----- Captures, references, balance and frontiers -----

  /** `(%l+)` captures the run it matches. */
  lemma {:induction false} CapturedRun(m: Ctx, s: nat, l: char, capital: char, n: nat)
    requires m.pat == ['(', '%', l, '+', ')'] && s + n <= |m.src| && Sane(m.loc, l, capital)
    requires forall i | s <= i < s + n :: m.loc.test(l, m.src[i])
    requires s + n < |m.src| ==> !m.loc.test(l, m.src[s + n])
    ensures Preferred(m, s, 0, [], if n == 0 then NoMatch else Match(s + n, [Cap(s, Len(n))]))
  {
    hide Preferred, StepAt, EndOfClass, SingleAt, Plain;
    var open, closed := [Cap(s, Unfinished)], [Cap(s, Len(n))];
    BracketSteps(m, s, n);
    ClassRun(m, s, 1, 3, l, capital, n);
    if n == 0 {
      RunNone(m, s, 1, open, 3);
      GoPreferred(m, s, 0, [], NoMatch);
    } else {
      MatchedHere(m, s + n, closed);
      GoPreferred(m, s + n, 4, open, Match(s + n, closed));
      RunThen(m, s, 1, open, 3, n, Match(s + n, closed));
      GoPreferred(m, s, 0, [], Match(s + n, closed));
    }
  }

  /** A run of characters of a class, and the item for it. */
  lemma {:induction false} ClassRun(m: Ctx, s: nat, p: nat, ep: nat, l: char, capital: char, n: nat)
    requires ep == p + 2 <= |m.pat| && m.pat[p] == '%' && m.pat[p + 1] == l && s + n <= |m.src|
        && Sane(m.loc, l, capital)
    requires forall i | s <= i < s + n :: m.loc.test(l, m.src[i])
    requires s + n < |m.src| ==> !m.loc.test(l, m.src[s + n])
    ensures Plain(m.pat, p) && EndOfClass(m.pat, p) == EndAt(ep) && !SingleAt(m, s + n, p, ep)
    ensures forall i: nat | s <= i < s + n :: SingleAt(m, i, p, ep)
  {
    NotSpecial(l);
    forall i: nat | s <= i <= s + n && i < |m.src| ensures SingleAt(m, i, p, ep) <==> m.loc.test(l, m.src[i]) {
      ClassItem(m, i, p, l, capital);
    }
  }

  lemma {:induction false} BracketSteps(m: Ctx, s: nat, n: nat)
    requires |m.pat| == 5 && m.pat[0] == '(' && m.pat[1] != ')' && m.pat[4] == ')' && s + n <= |m.src|
    ensures StepAt(m, s, 0, []) == Go(s, 1, [Cap(s, Unfinished)])
    ensures CapsOk([Cap(s, Unfinished)], s + n)
        && StepAt(m, s + n, 4, [Cap(s, Unfinished)]) == Go(s + n, 5, [Cap(s, Len(n))])
  {
    var open := [Cap(s, Unfinished)];
    assert [] + open == open;
    assert LastOpen(open, 0);
    OpenOnce(m, s + n, 4, open, 0);
    assert open[0 := Cap(s, Len(n))] == [Cap(s, Len(n))];
  }

  /** `()` captures the position, and `%1` to `%9` stand for the text of a capture. */
  lemma {:induction false} ReferenceStep(m: Ctx, s: nat, p: nat, caps: seq<Cap>, l: nat)
    requires p + 1 < |m.pat| && s <= |m.src| && CapsOk(caps, s)
    ensures m.pat[p] == '(' && |caps| >= 32 ==> StepAt(m, s, p, caps) == Halt(Error(TooManyCaptures))
    ensures m.pat[p] == '(' && m.pat[p + 1] == ')' && |caps| < 32
        ==> StepAt(m, s, p, caps) == Go(s, p + 2, caps + [Cap(s, Position)])
    ensures m.pat[p] == '%' && l < 9 && m.pat[p + 1] == "123456789"[l] && l < |caps| && caps[l].size.Len? ==>
      var n := caps[l].size.n;
      && caps[l].init + n <= |m.src|
      && StepAt(m, s, p, caps) ==
         if s + n <= |m.src| && m.src[s..s + n] == m.src[caps[l].init..caps[l].init + n] then Go(s + n, p + 2, caps)
         else Halt(NoMatch)
    ensures m.pat[p] == '%' && l < 9 && m.pat[p + 1] == "123456789"[l] && (l >= |caps| || caps[l].size == Unfinished)
        ==> StepAt(m, s, p, caps) == Halt(Error(InvalidIndex))
  {
    if l < 9 { assert "123456789"[l] as int == '1' as int + l; }
  }

  /** `%f[%l]`: the character before is not of the class and the next one is, where a
      zero byte stands before the beginning and behind the end. */
  lemma {:induction false} FrontierStep(m: Ctx, s: nat, p: nat, caps: seq<Cap>, l: char, capital: char)
    requires p + 5 < |m.pat| && s <= |m.src| && CapsOk(caps, s) && Sane(m.loc, l, capital)
    requires m.pat[p] == '%' && m.pat[p + 1] == 'f' && m.pat[p + 2] == '[' && m.pat[p + 3] == '%' && m.pat[p + 4] == l
        && m.pat[p + 5] == ']'
    ensures var before, next := if s == 0 then '\0' else m.src[s - 1], if s == |m.src| then '\0' else m.src[s];
      StepAt(m, s, p, caps)
      == if !m.loc.test(l, before) && m.loc.test(l, next) then Go(s, p + 6, caps) else Halt(NoMatch)
  {
    var before, next := if s == 0 then '\0' else m.src[s - 1], if s == |m.src| then '\0' else m.src[s];
    OneClassSet(m, p + 2, before, l, capital);
    OneClassSet(m, p + 2, next, l, capital);
    hide InSet, SetEnd;
  }

  lemma {:induction false} OneClassSet(m: Ctx, p: nat, c: char, l: char, capital: char)
    requires p + 3 < |m.pat| && Sane(m.loc, l, capital)
    requires m.pat[p] == '[' && m.pat[p + 1] == '%' && m.pat[p + 2] == l && m.pat[p + 3] == ']'
    ensures EndOfClass(m.pat, p) == EndAt(p + 4) && (InSet(m, c, p, p + 3) <==> m.loc.test(l, c))
  {
    assert SetEnd(m.pat, p + 1) == Some(p + 4);
    InSetAny(m, c, p, p + 3);
    ItemsStep(m.loc, m.pat, p + 1, p + 3, c);
    ItemsEnd(m.loc, m.pat, p + 3, p + 3, c);
    assert "acdglpsuwxz" == "acdglpsuwx" + "z";
    hide InSet, SetItems, SetEnd, AnyHas;
  }

  /** `%bxy`: the shortest piece that starts with x and has as many of the one as of the other. */
  lemma {:induction false} BalancedCounts(src: string, s: nat, i: nat, x: char, y: char)
    requires x != y && s < i <= |src|
    ensures Balanced(src, s, i, x, y) <==>
      && src[s] == x && multiset(src[s..i])[x] == multiset(src[s..i])[y]
      && forall j | s < j < i :: multiset(src[s..j])[x] != multiset(src[s..j])[y]
  {
    if src[s] == x {
      forall j | s < j <= i ensures Depth(src, s, j, x, y) + multiset(src[s..j])[y] == multiset(src[s..j])[x] {
        DepthCounts(src, s, j, x, y);
      }
    }
  }

  lemma {:induction false} DepthCounts(src: string, s: nat, i: nat, x: char, y: char)
    requires x != y && s < i <= |src| && src[s] == x
    ensures Depth(src, s, i, x, y) + multiset(src[s..i])[y] == multiset(src[s..i])[x]
    decreases i
  {
    if i == s + 1 {
      assert src[s..i] == [x];
    } else {
      DepthCounts(src, s, i - 1, x, y);
      assert src[s..i] == src[s..i - 1] + [src[i - 1]];
    }
  }

  // ----- Finding -----

  /** A pattern of one item is found at the leftmost character of the item. */
  lemma {:induction false} FindItem(src: string, pat: string, loc: Locale, init: nat, f: Finding)
    requires init <= |src| && Plain(pat, 0) && pat[0] != '^' && EndOfClass(pat, 0) == EndAt(|pat|)
        && Finds(src, pat, loc, init, f)
    ensures var m := Ctx(src, pat, loc);
      match f
      case Nothing => forall i: nat | init <= i < |src| :: !SingleAt(m, i, 0, |pat|)
      case FoundAt(start, end, caps) =>
        && init <= start < |src| && end == start + 1 && caps == [] && SingleAt(m, start, 0, |pat|)
        && forall i: nat | init <= i < start :: !SingleAt(m, i, 0, |pat|)
      case Failed(_) => false
  {
    hide SingleAt, EndOfClass, Fails, Preferred;
    var m := Ctx(src, pat, loc);
    forall i: nat | init <= i <= |src|
      ensures Preferred(m, i, 0, [], if SingleAt(m, i, 0, |pat|) then Match(i + 1, []) else NoMatch)
    {
      ItemLast(m, i, 0, []);
    }
    match f {
      case Nothing =>
        NothingFails(src, pat, loc, init);
        forall i: nat | init <= i < |src| ensures !SingleAt(m, i, 0, |pat|) {
          FailsOnly(m, i, if SingleAt(m, i, 0, |pat|) then Match(i + 1, []) else NoMatch);
        }
      case FoundAt(start, end, caps) =>
        OneOutcome(m, start, 0, [], Match(end, caps), if SingleAt(m, start, 0, |pat|) then Match(start + 1, [])
            else NoMatch);
        forall i: nat | init <= i < start ensures !SingleAt(m, i, 0, |pat|) {
          FailsOnly(m, i, if SingleAt(m, i, 0, |pat|) then Match(i + 1, []) else NoMatch);
        }
      case Failed(why) =>
        var start: nat :| FirstStart(m, init, |src|, start, Error(why));
        OneOutcome(m, start, 0, [], Error(why), if SingleAt(m, start, 0, |pat|) then Match(start + 1, []) else NoMatch);
    }
  }

  lemma {:induction false} NothingFails(src: string, pat: string, loc: Locale, init: nat)
    requires init <= |src| && CharAt(pat, 0) != '^' && Finds(src, pat, loc, init, Nothing)
    ensures forall s: nat | init <= s <= |src| :: Fails(Ctx(src, pat, loc), s, 0, [])
  {
  }

  /** Where nothing matches there is no other outcome. */
  lemma {:induction false} FailsOnly(m: Ctx, s: nat, out: Out)
    requires s <= |m.src| && Fails(m, s, 0, []) && Preferred(m, s, 0, [], out)
    ensures out == NoMatch
  {
    assert Preferred(m, s, 0, [], NoMatch);
    OneOutcome(m, s, 0, [], out, NoMatch);
  }

  /** string.find with `%l`: the leftmost character of the class. */
  lemma {:induction false} FindClass(src: string, l: char, capital: char, loc: Locale, init: nat, f: Finding)
    requires init <= |src| && Sane(loc, l, capital) && Finds(src, ['%', l], loc, init, f)
    ensures match f
      case Nothing => forall i | init <= i < |src| :: !loc.test(l, src[i])
      case FoundAt(start, end, caps) =>
        && init <= start < |src| && end == start + 1 && caps == [] && loc.test(l, src[start])
        && forall i | init <= i < start :: !loc.test(l, src[i])
      case Failed(_) => false
  {
    var pat := ['%', l];
    var m := Ctx(src, pat, loc);
    NotSpecial(l);
    FindItem(src, pat, loc, init, f);
    forall i: nat | i < |src| ensures SingleAt(m, i, 0, 2) <==> loc.test(l, src[i]) {
      ClassItem(m, i, 0, l, capital);
    }
    hide SingleAt;
  }

  lemma {:induction false} NotSpecial(l: char)
    requires l in "acdglpsuwx"
    ensures l != 'b' && l != 'f' && !('0' <= l <= '9')
  {
  }

  /** string.find with `^%l$`: the rest of the subject must be one character of the class. */
  lemma {:induction false} FindAnchored(src: string, l: char, capital: char, loc: Locale, init: nat, f: Finding)
    requires init <= |src| && Sane(loc, l, capital) && Finds(src, ['^', '%', l, '$'], loc, init, f)
    ensures f == if init + 1 == |src| && loc.test(l, src[init]) then FoundAt(init, init + 1, []) else Nothing
  {
    var m := Ctx(src, ['%', l, '$'], loc);
    assert ['^', '%', l, '$'][1..] == m.pat;
    var out := if init + 1 == |src| && loc.test(l, src[init]) then Match(init + 1, []) else NoMatch;
    AnchoredHere(m, init, l, capital);
    hide Preferred, Fails;
    match f {
      case Nothing => FailsOnly(m, init, out);
      case FoundAt(start, end, caps) => OneOutcome(m, init, 0, [], Match(end, caps), out);
      case Failed(why) => OneOutcome(m, init, 0, [], Error(why), out);
    }
  }

  lemma {:induction false} AnchoredHere(m: Ctx, s: nat, l: char, capital: char)
    requires m.pat == ['%', l, '$'] && s <= |m.src| && Sane(m.loc, l, capital)
    ensures Preferred(m, s, 0, [], if s + 1 == |m.src| && m.loc.test(l, m.src[s]) then Match(s + 1, []) else NoMatch)
  {
    NotSpecial(l);
    PlainStep(m, s, 0, []);
    if s < |m.src| { ClassItem(m, s, 0, l, capital); }
    if s < |m.src| && m.loc.test(l, m.src[s]) {
      assert StepAt(m, s, 0, []) == Go(s + 1, 2, []);
      HaltPreferred(m, s + 1, 2, []);
      GoPreferred(m, s, 0, [], if s + 1 == |m.src| then Match(s + 1, []) else NoMatch);
    } else {
      HaltPreferred(m, s, 0, []);
    }
    hide Preferred, SingleAt;
  }

  /** string.find with `%l+`: the leftmost run of characters of the class, all of it. */
  lemma {:induction false} FindRun(src: string, l: char, capital: char, loc: Locale, init: nat, f: Finding)
    requires init <= |src| && Sane(loc, l, capital) && Finds(src, ['%', l, '+'], loc, init, f)
    ensures match f
      case Nothing => forall i | init <= i < |src| :: !loc.test(l, src[i])
      case FoundAt(start, end, caps) =>
        && init <= start < end <= |src| && caps == [] && (forall i | start <= i < end :: loc.test(l, src[i]))
        && (forall i | init <= i < start :: !loc.test(l, src[i])) && (end < |src| ==> !loc.test(l, src[end]))
      case Failed(_) => false
  {
    hide Fails, Preferred;
    var pat := ['%', l, '+'];
    var m := Ctx(src, pat, loc);
    NotSpecial(l);
    match f {
      case Nothing =>
        NothingFails(src, pat, loc, init);
        forall i: nat | init <= i < |src| ensures !loc.test(l, src[i]) {
          var out := RunFrom(m, i, l, capital);
          FailsOnly(m, i, out);
        }
      case FoundAt(start, end, caps) =>
        var out := RunFrom(m, start, l, capital);
        OneOutcome(m, start, 0, [], Match(end, caps), out);
        forall i: nat | init <= i < start ensures !loc.test(l, src[i]) {
          var none := RunFrom(m, i, l, capital);
          FailsOnly(m, i, none);
        }
      case Failed(why) =>
        var start: nat :| FirstStart(m, init, |src|, start, Error(why));
        var out := RunFrom(m, start, l, capital);
        OneOutcome(m, start, 0, [], Error(why), out);
    }
  }

  lemma {:induction false} RunFrom(m: Ctx, s: nat, l: char, capital: char) returns (out: Out)
    requires m.pat == ['%', l, '+'] && s <= |m.src| && Sane(m.loc, l, capital)
    ensures Preferred(m, s, 0, [], out) && !out.Error?
    ensures out == NoMatch <==> s == |m.src| || !m.loc.test(l, m.src[s])
    ensures out.Match? ==>
      && s < out.e <= |m.src| && out.caps == [] && (forall i | s <= i < out.e :: m.loc.test(l, m.src[i]))
      && (out.e < |m.src| ==> !m.loc.test(l, m.src[out.e]))
  {
    hide Preferred;
    var n := 0;
    while s + n < |m.src| && m.loc.test(l, m.src[s + n])
      invariant s + n <= |m.src| && forall i | s <= i < s + n :: m.loc.test(l, m.src[i])
    {
      n := n + 1;
    }
    ClassRun(m, s, 0, 2, l, capital, n);
    RunLast(m, s, 0, [], 2, n);
    out := if n == 0 then NoMatch else Match(s + n, []);
  }
}
