/** The backtracking matcher of Lua's string library (modules/lua/lstrlib.c). */
module LuaMatch {
  import opened Common
  import opened LuaPattern

  /** A position in the subject, NULL, or an error that unwinds the whole match. */
  datatype Result = Null | At(s: nat) | Raised(why: Reason)

  function Outcome(r: Result, caps: seq<Cap>): Out {
    match r
    case Null => NoMatch
    case At(s) => Match(s, caps)
    case Raised(why) => Error(why)
  }

  ghost predicate AnyHas(loc: Locale, items: seq<SetItem>, c: char) {
    exists it :: it in items && ItemHas(loc, it, c)
  }

  lemma {:induction false} AnyFirst(loc: Locale, it: SetItem, items: seq<SetItem>, c: char)
    ensures AnyHas(loc, [it] + items, c) <==> ItemHas(loc, it, c) || AnyHas(loc, items, c)
  {
    assert it in [it] + items;
    assert forall x :: x in [it] + items <==> x == it || x in items;
  }

  lemma {:induction false} InSetAny(m: Ctx, c: char, p: nat, ec: nat)
    requires p < ec <= |m.pat|
    ensures var neg := CharAt(m.pat, p + 1) == '^';
      InSet(m, c, p, ec) == (AnyHas(m.loc, SetItems(m.pat, if neg then p + 2 else p + 1, ec), c) != neg)
  {
  }

  lemma {:induction false} ItemsEnd(loc: Locale, pat: string, q: nat, ec: nat, c: char)
    requires ec <= |pat| && q >= ec
    ensures !AnyHas(loc, SetItems(pat, q, ec), c)
  {
  }

  /** The first item of a set, and the others. */
  lemma {:induction false} ItemsStep(loc: Locale, pat: string, q: nat, ec: nat, c: char)
    requires q < ec <= |pat|
    ensures AnyHas(loc, SetItems(pat, q, ec), c) ==
      if pat[q] == '%' then MatchClass(loc, c, CharAt(pat, q + 1)) || AnyHas(loc, SetItems(pat, q + 2, ec), c)
      else if CharAt(pat, q + 1) == '-' && q + 2 < ec then pat[q] <= c <= pat[q + 2]
          || AnyHas(loc, SetItems(pat, q + 3, ec), c)
      else pat[q] == c || AnyHas(loc, SetItems(pat, q + 1, ec), c)
  {
    hide AnyHas, MatchClass;
    if pat[q] == '%' {
      AnyFirst(loc, Class(CharAt(pat, q + 1)), SetItems(pat, q + 2, ec), c);
    } else if CharAt(pat, q + 1) == '-' && q + 2 < ec {
      AnyFirst(loc, Range(pat[q], pat[q + 2]), SetItems(pat, q + 3, ec), c);
    } else {
      AnyFirst(loc, Range(pat[q], pat[q]), SetItems(pat, q + 1, ec), c);
    }
  }

  lemma {:induction false} CapsLater(caps: seq<Cap>, s: nat, s': nat)
    requires CapsOk(caps, s) && s <= s'
    ensures CapsOk(caps, s')
  {
  }

  lemma {:induction false} RepeatsOne(m: Ctx, s: nat, p: nat, ep: nat, k: nat)
    requires p < ep <= |m.pat| && k > 0
    ensures Repeats(m, s, p, ep, k) <==> SingleAt(m, s, p, ep) && Repeats(m, s + 1, p, ep, k - 1)
  {
    if SingleAt(m, s, p, ep) && Repeats(m, s + 1, p, ep, k - 1) {
      forall i: nat | s <= i < s + k ensures SingleAt(m, i, p, ep) {}
    }
  }

  lemma {:induction false} RepeatsMore(m: Ctx, s: nat, p: nat, ep: nat, k: nat)
    requires p < ep <= |m.pat| && s <= |m.src|
    ensures Repeats(m, s, p, ep, 0)
    ensures Repeats(m, s, p, ep, k + 1) <==> Repeats(m, s, p, ep, k) && SingleAt(m, s + k, p, ep)
    ensures forall j: nat | j <= k :: Repeats(m, s, p, ep, k) ==> Repeats(m, s, p, ep, j)
  {
    if Repeats(m, s, p, ep, k) && SingleAt(m, s + k, p, ep) {
      forall i: nat | s <= i < s + (k + 1) ensures SingleAt(m, i, p, ep) {}
    }
  }

  class MatchState {
    const m: Ctx
    var level: nat
    const capture: array<Cap>

    predicate Valid()
      reads this
    {
      capture.Length == MAXCAPTURES && level <= MAXCAPTURES
    }

    function Caps(): seq<Cap>
      requires Valid()
      reads this, capture
    {
      capture[..level]
    }

    constructor (m: Ctx)
      ensures Valid() && this.m == m && fresh(capture) && Caps() == []
    {
      this.m := m;
      level := 0;
      capture := new Cap[MAXCAPTURES](i => Cap(0, Unfinished));
    }

    /** classend */
    method FindClassEnd(p: nat) returns (r: ClassEnd)
      requires p < |m.pat|
      ensures r == EndOfClass(m.pat, p)
    {
      var q := p + 1;
      if m.pat[p] == '%' {
        if q == |m.pat| { return BadClass(EndsWithPercent); }
        return EndAt(q + 1);
      }
      if m.pat[p] == '[' {
        if CharAt(m.pat, q) == '^' { q := q + 1; }
        ghost var q0 := q;
        while true
          invariant 0 <= q <= |m.pat| && SetEnd(m.pat, q) == SetEnd(m.pat, q0)
          decreases |m.pat| - q
        {
          if q == |m.pat| { return BadClass(MissingBracket); }
          var c := m.pat[q];
          q := q + 1;
          if c == '%' && q < |m.pat| { q := q + 1; }
          if CharAt(m.pat, q) == ']' { break; }
        }
        return EndAt(q + 1);
      }
      return EndAt(q);
    }

    /** matchbracketclass */
    method MatchBracketClass(c: char, p: nat, ec: nat) returns (r: bool)
      requires p < ec <= |m.pat|
      ensures r == InSet(m, c, p, ec)
    {
      hide SetItems, AnyHas, MatchClass;
      var sig, q := true, p;
      if CharAt(m.pat, q + 1) == '^' { sig, q := false, q + 1; }
      q := q + 1;
      ghost var items := SetItems(m.pat, q, ec);
      InSetAny(m, c, p, ec);
      while q < ec
        invariant 0 <= q && AnyHas(m.loc, items, c) == AnyHas(m.loc, SetItems(m.pat, q, ec), c)
        decreases ec - q
      {
        ItemsStep(m.loc, m.pat, q, ec, c);
        if m.pat[q] == '%' {
          q := q + 1;
          if MatchClass(m.loc, c, CharAt(m.pat, q)) { return sig; }
        } else if CharAt(m.pat, q + 1) == '-' && q + 2 < ec {
          q := q + 2;
          if m.pat[q - 2] <= c && c <= m.pat[q] { return sig; }
        } else if m.pat[q] == c {
          return sig;
        }
        q := q + 1;
      }
      ItemsEnd(m.loc, m.pat, q, ec, c);
      return !sig;
    }

    /** singlematch, with the check for the end of the subject before it. */
    method SingleMatch(s: nat, p: nat, ep: nat) returns (r: bool)
      requires p < |m.pat| && EndOfClass(m.pat, p) == EndAt(ep)
      ensures r == SingleAt(m, s, p, ep)
    {
      hide InSet;
      if s >= |m.src| { return false; }
      var c := m.src[s];
      match m.pat[p] {
        case '.' => return true;
        case '%' => return MatchClass(m.loc, c, CharAt(m.pat, p + 1));
        case '[' =>
          r := MatchBracketClass(c, p, ep - 1);
          return;
        case _ => return m.pat[p] == c;
      }
    }

    /** matchbalance: the shortest piece in which the two characters balance. */
    method MatchBalance(s: nat, p: nat) returns (r: Result)
      requires s <= |m.src| && p <= |m.pat|
      ensures r.Raised? <==> p + 1 >= |m.pat|
      ensures r.Raised? ==> r.why == MissingBalance
      ensures r.At? ==> Balanced(m.src, s, r.s, m.pat[p], m.pat[p + 1])
      ensures r.Null? ==> Unbalanced(m.src, s, m.pat[p], m.pat[p + 1])
    {
      if p + 1 >= |m.pat| { return Raised(MissingBalance); }
      if CharAt(m.src, s) != m.pat[p] { return Null; }
      var b, e, cont := m.pat[p], m.pat[p + 1], 1;
      var i := s + 1;
      while i < |m.src|
        invariant s + 1 <= i && (s < |m.src| ==> i <= |m.src| && cont == Depth(m.src, s, i, b, e))
        invariant s < |m.src| ==> forall j | s < j <= i :: Depth(m.src, s, j, b, e) != 0
      {
        if m.src[i] == e {
          cont := cont - 1;
          if cont == 0 {
            assert Depth(m.src, s, i + 1, b, e) == 0;
            return At(i + 1);
          }
        } else if m.src[i] == b {
          cont := cont + 1;
        }
        i := i + 1;
      }
      return Null;
    }

    /** check_capture and match_capture */
    method MatchCapture(s: nat, c: char) returns (r: Result)
      requires Valid() && s <= |m.src| && CapsOk(Caps(), s)
      ensures match Referred(Caps(), c)
        case None => r == Raised(InvalidIndex)
        case Some(l) =>
          var cap := Caps()[l];
          r == if cap.size.Len? && s + cap.size.n <= |m.src| && m.src[s..s + cap.size.n] == m.src[cap.init..cap.init
              + cap.size.n]
               then At(s + cap.size.n) else Null
    {
      var l := c as int - '1' as int;
      if l < 0 || l >= level || capture[l].size == Unfinished { return Raised(InvalidIndex); }
      var cap := capture[l];
      assert Caps()[l] == cap;
      if cap.size.Len? && |m.src| - s >= cap.size.n && m.src[cap.init..cap.init + cap.size.n]
          == m.src[s..s + cap.size.n] {
        return At(s + cap.size.n);
      }
      return Null;
    }

    /** capture_to_close */
    method CaptureToClose() returns (r: Option<nat>)
      requires Valid()
      ensures r == None ==> NoneOpen(Caps())
      ensures r.Some? ==> LastOpen(Caps(), r.value)
    {
      var l := level;
      while l > 0
        invariant 0 <= l <= level && forall j | l <= j < level :: capture[j].size != Unfinished
      {
        l := l - 1;
        if capture[l].size == Unfinished { return Some(l); }
      }
      return None;
    }

    /** start_capture: undone when the rest of the pattern fails. */
    method StartCapture(s: nat, p: nat, what: Size) returns (r: Result)
      requires Valid() && p <= |m.pat| && s <= |m.src| && CapsOk(Caps(), s) && !what.Len?
      modifies `level, capture
      ensures Valid() && (r == Null ==> Caps() == old(Caps()))
      ensures if old(level) >= MAXCAPTURES then r == Raised(TooManyCaptures)
              else CapsOk(old(Caps()) + [Cap(s, what)], s) && Preferred(m, s, p, old(Caps()) + [Cap(s, what)],
                  Outcome(r, Caps()))
      decreases |m.pat| - p, 3
    {
      hide Preferred;
      if level >= MAXCAPTURES { return Raised(TooManyCaptures); }
      ghost var caps := Caps();
      capture[level] := Cap(s, what);
      level := level + 1;
      assert Caps() == caps + [Cap(s, what)];
      r := MatchFrom(s, p);
      if r == Null {
        level := level - 1;
        assert Caps() == (caps + [Cap(s, what)])[..|caps|];
      }
    }

    /** end_capture: the last open capture is closed, and opened again when the
        rest of the pattern fails. */
    method EndCapture(s: nat, p: nat) returns (r: Result)
      requires Valid() && p <= |m.pat| && s <= |m.src| && CapsOk(Caps(), s)
      modifies `level, capture
      ensures Valid() && (r == Null ==> Caps() == old(Caps()))
      ensures NoneOpen(old(Caps())) ==> r == Raised(InvalidCapture)
      ensures forall l: nat | LastOpen(old(Caps()), l) :: ClosedPreferred(s, p, old(Caps()), l, r, Caps())
      decreases |m.pat| - p, 3
    {
      hide Preferred;
      var o := CaptureToClose();
      if o == None { return Raised(InvalidCapture); }
      var l := o.value;
      ghost var caps := Caps();
      assert CapsOk(caps, s) && caps[l] == capture[l];
      capture[l] := Cap(capture[l].init, Len(s - capture[l].init));
      assert Caps() == caps[l := Cap(caps[l].init, Len(s - caps[l].init))];
      r := MatchFrom(s, p);
      if r == Null {
        assert capture[l] == Caps()[l];
        capture[l] := Cap(capture[l].init, Unfinished);
        assert Caps() == caps[l := Cap(caps[l].init, Unfinished)];
        assert Caps() == caps;
      }
    }

    ghost predicate ClosedPreferred(s: nat, p: nat, caps: seq<Cap>, l: nat, r: Result, now: seq<Cap>)
      requires p <= |m.pat| && s <= |m.src| && CapsOk(caps, s) && l < |caps|
    {
      var closed := caps[l := Cap(caps[l].init, Len(s - caps[l].init))];
      CapsOk(closed, s) && Preferred(m, s, p, closed, Outcome(r, now))
    }

    /** max_expand: as many repetitions as there are, then one less at a time. */
    method MaxExpand(s: nat, p: nat, ep: nat) returns (r: Result, ghost k: nat)
      requires Valid() && s <= |m.src| && p < |m.pat| && EndOfClass(m.pat, p) == EndAt(ep) && ep < |m.pat|
          && CapsOk(Caps(), s)
      modifies `level, capture
      ensures Valid() && (r == Null ==> Caps() == old(Caps()))
      ensures forall j: nat | Repeats(m, s, p, ep, j) && (r == Null || j > k) :: FailsAt(m, s, ep + 1, old(Caps()), j)
      ensures r != Null ==> Repeats(m, s, p, ep, k) && s + k <= |m.src| && CapsOk(old(Caps()), s + k)
      ensures r != Null ==> Preferred(m, s + k, ep + 1, old(Caps()), Outcome(r, Caps()))
      decreases |m.pat| - ep, 0
    {
      hide Preferred, SingleAt, Repeats;
      ghost var caps := Caps();
      var i := 0;
      RepeatsMore(m, s, p, ep, 0);
      var more := SingleMatch(s + i, p, ep);
      while more
        invariant Valid() && Caps() == caps
        invariant 0 <= i && s + i <= |m.src| && Repeats(m, s, p, ep, i) && more == SingleAt(m, s + i, p, ep)
        decreases |m.src| - (s + i)
      {
        RepeatsMore(m, s, p, ep, i);
        RepeatsInside(m, s, p, ep, i + 1);
        i := i + 1;
        more := SingleMatch(s + i, p, ep);
      }
      NoMore(m, s, p, ep, i);
      k := 0;
      while i >= 0
        invariant -1 <= i && s + i <= |m.src| && Valid() && Caps() == caps
        invariant i >= 0 ==> Repeats(m, s, p, ep, i)
        invariant forall j: nat | Repeats(m, s, p, ep, j) && j > i :: FailsAt(m, s, ep + 1, caps, j)
      {
        CapsLater(caps, s, s + i);
        r := MatchFrom(s + i, ep + 1);
        if r != Null {
          k := i;
          return;
        }
        NullFails(m, s, ep + 1, caps, i);
        if i > 0 { RepeatsMore(m, s, p, ep, i); }
        i := i - 1;
      }
      return Null, 0;
    }

    /** min_expand: one repetition more at a time. */
    method MinExpand(s0: nat, p: nat, ep: nat) returns (r: Result, ghost k: nat)
      requires Valid() && s0 <= |m.src| && p < |m.pat| && EndOfClass(m.pat, p) == EndAt(ep) && ep < |m.pat|
          && CapsOk(Caps(), s0)
      modifies `level, capture
      ensures Valid() && (r == Null ==> Caps() == old(Caps()))
      ensures forall j: nat | Repeats(m, s0, p, ep, j) && (r == Null || j < k) :: FailsAt(m, s0, ep + 1, old(Caps()), j)
      ensures r != Null ==> Repeats(m, s0, p, ep, k) && s0 + k <= |m.src| && CapsOk(old(Caps()), s0 + k)
      ensures r != Null ==> Preferred(m, s0 + k, ep + 1, old(Caps()), Outcome(r, Caps()))
      decreases |m.pat| - ep, 0
    {
      hide Preferred, SingleAt, Repeats;
      ghost var caps := Caps();
      var s := s0;
      k := 0;
      RepeatsMore(m, s0, p, ep, 0);
      while true
        invariant s == s0 + k <= |m.src| && Repeats(m, s0, p, ep, k) && Valid() && Caps() == caps
        invariant forall j: nat | Repeats(m, s0, p, ep, j) && j < k :: FailsAt(m, s0, ep + 1, caps, j)
        decreases |m.src| - s
      {
        CapsLater(caps, s0, s);
        r := MatchFrom(s, ep + 1);
        if r != Null { return; }
        NullFails(m, s0, ep + 1, caps, k);
        RepeatsMore(m, s0, p, ep, k);
        var more := SingleMatch(s, p, ep);
        if !more {
          NoMore(m, s0, p, ep, k);
          return;
        }
        RepeatsInside(m, s0, p, ep, k + 1);
        s, k := s + 1, k + 1;
      }
    }

    /** match, an item with or without a suffix. */
    method MatchItem(s: nat, p: nat) returns (n: Next)
      requires Valid() && p < |m.pat| && s <= |m.src| && CapsOk(Caps(), s) && StepAt(m, s, p, Caps()) == ItemStep(m, s,
          p, Caps())
      modifies `level, capture
      ensures Valid() && NextOk(s, p, old(Caps()), n, Caps())
      decreases |m.pat| - p, 0
    {
      hide Preferred, StepAt, SingleAt, Repeats;
      ghost var caps := Caps();
      var c := FindClassEnd(p);
      if c.BadClass? {
        HaltPreferred(m, s, p, caps);
        return Done(Raised(c.why));
      }
      var ep := c.ep;
      var one := SingleMatch(s, p, ep);
      match CharAt(m.pat, ep) {
        case '?' =>
          if one {
            SingleInside(m, s, p, ep);
            CapsLater(caps, s, s + 1);
            var r := MatchFrom(s + 1, ep + 1);
            if r != Null {
              OptTaken(m, s, p, caps, ep, Outcome(r, Caps()));
              return Done(r);
            }
          }
          OptLeft(m, s, p, caps, ep, one);
          return Continue(s, ep + 1);
        case '*' =>
          var r, k := MaxExpand(s, p, ep);
          if r != Null { ChosenPreferred(m, s, p, caps, Star, ep, k, Outcome(r, Caps())); }
              else { ChosenNone(m, s, p, caps, Star, ep); }
          return Done(r);
        case '+' =>
          if !one {
            PlusNone(m, s, p, caps, ep);
            return Done(Null);
          }
          SingleInside(m, s, p, ep);
          CapsLater(caps, s, s + 1);
          var r, k := MaxExpand(s + 1, p, ep);
          PlusRest(m, s, p, caps, ep, s + 1, k, r, Outcome(r, Caps()));
          return Done(r);
        case '-' =>
          var r, k := MinExpand(s, p, ep);
          if r != Null { ChosenPreferred(m, s, p, caps, Minus, ep, k, Outcome(r, Caps())); }
              else { ChosenNone(m, s, p, caps, Minus, ep); }
          return Done(r);
        case _ =>
          if !one {
            HaltPreferred(m, s, p, caps);
            return Done(Null);
          }
          GoLeads(m, s, p, caps);
          return Continue(s + 1, ep);
      }
    }

    /** match, behind a percent sign. */
    method MatchPercent(s: nat, p: nat) returns (n: Next)
      requires Valid() && p < |m.pat| && s <= |m.src| && CapsOk(Caps(), s) && m.pat[p] == '%'
      modifies `level, capture
      ensures Valid() && NextOk(s, p, old(Caps()), n, Caps())
      decreases |m.pat| - p, 1
    {
      hide Preferred, InSet, ItemStep, LastOpen, Balanced;
      ghost var caps := Caps();
      var d := CharAt(m.pat, p + 1);
      if d == 'b' {
        var r := MatchBalance(s, p + 2);
        BalanceStep(m, s, p, caps, r);
        match r {
          case Null =>
            HaltPreferred(m, s, p, caps);
            return Done(r);
          case Raised(_) =>
            HaltPreferred(m, s, p, caps);
            return Done(r);
          case At(e) =>
            GoLeads(m, s, p, caps);
            return Continue(e, p + 4);
        }
      } else if d == 'f' {
        if CharAt(m.pat, p + 2) != '[' {
          HaltPreferred(m, s, p, caps);
          return Done(Raised(MissingFrontier));
        }
        var c := FindClassEnd(p + 2);
        if c.BadClass? {
          HaltPreferred(m, s, p, caps);
          return Done(Raised(c.why));
        }
        var before := MatchBracketClass(CharAt(m.src, s - 1), p + 2, c.ep - 1);
        var at := MatchBracketClass(CharAt(m.src, s), p + 2, c.ep - 1);
        if before || !at {
          HaltPreferred(m, s, p, caps);
          return Done(Null);
        }
        GoLeads(m, s, p, caps);
        return Continue(s, c.ep);
      } else if IsDigit(d) {
        var r := MatchCapture(s, d);
        if !r.At? {
          HaltPreferred(m, s, p, caps);
          return Done(r);
        }
        GoLeads(m, s, p, caps);
        return Continue(r.s, p + 2);
      }
      n := MatchItem(s, p);
    }

    /** What one round of match leaves: a preferred outcome, or a place to go on
        from whose preferred outcome is the one for `p`. */
    ghost predicate NextOk(s: nat, p: nat, caps: seq<Cap>, n: Next, now: seq<Cap>)
      requires p <= |m.pat| && s <= |m.src| && CapsOk(caps, s)
    {
      match n
      case Done(r) => Preferred(m, s, p, caps, Outcome(r, now)) && (r == Null ==> now == caps)
      case Continue(s', p') => s <= s' <= |m.src| && p < p' <= |m.pat| && now == caps && CapsOk(caps, s') && Leads(m, s,
          p, s', p', caps)
    }

    /** match */
    method MatchFrom(s0: nat, p0: nat) returns (r: Result)
      requires Valid() && p0 <= |m.pat| && s0 <= |m.src| && CapsOk(Caps(), s0)
      modifies `level, capture
      ensures Valid() && Preferred(m, s0, p0, old(Caps()), Outcome(r, Caps()))
      ensures r == Null ==> Caps() == old(Caps())
      decreases |m.pat| - p0, 2
    {
      hide Preferred, PercentStep, ItemStep, Leads;
      ghost var caps := Caps();
      var s, p := s0, p0;
      LeadsSelf(m, s, p, caps);
      while true
        invariant p0 <= p <= |m.pat| && s0 <= s <= |m.src| && Valid() && Caps() == caps && CapsOk(caps, s)
        invariant Leads(m, s0, p0, s, p, caps)
        decreases |m.pat| - p
      {
        var n;
        if p == |m.pat| {
          HaltPreferred(m, s, p, caps);
          n := Done(At(s));
        } else if m.pat[p] == '(' {
          n := MatchOpen(s, p);
        } else if m.pat[p] == ')' {
          n := MatchClose(s, p);
        } else if m.pat[p] == '$' && p + 1 == |m.pat| {
          HaltPreferred(m, s, p, caps);
          n := Done(if s == |m.src| then At(s) else Null);
        } else if m.pat[p] == '%' {
          n := MatchPercent(s, p);
        } else {
          n := MatchItem(s, p);
        }
        match n {
          case Done(res) =>
            LeadsTo(m, s0, p0, s, p, caps, Outcome(res, Caps()));
            return res;
          case Continue(s', p') =>
            LeadsOn(m, s0, p0, s, p, s', p', caps);
            s, p := s', p';
        }
      }
    }

    method MatchOpen(s: nat, p: nat) returns (n: Next)
      requires Valid() && p < |m.pat| && s <= |m.src| && CapsOk(Caps(), s) && m.pat[p] == '('
      modifies `level, capture
      ensures Valid() && NextOk(s, p, old(Caps()), n, Caps())
      decreases |m.pat| - p, 1
    {
      hide Preferred, PercentStep, ItemStep, LastOpen;
      ghost var caps := Caps();
      var r: Result;
      if CharAt(m.pat, p + 1) == ')' { r := StartCapture(s, p + 2, Position); }
          else { r := StartCapture(s, p + 1, Unfinished); }
      if |caps| >= MAXCAPTURES { HaltPreferred(m, s, p, caps); } else { GoPreferred(m, s, p, caps, Outcome(r, Caps()));
          }
      return Done(r);
    }

    method MatchClose(s: nat, p: nat) returns (n: Next)
      requires Valid() && p < |m.pat| && s <= |m.src| && CapsOk(Caps(), s) && m.pat[p] == ')'
      modifies `level, capture
      ensures Valid() && NextOk(s, p, old(Caps()), n, Caps())
      decreases |m.pat| - p, 1
    {
      hide Preferred, PercentStep, ItemStep;
      ghost var caps := Caps();
      var r := EndCapture(s, p + 1);
      if l: nat :| LastOpen(caps, l) {
        assert ClosedPreferred(s, p + 1, caps, l, r, Caps());
        OpenOnce(m, s, p, caps, l);
        GoPreferred(m, s, p, caps, Outcome(r, Caps()));
      } else {
        NoneLast(caps, |caps|);
        HaltPreferred(m, s, p, caps);
      }
      return Done(r);
    }
  }

  datatype Next = Done(r: Result) | Continue(s: nat, p: nat)

  ghost predicate Leads(m: Ctx, s0: nat, p0: nat, s: nat, p: nat, caps: seq<Cap>)
    requires p0 <= |m.pat| && s0 <= |m.src| && CapsOk(caps, s0) && p <= |m.pat| && s <= |m.src| && CapsOk(caps, s)
  {
    forall out | Preferred(m, s, p, caps, out) :: Preferred(m, s0, p0, caps, out)
  }

  lemma {:induction false} LeadsSelf(m: Ctx, s: nat, p: nat, caps: seq<Cap>)
    requires p <= |m.pat| && s <= |m.src| && CapsOk(caps, s)
    ensures Leads(m, s, p, s, p, caps)
  {
  }

  lemma {:induction false} LeadsTo(m: Ctx, s0: nat, p0: nat, s: nat, p: nat, caps: seq<Cap>, out: Out)
    requires p0 <= |m.pat| && s0 <= |m.src| && CapsOk(caps, s0) && p <= |m.pat| && s <= |m.src| && CapsOk(caps, s)
    requires Leads(m, s0, p0, s, p, caps) && Preferred(m, s, p, caps, out)
    ensures Preferred(m, s0, p0, caps, out)
  {
  }

  lemma {:induction false} LeadsOn(m: Ctx, s0: nat, p0: nat, s: nat, p: nat, s': nat, p': nat, caps: seq<Cap>)
    requires p0 <= |m.pat| && s0 <= |m.src| && CapsOk(caps, s0) && p <= |m.pat| && s <= |m.src| && CapsOk(caps, s)
    requires p' <= |m.pat| && s' <= |m.src| && CapsOk(caps, s')
    requires Leads(m, s0, p0, s, p, caps) && Leads(m, s, p, s', p', caps)
    ensures Leads(m, s0, p0, s', p', caps)
  {
    hide Preferred;
  }

  lemma {:induction false} GoLeads(m: Ctx, s: nat, p: nat, caps: seq<Cap>)
    requires p <= |m.pat| && s <= |m.src| && CapsOk(caps, s) && StepAt(m, s, p, caps).Go? && StepAt(m, s, p, caps).caps
        == caps
    ensures var r := StepAt(m, s, p, caps);
        s <= r.s <= |m.src| && p < r.p <= |m.pat| && CapsOk(caps, r.s) && Leads(m, s, p, r.s, r.p, caps)
  {
    hide StepAt, Preferred;
    var r := StepAt(m, s, p, caps);
    forall out | Preferred(m, r.s, r.p, caps, out)
      ensures Preferred(m, s, p, caps, out) { GoPreferred(m, s, p, caps, out); }
  }

  lemma {:induction false} SingleInside(m: Ctx, s: nat, p: nat, ep: nat)
    requires p < ep <= |m.pat| && SingleAt(m, s, p, ep)
    ensures s < |m.src|
  {
  }

  /** `?`, with the character. */
  lemma {:induction false} OptTaken(m: Ctx, s: nat, p: nat, caps: seq<Cap>, ep: nat, out: Out)
    requires p <= |m.pat| && s < |m.src| && CapsOk(caps, s) && StepAt(m, s, p, caps) == Choose(Opt, ep)
    requires SingleAt(m, s, p, ep) && CapsOk(caps, s + 1) && out != NoMatch && Preferred(m, s + 1, ep + 1, caps, out)
    ensures Preferred(m, s, p, caps, out)
  {
    hide StepAt, SingleAt, Preferred, Repeats;
    RepeatsMore(m, s, p, ep, 0);
    assert FirstChoice(m, s, p, caps, Opt, ep, 1);
    ChosenPreferred(m, s, p, caps, Opt, ep, 1, out);
  }

  /** `?`, without the character. */
  lemma {:induction false} OptLeft(m: Ctx, s: nat, p: nat, caps: seq<Cap>, ep: nat, one: bool)
    requires p <= |m.pat| && s <= |m.src| && CapsOk(caps, s) && StepAt(m, s, p, caps) == Choose(Opt, ep)
    requires one == SingleAt(m, s, p, ep)
    requires one ==> s < |m.src| && CapsOk(caps, s + 1) && Preferred(m, s + 1, ep + 1, caps, NoMatch)
    ensures ep < |m.pat| && Leads(m, s, p, s, ep + 1, caps)
  {
    hide StepAt, SingleAt, Preferred, Repeats, FailsAt;
    RepeatsMore(m, s, p, ep, 0);
    if one { NullFails(m, s, ep + 1, caps, 1); }
    forall out | Preferred(m, s, ep + 1, caps, out) ensures Preferred(m, s, p, caps, out) {
      if out == NoMatch {
        NullFails(m, s, ep + 1, caps, 0);
        assert forall k: nat | Allowed(Opt, k) :: k == 0 || k == 1;
        ChosenNone(m, s, p, caps, Opt, ep);
      } else {
        assert FirstChoice(m, s, p, caps, Opt, ep, 0);
        ChosenPreferred(m, s, p, caps, Opt, ep, 0, out);
      }
    }
  }

  lemma {:induction false} PlusNone(m: Ctx, s: nat, p: nat, caps: seq<Cap>, ep: nat)
    requires p <= |m.pat| && s <= |m.src| && CapsOk(caps, s) && StepAt(m, s, p, caps) == Choose(Plus, ep)
        && !SingleAt(m, s, p, ep)
    ensures Preferred(m, s, p, caps, NoMatch)
  {
    hide StepAt, SingleAt, Preferred, Repeats, FailsAt;
    forall k: nat | Allowed(Plus, k) ensures !Repeats(m, s, p, ep, k) { RepeatsOne(m, s, p, ep, k); }
    ChosenNone(m, s, p, caps, Plus, ep);
  }

  /** `+`: one character, then as for `*`. */
  lemma {:induction false} PlusRest(m: Ctx, s: nat, p: nat, caps: seq<Cap>, ep: nat, s1: nat, k: nat, r: Result,
      out: Out)
    requires p <= |m.pat| && s < |m.src| && CapsOk(caps, s) && StepAt(m, s, p, caps) == Choose(Plus, ep)
        && SingleAt(m, s, p, ep)
    requires s1 == s + 1 && CapsOk(caps, s1)
    requires forall j: nat | Repeats(m, s1, p, ep, j) && (r == Null || j > k) :: FailsAt(m, s1, ep + 1, caps, j)
    requires r == Null <==> out == NoMatch
    requires r != Null ==> Repeats(m, s1, p, ep, k) && s1 + k <= |m.src| && CapsOk(caps, s1 + k) && Preferred(m, s1 + k,
        ep + 1, caps, out)
    ensures Preferred(m, s, p, caps, out)
  {
    hide StepAt, SingleAt, Preferred, Repeats;
    forall j: nat | j >= 1 && Repeats(m, s, p, ep, j) && (r == Null || j > k + 1)
      ensures FailsAt(m, s, ep + 1, caps, j)
    {
      RepeatsOne(m, s, p, ep, j);
      assert FailsAt(m, s1, ep + 1, caps, j - 1);
      assert s1 + (j - 1) == s + j;
    }
    if r == Null {
      ChosenNone(m, s, p, caps, Plus, ep);
    } else {
      RepeatsOne(m, s, p, ep, k + 1);
      assert s1 + k == s + (k + 1);
      assert FirstChoice(m, s, p, caps, Plus, ep, k + 1);
      ChosenPreferred(m, s, p, caps, Plus, ep, k + 1, out);
    }
  }

  lemma {:induction false} BalanceStep(m: Ctx, s: nat, p: nat, caps: seq<Cap>, r: Result)
    requires p + 1 < |m.pat| && s <= |m.src| && CapsOk(caps, s) && m.pat[p] == '%' && m.pat[p + 1] == 'b'
    requires r.Raised? <==> p + 3 >= |m.pat|
    requires r.Raised? ==> r.why == MissingBalance
    requires r.At? ==> Balanced(m.src, s, r.s, m.pat[p + 2], m.pat[p + 3])
    requires r.Null? ==> Unbalanced(m.src, s, m.pat[p + 2], m.pat[p + 3])
    ensures StepAt(m, s, p, caps)
        == match r { case Null => Halt(NoMatch) case Raised(why) => Halt(Error(why)) case At(e) => Go(e, p + 4, caps) }
  {
    hide Balanced;
    if r.At? {
      var b, e := m.pat[p + 2], m.pat[p + 3];
      var i: nat :| Balanced(m.src, s, i, b, e) && StepAt(m, s, p, caps) == Go(i, p + 4, caps);
      BalancedOnce(m.src, s, i, r.s, b, e);
    }
  }

  lemma {:induction false} OpenOnce(m: Ctx, s: nat, p: nat, caps: seq<Cap>, l: nat)
    requires p < |m.pat| && m.pat[p] == ')' && s <= |m.src| && CapsOk(caps, s) && LastOpen(caps, l)
    ensures StepAt(m, s, p, caps) == Go(s, p + 1, caps[l := Cap(caps[l].init, Len(s - caps[l].init))])
  {
  }

  lemma {:induction false} NoneLast(caps: seq<Cap>, n: nat)
    requires n <= |caps| && (forall l: nat :: !LastOpen(caps, l)) && forall j | n <= j < |caps| ::
        caps[j].size != Unfinished
    ensures NoneOpen(caps)
  {
    if n > 0 {
      assert !LastOpen(caps, n - 1);
      NoneLast(caps, n - 1);
    }
  }

  lemma {:induction false} NoMore(m: Ctx, s: nat, p: nat, ep: nat, i: nat)
    requires p < ep <= |m.pat| && s + i <= |m.src| && !SingleAt(m, s + i, p, ep)
    ensures forall j: nat | j > i :: !Repeats(m, s, p, ep, j)
  {
  }

  lemma {:induction false} NullFails(m: Ctx, s: nat, p: nat, caps: seq<Cap>, i: nat)
    requires p <= |m.pat| && s + i <= |m.src| && CapsOk(caps, s) && CapsOk(caps, s + i) && Preferred(m, s + i, p, caps,
        NoMatch)
    ensures FailsAt(m, s, p, caps, i)
  {
  }

  /** What str_find_aux returns, before the captures are pushed. */
  datatype Finding = Nothing | FoundAt(start: nat, end: nat, caps: seq<Cap>) | Failed(why: Reason)

  /** `start` is the first position where the pattern leads anywhere. */
  ghost predicate FirstStart(m: Ctx, init: nat, last: nat, start: nat, out: Out) {
    && init <= start <= last <= |m.src| && Preferred(m, start, 0, [], out)
    && forall s: nat | init <= s < start :: Fails(m, s, 0, [])
  }

  ghost predicate SomeStart(m: Ctx, init: nat, last: nat, out: Out) {
    exists start: nat :: FirstStart(m, init, last, start, out)
  }

  ghost predicate NoStart(m: Ctx, init: nat, last: nat)
    requires last <= |m.src|
  {
    forall s: nat | init <= s <= last :: Fails(m, s, 0, [])
  }

  /** The leftmost start from which the pattern matches; behind a leading `^` only the
      first start is tried. */
  ghost predicate Finds(src: string, pattern: string, loc: Locale, init: nat, f: Finding)
    requires init <= |src|
  {
    var anchor := CharAt(pattern, 0) == '^';
    var m, last := Ctx(src, if anchor then pattern[1..] else pattern, loc), if anchor then init else |src|;
    match f
    case Nothing => NoStart(m, init, last)
    case FoundAt(start, end, caps) => start <= end <= |src| && FirstStart(m, init, last, start, Match(end, caps))
    case Failed(why) => SomeStart(m, init, last, Error(why))
  }

  /** str_find_aux with a pattern. */
  method Find(src: string, pattern: string, loc: Locale, init: nat) returns (f: Finding)
    requires init <= |src|
    ensures Finds(src, pattern, loc, init, f)
  {
    hide Best, Follow;
    var anchor := CharAt(pattern, 0) == '^';
    var m := Ctx(src, if anchor then pattern[1..] else pattern, loc);
    ghost var last := if anchor then init else |src|;
    var ms := new MatchState(m);
    var s1 := init;
    while true
      invariant ms.m == m && ms.Valid() && fresh(ms) && fresh(ms.capture)
      invariant init <= s1 <= |src| && (anchor ==> s1 == init)
      invariant forall s: nat | init <= s < s1 :: Fails(m, s, 0, [])
      decreases |src| - s1
    {
      ms.level := 0;
      assert ms.Caps() == [];
      var res := ms.MatchFrom(s1, 0);
      match res {
        case At(e) =>
          MatchInside(m, s1, 0, [], Outcome(res, ms.Caps()));
          return FoundAt(s1, e, ms.Caps());
        case Raised(why) =>
          assert FirstStart(m, init, last, s1, Error(why)) && SomeStart(m, init, last, Error(why));
          return Failed(why);
        case Null =>
      }
      if s1 >= |src| || anchor { break; }
      s1 := s1 + 1;
    }
    return Nothing;
  }

  lemma {:induction false} MatchInside(m: Ctx, s: nat, p: nat, caps: seq<Cap>, out: Out)
    requires p <= |m.pat| && s <= |m.src| && CapsOk(caps, s) && Preferred(m, s, p, caps, out) && out.Match?
    ensures s <= out.e <= |m.src|
  {
    var ch: seq<nat> :| Follow(m, s, p, caps, ch) == out;
  }
}
