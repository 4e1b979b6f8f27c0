/** What a Lua pattern means (Lua 5.2 Reference Manual, section 6.4.1;
    modules/lua/lstrlib.c): a pattern is followed under given numbers of
    repetitions, and one such list of numbers is preferred to another. */
module LuaPattern {
  import opened Common

  const MAXCAPTURES: nat := 32

  /** The character classes of the C locale in use. */
  datatype Locale = Locale(lower: char -> char, isLower: char -> bool, test: (char, char) -> bool)

  /** A subject, a pattern (both followed by a zero byte in memory), a locale. */
  datatype Ctx = Ctx(src: string, pat: string, loc: Locale)

  function CharAt(s: string, i: int): char {
    if 0 <= i < |s| then s[i] else '\0'
  }

  datatype Size = Unfinished | Position | Len(n: nat)
  datatype Cap = Cap(init: nat, size: Size)

  datatype Reason =
    | EndsWithPercent | MissingBracket | MissingBalance | MissingFrontier
    | TooManyCaptures | InvalidIndex | InvalidCapture

  datatype Out = NoMatch | Match(e: nat, caps: seq<Cap>) | Error(why: Reason)

  // ----- Single characters -----

  /** match_class */
  function MatchClass(loc: Locale, c: char, cl: char): bool {
    var k := loc.lower(cl);
    if k in "acdglpsuwxz" then
      var res := if k == 'z' then c == '\0' else loc.test(k, c);
      if loc.isLower(cl) then res else !res
    else cl == c
  }

  datatype SetItem = Class(cl: char) | Range(lo: char, hi: char)

  predicate ItemHas(loc: Locale, it: SetItem, c: char) {
    match it
    case Class(cl) => MatchClass(loc, c, cl)
    case Range(lo, hi) => lo <= c <= hi
  }

  /** What a set consists of between `p` and its closing bracket at `ec`. */
  function SetItems(pat: string, p: nat, ec: nat): seq<SetItem>
    requires ec <= |pat|
    decreases ec - p
  {
    if p >= ec then []
    else if pat[p] == '%' then [Class(CharAt(pat, p + 1))] + SetItems(pat, p + 2, ec)
    else if CharAt(pat, p + 1) == '-' && p + 2 < ec then [Range(pat[p], pat[p + 2])] + SetItems(pat, p + 3, ec)
    else [Range(pat[p], pat[p])] + SetItems(pat, p + 1, ec)
  }

  /** A set, from its bracket at `p`, complemented or not. */
  ghost predicate InSet(m: Ctx, c: char, p: nat, ec: nat)
    requires ec <= |m.pat|
  {
    var neg := CharAt(m.pat, p + 1) == '^';
    (exists it :: it in SetItems(m.pat, if neg then p + 2 else p + 1, ec) && ItemHas(m.loc, it, c)) != neg
  }

  /** The end of a set: the next bracket behind at least one character, escapes aside. */
  function SetEnd(pat: string, p: nat): (r: Option<nat>)
    ensures r.Some? ==> p < r.value <= |pat|
    decreases |pat| - p
  {
    if p >= |pat| then None
    else
      var q := if pat[p] == '%' && p + 1 < |pat| then p + 2 else p + 1;
      if CharAt(pat, q) == ']' then Some(q + 1) else SetEnd(pat, q)
  }

  datatype ClassEnd = BadClass(why: Reason) | EndAt(ep: nat)

  function EndOfClass(pat: string, p: nat): (r: ClassEnd)
    requires p < |pat|
    ensures r.EndAt? ==> p < r.ep <= |pat| && (pat[p] == '[' ==> r.ep >= p + 2)
  {
    if pat[p] == '%' then
      if p + 1 == |pat| then BadClass(EndsWithPercent) else EndAt(p + 2)
    else if pat[p] == '[' then
      match SetEnd(pat, if CharAt(pat, p + 1) == '^' then p + 2 else p + 1)
      case None => BadClass(MissingBracket)
      case Some(ep) => EndAt(ep)
    else EndAt(p + 1)
  }

  /** One character against the item of the pattern from `p` to `ep`. */
  ghost predicate Single(m: Ctx, c: char, p: nat, ep: nat)
    requires p < ep <= |m.pat|
  {
    if m.pat[p] == '.' then true
    else if m.pat[p] == '%' then MatchClass(m.loc, c, CharAt(m.pat, p + 1))
    else if m.pat[p] == '[' then InSet(m, c, p, ep - 1)
    else m.pat[p] == c
  }

  ghost predicate SingleAt(m: Ctx, s: nat, p: nat, ep: nat)
    requires p < ep <= |m.pat|
  {
    s < |m.src| && Single(m, m.src[s], p, ep)
  }

  /** `k` characters from `s` on are of the item. */
  ghost predicate Repeats(m: Ctx, s: nat, p: nat, ep: nat, k: nat)
    requires p < ep <= |m.pat|
  {
    s + k <= |m.src| && forall i: nat | s <= i < s + k :: SingleAt(m, i, p, ep)
  }

  // ----- %b, %1 and captures -----

  /** Openings minus closings from `s` to `i`; the first character opens. */
  ghost function Depth(src: string, s: nat, i: nat, b: char, e: char): int
    requires s < i <= |src|
  {
    if i == s + 1 then 1
    else Depth(src, s, i - 1, b, e) + if src[i - 1] == e then -1 else if src[i - 1] == b then 1 else 0
  }

  /** The shortest balanced piece from `s` on ends at `i`. */
  ghost predicate Balanced(src: string, s: nat, i: nat, b: char, e: char) {
    s + 1 < i <= |src| && src[s] == b && Depth(src, s, i, b, e) == 0 && forall j | s < j < i ::
        Depth(src, s, j, b, e) != 0
  }

  ghost predicate Unbalanced(src: string, s: nat, b: char, e: char) {
    forall i: nat :: !Balanced(src, s, i, b, e)
  }

  lemma {:induction false} BalancedOnce(src: string, s: nat, i: nat, j: nat, b: char, e: char)
    requires Balanced(src, s, i, b, e) && Balanced(src, s, j, b, e)
    ensures i == j
  {
  }

  /** The last capture that is still open. */
  ghost predicate LastOpen(caps: seq<Cap>, l: nat) {
    l < |caps| && caps[l].size == Unfinished && forall j | l < j < |caps| :: caps[j].size != Unfinished
  }

  ghost predicate NoneOpen(caps: seq<Cap>) {
    forall j | 0 <= j < |caps| :: caps[j].size != Unfinished
  }

  /** Captures lie in the part of the subject that has been matched. */
  ghost predicate CapsOk(caps: seq<Cap>, s: nat) {
    forall j | 0 <= j < |caps| :: caps[j].init <= s && (caps[j].size.Len? ==> caps[j].init + caps[j].size.n <= s)
  }

  predicate IsDigit(c: char) {
    '0' <= c <= '9'
  }

  /** The capture a back reference names. */
  function Referred(caps: seq<Cap>, c: char): (r: Option<nat>)
    ensures r.Some? ==> r.value < |caps|
  {
    var l := c as int - '1' as int;
    if l < 0 || l >= |caps| || caps[l].size == Unfinished then None else Some(l)
  }

  // ----- Following a pattern -----

  datatype Times = Opt | Star | Plus | Minus

  /** The next thing a pattern says: the match ends here with this outcome, it
      goes on in one way, or an item is repeated. */
  datatype Step = Halt(out: Out) | Go(s: nat, p: nat, caps: seq<Cap>) | Choose(times: Times, ep: nat)

  function Suffix(c: char): Option<Times> {
    if c == '?' then Some(Opt) else if c == '*' then Some(Star) else if c == '+' then Some(Plus)
        else if c == '-' then Some(Minus) else None
  }

  ghost function ItemStep(m: Ctx, s: nat, p: nat, caps: seq<Cap>): (r: Step)
    requires p < |m.pat| && s <= |m.src|
    ensures r.Choose? ==> EndOfClass(m.pat, p) == EndAt(r.ep) && r.ep < |m.pat| && Suffix(m.pat[r.ep]) == Some(r.times)
    ensures r.Go? ==> EndOfClass(m.pat, p) == EndAt(r.p) && r.s == s + 1 <= |m.src| && r.caps == caps
    ensures r.Halt? ==> !r.out.Match?
  {
    match EndOfClass(m.pat, p)
    case BadClass(why) => Halt(Error(why))
    case EndAt(ep) =>
      match Suffix(CharAt(m.pat, ep))
      case Some(t) => Choose(t, ep)
      case None => if SingleAt(m, s, p, ep) then Go(s + 1, ep, caps) else Halt(NoMatch)
  }

  ghost function PercentStep(m: Ctx, s: nat, p: nat, caps: seq<Cap>): (r: Step)
    requires p < |m.pat| && m.pat[p] == '%' && s <= |m.src| && CapsOk(caps, s)
    ensures r.Go? ==> p < r.p <= |m.pat| && s <= r.s <= |m.src| && r.caps == caps
    ensures r.Choose? ==> EndOfClass(m.pat, p) == EndAt(r.ep) && r.ep < |m.pat| && Suffix(m.pat[r.ep]) == Some(r.times)
    ensures r.Halt? ==> !r.out.Match?
  {
    var d := CharAt(m.pat, p + 1);
    if d == 'b' then
      if p + 3 >= |m.pat| then Halt(Error(MissingBalance))
      else
        var b, e := m.pat[p + 2], m.pat[p + 3];
        if i: nat :| Balanced(m.src, s, i, b, e) then Go(i, p + 4, caps) else Halt(NoMatch)
    else if d == 'f' then
      if CharAt(m.pat, p + 2) != '[' then Halt(Error(MissingFrontier))
      else
        match EndOfClass(m.pat, p + 2)
        case BadClass(why) => Halt(Error(why))
        case EndAt(ep) =>
          if !InSet(m, CharAt(m.src, s - 1), p + 2, ep - 1) && InSet(m, CharAt(m.src, s), p + 2, ep - 1) then Go(s, ep,
              caps) else Halt(NoMatch)
    else if IsDigit(d) then
      match Referred(caps, d)
      case None => Halt(Error(InvalidIndex))
      case Some(l) =>
        var c := caps[l];
        if c.size.Len? && s + c.size.n <= |m.src| && m.src[s..s + c.size.n]
            == m.src[c.init..c.init + c.size.n] then Go(s + c.size.n, p + 2, caps)
        else Halt(NoMatch)
    else ItemStep(m, s, p, caps)
  }

  ghost function StepAt(m: Ctx, s: nat, p: nat, caps: seq<Cap>): (r: Step)
    requires p <= |m.pat| && s <= |m.src| && CapsOk(caps, s)
    ensures r.Go? ==> p < r.p <= |m.pat| && s <= r.s <= |m.src| && CapsOk(r.caps, r.s)
    ensures r.Choose?
        ==> p < |m.pat| && EndOfClass(m.pat, p) == EndAt(r.ep) && r.ep < |m.pat| && Suffix(m.pat[r.ep]) == Some(r.times)
  {
    if p == |m.pat| then Halt(Match(s, caps))
    else if m.pat[p] == '(' then
      if |caps| >= MAXCAPTURES then Halt(Error(TooManyCaptures))
      else if CharAt(m.pat, p + 1) == ')' then Go(s, p + 2, caps + [Cap(s, Position)])
      else Go(s, p + 1, caps + [Cap(s, Unfinished)])
    else if m.pat[p] == ')' then
      if l: nat :| LastOpen(caps, l) then Go(s, p + 1, caps[l := Cap(caps[l].init, Len(s - caps[l].init))])
      else Halt(Error(InvalidCapture))
    else if m.pat[p] == '$' && p + 1 == |m.pat| then
      Halt(if s == |m.src| then Match(s, caps) else NoMatch)
    else if m.pat[p] == '%' then PercentStep(m, s, p, caps)
    else ItemStep(m, s, p, caps)
  }

  predicate Allowed(t: Times, k: nat) {
    (t == Opt ==> k <= 1) && (t == Plus ==> k >= 1)
  }

  /** The outcome when the repeated items are repeated just so often. */
  ghost function Follow(m: Ctx, s: nat, p: nat, caps: seq<Cap>, ch: seq<nat>): (r: Out)
    requires p <= |m.pat| && s <= |m.src| && CapsOk(caps, s)
    ensures r.Match? ==> s <= r.e <= |m.src|
    decreases |m.pat| - p
  {
    match StepAt(m, s, p, caps)
    case Halt(out) => if ch == [] then out else NoMatch
    case Go(s', p', caps') => Follow(m, s', p', caps', ch)
    case Choose(t, ep) =>
      if ch != [] && Allowed(t, ch[0]) && Repeats(m, s, p, ep, ch[0]) then Follow(m, s + ch[0], ep + 1, caps, ch[1..])
          else NoMatch
  }

  // ----- Preference -----

  datatype Shape = Last | Skip(next: nat) | Quantified(times: Times, ep: nat)

  /** What the pattern alone says about `p`. */
  function ItemShape(pat: string, p: nat): (r: Shape)
    requires p < |pat|
    ensures r.Skip? ==> EndOfClass(pat, p) == EndAt(r.next)
    ensures r.Quantified? ==> EndOfClass(pat, p) == EndAt(r.ep) && r.ep < |pat|
  {
    match EndOfClass(pat, p)
    case BadClass(_) => Last
    case EndAt(ep) => match Suffix(CharAt(pat, ep)) case Some(t) => Quantified(t, ep) case None => Skip(ep)
  }

  function ShapeAt(pat: string, p: nat): (r: Shape)
    requires p <= |pat|
    ensures r.Skip? ==> p < r.next <= |pat|
    ensures r.Quantified? ==> p < r.ep < |pat|
  {
    if p == |pat| then Last
    else if pat[p] == '(' then (if CharAt(pat, p + 1) == ')' then Skip(p + 2) else Skip(p + 1))
    else if pat[p] == ')' then Skip(p + 1)
    else if pat[p] == '$' && p + 1 == |pat| then Last
    else if pat[p] == '%' && CharAt(pat, p + 1) == 'b' then (if p + 3 < |pat| then Skip(p + 4) else Last)
    else if pat[p] == '%' && CharAt(pat, p + 1) == 'f' then
      (if CharAt(pat, p + 2) != '[' then Last else match EndOfClass(pat,
          p + 2) case BadClass(_) => Last case EndAt(ep) => Skip(ep))
    else if pat[p] == '%' && IsDigit(CharAt(pat, p + 1)) then Skip(p + 2)
    else ItemShape(pat, p)
  }

  /** `a` is tried before `b`: at the first item where they differ it repeats
      more often, or less often where the suffix is a minus sign. */
  ghost predicate Better(pat: string, p: nat, a: seq<nat>, b: seq<nat>)
    requires p <= |pat|
    decreases |pat| - p
  {
    match ShapeAt(pat, p)
    case Last => false
    case Skip(next) => Better(pat, next, a, b)
    case Quantified(t, ep) =>
      a != [] && b != [] &&
      if a[0] == b[0] then Better(pat, ep + 1, a[1..], b[1..]) else if t == Minus then a[0] < b[0] else a[0] > b[0]
  }

  /** No way to follow the pattern leads anywhere. */
  ghost predicate Fails(m: Ctx, s: nat, p: nat, caps: seq<Cap>)
    requires p <= |m.pat| && s <= |m.src| && CapsOk(caps, s)
  {
    forall ch: seq<nat> :: Follow(m, s, p, caps, ch) == NoMatch
  }

  ghost predicate Best(m: Ctx, s: nat, p: nat, caps: seq<Cap>, ch: seq<nat>)
    requires p <= |m.pat| && s <= |m.src| && CapsOk(caps, s)
  {
    forall other: seq<nat> | Follow(m, s, p, caps, other) != NoMatch :: other == ch || Better(m.pat, p, ch, other)
  }

  /** `out` is what the most preferred way leads to. */
  ghost predicate Preferred(m: Ctx, s: nat, p: nat, caps: seq<Cap>, out: Out)
    requires p <= |m.pat| && s <= |m.src| && CapsOk(caps, s)
  {
    if out == NoMatch then Fails(m, s, p, caps)
    else exists ch: seq<nat> :: Follow(m, s, p, caps, ch) == out && Best(m, s, p, caps, ch)
  }

  // ----- One step -----

  lemma {:induction false} HaltPreferred(m: Ctx, s: nat, p: nat, caps: seq<Cap>)
    requires p <= |m.pat| && s <= |m.src| && CapsOk(caps, s) && StepAt(m, s, p, caps).Halt?
    ensures Preferred(m, s, p, caps, StepAt(m, s, p, caps).out)
  {
    hide StepAt, Better;
    var out := StepAt(m, s, p, caps).out;
    if out != NoMatch {
      assert Follow(m, s, p, caps, []) == out;
      assert Best(m, s, p, caps, []);
    }
  }

  lemma {:induction false} GoShape(m: Ctx, s: nat, p: nat, caps: seq<Cap>)
    requires p <= |m.pat| && s <= |m.src| && CapsOk(caps, s)
    ensures var r := StepAt(m, s, p, caps);
      && (r.Go? ==> ShapeAt(m.pat, p) == Skip(r.p))
      && (r.Choose? ==> ShapeAt(m.pat, p) == Quantified(r.times, r.ep))
  {
  }

  lemma {:induction false} GoPreferred(m: Ctx, s: nat, p: nat, caps: seq<Cap>, out: Out)
    requires p <= |m.pat| && s <= |m.src| && CapsOk(caps, s) && StepAt(m, s, p, caps).Go?
    requires var r := StepAt(m, s, p, caps); Preferred(m, r.s, r.p, r.caps, out)
    ensures Preferred(m, s, p, caps, out)
  {
    hide StepAt, ShapeAt;
    GoShape(m, s, p, caps);
    var r := StepAt(m, s, p, caps);
    if out == NoMatch {
      forall ch: seq<nat>
        ensures Follow(m, s, p, caps, ch) == NoMatch { assert Follow(m, r.s, r.p, r.caps, ch) == NoMatch; }
    } else {
      var ch: seq<nat> :| Follow(m, r.s, r.p, r.caps, ch) == out && Best(m, r.s, r.p, r.caps, ch);
      assert Follow(m, s, p, caps, ch) == out;
      forall other: seq<nat> | Follow(m, s, p, caps, other) != NoMatch
        ensures other == ch || Better(m.pat, p, ch, other)
      {
        assert Follow(m, r.s, r.p, r.caps, other) != NoMatch;
      }
      assert Best(m, s, p, caps, ch);
    }
  }

  /** `i` repetitions are the preferred number that leads anywhere. */
  ghost predicate FirstChoice(m: Ctx, s: nat, p: nat, caps: seq<Cap>, t: Times, ep: nat, i: nat)
    requires p < ep < |m.pat| && s <= |m.src| && CapsOk(caps, s)
  {
    && Allowed(t, i) && Repeats(m, s, p, ep, i)
    && forall k: nat | k != i && Allowed(t, k) && Repeats(m, s, p, ep, k) && (if t == Minus then k < i else k > i) ::
        FailsAt(m, s, ep + 1, caps, k)
  }

  ghost predicate FailsAt(m: Ctx, s: nat, p: nat, caps: seq<Cap>, k: nat)
    requires p <= |m.pat| && s <= |m.src| && CapsOk(caps, s)
  {
    s + k <= |m.src| ==> Fails(m, s + k, p, caps)
  }

  lemma {:induction false} ChosenPreferred(m: Ctx, s: nat, p: nat, caps: seq<Cap>, t: Times, ep: nat, i: nat, out: Out)
    requires p <= |m.pat| && s <= |m.src| && CapsOk(caps, s) && StepAt(m, s, p, caps) == Choose(t, ep)
    requires FirstChoice(m, s, p, caps, t, ep, i) && out != NoMatch && Preferred(m, s + i, ep + 1, caps, out)
    ensures Preferred(m, s, p, caps, out)
  {
    hide StepAt, ShapeAt, Repeats;
    GoShape(m, s, p, caps);
    RepeatsInside(m, s, p, ep, i);
    var ch: seq<nat> :| Follow(m, s + i, ep + 1, caps, ch) == out && Best(m, s + i, ep + 1, caps, ch);
    var all := [i] + ch;
    assert all[1..] == ch;
    assert Follow(m, s, p, caps, all) == out;
    forall other: seq<nat> | Follow(m, s, p, caps, other) != NoMatch
      ensures other == all || Better(m.pat, p, all, other)
    {
      var k := other[0];
      assert Repeats(m, s, p, ep, k);
      RepeatsInside(m, s, p, ep, k);
      assert Follow(m, s + k, ep + 1, caps, other[1..]) != NoMatch;
      assert !FailsAt(m, s, ep + 1, caps, k);
      if k == i {
        assert other == [i] + other[1..];
      }
    }
    assert Best(m, s, p, caps, all);
  }

  lemma {:induction false} RepeatsInside(m: Ctx, s: nat, p: nat, ep: nat, k: nat)
    requires p < ep <= |m.pat| && Repeats(m, s, p, ep, k)
    ensures s + k <= |m.src|
  {
  }

  lemma {:induction false} ChosenNone(m: Ctx, s: nat, p: nat, caps: seq<Cap>, t: Times, ep: nat)
    requires p <= |m.pat| && s <= |m.src| && CapsOk(caps, s) && StepAt(m, s, p, caps) == Choose(t, ep)
    requires forall k: nat | Allowed(t, k) && Repeats(m, s, p, ep, k) :: FailsAt(m, s, ep + 1, caps, k)
    ensures Preferred(m, s, p, caps, NoMatch)
  {
    hide StepAt, ShapeAt;
    forall ch: seq<nat> ensures Follow(m, s, p, caps, ch) == NoMatch {
      if ch != [] && Allowed(t, ch[0]) && Repeats(m, s, p, ep, ch[0]) { assert FailsAt(m, s, ep + 1, caps, ch[0]); }
    }
  }

  // ----- One outcome -----

  /** There is only one preferred outcome. */
  lemma {:induction false} OneOutcome(m: Ctx, s: nat, p: nat, caps: seq<Cap>, a: Out, b: Out)
    requires p <= |m.pat| && s <= |m.src| && CapsOk(caps, s) && Preferred(m, s, p, caps, a)
        && Preferred(m, s, p, caps, b)
    ensures a == b
  {
    if a != NoMatch && b != NoMatch {
      var x: seq<nat> :| Follow(m, s, p, caps, x) == a && Best(m, s, p, caps, x);
      var y: seq<nat> :| Follow(m, s, p, caps, y) == b && Best(m, s, p, caps, y);
      if x != y {
        assert Better(m.pat, p, x, y) && Better(m.pat, p, y, x);
        BetterOneWay(m.pat, p, x, y);
      }
    }
  }

  lemma {:induction false} BetterOneWay(pat: string, p: nat, a: seq<nat>, b: seq<nat>)
    requires p <= |pat| && Better(pat, p, a, b)
    ensures !Better(pat, p, b, a)
    decreases |pat| - p
  {
    match ShapeAt(pat, p)
    case Last =>
    case Skip(next) => BetterOneWay(pat, next, a, b);
    case Quantified(t, ep) => if a[0] == b[0] { BetterOneWay(pat, ep + 1, a[1..], b[1..]); }
  }
}
