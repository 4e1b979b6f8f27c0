/** The bytes of a precompiled chunk, place by place: what the official format of
    Lua 5.2 says (modules/lua/ldump.c, modules/lua/lundump.c, modules/lua/lua.h). */
module LuaChunkFormat {
  import opened Common
  import opened LuaChunk
  import opened LuaChunkTrip

  // ----- Numbers and strings -----

  lemma {:induction false} PowOn(i: nat)
    ensures Pow(8 * (i + 1)) == 256 * Pow(8 * i)
  {
    var n := 8 * i;
    assert Pow(n + 2) == 4 * Pow(n) && Pow(n + 4) == 4 * Pow(n + 2);
    assert Pow(n + 6) == 4 * Pow(n + 4) && Pow(n + 8) == 4 * Pow(n + 6);
  }

  /** A count takes `k` bytes, the low ones first. */
  lemma {:induction false} LittleByte(x: nat, k: nat, i: nat)
    requires i < k
    ensures Little(x, k)[i] == x / Pow(8 * i) % 256
    decreases k
  {
    if i > 0 {
      LittleByte(x / 256, k - 1, i - 1);
      PowOn(i - 1);
      DivDiv(x, 256, Pow(8 * (i - 1)));
    }
  }

  /** ... and reading adds them up. */
  lemma {:induction false} ValueByte(s: Bytes, b: Byte)
    ensures Value(s + [b]) == Value(s) + Pow(8 * |s|) * b
    decreases |s|
  {
    if s == [] {
      assert [b][1..] == [];
    } else {
      assert (s + [b])[1..] == s[1..] + [b];
      ValueByte(s[1..], b);
      PowOn(|s| - 1);
      assert 256 * (Pow(8 * (|s| - 1)) * b) == Pow(8 * |s|) * b;
    }
  }

  lemma {:induction false} BaseIs(k: nat)
    ensures Base(k) == Pow(8 * k)
  {
    if k > 0 {
      BaseIs(k - 1);
      PowOn(k - 1);
    }
  }

  lemma {:induction false} ValueBelow(s: Bytes)
    ensures Value(s) < Base(|s|)
    decreases |s|
  {
    if s != [] { ValueBelow(s[1..]); }
  }

  /** A count read with the top bit of its last byte set would be negative. */
  lemma {:induction false} NegativeCount(fmt: Format, s: Bytes)
    requires 0 < fmt.ints <= |s|
    ensures ReadInt(fmt, s)
      == if s[fmt.ints - 1] >= 128 then Bad(Corrupted) else Got(Value(s[..fmt.ints]), s[fmt.ints..])
  {
    var n := fmt.ints - 1;
    var low, b := s[..n], s[n];
    assert s[..fmt.ints] == low + [b];
    ValueByte(low, b);
    ValueBelow(low);
    BaseIs(n);
    BaseIs(n + 1);
    PowOn(n);
    TopByte(Value(low), Pow(8 * n), b);
    hide Pow, Base, Value;
  }

  lemma {:induction false} TopByte(v: nat, p: nat, b: nat)
    requires v < p
    ensures 2 * (v + p * b) >= 256 * p <==> b >= 128
  {
    if b >= 128 { ProductAtMost(128, b, p); } else { ProductAtMost(b, 127, p); }
  }

  /** A string: its length with the zero byte at its end, its bytes, and that byte; for
      no string a size of zero. */
  lemma {:induction false} StrLayout(fmt: Format, t: Bytes, i: nat)
    ensures |StrBytes(fmt, NoStr)| == fmt.sizes && |StrBytes(fmt, Str(t))| == fmt.sizes + |t| + 1
    ensures i < fmt.sizes ==> StrBytes(fmt, NoStr)[i] == 0 && StrBytes(fmt, Str(t))[i] == (|t| + 1) / Pow(8 * i) % 256
    ensures i < |t| ==> StrBytes(fmt, Str(t))[fmt.sizes + i] == t[i]
    ensures StrBytes(fmt, Str(t))[fmt.sizes + |t|] == 0
  {
    if i < fmt.sizes {
      LittleByte(0, fmt.sizes, i);
      LittleByte(|t| + 1, fmt.sizes, i);
    }
  }

  // ----- Constants -----

  /** A constant is its tag, 0 for nil, 1 for a boolean, 3 for a number and 4 for a
      string, and its value. */
  lemma {:induction false} ConstLayout(fmt: Format, b: Byte, w: Bytes, t: Str)
    ensures ConstBytes(fmt, Nil) == [0] && ConstBytes(fmt, Bool(b)) == [1, b]
    ensures ConstBytes(fmt, Number(w)) == [3] + w && ConstBytes(fmt, Text(t)) == [4] + StrBytes(fmt, t)
  {
  }

  /** Reading is the other way round. */
  lemma {:induction false} ConstRead(fmt: Format, b: Byte, w: Bytes, rest: Bytes)
    requires |w| == fmt.numbers
    ensures ReadConst(fmt, [0] + rest) == Got(Nil, rest) && ReadConst(fmt, [1, b] + rest) == Got(Bool(b), rest)
    ensures ReadConst(fmt, [3] + w + rest) == Got(Number(w), rest)
  {
    NextByte(0, rest);
    NextByte(1, [b] + rest);
    NextByte(b, rest);
    assert [1, b] + rest == [1] + ([b] + rest);
    NextByte(3, w + rest);
    assert [3] + w + rest == [3] + (w + rest);
    NextBlock(w, rest);
    hide ReadByte, ReadBlock, ReadStr;
  }

  lemma {:induction false} TextRead(fmt: Format, n: Bytes, t: Bytes, rest: Bytes)
    requires |n| == fmt.sizes && Value(n) == |t| + 1
    ensures ReadConst(fmt, [4] + n + t + [0] + rest) == Got(Text(Str(t)), rest)
  {
    var s := n + (t + [0] + rest);
    NextByte(4, s);
    assert [4] + n + t + [0] + rest == [4] + s;
    NextBlock(n, t + [0] + rest);
    NextBlock(t + [0], rest);
    assert t + [0] + rest == (t + [0]) + rest && (t + [0])[..|t|] == t;
    assert ReadStr(fmt, s) == Got(Str(t), rest);
    hide ReadByte, ReadBlock, ReadStr;
  }

  lemma {:induction false} NextByte(b: Byte, rest: Bytes)
    ensures ReadByte([b] + rest) == Got(b, rest)
  {
    NextBlock([b], rest);
  }

  lemma {:induction false} NextBlock(b: Bytes, rest: Bytes)
    ensures ReadBlock(b + rest, |b|) == Got(b, rest)
  {
    assert (b + rest)[..|b|] == b && (b + rest)[|b|..] == rest;
  }

  // ----- Lists -----

  lemma {:induction false} Join(a: Bytes, b: Bytes, c: Bytes)
    ensures a + (b + c) == a + b + c
  {
  }

  lemma {:induction false} Tail<T>(j: seq<T>, k: seq<T>)
    requires j != []
    ensures j + k != [] && (j + k)[0] == j[0] && (j + k)[1..] == j[1..] + k
  {
  }

  lemma {:induction false} ConstsJoined(fmt: Format, j: seq<Const>, k: seq<Const>)
    ensures ConstsBytes(fmt, []) == [] && ConstsBytes(fmt, j + k) == ConstsBytes(fmt, j) + ConstsBytes(fmt, k)
    decreases j
  {
    hide ConstBytes;
    if j == [] {
      assert j + k == k;
    } else {
      ConstsJoined(fmt, j[1..], k);
      Tail(j, k);
      Join(ConstBytes(fmt, j[0]), ConstsBytes(fmt, j[1..]), ConstsBytes(fmt, k));
    }
  }

  /** A local variable is its name and where it starts and ends to be active. */
  lemma {:induction false} LocVarsJoined(fmt: Format, j: seq<LocVar>, v: LocVar)
    ensures LocVarsBytes(fmt, []) == []
    ensures LocVarsBytes(fmt, j + [v])
      == LocVarsBytes(fmt, j) + (StrBytes(fmt, v.name) + Little(v.startpc, fmt.ints) + Little(v.endpc, fmt.ints))
    decreases j
  {
    hide Little, StrBytes;
    if j == [] {
      assert [v][1..] == [];
      assert j + [v] == [v];
    } else {
      LocVarsJoined(fmt, j[1..], v);
      Tail(j, [v]);
      Join(LocVarBytes(fmt, j[0]), LocVarsBytes(fmt, j[1..]),
        StrBytes(fmt, v.name) + Little(v.startpc, fmt.ints) + Little(v.endpc, fmt.ints));
      hide LocVarBytes;
    }
  }

  lemma {:induction false} NamesJoined(fmt: Format, j: seq<Upval>, u: Upval)
    ensures NamesBytes(fmt, []) == [] && NamesBytes(fmt, j + [u]) == NamesBytes(fmt, j) + StrBytes(fmt, u.name)
    decreases j
  {
    hide StrBytes;
    if j == [] {
      assert [u][1..] == [];
      assert j + [u] == [u];
    } else {
      NamesJoined(fmt, j[1..], u);
      Tail(j, [u]);
      Join(StrBytes(fmt, j[0].name), NamesBytes(fmt, j[1..]), StrBytes(fmt, u.name));
    }
  }

  /** Words of one size lie one after the other. */
  lemma {:induction false} FlatAt(words: seq<Bytes>, size: nat, i: nat, j: nat)
    requires (forall w | w in words :: |w| == size) && i < |words| && j < size
    ensures |Flat(words)| == |words| * size
    ensures 0 <= i * size + j < |words| * size && Flat(words)[i * size + j] == words[i][j]
    decreases |words|
  {
    var rest := words[1..];
    assert words[0] in words && forall w | w in rest :: w in words;
    FlatSize(words, size);
    FlatSize(rest, size);
    ProductAtMost(i + 1, |words|, size);
    assert (i + 1) * size == i * size + size;
    if i > 0 {
      FlatAt(rest, size, i - 1, j);
      assert i * size == size + (i - 1) * size;
      assert Flat(words)[size + ((i - 1) * size + j)] == Flat(rest)[(i - 1) * size + j];
    }
  }

  lemma {:induction false} OneMore(n: nat, size: nat)
    ensures (n + 1) * size == n * size + size
  {
  }

  lemma {:induction false} FlatSize(words: seq<Bytes>, size: nat)
    requires forall w | w in words :: |w| == size
    ensures |Flat(words)| == |words| * size
    decreases |words|
  {
    if words != [] {
      assert words[0] in words && forall w | w in words[1..] :: w in words;
      FlatSize(words[1..], size);
      OneMore(|words| - 1, size);
    }
  }

  lemma {:induction false} UpvalsAt(u: seq<Upval>, i: nat)
    ensures |UpvalsBytes(u)| == 2 * |u|
    ensures i < |u| ==> UpvalsBytes(u)[2 * i] == u[i].instack && UpvalsBytes(u)[2 * i + 1] == u[i].idx
    decreases |u|
  {
    if u != [] { UpvalsAt(u[1..], if i > 0 then i - 1 else 0); }
  }

  // ----- Functions and chunks -----

  lemma {:induction false} FrontLayout(fmt: Format, f: Proto)
    ensures FrontBytes(fmt, f)
      == Little(f.linedefined, fmt.ints) + Little(f.lastlinedefined, fmt.ints)
      + [f.numparams, f.isVararg, f.maxstacksize]
      + Little(|f.code|, fmt.ints) + Flat(f.code)
      + Little(|f.k|, fmt.ints) + ConstsBytes(fmt, f.k)
  {
    hide Little, Flat, ConstsBytes;
    var a, b, c, d := Little(f.linedefined, fmt.ints), Little(f.lastlinedefined, fmt.ints), Little(|f.code|, fmt.ints),
        Little(|f.k|, fmt.ints);
    var code, k, three := Flat(f.code), ConstsBytes(fmt, f.k), [f.numparams, f.isVararg, f.maxstacksize];
    var tail := (c + code) + (d + k);
    Join([f.isVararg], [f.maxstacksize], tail);
    Join([f.numparams], [f.isVararg, f.maxstacksize], tail);
    Join(b, three, tail);
    Join(a, b + three, tail);
    Join(a, b, three);
    Join(a + b + three, c + code, d + k);
    Join(a + b + three, c, code);
    Join(a + b + three + c + code, d, k);
  }

  /** ... without the debug information no string and three zero counts. */
  lemma {:induction false} DebugLayout(fmt: Format, f: Proto, strip: bool)
    ensures DebugBytes(fmt, f, strip) ==
      if strip then Little(0, fmt.sizes) + Little(0, fmt.ints) + Little(0, fmt.ints) + Little(0, fmt.ints) else
      StrBytes(fmt, f.source) + Little(|f.lineinfo|, fmt.ints) + Flat(f.lineinfo)
      + Little(|f.locvars|, fmt.ints) + LocVarsBytes(fmt, f.locvars)
      + Little(|f.upvalues|, fmt.ints) + NamesBytes(fmt, f.upvalues)
  {
    Empty(fmt);
    hide Little, Flat, LocVarsBytes, NamesBytes;
    var source, lineinfo := if strip then NoStr else f.source, if strip then [] else f.lineinfo;
    var locvars, names := if strip then [] else f.locvars, if strip then [] else f.upvalues;
    var s, a, b, c := StrBytes(fmt, source), Little(|lineinfo|, fmt.ints), Little(|locvars|, fmt.ints),
        Little(|names|, fmt.ints);
    var l, v, n := Flat(lineinfo), LocVarsBytes(fmt, locvars), NamesBytes(fmt, names);
    Join(s, a + l, (b + v) + (c + n));
    Join(s, a, l);
    Join(s + a + l, b + v, c + n);
    Join(s + a + l, b, v);
    Join(s + a + l + b + v, c, n);
    assert strip ==> l == [] && v == [] && n == [];
  }

  lemma {:induction false} Empty(fmt: Format)
    ensures Flat([]) == [] && LocVarsBytes(fmt, []) == [] && NamesBytes(fmt, []) == []
  {
  }

  /** The parts of a function, in this order. */
  lemma {:induction false} FunctionLayout(fmt: Format, f: Proto, strip: bool)
    ensures FunctionBytes(fmt, f, strip)
      == Little(f.linedefined, fmt.ints) + Little(f.lastlinedefined, fmt.ints)
      + [f.numparams, f.isVararg, f.maxstacksize]
      + Little(|f.code|, fmt.ints) + Flat(f.code)
      + Little(|f.k|, fmt.ints) + ConstsBytes(fmt, f.k)
      + Little(|f.p|, fmt.ints) + ProtosBytes(fmt, f, 0, strip)
      + Little(|f.upvalues|, fmt.ints) + UpvalsBytes(f.upvalues)
      + DebugBytes(fmt, f, strip)
  {
    FrontLayout(fmt, f);
    hide Little, Flat, ConstsBytes, ProtosBytes, UpvalsBytes, FrontBytes, DebugBytes;
    var front, a, b, debug := FrontBytes(fmt, f), Little(|f.p|, fmt.ints), Little(|f.upvalues|, fmt.ints),
        DebugBytes(fmt, f, strip);
    var p, u := ProtosBytes(fmt, f, 0, strip), UpvalsBytes(f.upvalues);
    Join(front, a + p, (b + u) + debug);
    Join(front, a, p);
    Join(front + a + p, b + u, debug);
    Join(front + a + p, b, u);
  }

  /** Where the first fields of a function are. */
  lemma {:induction false} FrontOffsets(fmt: Format, f: Proto, strip: bool)
    ensures var b, n, m := FunctionBytes(fmt, f, strip), fmt.ints, |Flat(f.code)|;
      && |b| >= 3 * n + 3 + m && b[..n] == Little(f.linedefined, n) && b[n..2 * n] == Little(f.lastlinedefined, n)
      && b[2 * n] == f.numparams && b[2 * n + 1] == f.isVararg && b[2 * n + 2] == f.maxstacksize
      && b[2 * n + 3..3 * n + 3] == Little(|f.code|, n) && b[3 * n + 3..3 * n + 3 + m] == Flat(f.code)
  {
    FrontFirst(fmt, f, strip);
    hide Little, Flat, FunctionBytes;
    var n := fmt.ints;
    var all, three := FunctionBytes(fmt, f, strip), [f.numparams, f.isVararg, f.maxstacksize];
    FiveParts(all, Little(f.linedefined, n), Little(f.lastlinedefined, n), three, Little(|f.code|, n), Flat(f.code));
    assert all[2 * n..2 * n + 3] == three && all[2 * n + 1] == three[1] && all[2 * n + 2] == three[2];
  }

  lemma {:induction false} FrontFirst(fmt: Format, f: Proto, strip: bool)
    ensures Little(f.linedefined, fmt.ints) + Little(f.lastlinedefined, fmt.ints)
      + [f.numparams, f.isVararg, f.maxstacksize]
      + Little(|f.code|, fmt.ints) + Flat(f.code) <= FunctionBytes(fmt, f, strip)
  {
    FunctionLayout(fmt, f, strip);
    hide Little, Flat, ConstsBytes, ProtosBytes, UpvalsBytes, FunctionBytes, DebugBytes;
  }

  lemma {:induction false} FiveParts(all: Bytes, a: Bytes, b: Bytes, c: Bytes, d: Bytes, e: Bytes)
    requires a + b + c + d + e <= all
    ensures |a| + |b| + |c| + |d| + |e| <= |all| && all[..|a|] == a && all[|a|..|a| + |b|] == b
    ensures all[|a| + |b|..|a| + |b| + |c|] == c && all[|a| + |b| + |c|..|a| + |b| + |c| + |d|] == d
    ensures all[|a| + |b| + |c| + |d|..|a| + |b| + |c| + |d| + |e|] == e
  {
  }

  /** Inner functions follow in their order. */
  lemma {:induction false} InnerOrder(fmt: Format, f: Proto, i: nat, strip: bool)
    requires i < |f.p|
    ensures var b := ProtosBytes(fmt, f, i, strip);
      if i + 1 == |f.p| then b == FunctionBytes(fmt, f.p[i], strip)
      else FunctionBytes(fmt, f.p[i], strip) + FunctionBytes(fmt, f.p[i + 1], strip) <= b
  {
    hide FunctionBytes;
  }

  /** A chunk starts with the signature of Lua, its version and format, what the host is
      like, and six bytes that text conversions would damage. */
  lemma {:induction false} ChunkStart(fmt: Format, f: Proto, strip: bool)
    requires FormatOk(fmt)
    ensures var b := ChunkBytes(fmt, f, strip);
      && |b| >= 18 && b[..6] == [0x1B, 0x4C, 0x75, 0x61, 0x52, 0x00]
      && b[6..12] == [1, fmt.ints, fmt.sizes, fmt.codes, fmt.numbers, if fmt.integral then 1 else 0]
      && b[12..18] == [0x19, 0x93, 0x0D, 0x0A, 0x1A, 0x0A] && b[18..] == FunctionBytes(fmt, f, strip)
  {
    hide FunctionBytes;
    var h := Header(fmt);
    assert ChunkBytes(fmt, f, strip)[..18] == h;
  }

  /** Which error a wrong header gives depends on the first byte that is wrong. */
  lemma {:induction false} HeaderErrors(fmt: Format, h: Bytes, s: Bytes, i: nat)
    requires FormatOk(fmt) && |h| == 18 && |s| >= 17 && 1 <= i < 18
    requires h == [0x1B, 0x4C, 0x75, 0x61, 0x52, 0x00]
      + [1, fmt.ints, fmt.sizes, fmt.codes, fmt.numbers, if fmt.integral then 1 else 0]
      + [0x19, 0x93, 0x0D, 0x0A, 0x1A, 0x0A]
    requires (forall j | 1 <= j < i :: s[j - 1] == h[j]) && s[i - 1] != h[i]
    ensures ReadHeader(fmt, s)
      == Bad(if i < 4 then NotA else if i < 6 then VersionMismatch else if i < 12 then Incompatible else Corrupted)
  {
    var x := [Header(fmt)[0]] + s[..17];
    assert Header(fmt) == h;
    hide Header;
    forall j | 0 <= j < i ensures x[j] == h[j] {}
    assert x[i] == s[i - 1];
    forall n | i < n <= 18 ensures x[..n] != h[..n] { assert x[..n][i] != h[..n][i]; }
    forall n | 0 <= n <= i ensures x[..n] == h[..n] {}
    assert x[..18] == x && h[..18] == h;
  }

  /** Stripping takes the debug information and nothing else. */
  lemma {:induction false} StrippedKeeps(f: Proto, i: nat)
    ensures var g := Stripped(f);
      && g.linedefined == f.linedefined && g.lastlinedefined == f.lastlinedefined && g.numparams == f.numparams
      && g.isVararg == f.isVararg && g.maxstacksize == f.maxstacksize && g.code == f.code && g.k == f.k
      && |g.upvalues| == |f.upvalues| && |g.p| == |f.p|
      && (i < |f.upvalues| ==> g.upvalues[i] == Upval(f.upvalues[i].instack, f.upvalues[i].idx, NoStr))
      && (i < |f.p| ==> g.p[i] == Stripped(f.p[i]))
      && g.source == NoStr && g.lineinfo == [] && g.locvars == []
  {
  }
}
