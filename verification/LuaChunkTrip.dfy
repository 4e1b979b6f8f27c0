/** Reading a dumped function gives the function back. */
module LuaChunkTrip {
  import opened Common
  import opened LuaChunk

  // ----- Functions that can be dumped: their numbers fit the host's types -----

  predicate IntOk(fmt: Format, x: nat) {
    2 * x < Base(fmt.ints)
  }

  predicate StrOk(fmt: Format, s: Str) {
    s.Str? ==> |s.s| + 1 < Base(fmt.sizes)
  }

  predicate WordsOk(fmt: Format, w: seq<Bytes>, size: nat) {
    IntOk(fmt, |w|) && forall i | 0 <= i < |w| :: |w[i]| == size
  }

  predicate ConstOk(fmt: Format, c: Const) {
    (c.Number? ==> |c.w| == fmt.numbers) && (c.Text? ==> StrOk(fmt, c.t))
  }

  predicate LocVarOk(fmt: Format, v: LocVar) {
    StrOk(fmt, v.name) && IntOk(fmt, v.startpc) && IntOk(fmt, v.endpc)
  }

  predicate ProtoOk(fmt: Format, f: Proto)
    decreases f
  {
    && IntOk(fmt, 0) && IntOk(fmt, f.linedefined) && IntOk(fmt, f.lastlinedefined)
    && WordsOk(fmt, f.code, fmt.codes) && IntOk(fmt, |f.k|) && IntOk(fmt, |f.p|) && IntOk(fmt, |f.upvalues|)
    && (forall i | 0 <= i < |f.k| :: ConstOk(fmt, f.k[i]))
    && (forall i | 0 <= i < |f.p| :: ProtoOk(fmt, f.p[i]))
    && StrOk(fmt, f.source) && WordsOk(fmt, f.lineinfo, fmt.ints) && IntOk(fmt, |f.locvars|)
    && (forall i | 0 <= i < |f.locvars| :: LocVarOk(fmt, f.locvars[i]))
    && (forall i | 0 <= i < |f.upvalues| :: StrOk(fmt, f.upvalues[i].name))
  }

  function NoNames(u: seq<Upval>): (r: seq<Upval>)
    ensures |r| == |u|
  {
    seq(|u|, i requires 0 <= i < |u| => u[i].(name := NoStr))
  }

  /** A function without its debug information, inner functions included. */
  function Stripped(f: Proto): Proto
    decreases f
  {
    f.(p := seq(|f.p|, i requires 0 <= i < |f.p| => Stripped(f.p[i])), upvalues := NoNames(f.upvalues), source := NoStr,
        lineinfo := [], locvars := [])
  }

  function Kept(f: Proto, strip: bool): Proto {
    if strip then Stripped(f) else f
  }

  // ----- Piece by piece -----

  lemma {:induction false} BlockTrip(b: Bytes, rest: Bytes)
    ensures ReadBlock(b + rest, |b|) == Got(b, rest)
  {
  }

  lemma {:induction false} ByteTrip(b: Byte, rest: Bytes)
    ensures ReadByte([b] + rest) == Got(b, rest)
  {
    BlockTrip([b], rest);
  }

  lemma {:induction false} IntTrip(fmt: Format, x: nat, rest: Bytes)
    requires IntOk(fmt, x)
    ensures ReadInt(fmt, IntBytes(fmt, x) + rest) == Got(x, rest)
  {
    BlockTrip(IntBytes(fmt, x), rest);
    ValueLittle(x, fmt.ints);
  }

  lemma {:induction false} StrTrip(fmt: Format, s: Str, rest: Bytes)
    requires StrOk(fmt, s)
    ensures ReadStr(fmt, StrBytes(fmt, s) + rest) == Got(s, rest)
  {
    match s
    case NoStr =>
      BlockTrip(Little(0, fmt.sizes), rest);
      ValueLittle(0, fmt.sizes);
    case Str(t) =>
      var n := Little(|t| + 1, fmt.sizes);
      ValueLittle(|t| + 1, fmt.sizes);
      assert StrBytes(fmt, s) + rest == n + (t + [0] + rest);
      BlockTrip(n, t + [0] + rest);
      BlockTrip(t + [0], rest);
      assert (t + [0])[..|t|] == t;
  }

  lemma {:induction false} FlatTrip(w: seq<Bytes>, size: nat)
    requires forall i | 0 <= i < |w| :: |w[i]| == size
    ensures |Flat(w)| == |w| * size && Cut(Flat(w), |w|, size) == w
  {
    if w != [] {
      FlatTrip(w[1..], size);
      CutSize(|w|, size);
      assert Flat(w)[..size] == w[0] && Flat(w)[size..] == Flat(w[1..]);
      assert w == [w[0]] + w[1..];
    } else {
      assert 0 * size == 0;
    }
  }

  lemma {:induction false} VectorTrip(fmt: Format, w: seq<Bytes>, size: nat, rest: Bytes)
    requires WordsOk(fmt, w, size)
    ensures ReadVector(fmt, VectorBytes(fmt, w) + rest, size) == Got(w, rest)
  {
    assert VectorBytes(fmt, w) + rest == IntBytes(fmt, |w|) + (Flat(w) + rest);
    IntTrip(fmt, |w|, Flat(w) + rest);
    FlatTrip(w, size);
    BlockTrip(Flat(w), rest);
  }

  lemma {:induction false} ConstTrip(fmt: Format, c: Const, rest: Bytes)
    requires ConstOk(fmt, c)
    ensures ReadConst(fmt, ConstBytes(fmt, c) + rest) == Got(c, rest)
  {
    var tag, body := ConstBytes(fmt, c)[0], ConstBytes(fmt, c)[1..];
    assert ConstBytes(fmt, c) + rest == [tag] + (body + rest);
    ByteTrip(tag, body + rest);
    match c
    case Nil =>
    case Bool(b) => ByteTrip(b, rest);
    case Number(w) => BlockTrip(w, rest);
    case Text(t) => StrTrip(fmt, t, rest);
  }

  lemma {:induction false} ConstsTrip(fmt: Format, k: seq<Const>, rest: Bytes)
    requires forall i | 0 <= i < |k| :: ConstOk(fmt, k[i])
    ensures ReadConsts(fmt, ConstsBytes(fmt, k) + rest, |k|) == Got(k, rest)
  {
    hide ConstOk, ConstBytes, ReadConst;
    if k != [] {
      var more := ConstsBytes(fmt, k[1..]) + rest;
      ConstTrip(fmt, k[0], more);
      ConstsTrip(fmt, k[1..], rest);
      FirstConst(fmt, k, rest, more);
    }
  }

  /** The first constant, and the others behind it. */
  lemma {:induction false} FirstConst(fmt: Format, k: seq<Const>, rest: Bytes, more: Bytes)
    requires k != [] && more == ConstsBytes(fmt, k[1..]) + rest
    requires ReadConst(fmt, ConstBytes(fmt, k[0]) + more) == Got(k[0], more) && ReadConsts(fmt, more, |k| - 1)
        == Got(k[1..], rest)
    ensures ReadConsts(fmt, ConstsBytes(fmt, k) + rest, |k|) == Got(k, rest)
  {
    hide ConstBytes, ReadConst;
    assert ConstsBytes(fmt, k) + rest == ConstBytes(fmt, k[0]) + more;
    assert k == [k[0]] + k[1..];
  }

  lemma {:induction false} UpvalsTrip(u: seq<Upval>, rest: Bytes)
    ensures ReadUpvals(UpvalsBytes(u) + rest, |u|) == Got(NoNames(u), rest)
  {
    if u != [] {
      var more := UpvalsBytes(u[1..]) + rest;
      assert UpvalsBytes(u) + rest == [u[0].instack] + ([u[0].idx] + more);
      ByteTrip(u[0].instack, [u[0].idx] + more);
      ByteTrip(u[0].idx, more);
      UpvalsTrip(u[1..], rest);
      assert NoNames(u) == [Upval(u[0].instack, u[0].idx, NoStr)] + NoNames(u[1..]);
    }
  }

  lemma {:induction false} LocVarTrip(fmt: Format, v: LocVar, rest: Bytes)
    requires LocVarOk(fmt, v)
    ensures var x := ReadStr(fmt, LocVarBytes(fmt, v) + rest);
      x.Got? && x.v == v.name && x.rest == IntBytes(fmt, v.startpc) + (IntBytes(fmt, v.endpc) + rest)
    ensures ReadInt(fmt, IntBytes(fmt, v.startpc) + (IntBytes(fmt, v.endpc) + rest)) == Got(v.startpc,
        IntBytes(fmt, v.endpc) + rest)
    ensures ReadInt(fmt, IntBytes(fmt, v.endpc) + rest) == Got(v.endpc, rest)
  {
    var more := IntBytes(fmt, v.endpc) + rest;
    assert LocVarBytes(fmt, v) + rest == StrBytes(fmt, v.name) + (IntBytes(fmt, v.startpc) + more);
    StrTrip(fmt, v.name, IntBytes(fmt, v.startpc) + more);
    IntTrip(fmt, v.startpc, more);
    IntTrip(fmt, v.endpc, rest);
  }

  lemma {:induction false} LocVarsTrip(fmt: Format, vs: seq<LocVar>, rest: Bytes)
    requires forall i | 0 <= i < |vs| :: LocVarOk(fmt, vs[i])
    ensures ReadLocVars(fmt, LocVarsBytes(fmt, vs) + rest, |vs|) == Got(vs, rest)
  {
    hide ReadStr, ReadInt, IntBytes, LocVarBytes;
    if vs != [] {
      var more := LocVarsBytes(fmt, vs[1..]) + rest;
      assert LocVarsBytes(fmt, vs) + rest == LocVarBytes(fmt, vs[0]) + more;
      LocVarTrip(fmt, vs[0], more);
      LocVarsTrip(fmt, vs[1..], rest);
      assert vs == [vs[0]] + vs[1..];
    }
  }

  function Names(u: seq<Upval>): (r: seq<Str>)
    ensures |r| == |u|
  {
    seq(|u|, i requires 0 <= i < |u| => u[i].name)
  }

  lemma {:induction false} NamesTrip(fmt: Format, u: seq<Upval>, room: nat, rest: Bytes)
    requires |u| <= room && forall i | 0 <= i < |u| :: StrOk(fmt, u[i].name)
    ensures ReadNames(fmt, NamesBytes(fmt, u) + rest, |u|, room) == Got(Names(u), rest)
  {
    hide ReadStr, StrBytes;
    if u != [] {
      var more := NamesBytes(fmt, u[1..]) + rest;
      assert NamesBytes(fmt, u) + rest == StrBytes(fmt, u[0].name) + more;
      StrTrip(fmt, u[0].name, more);
      NamesTrip(fmt, u[1..], room - 1, rest);
      assert Names(u) == [u[0].name] + Names(u[1..]);
    }
  }

  // ----- A whole function -----

  function KeptDebug(f: Proto, strip: bool): Debug {
    if strip then Debug(NoStr, [], [], []) else Debug(f.source, f.lineinfo, f.locvars, Names(f.upvalues))
  }

  lemma {:induction false} DebugTrip(fmt: Format, f: Proto, strip: bool, rest: Bytes)
    requires ProtoOk(fmt, f)
    ensures ReadDebug(fmt, DebugBytes(fmt, f, strip) + rest, |f.upvalues|) == Got(KeptDebug(f, strip), rest)
  {
    hide ReadStr, ReadInt, ReadVector, ReadLocVars, ReadNames, StrBytes, IntBytes, VectorBytes, LocVarsBytes,
        NamesBytes;
    var source, lineinfo := if strip then NoStr else f.source, if strip then [] else f.lineinfo;
    var locvars, names := if strip then [] else f.locvars, if strip then [] else f.upvalues;
    var d := NamesBytes(fmt, names) + rest;
    var c := IntBytes(fmt, |names|) + d;
    var b := LocVarsBytes(fmt, locvars) + c;
    var a := IntBytes(fmt, |locvars|) + b;
    assert DebugBytes(fmt, f, strip) + rest == StrBytes(fmt, source) + (VectorBytes(fmt, lineinfo) + a);
    StrTrip(fmt, source, VectorBytes(fmt, lineinfo) + a);
    VectorTrip(fmt, lineinfo, fmt.ints, a);
    IntTrip(fmt, |locvars|, b);
    LocVarsTrip(fmt, locvars, c);
    IntTrip(fmt, |names|, d);
    NamesTrip(fmt, names, |f.upvalues|, rest);
  }

  lemma {:induction false} FrontTrip(fmt: Format, f: Proto, rest: Bytes)
    requires ProtoOk(fmt, f)
    ensures ReadFront(fmt, FrontBytes(fmt, f) + rest) == Got(Front(f.linedefined, f.lastlinedefined, f.numparams,
        f.isVararg, f.maxstacksize, f.code, f.k), rest)
  {
    hide ReadInt, ReadVector, ReadConsts, IntBytes, VectorBytes, ConstsBytes, ReadByte;
    var g := ConstsBytes(fmt, f.k) + rest;
    var e := IntBytes(fmt, |f.k|) + g;
    var d := VectorBytes(fmt, f.code) + e;
    var c := [f.maxstacksize] + d;
    var b := [f.isVararg] + c;
    var a := [f.numparams] + b;
    assert FrontBytes(fmt, f) + rest == IntBytes(fmt, f.linedefined) + (IntBytes(fmt, f.lastlinedefined) + a);
    IntTrip(fmt, f.linedefined, IntBytes(fmt, f.lastlinedefined) + a);
    IntTrip(fmt, f.lastlinedefined, a);
    ByteTrip(f.numparams, b);
    ByteTrip(f.isVararg, c);
    ByteTrip(f.maxstacksize, d);
    VectorTrip(fmt, f.code, fmt.codes, e);
    IntTrip(fmt, |f.k|, g);
    ConstsTrip(fmt, f.k, rest);
  }

  /** Every function, followed by any bytes, is read back, and no byte more than
      its dump is read; a stripped dump gives it without debug information. */
  lemma {:induction false} FunctionTrip(fmt: Format, f: Proto, strip: bool, rest: Bytes)
    requires ProtoOk(fmt, f)
    ensures ReadFunction(fmt, FunctionBytes(fmt, f, strip) + rest) == Got(Kept(f, strip), rest)
    decreases f, |f.p| + 1
  {
    hide ReadFront, ReadInt, ReadUpvals, ReadDebug, IntBytes, FrontBytes, UpvalsBytes, DebugBytes, ProtosBytes,
        ReadProtos;
    var e := DebugBytes(fmt, f, strip) + rest;
    var d := UpvalsBytes(f.upvalues) + e;
    var c := IntBytes(fmt, |f.upvalues|) + d;
    var b := ProtosBytes(fmt, f, 0, strip) + c;
    var a := IntBytes(fmt, |f.p|) + b;
    assert FunctionBytes(fmt, f, strip) + rest == FrontBytes(fmt, f) + a;
    FrontTrip(fmt, f, a);
    IntTrip(fmt, |f.p|, b);
    ProtosTrip(fmt, f, 0, strip, c);
    IntTrip(fmt, |f.upvalues|, d);
    UpvalsTrip(f.upvalues, e);
    DebugTrip(fmt, f, strip, rest);
    KeptParts(f, strip);
  }

  function KeptProtos(f: Proto, i: nat, strip: bool): seq<Proto>
    requires i <= |f.p|
    decreases |f.p| - i
  {
    if i == |f.p| then [] else [Kept(f.p[i], strip)] + KeptProtos(f, i + 1, strip)
  }

  lemma {:induction false} ProtosTrip(fmt: Format, f: Proto, i: nat, strip: bool, rest: Bytes)
    requires ProtoOk(fmt, f) && i <= |f.p|
    ensures ReadProtos(fmt, ProtosBytes(fmt, f, i, strip) + rest, |f.p| - i) == Got(KeptProtos(f, i, strip), rest)
    decreases f, |f.p| - i
  {
    hide ReadFunction, FunctionBytes;
    if i < |f.p| {
      var more := ProtosBytes(fmt, f, i + 1, strip) + rest;
      assert ProtosBytes(fmt, f, i, strip) + rest == FunctionBytes(fmt, f.p[i], strip) + more;
      FunctionTrip(fmt, f.p[i], strip, more);
      ProtosTrip(fmt, f, i + 1, strip, rest);
    }
  }

  lemma {:induction false} KeptAt(f: Proto, i: nat, strip: bool)
    requires i <= |f.p|
    ensures |KeptProtos(f, i, strip)| == |f.p| - i
    ensures forall j | i <= j < |f.p| :: KeptProtos(f, i, strip)[j - i] == Kept(f.p[j], strip)
    decreases |f.p| - i
  {
    if i < |f.p| { KeptAt(f, i + 1, strip); }
  }

  lemma {:induction false} KeptParts(f: Proto, strip: bool)
    ensures |KeptDebug(f, strip).names| <= |NoNames(f.upvalues)|
    ensures Assembled(Front(f.linedefined, f.lastlinedefined, f.numparams, f.isVararg, f.maxstacksize, f.code, f.k),
      KeptProtos(f, 0, strip), NoNames(f.upvalues), KeptDebug(f, strip)) == Kept(f, strip)
  {
    KeptAt(f, 0, strip);
    assert KeptProtos(f, 0, strip) == Kept(f, strip).p;
    assert Named(NoNames(f.upvalues), KeptDebug(f, strip).names) == Kept(f, strip).upvalues;
  }

  // ----- A whole chunk -----

  lemma {:induction false} HeaderTrip(fmt: Format, rest: Bytes)
    requires FormatOk(fmt)
    ensures ReadHeader(fmt, Header(fmt)[1..] + rest) == Got((), rest)
  {
    BlockTrip(Header(fmt)[1..], rest);
    assert [Header(fmt)[0]] + Header(fmt)[1..] == Header(fmt);
  }

  lemma {:induction false} ChunkTrip(fmt: Format, f: Proto, strip: bool, rest: Bytes)
    requires FormatOk(fmt) && ProtoOk(fmt, f)
    ensures ReadChunk(fmt, ChunkBytes(fmt, f, strip)[1..] + rest) == Got(Kept(f, strip), rest)
  {
    hide ReadFunction, FunctionBytes, ReadHeader;
    assert ChunkBytes(fmt, f, strip)[1..] + rest == Header(fmt)[1..] + (FunctionBytes(fmt, f, strip) + rest);
    HeaderTrip(fmt, FunctionBytes(fmt, f, strip) + rest);
    FunctionTrip(fmt, f, strip, rest);
  }

  /** A chunk of a host with other sizes is refused. */
  lemma {:induction false} OtherHost(fmt: Format, other: Format, f: Proto, strip: bool, rest: Bytes)
    requires FormatOk(fmt) && FormatOk(other) && fmt != other
    ensures ReadChunk(fmt, ChunkBytes(other, f, strip)[1..] + rest) == Bad(Incompatible)
  {
    hide ReadFunction, FunctionBytes;
    var b := Header(other)[1..];
    assert ChunkBytes(other, f, strip)[1..] + rest == b + (FunctionBytes(other, f, strip) + rest);
    BlockTrip(b, FunctionBytes(other, f, strip) + rest);
    var h, x := Header(fmt), [Header(fmt)[0]] + b;
    assert x == Header(other);
    assert x[..6] == h[..6] && x[..4] == h[..4];
    assert h[7] == fmt.ints && h[8] == fmt.sizes && h[9] == fmt.codes && h[10] == fmt.numbers;
    assert x[7] == other.ints && x[8] == other.sizes && x[9] == other.codes && x[10] == other.numbers;
    assert exists i :: 7 <= i < 12 && x[i] != h[i] by {
      assert h[11] == if fmt.integral then 1 else 0;
      assert x[11] == if other.integral then 1 else 0;
    }
    var i :| 7 <= i < 12 && x[i] != h[i];
    assert x[..12][i] != h[..12][i];
  }
}
