/** Precompiled Lua chunks (modules/lua/ldump.c, modules/lua/lundump.c): the bytes
    of a function prototype, and what reading them gives. */
module LuaChunk {
  import opened Common

  type Bytes = seq<Byte>

  /** The sizes of int, size_t, Instruction and lua_Number on the host, a
      little-endian machine, and whether numbers are integers. */
  datatype Format = Format(ints: nat, sizes: nat, codes: nat, numbers: nat, integral: bool)

  ghost predicate FormatOk(fmt: Format) {
    0 < fmt.ints < 256 && 0 < fmt.sizes < 256 && 0 < fmt.codes < 256 && 0 < fmt.numbers < 256
  }

  /** A string object, or none. */
  datatype Str = NoStr | Str(s: Bytes)

  /** A number and an instruction are taken as they lie in memory. */
  datatype Const = Nil | Bool(b: Byte) | Number(w: Bytes) | Text(t: Str)

  datatype Upval = Upval(instack: Byte, idx: Byte, name: Str)
  datatype LocVar = LocVar(name: Str, startpc: nat, endpc: nat)

  datatype Proto = Proto(
    linedefined: nat, lastlinedefined: nat, numparams: Byte, isVararg: Byte, maxstacksize: Byte,
    code: seq<Bytes>, k: seq<Const>, p: seq<Proto>, upvalues: seq<Upval>,
    source: Str, lineinfo: seq<Bytes>, locvars: seq<LocVar>)

  /** The errors, and a write behind an array, about which nothing is promised. */
  datatype Reason = Truncated | Corrupted | NotA | VersionMismatch | Incompatible | BehindArray

  /** What reading from some bytes gives: a value and the bytes left, or an error. */
  datatype Parse<+T> = Got(v: T, rest: Bytes) | Bad(why: Reason) {
    predicate IsFailure() { Bad? }
    function PropagateFailure<U>(): Parse<U> requires Bad? { Bad(why) }
    function Extract(): (T, Bytes) requires Got? { (v, rest) }
  }

  // ----- Integers -----

  function Base(k: nat): (b: nat)
    ensures b > 0
  {
    if k == 0 then 1 else 256 * Base(k - 1)
  }

  function Little(x: nat, k: nat): (s: Bytes)
    ensures |s| == k
  {
    if k == 0 then [] else [x % 256] + Little(x / 256, k - 1)
  }

  function Value(s: Bytes): nat {
    if s == [] then 0 else s[0] + 256 * Value(s[1..])
  }

  lemma {:induction false} ValueLittle(x: nat, k: nat)
    requires x < Base(k)
    ensures Value(Little(x, k)) == x
  {
    if k > 0 {
      ValueLittle(x / 256, k - 1);
      assert Little(x, k)[1..] == Little(x / 256, k - 1);
    }
  }

  // ----- Writing -----

  function IntBytes(fmt: Format, x: nat): Bytes {
    Little(x, fmt.ints)
  }

  function StrBytes(fmt: Format, s: Str): Bytes {
    match s
    case NoStr => Little(0, fmt.sizes)
    case Str(t) => Little(|t| + 1, fmt.sizes) + t + [0]
  }

  function Flat(words: seq<Bytes>): Bytes {
    if words == [] then [] else words[0] + Flat(words[1..])
  }

  function VectorBytes(fmt: Format, words: seq<Bytes>): Bytes {
    IntBytes(fmt, |words|) + Flat(words)
  }

  const LUA_TNIL: Byte := 0
  const LUA_TBOOLEAN: Byte := 1
  const LUA_TNUMBER: Byte := 3
  const LUA_TSTRING: Byte := 4

  function ConstBytes(fmt: Format, c: Const): Bytes {
    match c
    case Nil => [LUA_TNIL]
    case Bool(b) => [LUA_TBOOLEAN, b]
    case Number(w) => [LUA_TNUMBER] + w
    case Text(t) => [LUA_TSTRING] + StrBytes(fmt, t)
  }

  function ConstsBytes(fmt: Format, k: seq<Const>): Bytes {
    if k == [] then [] else ConstBytes(fmt, k[0]) + ConstsBytes(fmt, k[1..])
  }

  function UpvalsBytes(u: seq<Upval>): Bytes {
    if u == [] then [] else [u[0].instack, u[0].idx] + UpvalsBytes(u[1..])
  }

  function LocVarBytes(fmt: Format, v: LocVar): Bytes {
    StrBytes(fmt, v.name) + IntBytes(fmt, v.startpc) + IntBytes(fmt, v.endpc)
  }

  function LocVarsBytes(fmt: Format, vs: seq<LocVar>): Bytes {
    if vs == [] then [] else LocVarBytes(fmt, vs[0]) + LocVarsBytes(fmt, vs[1..])
  }

  function NamesBytes(fmt: Format, u: seq<Upval>): Bytes {
    if u == [] then [] else StrBytes(fmt, u[0].name) + NamesBytes(fmt, u[1..])
  }

  function DebugBytes(fmt: Format, f: Proto, strip: bool): Bytes {
    var source, lineinfo := if strip then NoStr else f.source, if strip then [] else f.lineinfo;
    var locvars, names := if strip then [] else f.locvars, if strip then [] else f.upvalues;
    StrBytes(fmt, source) + (VectorBytes(fmt, lineinfo)
    + ((IntBytes(fmt, |locvars|) + LocVarsBytes(fmt, locvars)) + (IntBytes(fmt, |names|) + NamesBytes(fmt, names))))
  }

  function FunctionBytes(fmt: Format, f: Proto, strip: bool): Bytes
    decreases f, |f.p| + 1
  {
    FrontBytes(fmt, f) + ((IntBytes(fmt, |f.p|) + ProtosBytes(fmt, f, 0, strip))
    + ((IntBytes(fmt, |f.upvalues|) + UpvalsBytes(f.upvalues)) + DebugBytes(fmt, f, strip)))
  }

  /** What comes before the inner functions. */
  function FrontBytes(fmt: Format, f: Proto): Bytes {
    IntBytes(fmt, f.linedefined) + (IntBytes(fmt, f.lastlinedefined)
        + ([f.numparams] + ([f.isVararg] + ([f.maxstacksize]
    + (VectorBytes(fmt, f.code) + (IntBytes(fmt, |f.k|) + ConstsBytes(fmt, f.k)))))))
  }

  /** The inner functions from number `i` on. */
  function ProtosBytes(fmt: Format, f: Proto, i: nat, strip: bool): Bytes
    requires i <= |f.p|
    decreases f, |f.p| - i
  {
    if i == |f.p| then [] else FunctionBytes(fmt, f.p[i], strip) + ProtosBytes(fmt, f, i + 1, strip)
  }

  /** The header: signature, version 5.2, official format, host, tail. */
  function Header(fmt: Format): (h: Bytes)
    requires FormatOk(fmt)
    ensures |h| == 18
  {
    [0x1b, 'L' as int, 'u' as int, 'a' as int] + [0x52, 0]
    + [1, fmt.ints, fmt.sizes, fmt.codes, fmt.numbers, if fmt.integral then 1 else 0]
    + [0x19, 0x93, 0x0d, 0x0a, 0x1a, 0x0a]
  }

  function ChunkBytes(fmt: Format, f: Proto, strip: bool): Bytes
    requires FormatOk(fmt)
  {
    Header(fmt) + FunctionBytes(fmt, f, strip)
  }

  // ----- Reading -----

  function ReadBlock(s: Bytes, n: nat): (r: Parse<Bytes>)
    ensures r.Got? ==> |r.v| == n && s == r.v + r.rest
  {
    if |s| < n then Bad(Truncated) else Got(s[..n], s[n..])
  }

  function ReadByte(s: Bytes): (r: Parse<Byte>)
    ensures r.Got? ==> |r.rest| == |s| - 1
  {
    var b :- ReadBlock(s, 1); Got(b.0[0], b.1)
  }

  function ReadInt(fmt: Format, s: Bytes): (r: Parse<nat>)
    ensures r.Got? ==> |r.rest| == |s| - fmt.ints
  {
    var b :- ReadBlock(s, fmt.ints);
    if 2 * Value(b.0) >= Base(fmt.ints) then Bad(Corrupted) else Got(Value(b.0), b.1)
  }

  function ReadStr(fmt: Format, s: Bytes): (r: Parse<Str>)
    ensures r.Got? ==> |r.rest| <= |s|
  {
    var b :- ReadBlock(s, fmt.sizes);
    var n := Value(b.0);
    if n == 0 then Got(NoStr, b.1)
    else var t :- ReadBlock(b.1, n); Got(Str(t.0[..n - 1]), t.1)
  }

  function Cut(s: Bytes, n: nat, size: nat): (w: seq<Bytes>)
    requires |s| == n * size
    ensures |w| == n
    decreases n
  {
    if n == 0 then [] else CutSize(n, size); [s[..size]] + Cut(s[size..], n - 1, size)
  }

  lemma {:induction false} CutSize(n: nat, size: nat)
    requires n > 0
    ensures n * size - size == (n - 1) * size && n * size >= size
  {
    assert (n - 1) * size >= 0;
  }

  function ReadVector(fmt: Format, s: Bytes, size: nat): (r: Parse<seq<Bytes>>)
    ensures r.Got? ==> |r.rest| <= |s|
  {
    var n :- ReadInt(fmt, s);
    var b :- ReadBlock(n.1, n.0 * size);
    Got(Cut(b.0, n.0, size), b.1)
  }

  function ReadConst(fmt: Format, s: Bytes): (r: Parse<Const>)
    ensures r.Got? ==> |r.rest| <= |s|
  {
    var t :- ReadByte(s);
    if t.0 == LUA_TBOOLEAN then var b :- ReadByte(t.1); Got(Bool(b.0), b.1)
    else if t.0 == LUA_TNUMBER then var w :- ReadBlock(t.1, fmt.numbers); Got(Number(w.0), w.1)
    else if t.0 == LUA_TSTRING then var x :- ReadStr(fmt, t.1); Got(Text(x.0), x.1)
    else Got(Nil, t.1)
  }

  function ReadConsts(fmt: Format, s: Bytes, n: nat): (r: Parse<seq<Const>>)
    ensures r.Got? ==> |r.rest| <= |s| && |r.v| == n
    decreases n
  {
    if n == 0 then Got([], s)
    else
      var c :- ReadConst(fmt, s);
      var cs :- ReadConsts(fmt, c.1, n - 1);
      Got([c.0] + cs.0, cs.1)
  }

  function ReadUpvals(s: Bytes, n: nat): (r: Parse<seq<Upval>>)
    ensures r.Got? ==> |r.rest| <= |s| && |r.v| == n
    decreases n
  {
    if n == 0 then Got([], s)
    else
      var a :- ReadByte(s);
      var b :- ReadByte(a.1);
      var us :- ReadUpvals(b.1, n - 1);
      Got([Upval(a.0, b.0, NoStr)] + us.0, us.1)
  }

  function ReadLocVars(fmt: Format, s: Bytes, n: nat): (r: Parse<seq<LocVar>>)
    ensures r.Got? ==> |r.rest| <= |s| && |r.v| == n
    decreases n
  {
    if n == 0 then Got([], s)
    else
      var x :- ReadStr(fmt, s);
      var a :- ReadInt(fmt, x.1);
      var b :- ReadInt(fmt, a.1);
      var vs :- ReadLocVars(fmt, b.1, n - 1);
      Got([LocVar(x.0, a.0, b.0)] + vs.0, vs.1)
  }

  /** Names of upvalues, with room for `room` of them. */
  function ReadNames(fmt: Format, s: Bytes, n: nat, room: nat): (r: Parse<seq<Str>>)
    ensures r.Got? ==> |r.rest| <= |s| && |r.v| == n <= room
    decreases n
  {
    if n == 0 then Got([], s)
    else
      var x :- ReadStr(fmt, s);
      if room == 0 then Bad(BehindArray)
      else
        var xs :- ReadNames(fmt, x.1, n - 1, room - 1);
        Got([x.0] + xs.0, xs.1)
  }

  function Named(u: seq<Upval>, names: seq<Str>): (r: seq<Upval>)
    requires |names| <= |u|
    ensures |r| == |u|
  {
    seq(|u|, i requires 0 <= i < |u| => if i < |names| then u[i].(name := names[i]) else u[i])
  }

  datatype Debug = Debug(source: Str, lineinfo: seq<Bytes>, locvars: seq<LocVar>, names: seq<Str>)

  function ReadDebug(fmt: Format, s: Bytes, nup: nat): (r: Parse<Debug>)
    ensures r.Got? ==> |r.rest| <= |s| && |r.v.names| <= nup
  {
    var source :- ReadStr(fmt, s);
    var lineinfo :- ReadVector(fmt, source.1, fmt.ints);
    var n :- ReadInt(fmt, lineinfo.1);
    var locvars :- ReadLocVars(fmt, n.1, n.0);
    var m :- ReadInt(fmt, locvars.1);
    var names :- ReadNames(fmt, m.1, m.0, nup);
    Got(Debug(source.0, lineinfo.0, locvars.0, names.0), names.1)
  }

  datatype Front = Front(linedefined: nat, lastlinedefined: nat, numparams: Byte, isVararg: Byte, maxstacksize: Byte,
      code: seq<Bytes>, k: seq<Const>)

  function ReadFront(fmt: Format, s: Bytes): (r: Parse<Front>)
    ensures r.Got? ==> |r.rest| < |s|
  {
    var a :- ReadInt(fmt, s);
    var b :- ReadInt(fmt, a.1);
    var c :- ReadByte(b.1);
    var d :- ReadByte(c.1);
    var e :- ReadByte(d.1);
    var code :- ReadVector(fmt, e.1, fmt.codes);
    var n :- ReadInt(fmt, code.1);
    var k :- ReadConsts(fmt, n.1, n.0);
    Got(Front(a.0, b.0, c.0, d.0, e.0, code.0, k.0), k.1)
  }

  function ReadFunction(fmt: Format, s: Bytes): (r: Parse<Proto>)
    ensures r.Got? ==> |r.rest| < |s|
    decreases |s|, 0
  {
    var h :- ReadFront(fmt, s);
    var n :- ReadInt(fmt, h.1);
    var p :- ReadProtos(fmt, n.1, n.0);
    var m :- ReadInt(fmt, p.1);
    var u :- ReadUpvals(m.1, m.0);
    var g :- ReadDebug(fmt, u.1, m.0);
    Got(Assembled(h.0, p.0, u.0, g.0), g.1)
  }

  function Assembled(h: Front, p: seq<Proto>, u: seq<Upval>, g: Debug): Proto
    requires |g.names| <= |u|
  {
    Proto(h.linedefined, h.lastlinedefined, h.numparams, h.isVararg, h.maxstacksize, h.code, h.k, p, Named(u, g.names),
        g.source, g.lineinfo, g.locvars)
  }

  function ReadProtos(fmt: Format, s: Bytes, n: nat): (r: Parse<seq<Proto>>)
    ensures r.Got? ==> |r.rest| <= |s| && |r.v| == n
    decreases |s|, n
  {
    if n == 0 then Got([], s)
    else
      var f :- ReadFunction(fmt, s);
      var fs :- ReadProtos(fmt, f.1, n - 1);
      Got([f.0] + fs.0, fs.1)
  }

  /** The first byte of the header has been read before. */
  function ReadHeader(fmt: Format, s: Bytes): (r: Parse<()>)
    requires FormatOk(fmt)
  {
    var b :- ReadBlock(s, 17);
    var h, x := Header(fmt), [Header(fmt)[0]] + b.0;
    if x == h then Got((), b.1)
    else if x[..4] != h[..4] then Bad(NotA)
    else if x[..6] != h[..6] then Bad(VersionMismatch)
    else if x[..12] != h[..12] then Bad(Incompatible)
    else Bad(Corrupted)
  }

  function ReadChunk(fmt: Format, s: Bytes): (r: Parse<Proto>)
    requires FormatOk(fmt)
  {
    var h :- ReadHeader(fmt, s);
    ReadFunction(fmt, h.1)
  }
}
