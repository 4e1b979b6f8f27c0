/** Loading a precompiled chunk through a reader that gives it in pieces
    (modules/lua/lzio.c, modules/lua/lundump.c). */
module LuaUndump {
  import opened Common
  import opened LuaChunk
  import opened LuaChunkTrip

  // ----- Buffered streams -----

  /** What a reader gives until it gives nothing. */
  ghost function Stream(chunks: seq<Bytes>): Bytes {
    if chunks == [] || chunks[0] == [] then [] else chunks[0] + Stream(chunks[1..])
  }

  lemma {:induction false} MovedOn(b: Bytes, left: Bytes, m: nat)
    requires m <= |left|
    ensures b + left == (b + left[..m]) + left[m..]
  {
    assert left == left[..m] + left[m..];
  }

  class Zio {
    /** What the reader has still to give, piece by piece. */
    var chunks: seq<Bytes>
    var buffer: Bytes
    var n: nat
    var p: nat

    ghost predicate Valid()
      reads this
    {
      p + n <= |buffer|
    }

    ghost function Unread(): Bytes
      reads this
      requires Valid()
    {
      buffer[p..p + n] + Stream(chunks)
    }

    /** luaZ_init */
    constructor (chunks: seq<Bytes>)
      ensures Valid() && Unread() == Stream(chunks)
    {
      this.chunks, buffer, n, p := chunks, [], 0, 0;
    }

    /** luaZ_fill: the first byte of the next piece, or -1 at the end. */
    method Fill() returns (c: int)
      requires Valid() && n == 0
      modifies this
      ensures Valid()
      ensures c == -1 <==> old(Unread()) == []
      ensures c != -1 ==> 0 < p && p - 1 < |buffer| && c == buffer[p - 1] && [buffer[p - 1]] + Unread() == old(Unread())
    {
      var buff := if chunks == [] then [] else chunks[0];
      StreamStep(chunks, buffer[p..p + n]);
      if chunks != [] { chunks := chunks[1..]; }
      if buff == [] { return -1; }
      n, p, buffer := |buff| - 1, 1, buff;
      FirstPut(buff, Stream(chunks));
      return buff[0];
    }

    /** More bytes in the buffer, if there are any; none is lost. */
    method Refill() returns (more: bool)
      requires Valid() && n == 0
      modifies this
      ensures Valid() && (more <==> old(Unread()) != []) && (more ==> n > 0 && Unread() == old(Unread()))
    {
      var c := Fill();
      if c == -1 { return false; }
      FirstBack(buffer, n, p, Stream(chunks));
      n, p := n + 1, p - 1;
      return true;
    }

    /** The first `m` bytes of the buffer. */
    method Take(m: nat) returns (b: Bytes)
      requires Valid() && m <= n
      modifies this
      ensures Valid() && m <= |old(Unread())| && b == old(Unread())[..m] && Unread() == old(Unread())[m..]
    {
      b := buffer[p..p + m];
      SliceOff(buffer, n, p, m, Stream(chunks));
      n, p := n - m, p + m;
    }

    /** luaZ_read: the next `want` bytes, however they are split; the number of
        missing bytes if there are fewer. */
    method Read(want: nat) returns (missing: nat, b: Bytes)
      requires Valid()
      modifies this
      ensures Valid()
      ensures if want <= |old(Unread())| then missing == 0 && b == old(Unread())[..want]
          && Unread() == old(Unread())[want..]
              else missing == want - |old(Unread())| > 0
    {
      hide Zio.Unread;
      ghost var all := Unread();
      b, missing := [], want;
      assert [] + all == all;
      while missing > 0
        invariant Valid() && 0 <= missing && |b| + missing == want && b + Unread() == all
        decreases missing
      {
        if n == 0 {
          var more := Refill();
          if !more { return; }
        }
        var m := if missing <= n then missing else n;
        ghost var left := Unread();
        var piece := Take(m);
        MovedOn(b, left, m);
        b := b + piece;
        missing := missing - m;
      }
    }
  }

  lemma {:induction false} StreamStep(chunks: seq<Bytes>, nothing: Bytes)
    requires nothing == []
    ensures nothing + Stream(chunks) == if chunks == [] || chunks[0] == [] then [] else chunks[0] + Stream(chunks[1..])
  {
  }

  lemma {:induction false} FirstPut(buff: Bytes, more: Bytes)
    requires buff != []
    ensures [buff[0]] + (buff[1..1 + (|buff| - 1)] + more) == buff + more
  {
  }

  lemma {:induction false} FirstBack(buffer: Bytes, n: nat, p: nat, more: Bytes)
    requires 0 < p && p + n <= |buffer|
    ensures buffer[p - 1..p - 1 + (n + 1)] + more == [buffer[p - 1]] + (buffer[p..p + n] + more)
  {
  }

  lemma {:induction false} SliceOff(buffer: Bytes, n: nat, p: nat, m: nat, more: Bytes)
    requires p + n <= |buffer| && m <= n
    ensures var all := buffer[p..p + n] + more;
      m <= |all| && all[..m] == buffer[p..p + m] && all[m..] == buffer[p + m..p + m + (n - m)] + more
  {
  }

  // ----- Loading -----

  datatype Load<T> = Ok(v: T) | Thrown(why: Reason)

  /** The value that reading the bytes should give, and the bytes then left. */
  ghost predicate Did<T>(parse: Parse<T>, r: Load<T>, left: Bytes) {
    match parse
    case Got(v, rest) => r == Ok(v) && left == rest
    case Bad(why) => r == Thrown(why)
  }

  function Joined<T>(first: seq<T>, more: Parse<seq<T>>): Parse<seq<T>> {
    match more case Got(v, rest) => Got(first + v, rest) case Bad(why) => Bad(why)
  }

  class LoadState {
    const fmt: Format
    const z: Zio

    constructor (fmt: Format, z: Zio)
      ensures this.fmt == fmt && this.z == z
    {
      this.fmt, this.z := fmt, z;
    }

    method LoadBlock(size: nat) returns (r: Load<Bytes>)
      requires z.Valid()
      modifies z
      ensures z.Valid() && Did(ReadBlock(old(z.Unread()), size), r, z.Unread())
    {
      var missing, b := z.Read(size);
      return if missing != 0 then Thrown(Truncated) else Ok(b);
    }

    method LoadByte() returns (r: Load<Byte>)
      requires z.Valid()
      modifies z
      ensures z.Valid() && Did(ReadByte(old(z.Unread())), r, z.Unread())
    {
      var b := LoadBlock(1);
      if b.Thrown? { return Thrown(b.why); }
      return Ok(b.v[0]);
    }

    method LoadInt() returns (r: Load<nat>)
      requires z.Valid()
      modifies z
      ensures z.Valid() && Did(ReadInt(fmt, old(z.Unread())), r, z.Unread())
    {
      var b := LoadBlock(fmt.ints);
      if b.Thrown? { return Thrown(b.why); }
      var x := Value(b.v);
      if 2 * x >= Base(fmt.ints) { return Thrown(Corrupted); }
      return Ok(x);
    }

    method LoadString() returns (r: Load<Str>)
      requires z.Valid()
      modifies z
      ensures z.Valid() && Did(ReadStr(fmt, old(z.Unread())), r, z.Unread())
    {
      var b := LoadBlock(fmt.sizes);
      if b.Thrown? { return Thrown(b.why); }
      var size := Value(b.v);
      if size == 0 { return Ok(NoStr); }
      var t := LoadBlock(size);
      if t.Thrown? { return Thrown(t.why); }
      return Ok(Str(t.v[..size - 1]));
    }

    /** LoadCode, and the line numbers of LoadDebug. */
    method LoadVector(size: nat) returns (r: Load<seq<Bytes>>)
      requires z.Valid()
      modifies z
      ensures z.Valid() && Did(ReadVector(fmt, old(z.Unread()), size), r, z.Unread())
    {
      hide ReadInt;
      var n := LoadInt();
      if n.Thrown? { return Thrown(n.why); }
      var b := LoadBlock(n.v * size);
      if b.Thrown? { return Thrown(b.why); }
      return Ok(Cut(b.v, n.v, size));
    }

    method LoadConstant() returns (r: Load<Const>)
      requires z.Valid()
      modifies z
      ensures z.Valid() && Did(ReadConst(fmt, old(z.Unread())), r, z.Unread())
    {
      hide ReadByte, ReadStr, ReadBlock;
      var t := LoadByte();
      if t.Thrown? { return Thrown(t.why); }
      if t.v == LUA_TBOOLEAN {
        var b := LoadByte();
        return if b.Thrown? then Thrown(b.why) else Ok(Bool(b.v));
      } else if t.v == LUA_TNUMBER {
        var w := LoadBlock(fmt.numbers);
        return if w.Thrown? then Thrown(w.why) else Ok(Number(w.v));
      } else if t.v == LUA_TSTRING {
        var x := LoadString();
        return if x.Thrown? then Thrown(x.why) else Ok(Text(x.v));
      }
      return Ok(Nil);
    }

    /** LoadConstants, up to the inner functions. */
    method LoadConstants(n: nat) returns (r: Load<seq<Const>>)
      requires z.Valid()
      modifies z
      ensures z.Valid() && Did(ReadConsts(fmt, old(z.Unread()), n), r, z.Unread())
    {
      hide ReadConst;
      var k: seq<Const> := [];
      JoinedNone(ReadConsts(fmt, z.Unread(), n));
      for i := 0 to n
        invariant z.Valid() && |k| == i && ReadConsts(fmt, old(z.Unread()), n) == Joined(k, ReadConsts(fmt, z.Unread(),
            n - i))
      {
        ghost var s := z.Unread();
        var c := LoadConstant();
        if c.Thrown? { return Thrown(c.why); }
        JoinedOne(k, c.v, ReadConsts(fmt, z.Unread(), n - i - 1));
        k := k + [c.v];
      }
      assert k + [] == k;
      return Ok(k);
    }

    method LoadUpvalues(n: nat) returns (r: Load<seq<Upval>>)
      requires z.Valid()
      modifies z
      ensures z.Valid() && Did(ReadUpvals(old(z.Unread()), n), r, z.Unread())
    {
      hide ReadByte;
      var u: seq<Upval> := [];
      JoinedNone(ReadUpvals(z.Unread(), n));
      for i := 0 to n
        invariant z.Valid() && |u| == i && ReadUpvals(old(z.Unread()), n) == Joined(u, ReadUpvals(z.Unread(), n - i))
      {
        var a := LoadByte();
        if a.Thrown? { return Thrown(a.why); }
        var b := LoadByte();
        if b.Thrown? { return Thrown(b.why); }
        JoinedOne(u, Upval(a.v, b.v, NoStr), ReadUpvals(z.Unread(), n - i - 1));
        u := u + [Upval(a.v, b.v, NoStr)];
      }
      assert u + [] == u;
      return Ok(u);
    }

    method LoadLocVars(n: nat) returns (r: Load<seq<LocVar>>)
      requires z.Valid()
      modifies z
      ensures z.Valid() && Did(ReadLocVars(fmt, old(z.Unread()), n), r, z.Unread())
    {
      hide ReadStr, ReadInt;
      var vs: seq<LocVar> := [];
      JoinedNone(ReadLocVars(fmt, z.Unread(), n));
      for i := 0 to n
        invariant z.Valid() && |vs| == i && ReadLocVars(fmt, old(z.Unread()), n) == Joined(vs,
            ReadLocVars(fmt, z.Unread(), n - i))
      {
        var x := LoadString();
        if x.Thrown? { return Thrown(x.why); }
        var a := LoadInt();
        if a.Thrown? { return Thrown(a.why); }
        var b := LoadInt();
        if b.Thrown? { return Thrown(b.why); }
        JoinedOne(vs, LocVar(x.v, a.v, b.v), ReadLocVars(fmt, z.Unread(), n - i - 1));
        vs := vs + [LocVar(x.v, a.v, b.v)];
      }
      assert vs + [] == vs;
      return Ok(vs);
    }

    /** The names of upvalues; the one that is too many has been read when it is
        written behind the array. */
    method LoadNames(n: nat, room: nat) returns (r: Load<seq<Str>>)
      requires z.Valid()
      modifies z
      ensures z.Valid() && Did(ReadNames(fmt, old(z.Unread()), n, room), r, z.Unread())
    {
      hide ReadStr;
      var xs: seq<Str> := [];
      JoinedNone(ReadNames(fmt, z.Unread(), n, room));
      for i := 0 to n
        invariant z.Valid() && |xs| == i <= room && ReadNames(fmt, old(z.Unread()), n, room) == Joined(xs,
            ReadNames(fmt, z.Unread(), n - i, room - i))
      {
        var x := LoadString();
        if x.Thrown? { return Thrown(x.why); }
        if i == room { return Thrown(BehindArray); }
        JoinedOne(xs, x.v, ReadNames(fmt, z.Unread(), n - i - 1, room - i - 1));
        xs := xs + [x.v];
      }
      assert xs + [] == xs;
      return Ok(xs);
    }

    method LoadDebug(nup: nat) returns (r: Load<Debug>)
      requires z.Valid()
      modifies z
      ensures z.Valid() && Did(ReadDebug(fmt, old(z.Unread()), nup), r, z.Unread())
    {
      hide ReadStr, ReadInt, ReadVector, ReadLocVars, ReadNames;
      var source := LoadString();
      if source.Thrown? { return Thrown(source.why); }
      var lineinfo := LoadVector(fmt.ints);
      if lineinfo.Thrown? { return Thrown(lineinfo.why); }
      var n := LoadInt();
      if n.Thrown? { return Thrown(n.why); }
      var locvars := LoadLocVars(n.v);
      if locvars.Thrown? { return Thrown(locvars.why); }
      var m := LoadInt();
      if m.Thrown? { return Thrown(m.why); }
      var names := LoadNames(m.v, nup);
      if names.Thrown? { return Thrown(names.why); }
      return Ok(Debug(source.v, lineinfo.v, locvars.v, names.v));
    }

    /** The part of LoadFunction before the inner functions. */
    method LoadFront() returns (r: Load<Front>)
      requires z.Valid()
      modifies z
      ensures z.Valid() && Did(ReadFront(fmt, old(z.Unread())), r, z.Unread())
    {
      hide ReadInt, ReadByte, ReadVector, ReadConsts;
      var a := LoadInt();
      if a.Thrown? { return Thrown(a.why); }
      var b := LoadInt();
      if b.Thrown? { return Thrown(b.why); }
      var c := LoadByte();
      if c.Thrown? { return Thrown(c.why); }
      var d := LoadByte();
      if d.Thrown? { return Thrown(d.why); }
      var e := LoadByte();
      if e.Thrown? { return Thrown(e.why); }
      var code := LoadVector(fmt.codes);
      if code.Thrown? { return Thrown(code.why); }
      var n := LoadInt();
      if n.Thrown? { return Thrown(n.why); }
      var k := LoadConstants(n.v);
      if k.Thrown? { return Thrown(k.why); }
      return Ok(Front(a.v, b.v, c.v, d.v, e.v, code.v, k.v));
    }

    method LoadFunction() returns (r: Load<Proto>)
      requires z.Valid()
      modifies z
      ensures z.Valid() && Did(ReadFunction(fmt, old(z.Unread())), r, z.Unread())
      decreases |z.Unread()|, 0
    {
      hide ReadFront, ReadInt, ReadUpvals, ReadDebug;
      var h := LoadFront();
      if h.Thrown? { return Thrown(h.why); }
      var n := LoadInt();
      if n.Thrown? { return Thrown(n.why); }
      var p := LoadProtos(n.v);
      if p.Thrown? { return Thrown(p.why); }
      var m := LoadInt();
      if m.Thrown? { return Thrown(m.why); }
      var u := LoadUpvalues(m.v);
      if u.Thrown? { return Thrown(u.why); }
      var g := LoadDebug(m.v);
      if g.Thrown? { return Thrown(g.why); }
      return Ok(Assembled(h.v, p.v, u.v, g.v));
    }

    /** The second half of LoadConstants. */
    method LoadProtos(n: nat) returns (r: Load<seq<Proto>>)
      requires z.Valid()
      modifies z
      ensures z.Valid() && Did(ReadProtos(fmt, old(z.Unread()), n), r, z.Unread())
      decreases |z.Unread()|, n
    {
      hide ReadFunction;
      var p: seq<Proto> := [];
      JoinedNone(ReadProtos(fmt, z.Unread(), n));
      for i := 0 to n
        invariant z.Valid() && |p| == i && ReadProtos(fmt, old(z.Unread()), n) == Joined(p, ReadProtos(fmt, z.Unread(),
            n - i))
        invariant |z.Unread()| <= |old(z.Unread())|
      {
        var f := LoadFunction();
        if f.Thrown? { return Thrown(f.why); }
        JoinedOne(p, f.v, ReadProtos(fmt, z.Unread(), n - i - 1));
        p := p + [f.v];
      }
      assert p + [] == p;
      return Ok(p);
    }

    /** LoadHeader; the first byte has been read before. */
    method LoadHeader() returns (r: Load<()>)
      requires z.Valid() && FormatOk(fmt)
      modifies z
      ensures z.Valid() && Did(ReadHeader(fmt, old(z.Unread())), r, z.Unread())
    {
      var h := Header(fmt);
      var b := LoadBlock(17);
      if b.Thrown? { return Thrown(b.why); }
      var s := [h[0]] + b.v;
      if s == h { return Ok(()); }
      if s[..4] != h[..4] { return Thrown(NotA); }
      if s[..6] != h[..6] { return Thrown(VersionMismatch); }
      if s[..12] != h[..12] { return Thrown(Incompatible); }
      return Thrown(Corrupted);
    }
  }

  lemma {:induction false} JoinedOne<T>(first: seq<T>, x: T, more: Parse<seq<T>>)
    ensures Joined(first, Joined([x], more)) == Joined(first + [x], more)
  {
    if more.Got? { assert first + ([x] + more.v) == first + [x] + more.v; }
  }

  lemma {:induction false} JoinedNone<T>(more: Parse<seq<T>>)
    ensures Joined([], more) == more
  {
    if more.Got? { assert [] + more.v == more.v; }
  }

  /** luaU_undump, of any bytes however they are split into pieces. */
  method Undump(fmt: Format, z: Zio) returns (r: Load<Proto>)
    requires z.Valid() && FormatOk(fmt)
    modifies z
    ensures z.Valid() && Did(ReadChunk(fmt, old(z.Unread())), r, z.Unread())
  {
    hide ReadHeader, ReadFunction;
    var s := new LoadState(fmt, z);
    var h := s.LoadHeader();
    if h.Thrown? { return Thrown(h.why); }
    r := s.LoadFunction();
  }

  /** A dump, its first byte taken off, in pieces of any sizes, with anything
      behind it: the function comes back, and what is behind is left unread. */
  method LoadDumped(fmt: Format, f: Proto, strip: bool, suffix: Bytes, chunks: seq<Bytes>)
    returns (r: Load<Proto>, z: Zio)
    requires FormatOk(fmt) && ProtoOk(fmt, f)
    requires Stream(chunks) == ChunkBytes(fmt, f, strip)[1..] + suffix
    ensures fresh(z) && z.Valid() && r == Ok(Kept(f, strip)) && z.Unread() == suffix
  {
    hide ReadChunk, ChunkBytes, Stream;
    z := new Zio(chunks);
    ChunkTrip(fmt, f, strip, suffix);
    r := Undump(fmt, z);
  }

  /** Pieces that are not empty stream all their bytes. */
  lemma {:induction false} StreamAll(chunks: seq<Bytes>)
    requires forall i | 0 <= i < |chunks| :: chunks[i] != []
    ensures Stream(chunks) == Flat(chunks)
  {
    if chunks != [] { StreamAll(chunks[1..]); }
  }
}
