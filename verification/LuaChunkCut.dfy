/** A precompiled chunk that ends early is refused as truncated, wherever it ends
    (modules/lua/lundump.c): what is read depends only on the bytes that are read. */
module LuaChunkCut {
  import opened LuaChunk
  import opened LuaChunkTrip

  /** Where reading from `s` gives `r`, reading from a beginning `s'` of it gives the same if
      that has the bytes, and else finds it truncated. */
  ghost predicate Cut<T(!new)>(s: Bytes, r: Parse<T>, s': Bytes, r': Parse<T>) {
    r.Got? ==>
      && |r.rest| <= |s|
      && if |s'| < |s| - |r.rest| then r' == Bad(Truncated)
         else r'.Got? && r'.v == r.v && |r'.rest| == |s'| - (|s| - |r.rest|) && r'.rest <= r.rest
  }

  lemma {:induction false} BlockCut(s: Bytes, s': Bytes, n: nat)
    requires s' <= s
    ensures Cut(s, ReadBlock(s, n), s', ReadBlock(s', n))
  {
    if |s'| >= n { assert s'[..n] == s[..n] && s'[n..] <= s[n..]; }
  }

  lemma {:induction false} ByteCut(s: Bytes, s': Bytes)
    requires s' <= s
    ensures Cut(s, ReadByte(s), s', ReadByte(s'))
  {
    BlockCut(s, s', 1);
    hide ReadBlock;
  }

  lemma {:induction false} IntCut(fmt: Format, s: Bytes, s': Bytes)
    requires s' <= s
    ensures Cut(s, ReadInt(fmt, s), s', ReadInt(fmt, s'))
  {
    BlockCut(s, s', fmt.ints);
    hide ReadBlock;
  }

  lemma {:induction false} StrCut(fmt: Format, s: Bytes, s': Bytes)
    requires s' <= s
    ensures Cut(s, ReadStr(fmt, s), s', ReadStr(fmt, s'))
  {
    hide ReadBlock, Value;
    BlockCut(s, s', fmt.sizes);
    var b, b' := ReadBlock(s, fmt.sizes), ReadBlock(s', fmt.sizes);
    if b.Got? && b'.Got? { BlockCut(b.rest, b'.rest, Value(b.v)); }
  }

  lemma {:induction false} VectorCut(fmt: Format, s: Bytes, s': Bytes, size: nat)
    requires s' <= s
    ensures Cut(s, ReadVector(fmt, s, size), s', ReadVector(fmt, s', size))
  {
    hide ReadBlock, ReadInt;
    IntCut(fmt, s, s');
    var n, n' := ReadInt(fmt, s), ReadInt(fmt, s');
    if n.Got? && n'.Got? {
      assert n.v * size >= 0;
      BlockCut(n.rest, n'.rest, n.v * size);
    }
  }

  lemma {:induction false} ConstCut(fmt: Format, s: Bytes, s': Bytes)
    requires s' <= s
    ensures Cut(s, ReadConst(fmt, s), s', ReadConst(fmt, s'))
  {
    hide ReadBlock, ReadByte, ReadStr;
    ByteCut(s, s');
    var t, t' := ReadByte(s), ReadByte(s');
    if t.Got? && t'.Got? {
      ByteCut(t.rest, t'.rest);
      BlockCut(t.rest, t'.rest, fmt.numbers);
      StrCut(fmt, t.rest, t'.rest);
    }
  }

  lemma {:induction false} ConstsCut(fmt: Format, s: Bytes, s': Bytes, n: nat)
    requires s' <= s
    ensures Cut(s, ReadConsts(fmt, s, n), s', ReadConsts(fmt, s', n))
    decreases n
  {
    hide ReadConst;
    if n > 0 {
      ConstCut(fmt, s, s');
      var c, c' := ReadConst(fmt, s), ReadConst(fmt, s');
      if c.Got? && c'.Got? { ConstsCut(fmt, c.rest, c'.rest, n - 1); }
    }
  }

  lemma {:induction false} UpvalsCut(s: Bytes, s': Bytes, n: nat)
    requires s' <= s
    ensures Cut(s, ReadUpvals(s, n), s', ReadUpvals(s', n))
    decreases n
  {
    hide ReadByte;
    if n > 0 {
      ByteCut(s, s');
      var a, a' := ReadByte(s), ReadByte(s');
      if a.Got? && a'.Got? {
        ByteCut(a.rest, a'.rest);
        var b, b' := ReadByte(a.rest), ReadByte(a'.rest);
        if b.Got? && b'.Got? { UpvalsCut(b.rest, b'.rest, n - 1); }
      }
    }
  }

  lemma {:induction false} LocVarsCut(fmt: Format, s: Bytes, s': Bytes, n: nat)
    requires s' <= s
    ensures Cut(s, ReadLocVars(fmt, s, n), s', ReadLocVars(fmt, s', n))
    decreases n
  {
    hide ReadStr, ReadInt;
    if n > 0 {
      StrCut(fmt, s, s');
      var x, x' := ReadStr(fmt, s), ReadStr(fmt, s');
      if x.Got? && x'.Got? {
        IntCut(fmt, x.rest, x'.rest);
        var a, a' := ReadInt(fmt, x.rest), ReadInt(fmt, x'.rest);
        if a.Got? && a'.Got? {
          IntCut(fmt, a.rest, a'.rest);
          var b, b' := ReadInt(fmt, a.rest), ReadInt(fmt, a'.rest);
          if b.Got? && b'.Got? { LocVarsCut(fmt, b.rest, b'.rest, n - 1); }
        }
      }
    }
  }

  lemma {:induction false} NamesCut(fmt: Format, s: Bytes, s': Bytes, n: nat, room: nat)
    requires s' <= s
    ensures Cut(s, ReadNames(fmt, s, n, room), s', ReadNames(fmt, s', n, room))
    decreases n
  {
    hide ReadStr;
    if n > 0 {
      StrCut(fmt, s, s');
      var x, x' := ReadStr(fmt, s), ReadStr(fmt, s');
      if x.Got? && x'.Got? && room > 0 { NamesCut(fmt, x.rest, x'.rest, n - 1, room - 1); }
    }
  }

  lemma {:induction false} DebugCut(fmt: Format, s: Bytes, s': Bytes, nup: nat)
    requires s' <= s
    ensures Cut(s, ReadDebug(fmt, s, nup), s', ReadDebug(fmt, s', nup))
  {
    hide ReadStr, ReadVector, ReadInt, ReadLocVars, ReadNames;
    StrCut(fmt, s, s');
    var a, a' := ReadStr(fmt, s), ReadStr(fmt, s');
    if a.Got? && a'.Got? {
      VectorCut(fmt, a.rest, a'.rest, fmt.ints);
      var b, b' := ReadVector(fmt, a.rest, fmt.ints), ReadVector(fmt, a'.rest, fmt.ints);
      if b.Got? && b'.Got? {
        IntCut(fmt, b.rest, b'.rest);
        var n, n' := ReadInt(fmt, b.rest), ReadInt(fmt, b'.rest);
        if n.Got? && n'.Got? {
          LocVarsCut(fmt, n.rest, n'.rest, n.v);
          var v, v' := ReadLocVars(fmt, n.rest, n.v), ReadLocVars(fmt, n'.rest, n.v);
          if v.Got? && v'.Got? {
            IntCut(fmt, v.rest, v'.rest);
            var m, m' := ReadInt(fmt, v.rest), ReadInt(fmt, v'.rest);
            if m.Got? && m'.Got? { NamesCut(fmt, m.rest, m'.rest, m.v, nup); }
          }
        }
      }
    }
  }

  lemma {:induction false} FrontCut(fmt: Format, s: Bytes, s': Bytes)
    requires s' <= s
    ensures Cut(s, ReadFront(fmt, s), s', ReadFront(fmt, s'))
  {
    hide ReadByte, ReadVector, ReadInt, ReadConsts;
    IntCut(fmt, s, s');
    var a, a' := ReadInt(fmt, s), ReadInt(fmt, s');
    if a.Bad? || a'.Bad? { return; }
    IntCut(fmt, a.rest, a'.rest);
    var b, b' := ReadInt(fmt, a.rest), ReadInt(fmt, a'.rest);
    if b.Bad? || b'.Bad? { return; }
    ByteCut(b.rest, b'.rest);
    var c, c' := ReadByte(b.rest), ReadByte(b'.rest);
    if c.Bad? || c'.Bad? { return; }
    ByteCut(c.rest, c'.rest);
    var d, d' := ReadByte(c.rest), ReadByte(c'.rest);
    if d.Bad? || d'.Bad? { return; }
    ByteCut(d.rest, d'.rest);
    var e, e' := ReadByte(d.rest), ReadByte(d'.rest);
    if e.Bad? || e'.Bad? { return; }
    VectorCut(fmt, e.rest, e'.rest, fmt.codes);
    var code, code' := ReadVector(fmt, e.rest, fmt.codes), ReadVector(fmt, e'.rest, fmt.codes);
    if code.Bad? || code'.Bad? { return; }
    IntCut(fmt, code.rest, code'.rest);
    var n, n' := ReadInt(fmt, code.rest), ReadInt(fmt, code'.rest);
    if n.Bad? || n'.Bad? { return; }
    ConstsCut(fmt, n.rest, n'.rest, n.v);
  }

  lemma {:induction false} FunctionCut(fmt: Format, s: Bytes, s': Bytes)
    requires s' <= s
    ensures Cut(s, ReadFunction(fmt, s), s', ReadFunction(fmt, s'))
    decreases |s|, 0
  {
    hide ReadFront, ReadInt, ReadUpvals, ReadDebug, ReadProtos;
    FrontCut(fmt, s, s');
    var h, h' := ReadFront(fmt, s), ReadFront(fmt, s');
    if h.Bad? || h'.Bad? { return; }
    IntCut(fmt, h.rest, h'.rest);
    var n, n' := ReadInt(fmt, h.rest), ReadInt(fmt, h'.rest);
    if n.Bad? || n'.Bad? { return; }
    ProtosCut(fmt, n.rest, n'.rest, n.v);
    var p, p' := ReadProtos(fmt, n.rest, n.v), ReadProtos(fmt, n'.rest, n.v);
    if p.Bad? || p'.Bad? { return; }
    IntCut(fmt, p.rest, p'.rest);
    var m, m' := ReadInt(fmt, p.rest), ReadInt(fmt, p'.rest);
    if m.Bad? || m'.Bad? { return; }
    UpvalsCut(m.rest, m'.rest, m.v);
    var u, u' := ReadUpvals(m.rest, m.v), ReadUpvals(m'.rest, m.v);
    if u.Bad? || u'.Bad? { return; }
    DebugCut(fmt, u.rest, u'.rest, m.v);
  }

  lemma {:induction false} ProtosCut(fmt: Format, s: Bytes, s': Bytes, n: nat)
    requires s' <= s
    ensures Cut(s, ReadProtos(fmt, s, n), s', ReadProtos(fmt, s', n))
    decreases |s|, n
  {
    hide ReadFunction;
    if n > 0 {
      FunctionCut(fmt, s, s');
      var f, f' := ReadFunction(fmt, s), ReadFunction(fmt, s');
      if f.Got? && f'.Got? { ProtosCut(fmt, f.rest, f'.rest, n - 1); }
    }
  }

  lemma {:induction false} HeaderCut(fmt: Format, s: Bytes, s': Bytes)
    requires FormatOk(fmt) && s' <= s
    ensures Cut(s, ReadHeader(fmt, s), s', ReadHeader(fmt, s'))
  {
    hide ReadBlock, Header;
    BlockCut(s, s', 17);
  }

  /** Whatever the bytes are: if they start with a chunk, any beginning of them that has not
      all of it is truncated, and any other gives the same function. */
  lemma {:induction false} ReadCut(fmt: Format, s: Bytes, s': Bytes)
    requires FormatOk(fmt) && s' <= s && ReadChunk(fmt, s).Got?
    ensures var r := ReadChunk(fmt, s);
      && |r.rest| <= |s|
      && if |s'| < |s| - |r.rest| then ReadChunk(fmt, s') == Bad(Truncated)
         else ReadChunk(fmt, s').Got? && ReadChunk(fmt, s').v == r.v
  {
    hide ReadHeader, ReadFunction;
    HeaderCut(fmt, s, s');
    var h, h' := ReadHeader(fmt, s), ReadHeader(fmt, s');
    if h'.Got? { FunctionCut(fmt, h.rest, h'.rest); }
  }

  /** The chunk of any function, behind its first byte: every proper beginning is truncated. */
  lemma {:induction false} ChunkCut(fmt: Format, f: Proto, strip: bool, n: nat)
    requires FormatOk(fmt) && ProtoOk(fmt, f) && 1 <= n < |ChunkBytes(fmt, f, strip)|
    ensures ReadChunk(fmt, ChunkBytes(fmt, f, strip)[1..n]) == Bad(Truncated)
  {
    hide ReadChunk, ChunkBytes, ProtoOk;
    var b := ChunkBytes(fmt, f, strip);
    ChunkTrip(fmt, f, strip, []);
    assert b[1..] + [] == b[1..];
    assert b[1..n] <= b[1..] by { assert b[1..n] == b[1..][..n - 1]; }
    ReadCut(fmt, b[1..], b[1..n]);
  }
}
