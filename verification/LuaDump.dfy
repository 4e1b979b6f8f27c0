/** Dumping a function through a writer that may refuse (modules/lua/ldump.c). */
module LuaDump {
  import opened Common
  import opened LuaChunk

  /** What a dump of `b` has done: with the writer content, the blocks are `b`;
      after a refusal nothing more is written. */
  ghost predicate Wrote(out: Bytes, status: int, b: Bytes, out': Bytes, status': int) {
    if status != 0 then out' == out && status' == status
    else if status' == 0 then out' == out + b
    else out <= out' <= out + b
  }

  lemma {:induction false} WroteBoth(o: Bytes, s: int, b: Bytes, o1: Bytes, s1: int, b1: Bytes, o2: Bytes, s2: int)
    requires Wrote(o, s, b, o1, s1) && Wrote(o1, s1, b1, o2, s2)
    ensures Wrote(o, s, b + b1, o2, s2)
  {
    if s == 0 {
      assert o + (b + b1) == o + b + b1;
      if s1 != 0 {
        assert o + b <= o + b + b1;
      }
    }
  }

  lemma {:induction false} WroteNothing(o: Bytes, s: int)
    ensures Wrote(o, s, [], o, s)
  {
    assert o + [] == o;
  }

  class DumpState {
    const fmt: Format
    const strip: bool
    /** The answer of the writer to its n-th call. */
    const writer: nat -> int
    var calls: nat
    var out: Bytes
    var status: int

    /** No call follows a refusal, whose answer is the status. */
    ghost predicate Answers()
      reads this
    {
      && (forall n | 0 <= n && n + 1 < calls :: writer(n) == 0)
      && status == if calls == 0 then 0 else writer(calls - 1)
    }

    constructor (fmt: Format, strip: bool, writer: nat -> int)
      ensures this.fmt == fmt && this.strip == strip && this.writer == writer && out == [] && status == 0 && Answers()
    {
      this.fmt, this.strip, this.writer := fmt, strip, writer;
      calls, out, status := 0, [], 0;
    }

    /** DumpBlock */
    method DumpBlock(b: Bytes)
      requires Answers()
      modifies this
      ensures Answers() && Wrote(old(out), old(status), b, out, status)
    {
      if status == 0 {
        out := out + b;
        status := writer(calls);
        calls := calls + 1;
      }
    }

    method DumpChar(x: Byte)
      requires Answers()
      modifies this
      ensures Answers() && Wrote(old(out), old(status), [x], out, status)
    {
      DumpBlock([x]);
    }

    method DumpInt(x: nat)
      requires Answers()
      modifies this
      ensures Answers() && Wrote(old(out), old(status), IntBytes(fmt, x), out, status)
    {
      DumpBlock(IntBytes(fmt, x));
    }

    method DumpVector(w: seq<Bytes>)
      requires Answers()
      modifies this
      ensures Answers() && Wrote(old(out), old(status), VectorBytes(fmt, w), out, status)
    {
      hide Wrote, Answers;
      DumpInt(|w|);
      ghost var o, s := out, status;
      DumpBlock(Flat(w));
      WroteBoth(old(out), old(status), IntBytes(fmt, |w|), o, s, Flat(w), out, status);
    }

    method DumpString(s: Str)
      requires Answers()
      modifies this
      ensures Answers() && Wrote(old(out), old(status), StrBytes(fmt, s), out, status)
    {
      hide Wrote, Answers;
      match s {
        case NoStr => DumpBlock(Little(0, fmt.sizes));
        case Str(t) =>
          DumpBlock(Little(|t| + 1, fmt.sizes));
          ghost var o, s1 := out, status;
          DumpBlock(t + [0]);
          WroteBoth(old(out), old(status), Little(|t| + 1, fmt.sizes), o, s1, t + [0], out, status);
          assert Little(|t| + 1, fmt.sizes) + (t + [0]) == StrBytes(fmt, s);
      }
    }

    method DumpConstant(c: Const)
      requires Answers()
      modifies this
      ensures Answers() && Wrote(old(out), old(status), ConstBytes(fmt, c), out, status)
    {
      hide Wrote, Answers;
      var tag := match c
        case Nil => LUA_TNIL
        case Bool(_) => LUA_TBOOLEAN
        case Number(_) => LUA_TNUMBER
        case Text(_) => LUA_TSTRING;
      DumpChar(tag);
      ghost var o, s, body := out, status, [];
      WroteNothing(o, s);
      match c {
        case Nil =>
        case Bool(b) =>
          DumpChar(b);
          body := [b];
        case Number(w) =>
          DumpBlock(w);
          body := w;
        case Text(t) =>
          DumpString(t);
          body := StrBytes(fmt, t);
      }
      WroteBoth(old(out), old(status), [tag], o, s, body, out, status);
      assert [tag] + body == ConstBytes(fmt, c);
    }

    /** DumpConstants, up to the inner functions. */
    method DumpConstants(k: seq<Const>)
      requires Answers()
      modifies this
      ensures Answers() && Wrote(old(out), old(status), IntBytes(fmt, |k|) + ConstsBytes(fmt, k), out, status)
    {
      hide Wrote, Answers;
      DumpInt(|k|);
      ghost var done := IntBytes(fmt, |k|);
      for i := 0 to |k|
        invariant Answers() && Wrote(old(out), old(status), done, out, status) && done + ConstsBytes(fmt, k[i..])
            == IntBytes(fmt, |k|) + ConstsBytes(fmt, k)
      {
        ghost var o, s := out, status;
        DumpConstant(k[i]);
        WroteBoth(old(out), old(status), done, o, s, ConstBytes(fmt, k[i]), out, status);
        assert k[i..][1..] == k[i + 1..];
        done := done + ConstBytes(fmt, k[i]);
      }
      assert done == IntBytes(fmt, |k|) + ConstsBytes(fmt, k);
    }

    method DumpUpvalues(u: seq<Upval>)
      requires Answers()
      modifies this
      ensures Answers() && Wrote(old(out), old(status), IntBytes(fmt, |u|) + UpvalsBytes(u), out, status)
    {
      hide Wrote, Answers;
      DumpInt(|u|);
      ghost var done := IntBytes(fmt, |u|);
      for i := 0 to |u|
        invariant Answers() && Wrote(old(out), old(status), done, out, status) && done + UpvalsBytes(u[i..])
            == IntBytes(fmt, |u|) + UpvalsBytes(u)
      {
        ghost var o, s := out, status;
        DumpChar(u[i].instack);
        WroteBoth(old(out), old(status), done, o, s, [u[i].instack], out, status);
        o, s := out, status;
        DumpChar(u[i].idx);
        WroteBoth(old(out), old(status), done + [u[i].instack], o, s, [u[i].idx], out, status);
        assert u[i..][1..] == u[i + 1..];
        assert done + [u[i].instack] + [u[i].idx] == done + [u[i].instack, u[i].idx];
        done := done + [u[i].instack, u[i].idx];
      }
      assert done == IntBytes(fmt, |u|) + UpvalsBytes(u);
    }

    method DumpLocVars(vs: seq<LocVar>)
      requires Answers()
      modifies this
      ensures Answers() && Wrote(old(out), old(status), IntBytes(fmt, |vs|) + LocVarsBytes(fmt, vs), out, status)
    {
      hide Wrote, Answers;
      DumpInt(|vs|);
      ghost var done := IntBytes(fmt, |vs|);
      for i := 0 to |vs|
        invariant Answers() && Wrote(old(out), old(status), done, out, status) && done + LocVarsBytes(fmt, vs[i..])
            == IntBytes(fmt, |vs|) + LocVarsBytes(fmt, vs)
      {
        ghost var o, s := out, status;
        DumpString(vs[i].name);
        ghost var o1, s1 := out, status;
        DumpInt(vs[i].startpc);
        WroteBoth(o, s, StrBytes(fmt, vs[i].name), o1, s1, IntBytes(fmt, vs[i].startpc), out, status);
        o1, s1 := out, status;
        DumpInt(vs[i].endpc);
        WroteBoth(o, s, StrBytes(fmt, vs[i].name) + IntBytes(fmt, vs[i].startpc), o1, s1, IntBytes(fmt, vs[i].endpc),
            out, status);
        WroteBoth(old(out), old(status), done, o, s, LocVarBytes(fmt, vs[i]), out, status);
        assert vs[i..][1..] == vs[i + 1..];
        done := done + LocVarBytes(fmt, vs[i]);
      }
      assert done == IntBytes(fmt, |vs|) + LocVarsBytes(fmt, vs);
    }

    method DumpNames(u: seq<Upval>)
      requires Answers()
      modifies this
      ensures Answers() && Wrote(old(out), old(status), IntBytes(fmt, |u|) + NamesBytes(fmt, u), out, status)
    {
      hide Wrote, Answers;
      DumpInt(|u|);
      ghost var done := IntBytes(fmt, |u|);
      for i := 0 to |u|
        invariant Answers() && Wrote(old(out), old(status), done, out, status) && done + NamesBytes(fmt, u[i..])
            == IntBytes(fmt, |u|) + NamesBytes(fmt, u)
      {
        ghost var o, s := out, status;
        DumpString(u[i].name);
        WroteBoth(old(out), old(status), done, o, s, StrBytes(fmt, u[i].name), out, status);
        assert u[i..][1..] == u[i + 1..];
        done := done + StrBytes(fmt, u[i].name);
      }
      assert done == IntBytes(fmt, |u|) + NamesBytes(fmt, u);
    }

    method DumpDebug(f: Proto)
      requires Answers()
      modifies this
      ensures Answers() && Wrote(old(out), old(status), DebugBytes(fmt, f, strip), out, status)
    {
      hide Wrote, Answers, StrBytes, VectorBytes, IntBytes, LocVarsBytes, NamesBytes;
      var source, lineinfo := if strip then NoStr else f.source, if strip then [] else f.lineinfo;
      var locvars, names := if strip then [] else f.locvars, if strip then [] else f.upvalues;
      ghost var a, b := StrBytes(fmt, source), VectorBytes(fmt, lineinfo);
      ghost var c, d := IntBytes(fmt, |locvars|) + LocVarsBytes(fmt, locvars), IntBytes(fmt, |names|) + NamesBytes(fmt,
          names);
      DumpString(source);
      ghost var o1, s1 := out, status;
      DumpVector(lineinfo);
      ghost var o2, s2 := out, status;
      DumpLocVars(locvars);
      ghost var o3, s3 := out, status;
      DumpNames(names);
      WroteBoth(o2, s2, c, o3, s3, d, out, status);
      WroteBoth(o1, s1, b, o2, s2, c + d, out, status);
      WroteBoth(old(out), old(status), a, o1, s1, b + (c + d), out, status);
    }

    /** The part of DumpFunction before the inner functions. */
    method DumpFront(f: Proto)
      requires Answers()
      modifies this
      ensures Answers() && Wrote(old(out), old(status), FrontBytes(fmt, f), out, status)
    {
      hide Wrote, Answers, VectorBytes, IntBytes, ConstsBytes;
      ghost var a, b, v, c := IntBytes(fmt, f.linedefined), IntBytes(fmt, f.lastlinedefined), VectorBytes(fmt, f.code),
          IntBytes(fmt, |f.k|) + ConstsBytes(fmt, f.k);
      DumpInt(f.linedefined);
      ghost var o1, s1 := out, status;
      DumpInt(f.lastlinedefined);
      ghost var o2, s2 := out, status;
      DumpChar(f.numparams);
      ghost var o3, s3 := out, status;
      DumpChar(f.isVararg);
      ghost var o4, s4 := out, status;
      DumpChar(f.maxstacksize);
      ghost var o5, s5 := out, status;
      DumpVector(f.code);
      ghost var o6, s6 := out, status;
      DumpConstants(f.k);
      WroteBoth(o5, s5, v, o6, s6, c, out, status);
      WroteBoth(o4, s4, [f.maxstacksize], o5, s5, v + c, out, status);
      WroteBoth(o3, s3, [f.isVararg], o4, s4, [f.maxstacksize] + (v + c), out, status);
      WroteBoth(o2, s2, [f.numparams], o3, s3, [f.isVararg] + ([f.maxstacksize] + (v + c)), out, status);
      WroteBoth(o1, s1, b, o2, s2, [f.numparams] + ([f.isVararg] + ([f.maxstacksize] + (v + c))), out, status);
      WroteBoth(old(out), old(status), a, o1, s1, b + ([f.numparams] + ([f.isVararg] + ([f.maxstacksize] + (v + c)))),
          out, status);
    }

    method DumpFunction(f: Proto)
      requires Answers()
      modifies this
      ensures Answers() && Wrote(old(out), old(status), FunctionBytes(fmt, f, strip), out, status)
      decreases f, |f.p| + 1
    {
      hide Wrote, Answers, FrontBytes, IntBytes, UpvalsBytes, DebugBytes, ProtosBytes;
      ghost var a, b := FrontBytes(fmt, f), IntBytes(fmt, |f.p|) + ProtosBytes(fmt, f, 0, strip);
      ghost var c, d := IntBytes(fmt, |f.upvalues|) + UpvalsBytes(f.upvalues), DebugBytes(fmt, f, strip);
      DumpFront(f);
      ghost var o1, s1 := out, status;
      DumpProtos(f);
      ghost var o2, s2 := out, status;
      DumpUpvalues(f.upvalues);
      ghost var o3, s3 := out, status;
      DumpDebug(f);
      WroteBoth(o2, s2, c, o3, s3, d, out, status);
      WroteBoth(o1, s1, b, o2, s2, c + d, out, status);
      WroteBoth(old(out), old(status), a, o1, s1, b + (c + d), out, status);
    }

    /** The second half of DumpConstants. */
    method DumpProtos(f: Proto)
      requires Answers()
      modifies this
      ensures Answers() && Wrote(old(out), old(status), IntBytes(fmt, |f.p|) + ProtosBytes(fmt, f, 0, strip), out,
          status)
      decreases f, |f.p|
    {
      hide Wrote, Answers, IntBytes, FunctionBytes;
      DumpInt(|f.p|);
      ghost var done := IntBytes(fmt, |f.p|);
      for i := 0 to |f.p|
        invariant Answers() && Wrote(old(out), old(status), done, out, status)
        invariant done + ProtosBytes(fmt, f, i, strip) == IntBytes(fmt, |f.p|) + ProtosBytes(fmt, f, 0, strip)
      {
        ghost var o, s := out, status;
        DumpFunction(f.p[i]);
        WroteBoth(old(out), old(status), done, o, s, FunctionBytes(fmt, f.p[i], strip), out, status);
        assert done + (FunctionBytes(fmt, f.p[i], strip) + ProtosBytes(fmt, f, i + 1, strip)) == done
            + FunctionBytes(fmt, f.p[i], strip) + ProtosBytes(fmt, f, i + 1, strip);
        done := done + FunctionBytes(fmt, f.p[i], strip);
      }
      assert done == IntBytes(fmt, |f.p|) + ProtosBytes(fmt, f, 0, strip);
    }
  }

  /** luaU_dump: either the writer has got exactly the chunk, or it has refused
      and has got no more than a beginning of it. */
  method Dump(fmt: Format, f: Proto, writer: nat -> int, strip: bool) returns (status: int, out: Bytes)
    requires FormatOk(fmt)
    ensures if status == 0 then out == ChunkBytes(fmt, f, strip) else out <= ChunkBytes(fmt, f, strip)
    ensures status == 0 || exists n: nat :: status == writer(n)
  {
    hide FunctionBytes, Header;
    var d := new DumpState(fmt, strip, writer);
    d.DumpBlock(Header(fmt));
    ghost var o, s := d.out, d.status;
    d.DumpFunction(f);
    WroteBoth([], 0, Header(fmt), o, s, FunctionBytes(fmt, f, strip), d.out, d.status);
    assert [] + ChunkBytes(fmt, f, strip) == ChunkBytes(fmt, f, strip);
    return d.status, d.out;
  }
}
