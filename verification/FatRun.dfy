/** Any sequence of f_read, f_write, f_lseek and f_truncate on a file acts as on
    an array of bytes with a position. */
module FatRun {
  import opened Common
  import opened FatVolume
  import opened FatWindow
  import opened FatChains
  import opened FatAlloc
  import opened FatData
  import opened FatFile

  datatype Op = ReadOp(count: nat) | WriteOp(data: seq<Byte>) | SeekOp(ofs: nat) | TruncateOp

  /** The bytes, the position, the number of clusters of the file and that of free ones. */
  datatype State = State(content: seq<Byte>, pos: nat, clusters: nat, free: nat)

  /** How far a transfer up to `end` gets with clusters of `b` bytes: to its end
      if the clusters needed are there, else to the end of the last one. */
  function Reach(b: nat, s: State, end: nat): nat
    requires b > 0
  {
    if Need(b, end) <= s.clusters + s.free then end else (s.clusters + s.free) * b
  }

  /** The same file at `pos`, longer by the clusters this position needs. */
  ghost predicate Moved(b: nat, s: State, s': State, pos: nat)
    requires b > 0
  {
    s'.pos == pos && s'.clusters == Most(s.clusters, Need(b, pos)) && s'.clusters + s'.free == s.clusters + s.free
  }

  /** What an operation does to the array; `out` are the bytes it returns. Only
      bytes exposed by a seek past the end are not specified. `b` is the number
      of bytes of a cluster. */
  ghost predicate ArrayStep(b: nat, canRead: bool, canWrite: bool, s: State, op: Op, s': State, out: seq<Byte>)
    requires b > 0 && s.pos <= |s.content|
  {
    match op
    case ReadOp(n) =>
      var end := if !canRead then s.pos else if s.pos + n <= |s.content| then s.pos + n else |s.content|;
      s' == s.(pos := end) && out == s.content[s.pos..end]
    case WriteOp(data) =>
      var end := if !canWrite || |s.content| + |data| >= 0x1_0000_0000 then s.pos else Reach(b, s, s.pos + |data|);
      && s.pos <= end <= s.pos + |data|
      && s'.content == Overwrite(s.content, s.pos, data[..end - s.pos]) && Moved(b, s, s', end)
    case SeekOp(ofs) =>
      var end := Reach(b, s, if ofs > |s.content| && !canWrite then |s.content| else ofs);
      && s.content <= s'.content && |s'.content| == Most(|s.content|, end) && Moved(b, s, s', end)
    case TruncateOp =>
      && s'.pos == s.pos && s'.content == (if canWrite then s.content[..s.pos] else s.content)
      && s'.clusters == (if canWrite && s.pos < |s.content| then Need(b, s.pos) else s.clusters)
      && s'.clusters + s'.free == s.clusters + s.free
  }

  /** A transfer ends where the clusters of the file and the free ones do, if that is
      before its own end. */
  lemma {:induction false} ReachEnd(b: nat, s: State, end: nat)
    requires b > 0
    ensures var room := (s.clusters + s.free) * b; Reach(b, s, end) == if end <= room then end else room
  {
    NeedAtMost(b, end, s.clusters + s.free);
  }

  /** What a write comes to, byte by byte. */
  lemma {:induction false} WriteBytes(b: nat, canRead: bool, canWrite: bool, s: State, data: seq<Byte>, s': State,
      out: seq<Byte>)
    requires b > 0 && s.pos <= |s.content| && ArrayStep(b, canRead, canWrite, s, WriteOp(data), s', out)
    ensures canWrite && |s.content| + |data| < 0x1_0000_0000 ==>
      var room := (s.clusters + s.free) * b;
      && s'.pos == (if s.pos + |data| <= room then s.pos + |data| else room)
      && |s'.content| == (if s'.pos <= |s.content| then |s.content| else s'.pos)
      && forall j | 0 <= j < |s'.content| ::
           s'.content[j] == if s.pos <= j < s'.pos then data[j - s.pos] else s.content[j]
    ensures !canWrite || |s.content| + |data| >= 0x1_0000_0000 ==> s'.pos == s.pos && s'.content == s.content
    ensures s'.clusters + s'.free == s.clusters + s.free
        && s'.clusters == if s.clusters * b >= s'.pos then s.clusters else (s'.pos + b - 1) / b
  {
    ReachEnd(b, s, s.pos + |data|);
    OverwriteAt(s.content, s.pos, data[..s'.pos - s.pos]);
    NeedAtMost(b, s'.pos, s.clusters);
    NeedUp(b, s'.pos);
    hide Overwrite, Reach, Need;
  }

  /** What a seek comes to: it keeps all bytes, and stretches a file that may be
      written as far as there are clusters. */
  lemma {:induction false} SeekBytes(b: nat, canRead: bool, canWrite: bool, s: State, ofs: nat, s': State,
      out: seq<Byte>)
    requires b > 0 && s.pos <= |s.content| && ArrayStep(b, canRead, canWrite, s, SeekOp(ofs), s', out)
    ensures var room := (s.clusters + s.free) * b;
      var to := if ofs <= |s.content| || canWrite then ofs else |s.content|;
      && s'.pos == (if to <= room then to else room)
      && |s'.content| == (if s'.pos <= |s.content| then |s.content| else s'.pos)
      && forall j | 0 <= j < |s.content| :: s'.content[j] == s.content[j]
    ensures s'.clusters + s'.free == s.clusters + s.free
        && s'.clusters == if s.clusters * b >= s'.pos then s.clusters else (s'.pos + b - 1) / b
  {
    ReachEnd(b, s, if ofs > |s.content| && !canWrite then |s.content| else ofs);
    NeedAtMost(b, s'.pos, s.clusters);
    NeedUp(b, s'.pos);
    hide Reach, Need;
  }

  /** Sizes and offsets are 32-bit numbers. */
  predicate InWord(op: Op) {
    match op
    case WriteOp(data) => |data| < 0x1_0000_0000
    case SeekOp(ofs) => ofs < 0x1_0000_0000
    case _ => true
  }

  ghost function Now(f: Fil): (s: State)
    requires f.Valid()
    reads f, f.fs, f.fs.win
    ensures s.pos <= |s.content| && s.pos == f.fptr && |s.content| == f.fsize
  {
    f.ValidShape();
    State(f.Content(), f.fptr, |f.chain|, |FreeSet(Tab(f.fs))|)
  }

  /** The free clusters, as far as the contents of the volume say. */
  ghost function FreeIn(v: View, vol: Volume): set<nat> {
    if vol.Ok() && HasTable(v, vol) then FreeSet(Table(v, vol)) else {}
  }

  lemma {:induction false} FreeIs(f: Fil)
    requires f.Valid()
    ensures f.fs.WinOk() && FreeSet(Tab(f.fs)) == FreeIn(f.fs.See(), f.fs.vol) && f.fs.vol.csize > 0
  {
    hide FreeSet, Table, FatFs.See, Times;
    f.ValidShape();
    HasTab(f.fs);
    f.LinkedFacts();
  }

  /** Between operations: sizes fit their fields, and no operation was given up. */
  ghost predicate Ready(f: Fil)
    reads f, f.fs, f.fs.win
  {
    f.Valid() && f.fsize < 0x1_0000_0000 && !f.error && f.fs.vol.csize > 0
  }

  twostate predicate Did(f: Fil, op: Op, out: seq<Byte>)
    requires old(Ready(f)) && Ready(f)
    reads f, f.fs, f.fs.win
  {
    ArrayStep(ClusterBytes(f.fs.vol), f.canRead, f.canWrite, old(Now(f)), op, Now(f), out)
  }

  method ApplyRead(f: Fil, n: nat) returns (out: seq<Byte>)
    requires Ready(f)
    modifies f, f.fs`disk, f.fs`wflag, f.fs`winsect, f.fs`freeClust, f.fs`fsiFlag, f.fs`lastClust, f.fs.win
    ensures Ready(f) && Did(f, ReadOp(n), out)
  {
    hide Fil.Valid, Fil.Content, Fil.OnlyMine, Fil.Linked, Overwrite, FatFs.See, FatFs.WinOk, FreeSet, Tab, Clu, Times,
        FreeIn;
    f.ValidShape();
    FreeIs(f);
    var res;
    res, out := f.Read(n);
    f.ValidShape();
    FreeIs(f);
  }

  lemma {:induction false} ReachIs(b: nat, s: State, end: nat, pos: nat, clusters: nat)
    requires b > 0 && pos <= end && (pos == end <==> Need(b, end) <= s.clusters + s.free)
    requires pos < end ==> clusters == s.clusters + s.free && pos == clusters * b
    ensures pos == Reach(b, s, end)
  {
  }

  lemma {:induction false} WriteStep(b: nat, canRead: bool, canWrite: bool, s: State, data: seq<Byte>, s': State)
    requires b > 0 && s.pos <= |s.content| && s.pos <= s'.pos <= s.pos + |data| && Moved(b, s, s', s'.pos)
    requires s'.content == Overwrite(s.content, s.pos, data[..s'.pos - s.pos])
    requires s'.pos == if !canWrite || |s.content| + |data| >= 0x1_0000_0000 then s.pos else Reach(b, s, s.pos + |data|)
    ensures ArrayStep(b, canRead, canWrite, s, WriteOp(data), s', [])
  {
  }

  method ApplyWrite(f: Fil, data: seq<Byte>)
    requires Ready(f) && |data| < 0x1_0000_0000
    modifies f, f.fs`disk, f.fs`wflag, f.fs`winsect, f.fs`freeClust, f.fs`fsiFlag, f.fs`lastClust, f.fs.win
    ensures Ready(f) && Did(f, WriteOp(data), [])
  {
    hide Fil.Valid, Fil.Content, Fil.OnlyMine, Fil.Linked, Fil.Shape, MineOnly, Overwrite, FatFs.See, FatFs.WinOk,
        FreeSet, Tab, Clu, Times, FreeIn, Need, ArrayStep, Reach;
    f.ValidShape();
    ghost var s := Now(f);
    var res, bw := f.Write(data);
    f.ValidShape();
    ghost var b := ClusterBytes(f.fs.vol);
    if data == [] { NeedMono(b, s.pos, |s.content|); }
    if f.canWrite && |s.content| + |data| < 0x1_0000_0000 { ReachIs(b, s, s.pos + |data|, f.fptr, |f.chain|); }
    WriteStep(b, f.canRead, f.canWrite, s, data, Now(f));
  }

  method ApplySeek(f: Fil, ofs: nat)
    requires Ready(f) && ofs < 0x1_0000_0000
    modifies f, f.fs`disk, f.fs`wflag, f.fs`winsect, f.fs`freeClust, f.fs`fsiFlag, f.fs`lastClust, f.fs.win
    ensures Ready(f) && Did(f, SeekOp(ofs), [])
  {
    hide Fil.Valid, Fil.Content, Fil.OnlyMine, Fil.Linked, Fil.Shape, MineOnly, Overwrite, FatFs.See, FatFs.WinOk,
        FreeSet, Tab, Clu, Times, FreeIn, Need, Reach;
    f.ValidShape();
    ghost var s := Now(f);
    var res := f.Seek(ofs);
    f.ValidShape();
    var target := if ofs > |s.content| && !f.canWrite then |s.content| else ofs;
    ReachIs(ClusterBytes(f.fs.vol), s, target, f.fptr, |f.chain|);
  }

  method ApplyTruncate(f: Fil)
    requires Ready(f)
    modifies f, f.fs`disk, f.fs`wflag, f.fs`winsect, f.fs`freeClust, f.fs`fsiFlag, f.fs`lastClust, f.fs.win
    ensures Ready(f) && Did(f, TruncateOp, [])
  {
    hide Fil.Valid, Fil.Content, Fil.OnlyMine, Fil.Linked, Overwrite, FatFs.See, FatFs.WinOk, FreeSet, Tab, Clu, Times,
        FreeIn, Need;
    f.ValidShape();
    var res := f.Truncate();
    f.ValidShape();
  }

  method Apply(f: Fil, op: Op) returns (out: seq<Byte>)
    requires Ready(f) && InWord(op)
    modifies f, f.fs`disk, f.fs`wflag, f.fs`winsect, f.fs`freeClust, f.fs`fsiFlag, f.fs`lastClust, f.fs.win
    ensures Ready(f) && Did(f, op, out)
  {
    hide Ready, Did;
    out := [];
    match op {
      case ReadOp(n) => out := ApplyRead(f, n);
      case WriteOp(data) => ApplyWrite(f, data);
      case SeekOp(ofs) => ApplySeek(f, ofs);
      case TruncateOp => ApplyTruncate(f);
    }
  }

  /** A run of the byte array: the states, and what the operations return. */
  ghost predicate Runs(b: nat, canRead: bool, canWrite: bool, states: seq<State>, ops: seq<Op>, outs: seq<seq<Byte>>)
    requires b > 0
  {
    && |states| == |outs| + 1 && |outs| <= |ops|
    && forall i | 0 <= i < |outs| ::
         states[i].pos <= |states[i].content| && ArrayStep(b, canRead, canWrite, states[i], ops[i], states[i + 1],
             outs[i])
  }

  lemma {:induction false} RunsNone(b: nat, canRead: bool, canWrite: bool, states: seq<State>, ops: seq<Op>)
    requires b > 0 && |states| == 1
    ensures Runs(b, canRead, canWrite, states, ops, [])
  {
  }

  lemma {:induction false} RunsOn(b: nat, canRead: bool, canWrite: bool, states: seq<State>, ops: seq<Op>,
      outs: seq<seq<Byte>>, s': State, out: seq<Byte>)
    requires b > 0 && Runs(b, canRead, canWrite, states, ops, outs) && |outs| < |ops|
        && states[|outs|].pos <= |states[|outs|].content|
    requires ArrayStep(b, canRead, canWrite, states[|outs|], ops[|outs|], s', out)
    ensures Runs(b, canRead, canWrite, states + [s'], ops, outs + [out])
  {
    hide ArrayStep;
  }

  lemma {:induction false} RunsSteps(b: nat, canRead: bool, canWrite: bool, states: seq<State>, ops: seq<Op>,
      outs: seq<seq<Byte>>)
    requires b > 0 && Runs(b, canRead, canWrite, states, ops, outs)
    ensures |states| == |outs| + 1 && |outs| <= |ops|
    ensures forall i | 0 <= i < |outs| ::
      && states[i].pos <= |states[i].content|
      && ArrayStep(b, canRead, canWrite, states[i], ops[i], states[i + 1], outs[i])
  {
    hide ArrayStep;
  }

  /** A whole run of operations is a run of the byte array, and none fails. */
  method RunFile(f: Fil, ops: seq<Op>) returns (outs: seq<seq<Byte>>, ghost states: seq<State>)
    requires Ready(f) && forall op | op in ops :: InWord(op)
    modifies f, f.fs`disk, f.fs`wflag, f.fs`winsect, f.fs`freeClust, f.fs`fsiFlag, f.fs`lastClust, f.fs.win
    ensures Ready(f) && Runs(ClusterBytes(f.fs.vol), f.canRead, f.canWrite, states, ops, outs)
    ensures |outs| == |ops| && |states| == |ops| + 1 && states[0] == old(Now(f)) && states[|ops|] == Now(f)
    ensures forall i | 0 <= i < |ops| ::
      && states[i].pos <= |states[i].content|
      && ArrayStep(ClusterBytes(f.fs.vol), f.canRead, f.canWrite, states[i], ops[i], states[i + 1], outs[i])
  {
    hide Fil.Valid, Fil.Content, ArrayStep, Runs;
    outs, states := [], [Now(f)];
    RunsNone(ClusterBytes(f.fs.vol), f.canRead, f.canWrite, states, ops);
    for i := 0 to |ops|
      invariant Ready(f) && |outs| == i && |states| == i + 1 && states[0] == old(Now(f)) && states[i] == Now(f)
      invariant Runs(ClusterBytes(f.fs.vol), f.canRead, f.canWrite, states, ops, outs)
    {
      assert ops[i] in ops;
      var out := Apply(f, ops[i]);
      RunsOn(ClusterBytes(f.fs.vol), f.canRead, f.canWrite, states, ops, outs, Now(f), out);
      outs, states := outs + [out], states + [Now(f)];
    }
    RunsSteps(ClusterBytes(f.fs.vol), f.canRead, f.canWrite, states, ops, outs);
  }
}
