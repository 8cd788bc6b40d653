/**
 Calling one function of the original: arguments are laid out below the stack
 top, a return trap is planted, and what the callee left in the buffers is read
 back.
 */
module CallDriver {
  import opened Prelude
  import opened FunctionSpec

  const SENTINEL := 0x1000000

  type Memory = map<int, byte>

  function Write(m: Memory, at: int, data: seq<byte>): (r: Memory) {
    if data == [] then m else Write(m, at, data[..|data| - 1])[at + |data| - 1 := data[|data| - 1]]
  }

  /** Exactly the addressed bytes change. */
  lemma {:induction false} WriteIs(m: Memory, at: int, data: seq<byte>)
    ensures var r := Write(m, at, data);
            && (forall a :: a in r <==> a in m || at <= a < at + |data|)
            && (forall a :: at <= a < at + |data| ==> r[a] == data[a - at])
            && forall a :: a in m && !(at <= a < at + |data|) ==> r[a] == m[a]
  {
    if data != [] {
      WriteIs(m, at, data[..|data| - 1]);
    }
  }

  /** The bytes at [at, at + |data|) are `data`. */
  ghost predicate Holds(m: Memory, at: int, data: seq<byte>) {
    forall a :: at <= a < at + |data| ==> a in m && m[a] == data[a - at]
  }

  predicate Mapped(m: Memory, at: int, n: nat) { forall a :: at <= a < at + n ==> a in m }

  /** Reading `n` bytes; None is the raise on an unmapped byte. */
  function Read(m: Memory, at: int, n: nat): (r: Option<seq<byte>>)
    ensures r.Some? <==> Mapped(m, at, n)
    ensures r.Some? ==> |r.value| == n && Holds(m, at, r.value)
  {
    if Mapped(m, at, n) then Some(seq(n, i requires 0 <= i < n => m[at + i])) else None
  }

  /** Reading gives exactly the bytes that are there. */
  lemma ReadHeld(m: Memory, at: int, data: seq<byte>)
    ensures Read(m, at, |data|) == Some(data) <==> Holds(m, at, data)
  {
    var r := Read(m, at, |data|);
    if Holds(m, at, data) {
      forall i | 0 <= i < |data|
        ensures r.value[i] == data[i]
      {
        assert m[at + i] == data[i];
      }
      assert r.value == data;
    }
  }

  // ---------- little-endian cells ----------

  /** A signed 32-bit value as four bytes, least significant first. */
  function PackCell(x: int): (b: seq<byte>)
    requires IsI32(x)
    ensures |b| == 4
  {
    var u := x % 0x1_0000_0000;
    [u % 256, u / 256 % 256, u / 65536 % 256, u / 16777216]
  }

  function UnpackCell(b: seq<byte>): (x: int)
    requires |b| == 4
    ensures IsI32(x)
  {
    var u: int := b[0] as int + 256 * (b[1] as int) + 65536 * (b[2] as int) + 16777216 * (b[3] as int);
    if u < 0x8000_0000 then u else u - 0x1_0000_0000
  }

  lemma CellRoundTrip(x: int)
    requires IsI32(x)
    ensures UnpackCell(PackCell(x)) == x
  {
    var u := x % 0x1_0000_0000;
    assert u == x || u == x + 0x1_0000_0000;
    FourBytes(u);
  }

  lemma FourBytes(u: nat)
    ensures u == u % 256 + 256 * (u / 256 % 256) + 65536 * (u / 65536 % 256) + 16777216 * (u / 16777216)
  {
    assert u / 256 / 256 == u / 65536 && u / 65536 / 256 == u / 16777216;
  }

  lemma CellFaithful(b: seq<byte>)
    requires |b| == 4
    ensures PackCell(UnpackCell(b)) == b
  {
    var u: int := b[0] as int + 256 * (b[1] as int) + 65536 * (b[2] as int) + 16777216 * (b[3] as int);
    var x := UnpackCell(b);
    assert x % 0x1_0000_0000 == u;
    assert u % 256 == b[0];
    assert u / 256 == (b[1] as int) + 256 * (b[2] as int) + 65536 * (b[3] as int);
    assert u / 65536 == (b[2] as int) + 256 * (b[3] as int);
  }

  function Pack(cells: seq<int>): (b: seq<byte>)
    requires AllI32(cells)
    ensures |b| == 4 * |cells|
  {
    if cells == [] then [] else PackCell(cells[0]) + Pack(cells[1..])
  }

  function Unpack(b: seq<byte>, n: nat): (cells: seq<int>)
    requires |b| == 4 * n
    ensures |cells| == n && AllI32(cells)
    decreases n
  {
    if n == 0 then [] else [UnpackCell(b[..4])] + Unpack(b[4..], n - 1)
  }

  lemma {:induction false} PackRoundTrip(cells: seq<int>)
    requires AllI32(cells)
    ensures Unpack(Pack(cells), |cells|) == cells
  {
    if cells != [] {
      CellRoundTrip(cells[0]);
      PackRoundTrip(cells[1..]);
      assert Pack(cells)[..4] == PackCell(cells[0]) && Pack(cells)[4..] == Pack(cells[1..]);
      assert cells == [cells[0]] + cells[1..];
    }
  }

  lemma {:induction false} UnpackFaithful(b: seq<byte>, n: nat)
    requires |b| == 4 * n
    ensures Pack(Unpack(b, n)) == b
    decreases n
  {
    if n != 0 {
      CellFaithful(b[..4]);
      UnpackFaithful(b[4..], n - 1);
      var cells := Unpack(b, n);
      assert cells[0] == UnpackCell(b[..4]) && cells[1..] == Unpack(b[4..], n - 1);
      assert b == b[..4] + b[4..];
    }
  }

  // ---------- layout ----------

  /** (n + 15) & ~15. */
  function RoundUp16(n: nat): (r: nat)
    ensures n <= r < n + 16 && r % 16 == 0
  {
    (n + 15) / 16 * 16
  }

  /** The case has a value of the right kind for every parameter. */
  ghost predicate Shaped(ps: seq<Param>, c: Case) {
    forall i :: 0 <= i < |ps| ==> ps[i].name in c && OfKind(c[ps[i].name], ps[i].kind)
  }

  /** A well-shaped case marshals exactly when its cells can be packed. */
  lemma CanMarshalIff(ps: seq<Param>, c: Case)
    requires Shaped(ps, c)
    ensures CanMarshal(ps, c) <==> Packable(ps, c)
  {
  }

  predicate CanMarshal(ps: seq<Param>, c: Case) {
    forall i :: 0 <= i < |ps| ==>
      ps[i].name in c && OfKind(c[ps[i].name], ps[i].kind) && (ps[i].kind == BufferI32 ==> AllI32(c[ps[i].name].cells))
  }

  function InMemory(p: Param): (r: bool) { p.kind != I32 }

  /** The bytes a parameter occupies on the stack; none for a scalar. */
  function Data(p: Param, v: Value): (b: seq<byte>)
    requires OfKind(v, p.kind) && (p.kind == BufferI32 ==> AllI32(v.cells))
  {
    match p.kind case I32 => [] case CString => v.text case BufferI32 => Pack(v.cells)
  }

  function DataAt(ps: seq<Param>, c: Case, i: nat): (b: seq<byte>)
    requires CanMarshal(ps, c) && i < |ps|
  {
    Data(ps[i], c[ps[i].name])
  }

  /** The stack top once the first `i` parameters are laid out. */
  function Top(sp: int, ps: seq<Param>, c: Case, i: nat): (r: int)
    requires CanMarshal(ps, c) && i <= |ps|
    decreases i
  {
    if i == 0 then sp else Top(sp, ps, c, i - 1) - RoundUp16(|DataAt(ps, c, i - 1)|)
  }

  function Marshalled(m: Memory, sp: int, ps: seq<Param>, c: Case, i: nat): (r: Memory)
    requires CanMarshal(ps, c) && i <= |ps|
    decreases i
  {
    if i == 0 then m
    else
      var before := Marshalled(m, sp, ps, c, i - 1);
      if InMemory(ps[i - 1]) then Write(before, Top(sp, ps, c, i), DataAt(ps, c, i - 1)) else before
  }

  function RegValues(sp: int, ps: seq<Param>, c: Case, i: nat): (r: seq<int>)
    requires CanMarshal(ps, c) && i <= |ps|
    ensures |r| == i
    decreases i
  {
    if i == 0 then []
    else RegValues(sp, ps, c, i - 1) + [if InMemory(ps[i - 1]) then Top(sp, ps, c, i) else c[ps[i - 1].name].i]
  }

  function Rsp(top: int): (r: int) { top - (top - 8) % 16 }

  lemma {:induction false} TopFalls(sp: int, ps: seq<Param>, c: Case, i: nat, j: nat)
    requires CanMarshal(ps, c) && i <= j <= |ps|
    ensures Top(sp, ps, c, j) <= Top(sp, ps, c, i)
    ensures i < j ==> Top(sp, ps, c, j) + |DataAt(ps, c, j - 1)| <= Top(sp, ps, c, i)
  {
    if i < j {
      TopFalls(sp, ps, c, i, j - 1);
    }
  }

  lemma {:induction false} TopAligned(sp: int, ps: seq<Param>, c: Case, i: nat)
    requires CanMarshal(ps, c) && i <= |ps|
    ensures Top(sp, ps, c, i) % 16 == sp % 16
  {
    if i != 0 {
      TopAligned(sp, ps, c, i - 1);
      SubtractMultiple(Top(sp, ps, c, i - 1), RoundUp16(|DataAt(ps, c, i - 1)|));
    }
  }

  lemma SubtractMultiple(x: int, y: int)
    requires y % 16 == 0
    ensures (x - y) % 16 == x % 16
  {
  }

  /** Parameter `i` occupies [Top(i + 1), Top(i + 1) + |DataAt(i)|): below the stack top and clear of every other. */
  lemma RegionsDisjoint(sp: int, ps: seq<Param>, c: Case, i: nat, j: nat)
    requires CanMarshal(ps, c) && i < j < |ps|
    ensures Top(sp, ps, c, i + 1) + |DataAt(ps, c, i)| <= sp
    ensures Top(sp, ps, c, j + 1) + |DataAt(ps, c, j)| <= Top(sp, ps, c, i + 1)
  {
    TopFalls(sp, ps, c, 0, i + 1);
    TopFalls(sp, ps, c, i + 1, j + 1);
  }

  /** Regions are packed: fewer than sixteen bytes are left between one and the next. */
  lemma RegionsTight(sp: int, ps: seq<Param>, c: Case, i: nat)
    requires CanMarshal(ps, c) && i < |ps|
    ensures Top(sp, ps, c, i) - 16 < Top(sp, ps, c, i + 1) + |DataAt(ps, c, i)| <= Top(sp, ps, c, i)
    ensures Top(sp, ps, c, 0) == sp
  {
  }

  /** Each argument register holds its scalar, or the address of its region. */
  lemma {:induction false} RegistersHold(sp: int, ps: seq<Param>, c: Case, n: nat, i: nat)
    requires CanMarshal(ps, c) && i < n <= |ps|
    ensures ps[i].kind == I32 ==> c[ps[i].name] == IntV(RegValues(sp, ps, c, n)[i])
    ensures ps[i].kind != I32 ==> RegValues(sp, ps, c, n)[i] == Top(sp, ps, c, i + 1)
    decreases n
  {
    if i < n - 1 {
      RegistersHold(sp, ps, c, n - 1, i);
    }
  }

  /** The stack pointer at entry: below everything, eight past a 16-byte boundary. */
  lemma EntryAlignment(top: int)
    ensures Rsp(top) % 16 == 8 && top - 16 < Rsp(top) <= top
  {
  }

  /** The eight-byte return trap at rsp stays below the lowest buffer exactly when sp is in the lower half of its 16 bytes. */
  lemma SentinelClearIff(sp: int, ps: seq<Param>, c: Case)
    requires CanMarshal(ps, c)
    ensures var top := Top(sp, ps, c, |ps|);
            Rsp(top) + 8 <= top <==> sp % 16 < 8
  {
    TopAligned(sp, ps, c, |ps|);
  }

  function SentinelBytes(): (b: seq<byte>)
    ensures |b| == 8
  {
    [SENTINEL % 256, SENTINEL / 256 % 256, SENTINEL / 65536 % 256, SENTINEL / 16777216, 0, 0, 0, 0]
  }

  /** The number eight little-endian bytes stand for. */
  function LittleEndian(b: seq<byte>): (n: nat)
    decreases |b|
  {
    if b == [] then 0 else b[0] + 256 * LittleEndian(b[1..])
  }

  lemma LittleEndianFour(b: seq<byte>, rest: seq<byte>)
    requires |b| == 4
    ensures var b0: int, b1: int, b2: int, b3: int := b[0], b[1], b[2], b[3];
            LittleEndian(b + rest) == b0 + 256 * b1 + 65536 * b2 + 16777216 * b3 + 4294967296 * LittleEndian(rest)
  {
    var s0 := b + rest;
    var s1 := s0[1..];
    var s2 := s1[1..];
    var s3 := s2[1..];
    assert s1[0] == b[1] && s2[0] == b[2] && s3[0] == b[3] && s3[1..] == rest;
    assert LittleEndian(s3) == s3[0] + 256 * LittleEndian(rest);
    assert LittleEndian(s2) == s2[0] + 256 * LittleEndian(s3);
    assert LittleEndian(s1) == s1[0] + 256 * LittleEndian(s2);
  }

  /** The return trap planted at rsp is the sentinel's address. */
  lemma SentinelIs()
    ensures |SentinelBytes()| == 8 && LittleEndian(SentinelBytes()) == 0x1000000
  {
    var zeros: seq<byte> := [0, 0, 0, 0];
    LittleEndianFour(zeros, []);
    assert zeros + [] == zeros;
    LittleEndianFour([0, 0, 0, 1], zeros);
    assert SentinelBytes() == [0, 0, 0, 1] + zeros;
  }

  /** A cell's bytes stand, little-endian, for its value modulo 2^32. */
  lemma CellIsLittleEndian(x: int)
    requires IsI32(x)
    ensures LittleEndian(PackCell(x)) == x % 0x1_0000_0000
  {
    LittleEndianFour(PackCell(x), []);
    assert PackCell(x) + [] == PackCell(x);
    FourBytes(x % 0x1_0000_0000);
  }

  /** Memory at the moment the callee is entered. */
  function Entered(m: Memory, sp: int, ps: seq<Param>, c: Case): (r: Memory)
    requires CanMarshal(ps, c)
  {
    Write(Marshalled(m, sp, ps, c, |ps|), Rsp(Top(sp, ps, c, |ps|)), SentinelBytes())
  }

  /** The return trap is in place when the callee starts. */
  lemma TrapPlanted(m: Memory, sp: int, ps: seq<Param>, c: Case)
    requires CanMarshal(ps, c)
    ensures Holds(Entered(m, sp, ps, c), Rsp(Top(sp, ps, c, |ps|)), SentinelBytes())
  {
    WrittenHolds(Marshalled(m, sp, ps, c, |ps|), Rsp(Top(sp, ps, c, |ps|)), SentinelBytes());
  }

  lemma WrittenHolds(m: Memory, at: int, data: seq<byte>)
    ensures Holds(Write(m, at, data), at, data)
  {
    WriteIs(m, at, data);
  }

  lemma WriteElsewhere(m: Memory, at: int, data: seq<byte>, lo: int, held: seq<byte>)
    requires Holds(m, lo, held) && at + |data| <= lo
    ensures Holds(Write(m, at, data), lo, held)
  {
    WriteIs(m, at, data);
  }

  lemma {:induction false} MarshalledHolds(m: Memory, sp: int, ps: seq<Param>, c: Case, i: nat, n: nat)
    requires CanMarshal(ps, c) && i < n <= |ps| && InMemory(ps[i])
    ensures Holds(Marshalled(m, sp, ps, c, n), Top(sp, ps, c, i + 1), DataAt(ps, c, i))
    decreases n
  {
    MemoryStep(m, sp, ps, c, n - 1);
    if i + 1 == n {
      WrittenHolds(Marshalled(m, sp, ps, c, i), Top(sp, ps, c, i + 1), DataAt(ps, c, i));
    } else {
      MarshalledHolds(m, sp, ps, c, i, n - 1);
      RegionsDisjoint(sp, ps, c, i, n - 1);
      if InMemory(ps[n - 1]) {
        WriteElsewhere(Marshalled(m, sp, ps, c, n - 1), Top(sp, ps, c, n), DataAt(ps, c, n - 1),
                       Top(sp, ps, c, i + 1), DataAt(ps, c, i));
      }
    }
  }

  /** Every buffer and string is intact when the callee starts. */
  lemma EnteredHolds(m: Memory, sp: int, ps: seq<Param>, c: Case, i: nat)
    requires CanMarshal(ps, c) && i < |ps| && InMemory(ps[i]) && sp % 16 < 8
    ensures Holds(Entered(m, sp, ps, c), Top(sp, ps, c, i + 1), DataAt(ps, c, i))
  {
    MarshalledHolds(m, sp, ps, c, i, |ps|);
    SentinelClearIff(sp, ps, c);
    TopFalls(sp, ps, c, i + 1, |ps|);
    WriteElsewhere(Marshalled(m, sp, ps, c, |ps|), Rsp(Top(sp, ps, c, |ps|)), SentinelBytes(),
                   Top(sp, ps, c, i + 1), DataAt(ps, c, i));
  }

  // ---------- readback ----------

  /** What the driver reads back for one parameter, as many bytes as it passed in. */
  function ReadBack(m: Memory, at: int, p: Param, v: Value): (r: Option<Value>)
    requires OfKind(v, p.kind) && InMemory(p)
    ensures r.Some? ==> OfKind(r.value, p.kind)
  {
    if p.kind == CString then
      match Read(m, at, |v.text|)
      case None => None
      case Some(b) => Some(TextV(b))
    else
      match Read(m, at, 4 * |v.cells|)
      case None => None
      case Some(b) => Some(CellsV(Unpack(b, |v.cells|)))
  }

  /** Readback reports the value that went in exactly when the callee left that parameter's bytes alone. */
  lemma ReadBackIff(m: Memory, at: int, p: Param, v: Value)
    requires OfKind(v, p.kind) && InMemory(p) && (p.kind == BufferI32 ==> AllI32(v.cells))
    ensures ReadBack(m, at, p, v) == Some(v) <==> Holds(m, at, Data(p, v))
  {
    ReadHeld(m, at, Data(p, v));
    if p.kind == BufferI32 {
      PackRoundTrip(v.cells);
      var b := Read(m, at, 4 * |v.cells|);
      if b.Some? {
        UnpackFaithful(b.value, |v.cells|);
      }
    }
  }

  /** The callee changed nothing at or above its entry stack pointer. */
  ghost predicate WritesBelow(m: Memory, m': Memory, rsp: int) {
    forall a :: a in m && rsp <= a ==> a in m' && m'[a] == m[a]
  }

  lemma UntouchedHolds(m: Memory, m': Memory, rsp: int, at: int, data: seq<byte>)
    requires WritesBelow(m, m', rsp) && rsp <= at && Holds(m, at, data)
    ensures Holds(m', at, data)
  {
  }

  /** What the callee stores into one buffer is what is read back, whatever else it did. */
  lemma StoredIsRead(after: Memory, at: int, p: Param, v: Value, stored: Value)
    requires OfKind(v, p.kind) && OfKind(stored, p.kind) && InMemory(p)
    requires p.kind == BufferI32 ==> AllI32(stored.cells) && |stored.cells| == |v.cells|
    requires p.kind == CString ==> |stored.text| == |v.text|
    requires Holds(after, at, Data(p, stored))
    ensures ReadBack(after, at, p, v) == Some(stored)
  {
    ReadHeld(after, at, Data(p, stored));
    if p.kind == BufferI32 {
      PackRoundTrip(stored.cells);
    }
  }

  lemma RegionSurvives(m: Memory, sp: int, ps: seq<Param>, c: Case, after: Memory, i: nat)
    requires CanMarshal(ps, c) && sp % 16 < 8 && i < |ps| && InMemory(ps[i])
    requires WritesBelow(Entered(m, sp, ps, c), after, Rsp(Top(sp, ps, c, |ps|)))
    ensures Holds(after, Top(sp, ps, c, i + 1), DataAt(ps, c, i))
  {
    EnteredHolds(m, sp, ps, c, i);
    EntryAlignment(Top(sp, ps, c, |ps|));
    TopFalls(sp, ps, c, i + 1, |ps|);
    UntouchedHolds(Entered(m, sp, ps, c), after, Rsp(Top(sp, ps, c, |ps|)), Top(sp, ps, c, i + 1), DataAt(ps, c, i));
  }

  /** After a callee that writes only below rsp, every buffer and string reads back exactly. */
  lemma MarshalRoundTrip(m: Memory, sp: int, ps: seq<Param>, c: Case, after: Memory, i: nat)
    requires CanMarshal(ps, c) && sp % 16 < 8 && i < |ps| && InMemory(ps[i])
    requires WritesBelow(Entered(m, sp, ps, c), after, Rsp(Top(sp, ps, c, |ps|)))
    ensures ReadBack(after, Top(sp, ps, c, i + 1), ps[i], c[ps[i].name]) == Some(c[ps[i].name])
  {
    RegionSurvives(m, sp, ps, c, after, i);
    StoredIsRead(after, Top(sp, ps, c, i + 1), ps[i], c[ps[i].name], c[ps[i].name]);
  }

  // ---------- one call ----------

  /** How the emulation of one call ended. */
  datatype Stop = Raised(memFault: bool) | Stalled | Trapped(rax: int, memory: Memory)

  /** The callee: registers, entry stack pointer and memory in, a stop out. */
  type Callee = (Memory, seq<int>, int) -> Stop

  /** The trace of a call; the raises on an unpackable cell and on an unmapped byte end it without one. */
  datatype CallResult =
    | Unpackable
    | Fault(memFault: bool)
    | TimedOut
    | Unreadable
    | Out(ret: int, mem: map<string, Value>)

  /** ctypes.c_int32(x).value. */
  function ToI32(x: int): (r: int)
    ensures IsI32(r) && (r - x) % 0x1_0000_0000 == 0
  {
    (x + 0x8000_0000) % 0x1_0000_0000 - 0x8000_0000
  }

  /** The readback of the first `i` parameters; None when a byte of one of them is no longer mapped. */
  function ReadAll(m: Memory, sp: int, ps: seq<Param>, c: Case, i: nat): (r: Option<map<string, Value>>)
    requires CanMarshal(ps, c) && i <= |ps|
    decreases i
  {
    if i == 0 then Some(map[])
    else
      var before := ReadAll(m, sp, ps, c, i - 1);
      var p := ps[i - 1];
      if before.None? || !InMemory(p) then before
      else
        match ReadBack(m, Top(sp, ps, c, i), p, c[p.name])
        case None => None
        case Some(v) => Some(before.value[p.name := v])
  }

  /** What the driver makes of how the emulation ended. */
  function Finished(stop: Stop, sp: int, ps: seq<Param>, c: Case): (r: CallResult)
    requires CanMarshal(ps, c)
  {
    match stop
    case Raised(memFault) => Fault(memFault)
    case Stalled => TimedOut
    case Trapped(rax, after) =>
      match ReadAll(after, sp, ps, c, |ps|)
      case None => Unreadable
      case Some(mem) => Out(ToI32(rax), mem)
  }

  /** The outcome of one call on a machine whose memory is `m` and stack top `sp`. */
  function Called(m: Memory, sp: int, ps: seq<Param>, c: Case, callee: Callee): (r: CallResult) {
    if !CanMarshal(ps, c) then Unpackable
    else Finished(callee(Entered(m, sp, ps, c), RegValues(sp, ps, c, |ps|), Rsp(Top(sp, ps, c, |ps|))), sp, ps, c)
  }

  /** Memory, stack top, registers and pointers once the first `i` parameters are marshalled. */
  ghost predicate LaidOut(before: Memory, m: Memory, sp: int, ps: seq<Param>, c: Case, i: int, top: int, regs: seq<int>, ptrs: seq<int>)
    requires CanMarshal(ps, c)
  {
    && 0 <= i <= |ps| && m == Marshalled(before, sp, ps, c, i)
    && top == Top(sp, ps, c, i) && regs == RegValues(sp, ps, c, i)
    && |ptrs| == i && forall j :: 0 <= j < i ==> ptrs[j] == Top(sp, ps, c, j + 1)
  }

  lemma LayMemory(before: Memory, m: Memory, sp: int, ps: seq<Param>, c: Case, i: nat, top: int, regs: seq<int>, ptrs: seq<int>)
    requires CanMarshal(ps, c) && i < |ps| && LaidOut(before, m, sp, ps, c, i, top, regs, ptrs) && InMemory(ps[i])
    ensures var data := Data(ps[i], c[ps[i].name]);
            var at := top - RoundUp16(|data|);
            LaidOut(before, Write(m, at, data), sp, ps, c, i + 1, at, regs + [at], ptrs + [at])
  {
    var data := Data(ps[i], c[ps[i].name]);
    var at := top - RoundUp16(|data|);
    TopStep(sp, ps, c, i);
    MemoryStep(before, sp, ps, c, i);
    RegisterStep(sp, ps, c, i);
    PointersGrow(sp, ps, c, i, ptrs, at);
  }

  lemma MemoryStep(before: Memory, sp: int, ps: seq<Param>, c: Case, i: nat)
    requires CanMarshal(ps, c) && i < |ps|
    ensures Marshalled(before, sp, ps, c, i + 1) ==
            if InMemory(ps[i]) then Write(Marshalled(before, sp, ps, c, i), Top(sp, ps, c, i + 1), Data(ps[i], c[ps[i].name]))
            else Marshalled(before, sp, ps, c, i)
  {
  }

  lemma RegisterStep(sp: int, ps: seq<Param>, c: Case, i: nat)
    requires CanMarshal(ps, c) && i < |ps|
    ensures RegValues(sp, ps, c, i + 1) ==
            RegValues(sp, ps, c, i) + [if InMemory(ps[i]) then Top(sp, ps, c, i + 1) else c[ps[i].name].i]
  {
  }

  lemma TopStep(sp: int, ps: seq<Param>, c: Case, i: nat)
    requires CanMarshal(ps, c) && i < |ps|
    ensures Top(sp, ps, c, i + 1) == Top(sp, ps, c, i) - RoundUp16(|Data(ps[i], c[ps[i].name])|)
  {
  }

  lemma LayScalar(before: Memory, m: Memory, sp: int, ps: seq<Param>, c: Case, i: nat, top: int, regs: seq<int>, ptrs: seq<int>)
    requires CanMarshal(ps, c) && i < |ps| && LaidOut(before, m, sp, ps, c, i, top, regs, ptrs) && !InMemory(ps[i])
    ensures LaidOut(before, m, sp, ps, c, i + 1, top, regs + [c[ps[i].name].i], ptrs + [top])
  {
    TopStep(sp, ps, c, i);
    MemoryStep(before, sp, ps, c, i);
    RegisterStep(sp, ps, c, i);
    PointersGrow(sp, ps, c, i, ptrs, top);
  }

  lemma PointersGrow(sp: int, ps: seq<Param>, c: Case, i: nat, ptrs: seq<int>, at: int)
    requires CanMarshal(ps, c) && i < |ps| && |ptrs| == i && at == Top(sp, ps, c, i + 1)
    requires forall j :: 0 <= j < i ==> ptrs[j] == Top(sp, ps, c, j + 1)
    ensures forall j :: 0 <= j < i + 1 ==> (ptrs + [at])[j] == Top(sp, ps, c, j + 1)
  {
  }

  lemma {:induction false} ReadAllStops(m: Memory, sp: int, ps: seq<Param>, c: Case, i: nat, n: nat)
    requires CanMarshal(ps, c) && i <= n <= |ps| && ReadAll(m, sp, ps, c, i).None?
    ensures ReadAll(m, sp, ps, c, n).None?
  {
    if i < n {
      ReadAllStops(m, sp, ps, c, i, n - 1);
    }
  }

  /** Every outcome of a call, and exactly when it is reached. */
  lemma OutcomeIs(m: Memory, sp: int, ps: seq<Param>, c: Case, callee: Callee)
    requires Shaped(ps, c) && NamesDistinct(ps)
    ensures var r := Called(m, sp, ps, c, callee);
            && (r.Unpackable? <==> !Packable(ps, c))
            && (Packable(ps, c) ==>
                  && CanMarshal(ps, c)
                  && var stop := callee(Entered(m, sp, ps, c), RegValues(sp, ps, c, |ps|), Rsp(Top(sp, ps, c, |ps|)));
                     && (r.Fault? <==> stop.Raised?) && (r.Fault? ==> r.memFault == stop.memFault)
                     && (r.TimedOut? <==> stop.Stalled?)
                     && (r.Out? <==> stop.Trapped? && AllMapped(stop.memory, sp, ps, c, |ps|))
                     && (r.Out? ==> IsI32(r.ret) && (r.ret - stop.rax) % 0x1_0000_0000 == 0))
  {
    CanMarshalIff(ps, c);
    if CanMarshal(ps, c) {
      var stop := callee(Entered(m, sp, ps, c), RegValues(sp, ps, c, |ps|), Rsp(Top(sp, ps, c, |ps|)));
      if stop.Trapped? { ReadAllIs(stop.memory, sp, ps, c, |ps|); }
    }
  }

  class Vm {
    const stackTop: int
    var mem: Memory

    constructor (stackTop: int, mem: Memory)
      ensures this.stackTop == stackTop && this.mem == mem
    {
      this.stackTop := stackTop;
      this.mem := mem;
    }

    /** Buffers and strings are written downward from the stack top; each register gets a value or a pointer. */
    method Marshal(ps: seq<Param>, c: Case) returns (top: int, regs: seq<int>, ptrs: seq<int>)
      requires CanMarshal(ps, c)
      modifies this
      ensures mem == Marshalled(old(mem), stackTop, ps, c, |ps|)
      ensures top == Top(stackTop, ps, c, |ps|)
      ensures regs == RegValues(stackTop, ps, c, |ps|)
      ensures |ptrs| == |ps| && forall i :: 0 <= i < |ps| ==> ptrs[i] == Top(stackTop, ps, c, i + 1)
    {
      top, regs, ptrs := stackTop, [], [];
      ghost var before := mem;
      for i := 0 to |ps|
        invariant LaidOut(before, mem, stackTop, ps, c, i, top, regs, ptrs)
      {
        if InMemory(ps[i]) {
          LayMemory(before, mem, stackTop, ps, c, i, top, regs, ptrs);
          var data := Data(ps[i], c[ps[i].name]);
          top := top - RoundUp16(|data|);
          mem := Write(mem, top, data);
          regs := regs + [top];
          assert LaidOut(before, mem, stackTop, ps, c, i + 1, top, regs, ptrs + [top]);
        } else {
          LayScalar(before, mem, stackTop, ps, c, i, top, regs, ptrs);
          regs := regs + [c[ps[i].name].i];
        }
        ptrs := ptrs + [top];
      }
    }

    method ReadBackAll(ps: seq<Param>, c: Case, ptrs: seq<int>) returns (r: Option<map<string, Value>>)
      requires CanMarshal(ps, c)
      requires |ptrs| == |ps| && forall i :: 0 <= i < |ps| ==> ptrs[i] == Top(stackTop, ps, c, i + 1)
      ensures r == ReadAll(mem, stackTop, ps, c, |ps|)
    {
      var out: map<string, Value> := map[];
      for i := 0 to |ps|
        invariant Some(out) == ReadAll(mem, stackTop, ps, c, i)
      {
        if InMemory(ps[i]) {
          var v := ReadBack(mem, ptrs[i], ps[i], c[ps[i].name]);
          if v.None? {
            ReadAllStops(mem, stackTop, ps, c, i + 1, |ps|);
            return None;
          }
          out := out[ps[i].name := v.value];
        }
      }
      return Some(out);
    }

    /** Marshal, align the stack pointer and plant the return trap. */
    method Enter(ps: seq<Param>, c: Case) returns (regs: seq<int>, rsp: int, ptrs: seq<int>)
      requires CanMarshal(ps, c)
      modifies this
      ensures mem == Entered(old(mem), stackTop, ps, c)
      ensures regs == RegValues(stackTop, ps, c, |ps|) && rsp == Rsp(Top(stackTop, ps, c, |ps|))
      ensures |ptrs| == |ps| && forall i :: 0 <= i < |ps| ==> ptrs[i] == Top(stackTop, ps, c, i + 1)
    {
      var top;
      top, regs, ptrs := Marshal(ps, c);
      rsp := top - (top - 8) % 16;
      mem := Write(mem, rsp, SentinelBytes());
    }

    /** Marshal, plant the return trap, run, read back. */
    method RunCase(ps: seq<Param>, c: Case, callee: Callee) returns (r: CallResult)
      requires |ps| <= MAX_ARITY && Shaped(ps, c)
      modifies this
      ensures r == Called(old(mem), stackTop, ps, c, callee)
      ensures r.Unpackable? <==> !Packable(ps, c)
    {
      CanMarshalIff(ps, c);
      if !Packable(ps, c) { return Unpackable; }
      var regs, rsp, ptrs := Enter(ps, c);
      var stop := callee(mem, regs, rsp);
      match stop
      case Raised(memFault) => return Fault(memFault);
      case Stalled => return TimedOut;
      case Trapped(rax, after) =>
        mem := after;
        var out := ReadBackAll(ps, c, ptrs);
        if out.None? { return Unreadable; }
        return Out(ToI32(rax), out.value);
    }
  }

  /** Every watched byte is still mapped. */
  ghost predicate AllMapped(m: Memory, sp: int, ps: seq<Param>, c: Case, n: nat)
    requires CanMarshal(ps, c) && n <= |ps|
  {
    forall i :: 0 <= i < n && InMemory(ps[i]) ==> Mapped(m, Top(sp, ps, c, i + 1), |DataAt(ps, c, i)|)
  }

  /** The report holds, for each buffer and string, what its own region reads. */
  ghost predicate ReportsOwn(out: map<string, Value>, m: Memory, sp: int, ps: seq<Param>, c: Case, n: nat)
    requires CanMarshal(ps, c) && n <= |ps|
  {
    forall i :: 0 <= i < n && InMemory(ps[i]) ==>
      ps[i].name in out && ReadBack(m, Top(sp, ps, c, i + 1), ps[i], c[ps[i].name]) == Some(out[ps[i].name])
  }

  /** Readback raises exactly when a watched byte is unmapped, and otherwise reports each parameter's own region. */
  lemma ReadAllIs(m: Memory, sp: int, ps: seq<Param>, c: Case, n: nat)
    requires CanMarshal(ps, c) && NamesDistinct(ps) && n <= |ps|
    ensures ReadAll(m, sp, ps, c, n).Some? <==> AllMapped(m, sp, ps, c, n)
    ensures ReadAll(m, sp, ps, c, n).Some? ==> ReportsOwn(ReadAll(m, sp, ps, c, n).value, m, sp, ps, c, n)
  {
    ReadAllMapped(m, sp, ps, c, n);
    if ReadAll(m, sp, ps, c, n).Some? {
      ReadAllReports(m, sp, ps, c, n);
    }
  }

  lemma {:induction false} ReadAllMapped(m: Memory, sp: int, ps: seq<Param>, c: Case, n: nat)
    requires CanMarshal(ps, c) && n <= |ps|
    ensures ReadAll(m, sp, ps, c, n).Some? <==> AllMapped(m, sp, ps, c, n)
    decreases n
  {
    if n != 0 {
      ReadAllMapped(m, sp, ps, c, n - 1);
      if InMemory(ps[n - 1]) {
        ReadBackMapped(m, Top(sp, ps, c, n), ps[n - 1], c[ps[n - 1].name]);
      }
    }
  }

  lemma ReadBackMapped(m: Memory, at: int, p: Param, v: Value)
    requires OfKind(v, p.kind) && InMemory(p) && (p.kind == BufferI32 ==> AllI32(v.cells))
    ensures ReadBack(m, at, p, v).Some? <==> Mapped(m, at, |Data(p, v)|)
  {
  }

  lemma {:induction false} ReadAllReports(m: Memory, sp: int, ps: seq<Param>, c: Case, n: nat)
    requires CanMarshal(ps, c) && NamesDistinct(ps) && n <= |ps| && ReadAll(m, sp, ps, c, n).Some?
    ensures ReportsOwn(ReadAll(m, sp, ps, c, n).value, m, sp, ps, c, n)
    decreases n
  {
    if n != 0 {
      ReadAllReports(m, sp, ps, c, n - 1);
      assert forall i :: 0 <= i < n - 1 ==> ps[i].name != ps[n - 1].name;
    }
  }

  lemma HoldsIsMapped(m: Memory, at: int, data: seq<byte>)
    requires Holds(m, at, data)
    ensures Mapped(m, at, |data|)
  {
  }

  /** A callee that keeps to its own frame: the call returns, and every buffer and string comes back as it went in. */
  lemma CallRoundTrip(m: Memory, sp: int, ps: seq<Param>, c: Case, callee: Callee, i: nat)
    requires CanMarshal(ps, c) && NamesDistinct(ps) && sp % 16 < 8 && i < |ps| && InMemory(ps[i])
    requires var stop := callee(Entered(m, sp, ps, c), RegValues(sp, ps, c, |ps|), Rsp(Top(sp, ps, c, |ps|)));
             stop.Trapped? && WritesBelow(Entered(m, sp, ps, c), stop.memory, Rsp(Top(sp, ps, c, |ps|)))
    ensures var r := Called(m, sp, ps, c, callee);
            r.Out? && ps[i].name in r.mem && r.mem[ps[i].name] == c[ps[i].name]
  {
    var stop := callee(Entered(m, sp, ps, c), RegValues(sp, ps, c, |ps|), Rsp(Top(sp, ps, c, |ps|)));
    forall k | 0 <= k < |ps| && InMemory(ps[k])
      ensures Mapped(stop.memory, Top(sp, ps, c, k + 1), |DataAt(ps, c, k)|)
    {
      RegionSurvives(m, sp, ps, c, stop.memory, k);
      HoldsIsMapped(stop.memory, Top(sp, ps, c, k + 1), DataAt(ps, c, k));
    }
    ReadAllIs(stop.memory, sp, ps, c, |ps|);
    MarshalRoundTrip(m, sp, ps, c, stop.memory, i);
  }
}
