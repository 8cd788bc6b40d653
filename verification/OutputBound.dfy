/**
 A round's results always fit the job's output cap: an honest worker can never
 be refused for printing too much.
 */
module OutputBound {
  import opened Prelude
  import opened FunctionSpec
  import opened FunctionGate
  import opened Round

  const JOB_CAP := 262144
  const MAX_ROUND := 64

  // ---------- the printed text ----------

  function IntText(x: int): (s: string) { if x < 0 then "-" + Dec(-x) else Dec(x) }

  function Joined(parts: seq<string>): (s: string) {
    if parts == [] then ""
    else if |parts| == 1 then parts[0]
    else Joined(parts[..|parts| - 1]) + ", " + parts[|parts| - 1]
  }

  function Quoted(s: string): (r: string)
    ensures |r| == |s| + 2
  {
    "\"" + s + "\""
  }

  function CellTexts(cells: seq<int>): (r: seq<string>)
    ensures |r| == |cells| && forall i :: 0 <= i < |cells| ==> r[i] == IntText(cells[i])
  {
    seq(|cells|, i requires 0 <= i < |cells| => IntText(cells[i]))
  }

  function ValueText(v: Value): (s: string) {
    match v
    case IntV(i) => IntText(i)
    case TextV(t) => Quoted(Hex(t))
    case CellsV(cs) => "[" + Joined(CellTexts(cs)) + "]"
  }

  /** The watched parameters in declaration order, each with the memory read back for it. */
  function MemTexts(ps: seq<Param>, mem: map<string, Value>): (r: seq<string>)
    ensures |r| <= |ps|
  {
    if ps == [] then []
    else
      var p := ps[|ps| - 1];
      var before := MemTexts(ps[..|ps| - 1], mem);
      if p.kind == I32 || p.name !in mem then before else before + [Quoted(p.name) + ": " + ValueText(mem[p.name])]
  }

  function CrashText(c: Crash): (s: string) {
    match c
    case Timeout => Quoted("timeout") + ": true"
    case Signal(n) => Quoted("signal") + ": " + IntText(n)
    case Error => Quoted("error") + ": " + Quoted("no output")
  }

  function EntryText(ps: seq<Param>, e: Entry): (s: string) {
    match e
    case Crashed(c) => "{" + Quoted("crash") + ": {" + CrashText(c) + "}}"
    case Got(ret, mem) =>
      "{" + Quoted("ret") + ": " + IntText(ret) + ", " + Quoted("mem") + ": {" + Joined(MemTexts(ps, mem)) + "}}"
  }

  function EntryTexts(ps: seq<Param>, es: seq<Entry>): (r: seq<string>)
    ensures |r| == |es| && forall i :: 0 <= i < |es| ==> r[i] == EntryText(ps, es[i])
  {
    seq(|es|, i requires 0 <= i < |es| => EntryText(ps, es[i]))
  }

  /** What the worker prints for a round. */
  function ResultText(ps: seq<Param>, es: seq<Entry>): (s: string) {
    "{" + Quoted("ok") + ": true, " + Quoted("results") + ": [" + Joined(EntryTexts(ps, es)) + "]}"
  }

  // ---------- lengths ----------

  function Pow10(d: nat): (r: nat) { if d == 0 then 1 else 10 * Pow10(d - 1) }

  lemma {:induction false} DecLength(n: nat, d: nat)
    requires 0 < d && n < Pow10(d)
    ensures |Dec(n)| <= d
    decreases d
  {
    if 10 <= n {
      assert d > 1;
      DecLength(n / 10, d - 1);
    }
  }

  lemma IntLength(x: int)
    requires IsI32(x)
    ensures |IntText(x)| <= 11
  {
    assert Pow10(10) == 10000000000 by {
      assert Pow10(2) == 100;
      assert Pow10(4) == 10000;
      assert Pow10(6) == 1000000;
      assert Pow10(8) == 100000000;
    }
    DecLength(if x < 0 then -x else x, 10);
  }

  lemma {:induction false} JoinedLength(parts: seq<string>, n: nat)
    requires forall i :: 0 <= i < |parts| ==> |parts[i]| <= n
    ensures |Joined(parts)| <= |parts| * (n + 2)
  {
    if |parts| >= 2 {
      JoinedLength(parts[..|parts| - 1], n);
      Distribute(|parts|, n);
    }
  }

  lemma Distribute(k: nat, n: nat)
    requires 0 < k
    ensures (k - 1) * (n + 2) + 2 + n == k * (n + 2)
  {
  }

  // ---------- how large a case can be ----------

  /** At most 32 cells and 17 characters, as the declaration rules and the draw allow. */
  predicate SmallValue(v: Value) {
    match v case IntV(_) => true case TextV(t) => |t| <= 17 case CellsV(cs) => |cs| <= MAX_BUFFER_LEN
  }

  lemma DrawnIsSmall(ps: seq<Param>, c: Case, i: nat)
    requires SpecOk(ps) && FromDeclaration(ps, c) && i < |ps|
    ensures SmallValue(c[ps[i].name])
  {
    assert Declared(ps[i], c) && LengthCoherent(ps[i], c);
    if ps[i].kind == BufferI32 && ps[i].lengthParam.Some? {
      var j :| 0 <= j < |ps| && ps[j].kind == I32 && ps[j].name == ps[i].lengthParam.value;
      assert Declared(ps[j], c);
      assert Sizes(ps, ps[j].name);
    }
  }

  lemma ScoutIsSmall(ps: seq<Param>, c: Case, raw: int, needle: int, i: nat)
    requires IsScout(ps, c, raw, needle) && i < |ps|
    ensures SmallValue(c[ps[i].name])
  {
  }

  /** A call reads back as many cells and characters as it was given, each cell a signed 32-bit value. */
  ghost predicate SameSize(v: Value, c: Value) {
    match v
    case IntV(_) => true
    case TextV(t) => c.TextV? && |t| == |c.text|
    case CellsV(cs) => c.CellsV? && |cs| == |c.cells| && forall i :: 0 <= i < |cs| ==> IsI32(cs[i])
  }

  /** A call's entry: a crash, or a signed 32-bit result with the memory it was given. */
  ghost predicate PlainReadback(ps: seq<Param>, c: Case, e: Entry) {
    if e.Crashed? then e.crash.Signal? ==> IsI32(e.crash.number)
    else
      && IsI32(e.ret)
      && forall i :: 0 <= i < |ps| && ps[i].name in e.mem && ps[i].kind != I32 ==>
           ps[i].name in c && e.mem[ps[i].name].IntV? == false && SameSize(e.mem[ps[i].name], c[ps[i].name])
  }

  lemma ValueLength(v: Value, c: Value)
    requires !v.IntV? && SameSize(v, c) && SmallValue(c)
    ensures |ValueText(v)| <= 2 + 32 * 13
  {
    if v.CellsV? {
      forall i | 0 <= i < |v.cells|
        ensures |CellTexts(v.cells)[i]| <= 11
      {
        IntLength(v.cells[i]);
      }
      JoinedLength(CellTexts(v.cells), 11);
    }
  }

  lemma {:induction false} MemLength(ps: seq<Param>, c: Case, e: Entry)
    requires PlainReadback(ps, c, e) && e.Got?
    requires forall i :: 0 <= i < |ps| ==> |ps[i].name| <= 64 && (ps[i].name in c ==> SmallValue(c[ps[i].name]))
    ensures forall i :: 0 <= i < |MemTexts(ps, e.mem)| ==> |MemTexts(ps, e.mem)[i]| <= 486
  {
    if ps != [] {
      var n := |ps| - 1;
      MemLength(ps[..n], c, e);
      if ps[n].kind != I32 && ps[n].name in e.mem {
        ValueLength(e.mem[ps[n].name], c[ps[n].name]);
      }
    }
  }

  lemma EntryLength(ps: seq<Param>, c: Case, e: Entry)
    requires |ps| <= MAX_ARITY && PlainReadback(ps, c, e)
    requires forall i :: 0 <= i < |ps| ==> |ps[i].name| <= 64 && (ps[i].name in c ==> SmallValue(c[ps[i].name]))
    ensures |EntryText(ps, e)| <= 2960
  {
    if e.Crashed? {
      if e.crash.Signal? { IntLength(e.crash.number); }
    } else {
      MemLength(ps, c, e);
      JoinedLength(MemTexts(ps, e.mem), 486);
      IntLength(e.ret);
      var k := |MemTexts(ps, e.mem)|;
      assert k * 488 <= 6 * 488;
    }
  }

  /** A case of a merged round: a declared draw or a scout. */
  ghost predicate FromRound(ps: seq<Param>, c: Case) {
    FromDeclaration(ps, c) || exists raw, needle :: IsScout(ps, c, raw, needle)
  }

  lemma RoundIsSmall(ps: seq<Param>, c: Case)
    requires SpecOk(ps) && FromRound(ps, c)
    ensures forall i :: 0 <= i < |ps| ==> |ps[i].name| <= 64 && (ps[i].name in c ==> SmallValue(c[ps[i].name]))
  {
    forall i | 0 <= i < |ps|
      ensures |ps[i].name| <= 64 && (ps[i].name in c ==> SmallValue(c[ps[i].name]))
    {
      assert IsName(ps[i].name);
      if FromDeclaration(ps, c) {
        DrawnIsSmall(ps, c, i);
      } else {
        var raw, needle :| IsScout(ps, c, raw, needle);
        ScoutIsSmall(ps, c, raw, needle, i);
      }
    }
  }

  /** For every accepted declaration of at most six parameters and every round of at most 64 cases, cut short by a crash or not. */
  lemma ResultsFitTheCap(ps: seq<Param>, cases: seq<Case>, es: seq<Entry>)
    requires SpecOk(ps) && |ps| <= 6
    requires |es| <= |cases| <= 64
    requires forall i :: 0 <= i < |es| ==> FromRound(ps, cases[i]) && PlainReadback(ps, cases[i], es[i])
    ensures |ResultText(ps, es)| < 262144
  {
    forall i | 0 <= i < |es|
      ensures |EntryTexts(ps, es)[i]| <= 2960
    {
      RoundIsSmall(ps, cases[i]);
      EntryLength(ps, cases[i], es[i]);
    }
    ListLength(ps, es);
  }

  lemma ListLength(ps: seq<Param>, es: seq<Entry>)
    requires |es| <= 64 && forall i :: 0 <= i < |es| ==> |EntryTexts(ps, es)[i]| <= 2960
    ensures |ResultText(ps, es)| < 262144
  {
    JoinedLength(EntryTexts(ps, es), 2960);
    assert |es| * 2962 <= 64 * 2962;
  }
}
