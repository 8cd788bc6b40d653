/**
 One fuzz round: uniform draws from the declared ranges, with a bounded slice
 of leading positions given to cases carved from the original's own constants.
 */
module Round {
  import opened Prelude
  import opened FunctionSpec

  const SCOUT_SLICE_MAX := 16

  // ---------- what a drawn case looks like ----------

  function Max0(x: int): (r: nat) { if x < 0 then 0 else x }

  ghost predicate Lowercase(t: seq<byte>) {
    1 <= |t| <= 17 && t[|t| - 1] == 0 && forall i :: 0 <= i < |t| - 1 ==> 97 <= t[i] <= 122
  }

  /** A buffer that names a length parameter has as many cells as that parameter says. */
  ghost predicate LengthCoherent(p: Param, c: Case) {
    p.kind == BufferI32 && p.lengthParam.Some? && p.lengthParam.value in c ==>
      && p.name in c && c[p.name].CellsV? && c[p.lengthParam.value].IntV?
      && |c[p.name].cells| == Max0(c[p.lengthParam.value].i)
  }

  /** The value lies in what the declaration admits. */
  ghost predicate Declared(p: Param, c: Case)
    requires p.name in c
  {
    var v := c[p.name];
    match p.kind
    case I32 => v.IntV? && p.lo <= v.i <= p.hi
    case CString => v.TextV? && Lowercase(v.text)
    case BufferI32 =>
      && v.CellsV? && (forall i :: 0 <= i < |v.cells| ==> p.lo <= v.cells[i] <= p.hi)
      && (p.lengthParam.None? || p.lengthParam.value !in c ==> 1 <= |v.cells| <= 8)
  }

  ghost predicate Coherent(ps: seq<Param>, c: Case) {
    WellTyped(ps, c) && forall i :: 0 <= i < |ps| ==> LengthCoherent(ps[i], c)
  }

  ghost predicate FromDeclaration(ps: seq<Param>, c: Case) {
    Coherent(ps, c) && forall i :: 0 <= i < |ps| ==> Declared(ps[i], c)
  }

  // ---------- uniform draws ----------

  /** Any integer of the range. */
  method RandInt(lo: int, hi: int) returns (r: int)
    requires lo <= hi
    ensures lo <= r <= hi
  {
    r :| lo <= r <= hi;
  }

  method DrawCells(n: int, lo: int, hi: int) returns (cells: seq<int>)
    requires lo <= hi
    ensures |cells| == Max0(n)
    ensures forall i :: 0 <= i < |cells| ==> lo <= cells[i] <= hi
  {
    cells := [];
    while |cells| < n
      invariant |cells| <= Max0(n)
      invariant forall i :: 0 <= i < |cells| ==> lo <= cells[i] <= hi
    {
      var x := RandInt(lo, hi);
      cells := cells + [x];
    }
  }

  method DrawText() returns (t: seq<byte>)
    ensures Lowercase(t)
  {
    var n := RandInt(0, 16);
    t := [];
    while |t| < n
      invariant |t| <= n
      invariant forall i :: 0 <= i < |t| ==> 97 <= t[i] <= 122
    {
      var x := RandInt(97, 122);
      t := t + [x];
    }
    t := t + [0];
  }

  /** First pass: every scalar, nothing else. */
  method DrawScalars(ps: seq<Param>) returns (c: Case)
    requires SpecOk(ps)
    ensures forall n :: n in c <==> IsScalar(ps, n)
    ensures forall i :: 0 <= i < |ps| && ps[i].kind == I32 ==> ps[i].name in c && c[ps[i].name].IntV? && ps[i].lo <= c[ps[i].name].i <= ps[i].hi
  {
    c := map[];
    for i := 0 to |ps|
      invariant forall n :: n in c <==> exists j :: 0 <= j < i && ps[j].kind == I32 && ps[j].name == n
      invariant forall j :: 0 <= j < i && ps[j].kind == I32 ==> ps[j].name in c && c[ps[j].name].IntV? && ps[j].lo <= c[ps[j].name].i <= ps[j].hi
    {
      if ps[i].kind == I32 {
        var x := RandInt(ps[i].lo, ps[i].hi);
        c := c[ps[i].name := IntV(x)];
      }
    }
  }

  /** What the second pass has established for the parameters before `i`. */
  ghost predicate FilledTo(ps: seq<Param>, c: Case, i: int) {
    && (forall n :: n in c <==> IsScalar(ps, n) || exists j :: 0 <= j < i && j < |ps| && ps[j].name == n)
    && forall j :: 0 <= j < |ps| && (j < i || ps[j].kind == I32) ==>
         ps[j].name in c && Declared(ps[j], c) && LengthCoherent(ps[j], c)
  }

  lemma FillKeepsOne(ps: seq<Param>, c: Case, i: nat, v: Value, j: nat)
    requires SpecOk(ps) && i < |ps| && j < |ps| && i != j && ps[i].kind != I32
    requires ps[j].name in c && Declared(ps[j], c) && LengthCoherent(ps[j], c)
    requires forall n :: IsScalar(ps, n) ==> n in c
    ensures var d := c[ps[i].name := v]; ps[j].name in d && Declared(ps[j], d) && LengthCoherent(ps[j], d)
  {
    assert ps[j].name != ps[i].name;
    if ps[j].lengthParam.Some? {
      ScalarIsNot(ps, i, ps[j].lengthParam.value);
    }
  }

  lemma FillKeys(ps: seq<Param>, c: Case, i: nat, v: Value, n: string)
    requires i < |ps| && FilledTo(ps, c, i)
    ensures n in c[ps[i].name := v] <==> IsScalar(ps, n) || exists j :: 0 <= j < i + 1 && j < |ps| && ps[j].name == n
  {
  }

  /** Filling in a buffer or string disturbs nothing that is already there. */
  lemma FillKeeps(ps: seq<Param>, c: Case, i: nat, v: Value)
    requires SpecOk(ps) && i < |ps| && ps[i].kind != I32 && FilledTo(ps, c, i)
    requires Declared(ps[i], c[ps[i].name := v]) && LengthCoherent(ps[i], c[ps[i].name := v])
    ensures FilledTo(ps, c[ps[i].name := v], i + 1)
  {
    var d := c[ps[i].name := v];
    forall n
      ensures n in d <==> IsScalar(ps, n) || exists j :: 0 <= j < i + 1 && j < |ps| && ps[j].name == n
    {
      FillKeys(ps, c, i, v, n);
    }
    forall j | 0 <= j < |ps| && (j < i + 1 || ps[j].kind == I32)
      ensures ps[j].name in d && Declared(ps[j], d) && LengthCoherent(ps[j], d)
    {
      if j != i {
        FillKeepsOne(ps, c, i, v, j);
      }
    }
  }

  lemma ScalarIsNot(ps: seq<Param>, i: nat, name: string)
    requires NamesDistinct(ps) && i < |ps| && ps[i].kind != I32 && IsScalar(ps, name)
    ensures name != ps[i].name
  {
  }

  lemma FillScalar(ps: seq<Param>, c: Case, i: nat)
    requires i < |ps| && ps[i].kind == I32 && FilledTo(ps, c, i)
    ensures FilledTo(ps, c, i + 1)
  {
  }

  lemma ScalarsFilled(ps: seq<Param>, c: Case)
    requires forall n :: n in c <==> IsScalar(ps, n)
    requires forall i :: 0 <= i < |ps| && ps[i].kind == I32 ==> ps[i].name in c && c[ps[i].name].IntV? && ps[i].lo <= c[ps[i].name].i <= ps[i].hi
    ensures FilledTo(ps, c, 0)
  {
  }

  method FillBuffer(ps: seq<Param>, c: Case, i: nat) returns (d: Case)
    requires SpecOk(ps) && i < |ps| && ps[i].kind == BufferI32 && FilledTo(ps, c, i)
    ensures FilledTo(ps, d, i + 1)
  {
    var p := ps[i];
    var n := RandInt(1, 8);
    if p.lengthParam.Some? {
      ScalarIsNot(ps, i, p.lengthParam.value);
      ScalarHeld(ps, c, i, p.lengthParam.value);
      n := c[p.lengthParam.value].i;
    }
    var cells := DrawCells(n, p.lo, p.hi);
    FillKeeps(ps, c, i, CellsV(cells));
    d := c[p.name := CellsV(cells)];
  }

  method FillText(ps: seq<Param>, c: Case, i: nat) returns (d: Case)
    requires SpecOk(ps) && i < |ps| && ps[i].kind == CString && FilledTo(ps, c, i)
    ensures FilledTo(ps, d, i + 1)
  {
    var t := DrawText();
    FillKeeps(ps, c, i, TextV(t));
    d := c[ps[i].name := TextV(t)];
  }

  /** Scalars first, so that a length exists before the buffer that needs it; then buffers and strings. */
  method DrawCase(ps: seq<Param>) returns (c: Case)
    requires SpecOk(ps)
    ensures FromDeclaration(ps, c)
  {
    c := DrawScalars(ps);
    ScalarsFilled(ps, c);
    for i := 0 to |ps|
      invariant FilledTo(ps, c, i)
    {
      match ps[i].kind
      case CString => c := FillText(ps, c, i);
      case BufferI32 => c := FillBuffer(ps, c, i);
      case I32 => FillScalar(ps, c, i);
    }
    FilledIsDeclared(ps, c);
  }

  lemma ScalarHeld(ps: seq<Param>, c: Case, i: nat, name: string)
    requires FilledTo(ps, c, i) && IsScalar(ps, name)
    ensures name in c && c[name].IntV?
  {
    var j :| 0 <= j < |ps| && ps[j].kind == I32 && ps[j].name == name;
    assert Declared(ps[j], c);
  }

  lemma FilledIsDeclared(ps: seq<Param>, c: Case)
    requires FilledTo(ps, c, |ps|)
    ensures FromDeclaration(ps, c)
  {
    forall n
      ensures n in c <==> exists i :: 0 <= i < |ps| && ps[i].name == n
    {
    }
    forall i | 0 <= i < |ps|
      ensures ps[i].name in c && OfKind(c[ps[i].name], ps[i].kind)
    {
      assert Declared(ps[i], c);
    }
  }

  method GenInputs(ps: seq<Param>, n: nat) returns (cases: seq<Case>)
    requires SpecOk(ps)
    ensures |cases| == n
    ensures forall i :: 0 <= i < n ==> FromDeclaration(ps, cases[i])
  {
    cases := [];
    for k := 0 to n
      invariant |cases| == k
      invariant forall i :: 0 <= i < k ==> FromDeclaration(ps, cases[i])
    {
      var c := DrawCase(ps);
      cases := cases + [c];
    }
  }

  // ---------- scouts ----------

  /** A 32-bit immediate, and also its signed reading when they differ. */
  function Readings(raw: int): (r: seq<int>) {
    if raw < 0x8000_0000 then [raw] else [raw, raw - 0x1_0000_0000]
  }

  function LittleEndian4(raw: int): (b: seq<byte>)
    requires 0 <= raw < 0x1_0000_0000
    ensures |b| == 4
  {
    [raw % 256, raw / 256 % 256, raw / 65536 % 256, raw / 16777216]
  }

  function ScoutValue(k: Kind, raw: int, needle: int): (v: Value)
    requires 0 <= raw < 0x1_0000_0000
    ensures OfKind(v, k)
  {
    match k
    case I32 => IntV(needle)
    case CString => TextV(LittleEndian4(raw) + [0])
    case BufferI32 => CellsV([needle])
  }

  /** The parameters that size a buffer. */
  function SizingBuffers(ps: seq<Param>): (r: set<string>) {
    set i | 0 <= i < |ps| && ps[i].kind == BufferI32 && ps[i].lengthParam.Some? :: ps[i].lengthParam.value
  }

  /** The case the reading `needle` of the immediate `raw` stands for; these clauses determine it. */
  ghost predicate IsScout(ps: seq<Param>, c: Case, raw: int, needle: int) {
    && 0 <= raw < 0x1_0000_0000
    && Coherent(ps, c)
    && forall i :: 0 <= i < |ps| ==>
         c[ps[i].name] == if ps[i].name in SizingBuffers(ps) then IntV(1) else ScoutValue(ps[i].kind, raw, needle)
  }

  /** The readings of an immediate: the value itself, then its two's-complement reading when the top bit is set. */
  lemma ReadingsAre(raw: int)
    requires 0 <= raw < 0x1_0000_0000
    ensures Readings(raw)[0] == raw
    ensures |Readings(raw)| == 2 <==> raw >= 0x8000_0000
    ensures |Readings(raw)| <= 2
    ensures |Readings(raw)| == 2 ==> IsI32(Readings(raw)[1]) && Readings(raw)[1] < 0 && Readings(raw)[1] + 0x1_0000_0000 == raw
  {
  }

  /** What a scout assigns, kind by kind. */
  lemma ScoutIs(ps: seq<Param>, c: Case, raw: int, needle: int, i: nat)
    requires SpecOk(ps) && IsScout(ps, c, raw, needle) && i < |ps|
    ensures ps[i].kind == I32 ==>
              c[ps[i].name] == IntV(if exists j :: 0 <= j < |ps| && ps[j].kind == BufferI32 && ps[j].lengthParam == Some(ps[i].name) then 1 else needle)
    ensures ps[i].kind == BufferI32 ==> c[ps[i].name] == CellsV([needle])
    ensures ps[i].kind == CString ==>
              var v := c[ps[i].name];
              && v.TextV? && |v.text| == 5 && v.text[4] == 0
              && var b0: int, b1: int, b2: int, b3: int := v.text[0], v.text[1], v.text[2], v.text[3];
                 b0 + 256 * b1 + 65536 * b2 + 16777216 * b3 == raw
  {
    SizedAreScalars(ps, i);
    SizingIff(ps, ps[i].name);
    LittleEndianIs(raw);
  }

  lemma SizingIff(ps: seq<Param>, name: string)
    ensures name in SizingBuffers(ps) <==> exists j :: 0 <= j < |ps| && ps[j].kind == BufferI32 && ps[j].lengthParam == Some(name)
  {
  }

  lemma LittleEndianIs(raw: int)
    requires 0 <= raw < 0x1_0000_0000
    ensures var b := LittleEndian4(raw);
            var b0: int, b1: int, b2: int, b3: int := b[0], b[1], b[2], b[3];
            b0 + 256 * b1 + 65536 * b2 + 16777216 * b3 == raw
  {
    assert raw / 256 / 256 == raw / 65536 && raw / 65536 / 256 == raw / 16777216;
  }

  ghost predicate ScoutedTo(ps: seq<Param>, c: Case, i: int, raw: int, needle: int)
    requires 0 <= raw < 0x1_0000_0000
  {
    && (forall n :: n in c <==> exists j :: 0 <= j < i && j < |ps| && ps[j].name == n)
    && forall j :: 0 <= j < i && j < |ps| ==> ps[j].name in c && c[ps[j].name] == ScoutValue(ps[j].kind, raw, needle)
  }

  lemma ScoutStep(ps: seq<Param>, c: Case, i: nat, raw: int, needle: int)
    requires SpecOk(ps) && i < |ps| && 0 <= raw < 0x1_0000_0000 && ScoutedTo(ps, c, i, raw, needle)
    ensures ScoutedTo(ps, c[ps[i].name := ScoutValue(ps[i].kind, raw, needle)], i + 1, raw, needle)
  {
  }

  lemma SizingSnoc(ps: seq<Param>, i: nat)
    requires i < |ps|
    ensures SizingBuffers(ps[..i + 1]) == SizingBuffers(ps[..i]) +
              if ps[i].kind == BufferI32 && ps[i].lengthParam.Some? then {ps[i].lengthParam.value} else {}
  {
    assert ps[..i + 1][i] == ps[i];
    assert forall j :: 0 <= j < i ==> ps[..i + 1][j] == ps[..i][j];
  }

  /** One scout: the needle everywhere it fits, with every sizing parameter snapped to the one cell there is. */
  method ScoutCase(ps: seq<Param>, raw: int, needle: int) returns (c: Case)
    requires SpecOk(ps) && 0 <= raw < 0x1_0000_0000
    ensures IsScout(ps, c, raw, needle)
  {
    c := map[];
    var lengths: set<string> := {};
    for i := 0 to |ps|
      invariant lengths == SizingBuffers(ps[..i])
      invariant ScoutedTo(ps, c, i, raw, needle)
    {
      ScoutStep(ps, c, i, raw, needle);
      SizingSnoc(ps, i);
      c := c[ps[i].name := ScoutValue(ps[i].kind, raw, needle)];
      if ps[i].kind == BufferI32 && ps[i].lengthParam.Some? {
        lengths := lengths + {ps[i].lengthParam.value};
      }
    }
    assert ps[..|ps|] == ps;
    ghost var before := c;
    c := map n | n in c :: if n in lengths then IntV(1) else c[n];
    SnapCoherent(ps, before, c, raw, needle);
  }

  /** Snapping the length parameters to one keeps the case well typed and makes every sized buffer coherent. */
  lemma SnapCoherent(ps: seq<Param>, before: Case, c: Case, raw: int, needle: int)
    requires SpecOk(ps) && 0 <= raw < 0x1_0000_0000
    requires ScoutedTo(ps, before, |ps|, raw, needle)
    requires c == map n | n in before :: if n in SizingBuffers(ps) then IntV(1) else before[n]
    ensures IsScout(ps, c, raw, needle)
  {
    forall i | 0 <= i < |ps|
      ensures ps[i].name in c && OfKind(c[ps[i].name], ps[i].kind) && LengthCoherent(ps[i], c)
      ensures c[ps[i].name] == if ps[i].name in SizingBuffers(ps) then IntV(1) else ScoutValue(ps[i].kind, raw, needle)
    {
      SnapOne(ps, before, c, raw, needle, i);
    }
  }

  lemma SnapOne(ps: seq<Param>, before: Case, c: Case, raw: int, needle: int, i: nat)
    requires SpecOk(ps) && 0 <= raw < 0x1_0000_0000 && i < |ps|
    requires ScoutedTo(ps, before, |ps|, raw, needle)
    requires c == map n | n in before :: if n in SizingBuffers(ps) then IntV(1) else before[n]
    ensures ps[i].name in c && OfKind(c[ps[i].name], ps[i].kind) && LengthCoherent(ps[i], c)
    ensures c[ps[i].name] == if ps[i].name in SizingBuffers(ps) then IntV(1) else ScoutValue(ps[i].kind, raw, needle)
  {
    SizedAreScalars(ps, i);
    assert ps[i].name in before;
  }

  lemma SizedAreScalars(ps: seq<Param>, i: nat)
    requires SpecOk(ps) && i < |ps|
    ensures ps[i].name in SizingBuffers(ps) ==> ps[i].kind == I32
    ensures ps[i].kind == BufferI32 && ps[i].lengthParam.Some? ==> ps[i].lengthParam.value in SizingBuffers(ps)
  {
    if ps[i].name in SizingBuffers(ps) {
      var j :| 0 <= j < |ps| && ps[j].kind == BufferI32 && ps[j].lengthParam == Some(ps[i].name);
      assert IsScalar(ps, ps[i].name);
    }
  }

  /** Every reading of every immediate, in order. */
  function AllReadings(immediates: seq<int>): (r: seq<(int, int)>) {
    if immediates == [] then []
    else
      var raw := immediates[|immediates| - 1];
      AllReadings(immediates[..|immediates| - 1]) + ReadingsOf(raw)
  }

  /** The readings of one immediate, each beside it. */
  function ReadingsOf(raw: int): (r: seq<(int, int)>)
    ensures |r| == |Readings(raw)| && forall i :: 0 <= i < |r| ==> r[i] == (raw, Readings(raw)[i])
  {
    var readings := Readings(raw);
    seq(|readings|, i requires 0 <= i < |readings| => (raw, readings[i]))
  }

  ghost predicate ScoutsOf(ps: seq<Param>, cases: seq<Case>, readings: seq<(int, int)>) {
    if ps == [] then cases == []
    else |cases| == |readings| && forall i :: 0 <= i < |cases| ==> IsScout(ps, cases[i], readings[i].0, readings[i].1)
  }

  method ScoutInputs(ps: seq<Param>, immediates: seq<int>) returns (cases: seq<Case>)
    requires SpecOk(ps)
    requires forall i :: 0 <= i < |immediates| ==> 0 <= immediates[i] < 0x1_0000_0000
    ensures ScoutsOf(ps, cases, AllReadings(immediates))
  {
    cases := [];
    for i := 0 to |immediates|
      invariant ScoutsOf(ps, cases, AllReadings(immediates[..i]))
    {
      assert immediates[..i + 1][..i] == immediates[..i];
      var raw := immediates[i];
      var readings := Readings(raw);
      ghost var before := AllReadings(immediates[..i]);
      ghost var pairs := ReadingsOf(raw);
      assert AllReadings(immediates[..i + 1]) == before + pairs;
      for k := 0 to |readings|
        invariant ScoutsOf(ps, cases, before + pairs[..k])
      {
        var c := ScoutCase(ps, raw, readings[k]);
        assert before + pairs[..k + 1] == (before + pairs[..k]) + [(raw, readings[k])];
        assert (c != map[]) == (ps != []) by {
          if ps != [] { assert ps[0].name in c; }
        }
        if c != map[] {
          cases := cases + [c];
        }
      }
      assert pairs[..|readings|] == pairs;
    }
    assert immediates[..|immediates|] == immediates;
  }

  // ---------- the merged round ----------

  function Min(a: int, b: int): (r: int) { if a < b then a else b }

  function SliceBudget(n: nat): (r: nat) { Min(SCOUT_SLICE_MAX, n / 4) }

  function ScoutCount(scouts: seq<Case>, n: nat): (k: nat) { Min(Min(SliceBudget(n), |scouts|), n) }

  function Merge(uniform: seq<Case>, scouts: seq<Case>, n: nat): (r: seq<Case>)
    requires |uniform| == n
  {
    scouts[..ScoutCount(scouts, n)] + uniform[ScoutCount(scouts, n)..]
  }

  /** A round of `n` cases whose first `k` positions are scouts and whose others are declared draws. */
  ghost predicate RoundOk(ps: seq<Param>, cases: seq<Case>, k: nat, n: nat) {
    && |cases| == n && k <= n && k <= SCOUT_SLICE_MAX && 4 * k <= n
    && (forall i :: 0 <= i < n ==> Coherent(ps, cases[i]))
    && forall i :: k <= i < n ==> FromDeclaration(ps, cases[i])
  }

  /**
   The merged round: exactly `n` coherent cases; the scouts are the first
   readings and take at most the harness-owned slice; the rest is the uniform
   draw, unchanged and exactly the declared part.
   */
  method DrawRound(ps: seq<Param>, immediates: seq<int>, n: nat) returns (cases: seq<Case>, k: nat, uniform: seq<Case>)
    requires SpecOk(ps)
    requires forall i :: 0 <= i < |immediates| ==> 0 <= immediates[i] < 0x1_0000_0000
    ensures RoundOk(ps, cases, k, n)
    ensures |uniform| == n && cases[k..] == uniform[k..]
    ensures k == ScoutsTaken(ps, immediates, n)
    ensures ps != [] ==> k <= 16 && 4 * k <= n && k <= |AllReadings(immediates)|
    ensures ps != [] ==> k == 16 || n < 4 * (k + 1) || k == |AllReadings(immediates)|
    ensures forall i :: 0 <= i < k ==> IsScout(ps, cases[i], AllReadings(immediates)[i].0, AllReadings(immediates)[i].1)
  {
    uniform := GenInputs(ps, n);
    var scouts := ScoutInputs(ps, immediates);
    k := ScoutCount(scouts, n);
    cases := Merge(uniform, scouts, n);
    forall i | 0 <= i < n
      ensures Coherent(ps, cases[i]) && (k <= i ==> FromDeclaration(ps, cases[i]))
    {
      assert cases[i] == if i < k then scouts[i] else uniform[i];
    }
  }

  // ---------- scouts and the wire format of cells ----------

  ghost predicate HasBuffer(ps: seq<Param>) {
    exists i :: 0 <= i < |ps| && ps[i].kind == BufferI32
  }

  /** A scout fits 32-bit cells exactly when no buffer is declared or the reading is a signed 32-bit value. */
  lemma ScoutPackableIff(ps: seq<Param>, c: Case, raw: int, needle: int)
    requires SpecOk(ps) && IsScout(ps, c, raw, needle) && needle in Readings(raw)
    ensures Packable(ps, c) <==> !HasBuffer(ps) || needle < 0x8000_0000
  {
    forall i | 0 <= i < |ps| && ps[i].kind == BufferI32
      ensures c[ps[i].name] == CellsV([needle])
    {
      SizedAreScalars(ps, i);
    }
    if HasBuffer(ps) {
      var i :| 0 <= i < |ps| && ps[i].kind == BufferI32;
      assert c[ps[i].name].cells[0] == needle;
    }
  }

  /** A declared draw always fits: the declaration rules keep every range within 32 bits. */
  lemma DeclaredPacks(ps: seq<Param>, c: Case)
    requires SpecOk(ps) && FromDeclaration(ps, c)
    ensures Packable(ps, c)
  {
    forall i | 0 <= i < |ps| && ps[i].kind == BufferI32
      ensures c[ps[i].name].CellsV? && AllI32(c[ps[i].name].cells)
    {
      assert Declared(ps[i], c);
    }
  }

  /** How many scouts a round of `n` takes. */
  function ScoutsTaken(ps: seq<Param>, immediates: seq<int>, n: nat): (k: nat)
    ensures k <= |AllReadings(immediates)|
  {
    if ps == [] then 0 else Min(SliceBudget(n), |AllReadings(immediates)|)
  }

  /** A scout the round takes carries a reading that is no signed 32-bit value. */
  ghost predicate HighReading(ps: seq<Param>, immediates: seq<int>, n: nat) {
    exists i :: 0 <= i < ScoutsTaken(ps, immediates, n) && AllReadings(immediates)[i].1 >= 0x8000_0000
  }

  lemma {:induction false} ReadingsPair(immediates: seq<int>, i: nat)
    requires i < |AllReadings(immediates)|
    ensures AllReadings(immediates)[i].1 in Readings(AllReadings(immediates)[i].0)
  {
    var n := |immediates| - 1;
    var before := AllReadings(immediates[..n]);
    if i < |before| {
      ReadingsPair(immediates[..n], i);
    }
  }

  /** Some case of a merged round cannot be packed exactly when a buffer is declared and a high reading made it in. */
  lemma RoundPacksIff(ps: seq<Param>, immediates: seq<int>, n: nat, cases: seq<Case>, k: nat)
    requires SpecOk(ps) && RoundOk(ps, cases, k, n) && k == ScoutsTaken(ps, immediates, n)
    requires forall i :: 0 <= i < k ==> IsScout(ps, cases[i], AllReadings(immediates)[i].0, AllReadings(immediates)[i].1)
    ensures (exists i :: 0 <= i < |cases| && !Packable(ps, cases[i])) <==> HasBuffer(ps) && HighReading(ps, immediates, n)
  {
    forall i | 0 <= i < |cases|
      ensures Packable(ps, cases[i]) <==> !(i < k && HasBuffer(ps) && AllReadings(immediates)[i].1 >= 0x8000_0000)
    {
      if i < k {
        var reading := AllReadings(immediates)[i];
        ReadingsPair(immediates, i);
        ScoutPackableIff(ps, cases[i], reading.0, reading.1);
      } else {
        DeclaredPacks(ps, cases[i]);
      }
    }
    if HasBuffer(ps) && HighReading(ps, immediates, n) {
      var i :| 0 <= i < ScoutsTaken(ps, immediates, n) && AllReadings(immediates)[i].1 >= 0x8000_0000;
      assert !Packable(ps, cases[i]);
    }
  }
}
