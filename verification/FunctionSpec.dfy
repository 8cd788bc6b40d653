/**
 What a submitter declares about a function: its parameters, how they are
 drawn, and the values a case assigns to them.
 */
module FunctionSpec {
  import opened Prelude

  datatype Kind = I32 | BufferI32 | CString

  /** `isVoid` is the declared return, carried by every parameter and read off the first. */
  datatype Param = Param(name: string, kind: Kind, lengthParam: Option<string>, lo: int, hi: int, isVoid: bool)

  const MAX_ARITY := 6
  const MAX_BUFFER_LEN := 32

  predicate IsI32(x: int) { -0x8000_0000 <= x < 0x8000_0000 }

  // ---------- the declaration as submitted ----------

  predicate IsNameStart(c: char) { 'a' <= c <= 'z' || 'A' <= c <= 'Z' || c == '_' }

  /** A C identifier of at most 64 characters. */
  predicate IsName(s: string) {
    1 <= |s| <= 64 && IsNameStart(s[0]) &&
    forall i :: 0 <= i < |s| ==> IsNameStart(s[i]) || '0' <= s[i] <= '9'
  }

  function KindOf(j: Json): (k: Option<Kind>) {
    if j == JStr("i32") then Some(I32)
    else if j == JStr("buffer_i32") then Some(BufferI32)
    else if j == JStr("cstring") then Some(CString)
    else None
  }

  /** One parameter object; None is any of the errors that reject the declaration. */
  function ParseParam(j: Json): (r: Option<Param>) {
    if !j.JObj? || "name" !in j.fields || "kind" !in j.fields || KindOf(j.fields["kind"]).None? then None
    else
      var f := j.fields;
      var range := if "range" in f then f["range"] else JArr([JInt(-100), JInt(100)]);
      var ret := if "ret" in f then f["ret"] else JStr("i32");
      var length := if "length_param" in f then f["length_param"] else JNull;
      if !f["name"].JStr? || !range.JArr? || |range.items| < 2 || !range.items[0].JInt? || !range.items[1].JInt? ||
         (ret != JStr("i32") && ret != JStr("void")) || (!length.JNull? && !length.JStr?)
      then None
      else
        Some(Param(f["name"].s, KindOf(f["kind"]).value,
                   if length.JStr? then Some(length.s) else None,
                   range.items[0].i, range.items[1].i, ret == JStr("void")))
  }

  // ---------- what an object says ----------

  function KindText(k: Kind): (s: string) { match k case I32 => "i32" case BufferI32 => "buffer_i32" case CString => "cstring" }

  /** A parameter as it travels to the worker, nothing left to defaults. */
  function ParamJson(p: Param): (j: Json) {
    JObj(map["name" := JStr(p.name), "kind" := JStr(KindText(p.kind)),
             "length_param" := match p.lengthParam case None => JNull case Some(n) => JStr(n),
             "range" := JArr([JInt(p.lo), JInt(p.hi)]),
             "ret" := JStr(if p.isVoid then "void" else "i32")])
  }

  lemma TextsDiffer()
    ensures "void" != "i32" && "i32" != "buffer_i32" && "i32" != "cstring" && "buffer_i32" != "cstring"
  {
    assert |"void"| == 4 && |"i32"| == 3 && |"buffer_i32"| == 10 && |"cstring"| == 7;
  }

  lemma KindReadsBack(k: Kind)
    ensures KindOf(JStr(KindText(k))) == Some(k)
  {
    TextsDiffer();
  }

  /** Sending a parameter and reading it gives it back: the worker sees the declared parameters. */
  lemma ParamRoundTrip(p: Param)
    ensures ParseParam(ParamJson(p)) == Some(p)
  {
    TextsDiffer();
    KindReadsBack(p.kind);
    var f := ParamJson(p).fields;
    assert f["name"] == JStr(p.name) && f["kind"] == JStr(KindText(p.kind));
    assert f["ret"] == JStr(if p.isVoid then "void" else "i32");
    assert f["range"] == JArr([JInt(p.lo), JInt(p.hi)]);
  }

  /** A key the object does not have, or has with that value. */
  ghost predicate Defaults(f: map<string, Json>, key: string, value: Json) { key in f ==> f[key] == value }

  /** The object declares exactly the parameter `p`, defaults filled in. */
  ghost predicate DeclaresParam(j: Json, p: Param) {
    && j.JObj?
    && "name" in j.fields && j.fields["name"] == JStr(p.name)
    && "kind" in j.fields && (j.fields["kind"] == match p.kind case I32 => JStr("i32") case BufferI32 => JStr("buffer_i32") case CString => JStr("cstring"))
    && (if p.isVoid then "ret" in j.fields && j.fields["ret"] == JStr("void") else Defaults(j.fields, "ret", JStr("i32")))
    && (if p.lengthParam.Some? then "length_param" in j.fields && j.fields["length_param"] == JStr(p.lengthParam.value)
        else Defaults(j.fields, "length_param", JNull))
    && (if "range" in j.fields
        then j.fields["range"].JArr? && 2 <= |j.fields["range"].items| &&
             j.fields["range"].items[0] == JInt(p.lo) && j.fields["range"].items[1] == JInt(p.hi)
        else p.lo == -100 && p.hi == 100)
  }

  /** An object parses to a parameter if and only if it declares it. */
  lemma ParsesIff(j: Json, p: Param)
    ensures ParseParam(j) == Some(p) <==> DeclaresParam(j, p)
  {
    TextsDiffer();
    if DeclaresParam(j, p) {
      DeclaredParses(j, p);
    }
    if ParseParam(j) == Some(p) {
      ParsedDeclares(j, p);
    }
  }

  lemma DeclaredParses(j: Json, p: Param)
    requires DeclaresParam(j, p)
    ensures ParseParam(j) == Some(p)
  {
    TextsDiffer();
    var default := JArr([JInt(-100), JInt(100)]);
    assert |default.items| == 2 && default.items[0] == JInt(-100) && default.items[1] == JInt(100);
  }

  lemma ParsedDeclares(j: Json, p: Param)
    requires ParseParam(j) == Some(p)
    ensures DeclaresParam(j, p)
  {
    TextsDiffer();
    var default := JArr([JInt(-100), JInt(100)]);
    assert |default.items| == 2 && default.items[0] == JInt(-100) && default.items[1] == JInt(100);
  }

  /** The return that counts is void exactly when the first object says so. */
  lemma VoidIff(js: seq<Json>)
    requires ParseAll(js).Some? && js != []
    ensures ParseAll(js).value[0].isVoid <==> js[0].JObj? && "ret" in js[0].fields && js[0].fields["ret"] == JStr("void")
  {
    TextsDiffer();
    ParsesIff(js[0], ParseAll(js).value[0]);
  }

  ghost predicate IsScalar(ps: seq<Param>, name: string) {
    exists i :: 0 <= i < |ps| && ps[i].kind == I32 && ps[i].name == name
  }

  ghost predicate Sizes(ps: seq<Param>, name: string) {
    exists i :: 0 <= i < |ps| && ps[i].lengthParam == Some(name)
  }

  ghost predicate NamesDistinct(ps: seq<Param>) {
    forall i, j :: 0 <= i < j < |ps| ==> ps[i].name != ps[j].name
  }

  /** The rules a parsed declaration must satisfy before anything is drawn from it. */
  ghost predicate SpecOk(ps: seq<Param>) {
    && NamesDistinct(ps)
    && forall i :: 0 <= i < |ps| ==>
         && IsName(ps[i].name)
         && IsI32(ps[i].lo) && ps[i].lo <= ps[i].hi && IsI32(ps[i].hi)
         && (ps[i].lengthParam.Some? ==> IsScalar(ps, ps[i].lengthParam.value))
         && (Sizes(ps, ps[i].name) ==> ps[i].hi <= MAX_BUFFER_LEN)
  }

  /** Whether one parameter obeys the rules, given the names of scalars and of sizing parameters. */
  predicate ParamOk(p: Param, scalars: set<string>, sizing: set<string>) {
    && IsName(p.name)
    && IsI32(p.lo) && p.lo <= p.hi && IsI32(p.hi)
    && (p.lengthParam.Some? ==> p.lengthParam.value in scalars)
    && (p.name in sizing ==> p.hi <= MAX_BUFFER_LEN)
  }

  function Scalars(ps: seq<Param>): (r: set<string>) { set i | 0 <= i < |ps| && ps[i].kind == I32 :: ps[i].name }

  function Sizing(ps: seq<Param>): (r: set<string>) {
    set i | 0 <= i < |ps| && ps[i].lengthParam.Some? :: ps[i].lengthParam.value
  }

  lemma ParamsOkIff(ps: seq<Param>)
    ensures SpecOk(ps) <==>
              NamesDistinct(ps) && forall i :: 0 <= i < |ps| ==> ParamOk(ps[i], Scalars(ps), Sizing(ps))
  {
    forall i | 0 <= i < |ps|
      ensures ParamOk(ps[i], Scalars(ps), Sizing(ps)) <==>
                && IsName(ps[i].name)
                && IsI32(ps[i].lo) && ps[i].lo <= ps[i].hi && IsI32(ps[i].hi)
                && (ps[i].lengthParam.Some? ==> IsScalar(ps, ps[i].lengthParam.value))
                && (Sizes(ps, ps[i].name) ==> ps[i].hi <= MAX_BUFFER_LEN)
    {
      assert ps[i].name in Sizing(ps) <==> Sizes(ps, ps[i].name);
      assert ps[i].lengthParam.Some? ==> (ps[i].lengthParam.value in Scalars(ps) <==> IsScalar(ps, ps[i].lengthParam.value));
    }
  }

  function ParseAll(js: seq<Json>): (r: Option<seq<Param>>)
    ensures r.Some? ==> |r.value| == |js| && forall i :: 0 <= i < |js| ==> ParseParam(js[i]) == Some(r.value[i])
    ensures r.None? ==> exists i :: 0 <= i < |js| && ParseParam(js[i]).None?
  {
    if js == [] then Some([])
    else
      match ParseAll(js[..|js| - 1])
      case None => None
      case Some(ps) =>
        match ParseParam(js[|js| - 1])
        case None => None
        case Some(p) => Some(ps + [p])
  }

  /** A list of objects parses to a list of parameters if and only if each declares its own. */
  lemma ParsesAllIff(js: seq<Json>, ps: seq<Param>)
    ensures ParseAll(js) == Some(ps) <==> |ps| == |js| && forall i :: 0 <= i < |js| ==> DeclaresParam(js[i], ps[i])
  {
    forall i | 0 <= i < |js| && |ps| == |js|
      ensures ParseParam(js[i]) == Some(ps[i]) <==> DeclaresParam(js[i], ps[i])
    {
      ParsesIff(js[i], ps[i]);
    }
    if |ps| == |js| && forall i :: 0 <= i < |js| ==> DeclaresParam(js[i], ps[i]) {
      AllParse(js, ps);
    }
  }

  lemma AllParse(js: seq<Json>, ps: seq<Param>)
    requires |ps| == |js| && forall i :: 0 <= i < |js| ==> ParseParam(js[i]) == Some(ps[i])
    ensures ParseAll(js) == Some(ps)
  {
    var r := ParseAll(js);
    if r.Some? {
      assert forall i :: 0 <= i < |js| ==> r.value[i] == ps[i];
      assert r.value == ps;
    }
  }

  /** The checks on parsed parameters. */
  method CheckParams(ps: seq<Param>) returns (ok: bool)
    ensures ok <==> SpecOk(ps)
  {
    ParamsOkIff(ps);
    var scalars, sizing := Scalars(ps), Sizing(ps);
    if !(forall i, j :: 0 <= i < j < |ps| ==> ps[i].name != ps[j].name) { return false; }
    for i := 0 to |ps|
      invariant forall j :: 0 <= j < i ==> ParamOk(ps[j], scalars, sizing)
    {
      if !ParamOk(ps[i], scalars, sizing) { return false; }
    }
    return true;
  }

  /** The declared parameters, or None: accepted exactly when every object parses and the rules hold. */
  method ParseParams(raw: Option<Json>) returns (r: Option<seq<Param>>)
    ensures r.Some? <==> raw.Some? && raw.value.JArr? && ParseAll(raw.value.items).Some? && SpecOk(ParseAll(raw.value.items).value)
    ensures r.Some? ==> r == ParseAll(raw.value.items)
    ensures r.Some? ==> |r.value| == |raw.value.items| && forall i :: 0 <= i < |r.value| ==> DeclaresParam(raw.value.items[i], r.value[i])
  {
    if raw.None? || !raw.value.JArr? { return None; }
    r := ParseAll(raw.value.items);
    if r.None? { return; }
    ParsesAllIff(raw.value.items, r.value);
    var ok := CheckParams(r.value);
    if !ok { return None; }
  }

  // ---------- cases ----------

  datatype Value = IntV(i: int) | TextV(text: seq<byte>) | CellsV(cells: seq<int>)

  type Case = map<string, Value>

  /** The value has the shape of its parameter's kind. */
  predicate OfKind(v: Value, k: Kind) {
    match k case I32 => v.IntV? case BufferI32 => v.CellsV? case CString => v.TextV?
  }

  predicate AllI32(cells: seq<int>) { forall i :: 0 <= i < |cells| ==> IsI32(cells[i]) }

  /** Every cell of every buffer fits the signed 32-bit format it is packed in. */
  predicate Packable(ps: seq<Param>, c: Case) {
    forall i :: 0 <= i < |ps| && ps[i].kind == BufferI32 && ps[i].name in c && c[ps[i].name].CellsV? ==>
      AllI32(c[ps[i].name].cells)
  }

  ghost predicate WellTyped(ps: seq<Param>, c: Case) {
    && (forall n :: n in c <==> exists i :: 0 <= i < |ps| && ps[i].name == n)
    && forall i :: 0 <= i < |ps| ==> ps[i].name in c && OfKind(c[ps[i].name], ps[i].kind)
  }

  function Ints(cells: seq<int>): (r: seq<Json>)
    ensures |r| == |cells| && forall i :: 0 <= i < |cells| ==> r[i] == JInt(cells[i])
  {
    seq(|cells|, i requires 0 <= i < |cells| => JInt(cells[i]))
  }

  /** A value on the wire: text travels as hex. */
  function WireValue(v: Value): (j: Json) {
    match v case IntV(i) => JInt(i) case TextV(t) => JStr(Hex(t)) case CellsV(cs) => JArr(Ints(cs))
  }

  function Wire(c: Case): (r: map<string, Json>)
    ensures r.Keys == c.Keys
  {
    map n | n in c :: WireValue(c[n])
  }

  predicate AllInts(js: seq<Json>) { forall i :: 0 <= i < |js| ==> js[i].JInt? }

  /** Reading a wire value back at its declared kind. */
  function UnwireValue(j: Json, k: Kind): (v: Option<Value>)
    ensures v.Some? ==> OfKind(v.value, k)
  {
    match k
    case I32 => if j.JInt? then Some(IntV(j.i)) else None
    case CString => if j.JStr? && FromHex(j.s).Some? then Some(TextV(FromHex(j.s).value)) else None
    case BufferI32 =>
      if j.JArr? && AllInts(j.items) then Some(CellsV(seq(|j.items|, i requires 0 <= i < |j.items| => j.items[i].i))) else None
  }

  /** What was sent is what is read, at the same kind. */
  lemma WireRoundTrip(v: Value, k: Kind)
    requires OfKind(v, k)
    ensures UnwireValue(WireValue(v), k) == Some(v)
  {
    match v
    case IntV(_) =>
    case TextV(t) => HexRoundTrip(t);
    case CellsV(cs) =>
      var js := Ints(cs);
      assert seq(|js|, i requires 0 <= i < |js| => js[i].i) == cs;
  }

  /** Serialised inputs coincide exactly when the inputs do, so counting distinct wires counts distinct inputs. */
  lemma WireInjective(ps: seq<Param>, c: Case, d: Case)
    requires WellTyped(ps, c) && WellTyped(ps, d)
    ensures Wire(c) == Wire(d) <==> c == d
  {
    if Wire(c) == Wire(d) {
      assert c.Keys == Wire(c).Keys == d.Keys;
      forall n | n in c
        ensures c[n] == d[n]
      {
        var i :| 0 <= i < |ps| && ps[i].name == n;
        WireRoundTrip(c[n], ps[i].kind);
        WireRoundTrip(d[n], ps[i].kind);
        assert Wire(c)[n] == WireValue(c[n]) && Wire(d)[n] == WireValue(d[n]);
      }
    }
  }
}
