/**
 The function check from end to end: parse the declaration, draw a round, run
 the original, hand the survivors to a worker and judge its claim.
 */
module FunctionFuzz {
  import opened Prelude
  import opened FunctionSpec
  import opened Round
  import opened FunctionGate

  /** Everything an acceptance certifies about the round it came from and the job it judged. */
  ghost predicate Earned(ps: seq<Param>, cases: seq<Case>, k: nat, n: nat, original: Case -> Want,
                         run: seq<Wired> -> JobResult, v: Verdict)
  {
    && SpecOk(ps) && RoundOk(ps, cases, k, n) && v.Accepted?
    && v.compared + v.skipped == n
    && var wants := Wants(cases, original);
       var kept := Kept(wants);
       var job := run(Sent(cases, wants));
       && FloorsPass(ps, cases, k, wants)
       && v.compared == |kept|
       && !job.failed && job.output.Some? && ClaimsAll(job.output.value, MemKinds(ps), |kept|)
       && forall i :: 0 <= i < |kept| ==>
            Agrees(wants[kept[i]], GotOf(job.output.value.fields["results"].items[i], MemKinds(ps)).value, IsVoid(ps))
  }

  /** The declaration parses and obeys the rules. */
  ghost predicate Declares(raw: Option<Json>) {
    raw.Some? && raw.value.JArr? && ParseAll(raw.value.items).Some? && SpecOk(ParseAll(raw.value.items).value)
  }

  /** The declaration gets past its floors and the round holds a case the driver cannot pack. */
  ghost predicate Raises(ps: seq<Param>, immediates: seq<int>, n: nat) {
    DeclarationPasses(ps) && HasBuffer(ps) && HighReading(ps, immediates, n)
  }

  /**
   One submission, for every declaration, every draw and every worker, however
   it answers: a raise and no verdict exactly when a high reading meets a
   declared buffer, otherwise the gate's verdict.
   */
  method CheckFunction(raw: Option<Json>, immediates: seq<int>, n: nat, original: Case -> Want, run: seq<Wired> -> JobResult)
    returns (r: Outcome, ps: seq<Param>, cases: seq<Case>, k: nat)
    requires forall i :: 0 <= i < |immediates| ==> 0 <= immediates[i] < 0x1_0000_0000
    ensures r.Raised? <==> Declares(raw) && Raises(ParseAll(raw.value.items).value, immediates, n)
    ensures if Declares(raw)
            then && ParseAll(raw.value.items) == Some(ps) && RoundOk(ps, cases, k, n)
                 && (r.Judged? ==> r.verdict == VerdictOf(ps, cases, k, Wants(cases, original), JobModel(run, ps)))
            else r == Judged(Refused("spec"))
    ensures r.Judged? && r.verdict.Accepted? ==> Earned(ps, cases, k, n, original, run, r.verdict)
  {
    cases, k := [], 0;
    var parsed := ParseParams(raw);
    if parsed.None? {
      return Judged(Refused("spec")), [], [], 0;
    }
    ps := parsed.value;
    var uniform;
    cases, k, uniform := DrawRound(ps, immediates, n);
    RoundPacksIff(ps, immediates, n, cases, k);
    r := ValidateFunction(ps, cases, k, original, JobModel(run, ps));
    if r.Judged? && r.verdict.Accepted? {
      AcceptedIff(ps, cases, k, Wants(cases, original), JobModel(run, ps));
      AcceptanceIsEarned(ps, cases, k, Wants(cases, original), run);
    }
  }

  // ---------- the smallest declaration that raises ----------

  /** One buffer, declared with a range. */
  function OneBuffer(): (raw: Json) {
    JArr([JObj(map["name" := JStr("b"), "kind" := JStr("buffer_i32"), "range" := JArr([JInt(0), JInt(9)])])])
  }

  /** A comparison with minus one in the original leaves every submission that declares a buffer without a verdict. */
  lemma MinusOneRaises()
    ensures Declares(Some(OneBuffer()))
    ensures Raises(ParseAll(OneBuffer().items).value, [0xFFFF_FFFF], 64)
  {
    var p := Param("b", BufferI32, None, 0, 9, false);
    OneBufferParses(p);
    OneBufferOk(p);
    HighReadingTaken([p], 0xFFFF_FFFF);
  }

  lemma OneBufferOk(p: Param)
    requires p == Param("b", BufferI32, None, 0, 9, false)
    ensures SpecOk([p]) && DeclarationPasses([p]) && HasBuffer([p])
  {
    assert IsName("b");
    assert [p][0].kind == BufferI32;
  }

  lemma HighReadingTaken(ps: seq<Param>, raw: int)
    requires ps != [] && 0x8000_0000 <= raw < 0x1_0000_0000
    ensures HighReading(ps, [raw], 64)
  {
    assert [raw][..0] == [];
    assert AllReadings([raw]) == [] + ReadingsOf(raw);
    assert AllReadings([raw])[0].1 == raw;
  }

  lemma OneBufferParses(p: Param)
    requires p == Param("b", BufferI32, None, 0, 9, false)
    ensures ParseAll(OneBuffer().items) == Some([p])
  {
    var js := OneBuffer().items;
    assert |js| == 1 && ParseParam(js[0]) == Some(p);
    if ParseAll(js).Some? {
      assert ParseAll(js).value == [p];
    }
  }
}
