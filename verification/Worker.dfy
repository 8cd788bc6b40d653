/**
 The honest worker: it calls the model case by case, stops at the first crash
 and prints what it saw. Its output passes the host's shape check unchanged, so
 the host's verdict on it is the truth about the model.
 */
module Worker {
  import opened Prelude
  import opened FunctionSpec
  import opened FunctionGate
  import opened OutputBound

  // ---------- the loop ----------

  function StopAtCrash(call: Case -> Entry, cases: seq<Case>): (r: seq<Entry>)
    ensures |r| <= |cases|
    ensures forall i :: 0 <= i < |r| ==> r[i] == call(cases[i])
    ensures forall i :: 0 <= i < |r| - 1 ==> r[i].Got?
    ensures |r| < |cases| ==> r != [] && r[|r| - 1].Crashed?
  {
    if cases == [] then []
    else if call(cases[0]).Crashed? then [call(cases[0])]
    else [call(cases[0])] + StopAtCrash(call, cases[1..])
  }

  /** What is collected so far, followed by what the remaining cases would give, is `goal`. */
  ghost predicate RunsLeft(results: seq<Entry>, call: Case -> Entry, left: seq<Case>, goal: seq<Entry>) {
    results + StopAtCrash(call, left) == goal
  }

  lemma RunStep(results: seq<Entry>, call: Case -> Entry, left: seq<Case>, goal: seq<Entry>)
    requires left != [] && RunsLeft(results, call, left, goal)
    ensures if call(left[0]).Crashed? then results + [call(left[0])] == goal
            else RunsLeft(results + [call(left[0])], call, left[1..], goal)
  {
    var r := call(left[0]);
    if !r.Crashed? {
      var rest := StopAtCrash(call, left[1..]);
      assert results + ([r] + rest) == (results + [r]) + rest;
    }
  }

  method RunCases(call: Case -> Entry, cases: seq<Case>) returns (results: seq<Entry>)
    ensures results == StopAtCrash(call, cases)
  {
    results := [];
    ghost var goal := StopAtCrash(call, cases);
    assert cases[0..] == cases;
    for i := 0 to |cases|
      invariant RunsLeft(results, call, cases[i..], goal)
    {
      RunStep(results, call, cases[i..], goal);
      assert cases[i..][1..] == cases[i + 1..];
      var r := call(cases[i]);
      results := results + [r];
      if r.Crashed? { return; }
    }
    assert cases[|cases|..] == [];
  }

  // ---------- what it prints ----------

  function CrashJson(c: Crash): (j: Json)
    ensures CrashOf(j) == c
  {
    match c
    case Timeout => JObj(map["timeout" := JBool(true)])
    case Signal(n) => JObj(map["signal" := JInt(n)])
    case Error => JObj(map["error" := JStr("no output")])
  }

  function EntryJson(e: Entry): (j: Json) {
    match e
    case Crashed(c) => JObj(map["crash" := CrashJson(c)])
    case Got(ret, mem) => JObj(map["ret" := JInt(ret), "mem" := JObj(Wire(mem))])
  }

  function EntriesJson(es: seq<Entry>): (js: seq<Json>)
    ensures |js| == |es| && forall i :: 0 <= i < |es| ==> js[i] == EntryJson(es[i])
  {
    seq(|es|, i requires 0 <= i < |es| => EntryJson(es[i]))
  }

  function Output(es: seq<Entry>): (j: Json) {
    JObj(map["ok" := JBool(true), "results" := JArr(EntriesJson(es))])
  }

  /** The memory a call reads back: one value of the right kind per buffer and string. */
  ghost predicate ReadsBack(e: Entry, kinds: map<string, Kind>) {
    e.Got? ==> e.mem.Keys == kinds.Keys && forall n :: n in kinds ==> OfKind(e.mem[n], kinds[n])
  }

  lemma GotSurvives(e: Entry, kinds: map<string, Kind>)
    requires e.Got? && ReadsBack(e, kinds)
    ensures GotOf(EntryJson(e), kinds) == Some(e)
  {
    var j := EntryJson(e);
    assert j.fields.Keys == {"ret", "mem"};
    var mem := Wire(e.mem);
    forall n | n in kinds
      ensures UnwireValue(mem[n], kinds[n]) == Some(e.mem[n])
    {
      WireRoundTrip(e.mem[n], kinds[n]);
    }
    assert (map n | n in kinds :: UnwireValue(mem[n], kinds[n]).value) == e.mem;
  }

  /** `js` reads as `es`, entry by entry. */
  lemma {:induction false} AllSurvive(es: seq<Entry>, js: seq<Json>, kinds: map<string, Kind>)
    requires |js| == |es| && forall i :: 0 <= i < |es| ==> GotOf(js[i], kinds) == Some(es[i])
    ensures GotAll(js, kinds) == Some(es)
  {
    var r := GotAll(js, kinds);
    if r.Some? {
      forall i | 0 <= i < |es|
        ensures r.value[i] == es[i]
      {
        assert GotOf(js[i], kinds) == Some(r.value[i]);
      }
      assert r.value == es;
    }
  }

  /** The last entry's object is read for what it is. */
  lemma LastSurvives(e: Entry, kinds: map<string, Kind>)
    requires ReadsBack(e, kinds)
    ensures IsCrashObject(EntryJson(e)) <==> e.Crashed?
    ensures e.Crashed? ==> CrashOf(EntryJson(e).fields["crash"]) == e.crash
    ensures e.Got? ==> GotOf(EntryJson(e), kinds) == Some(e)
  {
    if e.Got? {
      GotSurvives(e, kinds);
      assert "ret" in EntryJson(e).fields;
    }
  }

  /** The printed results come through the shape check as they are, crash included. */
  lemma OutputPasses(es: seq<Entry>, kinds: map<string, Kind>, n: nat)
    requires 0 < |es| <= n && (|es| < n ==> es[|es| - 1].Crashed?)
    requires forall i :: 0 <= i < |es| - 1 ==> es[i].Got?
    requires forall i :: 0 <= i < |es| ==> ReadsBack(es[i], kinds)
    ensures ClaimOf(Output(es), kinds, n) == Results(es)
  {
    var res, m := EntriesJson(es), |es| - 1;
    forall i | 0 <= i < m
      ensures GotOf(res[..m][i], kinds) == Some(es[..m][i])
    {
      GotSurvives(es[i], kinds);
    }
    AllSurvive(es[..m], res[..m], kinds);
    LastSurvives(es[m], kinds);
    ClaimReads(Output(es), res, es, kinds, n);
  }

  /** Output whose entries read as `es` is the claim `es`. */
  lemma ClaimReads(out: Json, res: seq<Json>, es: seq<Entry>, kinds: map<string, Kind>, n: nat)
    requires out.JObj? && "stage" !in out.fields && "results" in out.fields && out.fields["results"] == JArr(res)
    requires 0 < |es| == |res| <= n
    requires GotAll(res[..|es| - 1], kinds) == Some(es[..|es| - 1])
    requires var e, j := es[|es| - 1], res[|es| - 1];
             && (|es| < n ==> e.Crashed?)
             && (if e.Crashed? then IsCrashObject(j) && CrashOf(j.fields["crash"]) == e.crash
                 else !IsCrashObject(j) && GotOf(j, kinds) == Some(e))
    ensures ClaimOf(out, kinds, n) == Results(es)
  {
    var m := |es| - 1;
    assert es[..m] + [es[m]] == es;
  }

  // ---------- what it was sent ----------

  /** The worker's own decoding of a wired case, parameter by parameter. */
  function Unwire(ps: seq<Param>, w: Wired): (c: Case) {
    if ps == [] then map[]
    else
      var p := ps[|ps| - 1];
      var before := Unwire(ps[..|ps| - 1], w);
      if p.name !in w then before
      else
        match UnwireValue(w[p.name], p.kind)
        case None => before
        case Some(v) => before[p.name := v]
  }

  ghost predicate HasName(ps: seq<Param>, n: string) {
    exists i :: 0 <= i < |ps| && ps[i].name == n
  }

  lemma HasNameSnoc(ps: seq<Param>, n: string)
    requires ps != []
    ensures HasName(ps, n) <==> HasName(ps[..|ps| - 1], n) || ps[|ps| - 1].name == n
  {
    var m := |ps| - 1;
    assert forall i :: 0 <= i < m ==> ps[..m][i] == ps[i];
  }

  lemma {:induction false} UnwireHas(ps: seq<Param>, c: Case, n: string)
    requires forall i :: 0 <= i < |ps| ==> ps[i].name in c && OfKind(c[ps[i].name], ps[i].kind)
    ensures n in Unwire(ps, Wire(c)) <==> HasName(ps, n)
    ensures n in Unwire(ps, Wire(c)) ==> n in c && Unwire(ps, Wire(c))[n] == c[n]
  {
    if ps != [] {
      var m := |ps| - 1;
      var p := ps[m];
      UnwireHas(ps[..m], c, n);
      HasNameSnoc(ps, n);
      WireRoundTrip(c[p.name], p.kind);
      assert Wire(c)[p.name] == WireValue(c[p.name]);
    }
  }

  /** The worker sees exactly the case the host drew. */
  lemma WorkerSeesCase(ps: seq<Param>, c: Case)
    requires WellTyped(ps, c)
    ensures Unwire(ps, Wire(c)) == c
  {
    var u := Unwire(ps, Wire(c));
    forall n
      ensures n in u <==> n in c
      ensures n in c ==> n in u && u[n] == c[n]
    {
      UnwireHas(ps, c, n);
      assert n in c <==> HasName(ps, n);
    }
  }

  function UnwireAll(ps: seq<Param>, ws: seq<Wired>): (r: seq<Case>)
    ensures |r| == |ws| && forall i :: 0 <= i < |ws| ==> r[i] == Unwire(ps, ws[i])
  {
    seq(|ws|, i requires 0 <= i < |ws| => Unwire(ps, ws[i]))
  }

  /** One honest round trip; a job whose output reaches the cap is cut off and fails. */
  function Honest(ps: seq<Param>, call: Case -> Entry): (run: seq<Wired> -> JobResult) {
    (ws: seq<Wired>) =>
      var es := StopAtCrash(call, UnwireAll(ps, ws));
      JobResult(|ResultText(ps, es)| >= JOB_CAP, Some(Output(es)))
  }

  function Survivors(cases: seq<Case>, wants: seq<Want>): (r: seq<Case>)
    requires |cases| == |wants|
    ensures |r| == |Kept(wants)| && forall i :: 0 <= i < |r| ==> r[i] == cases[Kept(wants)[i]]
  {
    var kept := Kept(wants);
    seq(|kept|, i requires 0 <= i < |kept| => cases[kept[i]])
  }

  /** What the worker prints for these survivors stays below the job's output cap. */
  ghost predicate Fits(ps: seq<Param>, cases: seq<Case>, wants: seq<Want>, call: Case -> Entry)
    requires |cases| == |wants|
  {
    |ResultText(ps, StopAtCrash(call, Survivors(cases, wants)))| < JOB_CAP
  }

  lemma HonestReply(ps: seq<Param>, cases: seq<Case>, wants: seq<Want>, call: Case -> Entry)
    requires |cases| == |wants| && Kept(wants) != [] && Fits(ps, cases, wants, call)
    requires forall i :: 0 <= i < |cases| ==> WellTyped(ps, cases[i]) && ReadsBack(call(cases[i]), MemKinds(ps))
    ensures JobModel(Honest(ps, call), ps)(Sent(cases, wants)) == Results(StopAtCrash(call, Survivors(cases, wants)))
  {
    WorkerSeesSurvivors(ps, cases, wants);
    var es := StopAtCrash(call, Survivors(cases, wants));
    OutputPasses(es, MemKinds(ps), |Sent(cases, wants)|);
  }

  lemma WorkerSeesSurvivors(ps: seq<Param>, cases: seq<Case>, wants: seq<Want>)
    requires |cases| == |wants| && forall i :: 0 <= i < |cases| ==> WellTyped(ps, cases[i])
    ensures UnwireAll(ps, Sent(cases, wants)) == Survivors(cases, wants)
  {
    var ws, kept := Sent(cases, wants), Kept(wants);
    forall i | 0 <= i < |ws|
      ensures UnwireAll(ps, ws)[i] == Survivors(cases, wants)[i]
    {
      WorkerSeesCase(ps, cases[kept[i]]);
    }
  }

  /** The model behaves as the original did on the i-th survivor. */
  ghost predicate ModelAgrees(cases: seq<Case>, wants: seq<Want>, call: Case -> Entry, isVoid: bool, i: nat)
    requires |cases| == |wants| && i < |Kept(wants)|
  {
    var want, got := wants[Kept(wants)[i]], call(cases[Kept(wants)[i]]);
    got.Got? && got.mem == want.mem && (!isVoid ==> got.ret == want.ret)
  }

  ghost predicate LeastDisagreement(cases: seq<Case>, wants: seq<Want>, call: Case -> Entry, isVoid: bool, b: nat)
    requires |cases| == |wants|
  {
    && b < |Kept(wants)| && !ModelAgrees(cases, wants, call, isVoid, b)
    && forall j :: 0 <= j < b ==> ModelAgrees(cases, wants, call, isVoid, j)
  }

  ghost predicate AgreesThroughout(cases: seq<Case>, wants: seq<Want>, call: Case -> Entry, isVoid: bool)
    requires |cases| == |wants|
  {
    forall i :: 0 <= i < |Kept(wants)| ==> ModelAgrees(cases, wants, call, isVoid, i)
  }

  /** The report about survivor `b`. */
  function Report(cases: seq<Case>, wants: seq<Want>, call: Case -> Entry, b: nat): (v: Verdict)
    requires |cases| == |wants| && b < |Kept(wants)|
  {
    var kept := Kept(wants);
    Diverged(cases[kept[b]], FieldOf(wants[kept[b]], call(cases[kept[b]])), b + 1, |cases| - |kept|)
  }

  /** Accepted when the model agrees throughout, else the report about the least survivor on which it does not. */
  ghost predicate Truthful(v: Verdict, cases: seq<Case>, wants: seq<Want>, call: Case -> Entry, isVoid: bool)
    requires |cases| == |wants|
  {
    if AgreesThroughout(cases, wants, call, isVoid)
    then v == Accepted(|Kept(wants)|, |cases| - |Kept(wants)|)
    else exists b: nat :: LeastDisagreement(cases, wants, call, isVoid, b) && v == Report(cases, wants, call, b)
  }

  /** An entry of the right kinds and sizes for its case. */
  ghost predicate Behaves(ps: seq<Param>, c: Case, e: Entry) {
    ReadsBack(e, MemKinds(ps)) && PlainReadback(ps, c, e)
  }

  /**
   Once the floors pass on a drawn round, the verdict on an honest worker is the
   truth: accepted exactly when the model agrees with the original on every
   survivor, else the least survivor on which it crashes or differs is the one
   reported. Its output never reaches the job's cap.
   */
  lemma HonestVerdict(ps: seq<Param>, cases: seq<Case>, k: nat, wants: seq<Want>, call: Case -> Entry)
    requires |cases| == |wants| <= MAX_ROUND && SpecOk(ps) && FloorsPass(ps, cases, k, wants)
    requires forall i :: 0 <= i < |cases| ==> FromRound(ps, cases[i]) && Behaves(ps, cases[i], call(cases[i]))
    ensures Truthful(VerdictOf(ps, cases, k, wants, JobModel(Honest(ps, call), ps)), cases, wants, call, IsVoid(ps))
  {
    var es, survivors := StopAtCrash(call, Survivors(cases, wants)), Survivors(cases, wants);
    forall i | 0 <= i < |es|
      ensures FromRound(ps, survivors[i]) && PlainReadback(ps, survivors[i], es[i])
    {
      assert Behaves(ps, cases[Kept(wants)[i]], call(cases[Kept(wants)[i]]));
    }
    ResultsFitTheCap(ps, survivors, es);
    forall i | 0 <= i < |cases|
      ensures WellTyped(ps, cases[i]) && ReadsBack(call(cases[i]), MemKinds(ps))
    {
      RoundIsTyped(ps, cases[i]);
      assert Behaves(ps, cases[i], call(cases[i]));
    }
    FittingVerdict(ps, cases, k, wants, call);
  }

  lemma RoundIsTyped(ps: seq<Param>, c: Case)
    requires FromRound(ps, c)
    ensures WellTyped(ps, c)
  {
  }

  /** The same for any cases at all, as long as what is printed stays below the cap. */
  lemma FittingVerdict(ps: seq<Param>, cases: seq<Case>, k: nat, wants: seq<Want>, call: Case -> Entry)
    requires |cases| == |wants| && FloorsPass(ps, cases, k, wants) && Fits(ps, cases, wants, call)
    requires forall i :: 0 <= i < |cases| ==> WellTyped(ps, cases[i]) && ReadsBack(call(cases[i]), MemKinds(ps))
    ensures Truthful(VerdictOf(ps, cases, k, wants, JobModel(Honest(ps, call), ps)), cases, wants, call, IsVoid(ps))
  {
    HonestReply(ps, cases, wants, call);
    var es := StopAtCrash(call, Survivors(cases, wants));
    assert VerdictOf(ps, cases, k, wants, JobModel(Honest(ps, call), ps)) == Compare(cases, wants, es, IsVoid(ps), 0);
    CompareIs(cases, wants, es, IsVoid(ps), 0);
    StopCalls(cases, wants, call);
    ReportsAreTruthful(Compare(cases, wants, es, IsVoid(ps), 0), es, cases, wants, call, IsVoid(ps));
  }

  /** The result list, read as calls on the survivors: whole, or cut short by a crash. */
  ghost predicate Calls(es: seq<Entry>, cases: seq<Case>, wants: seq<Want>, call: Case -> Entry)
    requires |cases| == |wants|
  {
    && |es| <= |Kept(wants)| && (|es| < |Kept(wants)| ==> es != [] && es[|es| - 1].Crashed?)
    && forall i :: 0 <= i < |es| ==> es[i] == call(cases[Kept(wants)[i]])
  }

  lemma StopCalls(cases: seq<Case>, wants: seq<Want>, call: Case -> Entry)
    requires |cases| == |wants|
    ensures Calls(StopAtCrash(call, Survivors(cases, wants)), cases, wants, call)
  {
  }

  lemma CallAgrees(es: seq<Entry>, cases: seq<Case>, wants: seq<Want>, call: Case -> Entry, isVoid: bool, i: nat)
    requires |cases| == |wants| && Calls(es, cases, wants, call) && i < |es|
    ensures Agrees(wants[Kept(wants)[i]], es[i], isVoid) == ModelAgrees(cases, wants, call, isVoid, i)
  {
  }

  /** A report about the honest result list is the truth about the model. */
  lemma ReportsAreTruthful(v: Verdict, es: seq<Entry>, cases: seq<Case>, wants: seq<Want>, call: Case -> Entry, isVoid: bool)
    requires |cases| == |wants| && Calls(es, cases, wants, call) && Reports(v, cases, wants, es, isVoid)
    ensures Truthful(v, cases, wants, call, isVoid)
  {
    if b: nat :| FirstBad(wants, es, isVoid, b) {
      var b' := DifferingIsLeast(v, es, cases, wants, call, isVoid, b);
    } else {
      AgreeingThroughout(es, cases, wants, call, isVoid);
    }
  }

  lemma DifferingIsLeast(v: Verdict, es: seq<Entry>, cases: seq<Case>, wants: seq<Want>, call: Case -> Entry, isVoid: bool, a: nat)
    returns (b: nat)
    requires |cases| == |wants| && Calls(es, cases, wants, call) && Reports(v, cases, wants, es, isVoid)
    requires FirstBad(wants, es, isVoid, a)
    ensures LeastDisagreement(cases, wants, call, isVoid, b) && v == Report(cases, wants, call, b)
  {
    b :| FirstBad(wants, es, isVoid, b) &&
         v == Diverged(cases[Kept(wants)[b]], FieldOf(wants[Kept(wants)[b]], es[b]), b + 1, |cases| - |Kept(wants)|);
    forall i: nat | i <= b
      ensures Agrees(wants[Kept(wants)[i]], es[i], isVoid) == ModelAgrees(cases, wants, call, isVoid, i)
    {
      CallAgrees(es, cases, wants, call, isVoid, i);
    }
  }

  /** A result list without a first bad entry agrees, and was not cut short. */
  lemma AgreeingThroughout(es: seq<Entry>, cases: seq<Case>, wants: seq<Want>, call: Case -> Entry, isVoid: bool)
    requires |cases| == |wants| && Calls(es, cases, wants, call)
    requires forall b: nat :: !FirstBad(wants, es, isVoid, b)
    ensures |es| == |Kept(wants)| && AgreesThroughout(cases, wants, call, isVoid)
    ensures forall j :: 0 <= j < |es| ==> Agrees(wants[Kept(wants)[j]], es[j], isVoid)
  {
    for n := 0 to |es|
      invariant forall j :: 0 <= j < n ==> Agrees(wants[Kept(wants)[j]], es[j], isVoid)
    {
      assert !FirstBad(wants, es, isVoid, n);
    }
    assert es != [] ==> Agrees(wants[Kept(wants)[|es| - 1]], es[|es| - 1], isVoid);
    forall i | 0 <= i < |es|
      ensures ModelAgrees(cases, wants, call, isVoid, i)
    {
      CallAgrees(es, cases, wants, call, isVoid, i);
    }
  }
}
