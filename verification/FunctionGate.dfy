/**
 The function gate: the original is run on the host, the submitted model only in
 a contained worker whose output is a claim. This is the host's side, for every
 claim a worker could make.
 */
module FunctionGate {
  import opened Prelude
  import opened FunctionSpec

  /** What the original did on a case; a memory fault is told apart from other stops. */
  datatype Want = Faulted(memFault: bool) | Returned(ret: int, mem: map<string, Value>)

  datatype Crash = Timeout | Signal(number: int) | Error

  /** What the worker claims the model did on a case. */
  datatype Entry = Crashed(crash: Crash) | Got(ret: int, mem: map<string, Value>)

  /** The claim once its shape is known: a stage that stopped it, or a result list. */
  datatype Reply = Stage(stage: string) | Results(entries: seq<Entry>)

  datatype Verdict =
    | Accepted(compared: nat, skipped: nat)
    | Refused(stage: string)
    | Diverged(input: Case, field: string, compared: nat, skippedCases: nat)

  /** The end of a check: a verdict, or a raise out of the driver and no verdict at all. */
  datatype Outcome = Raised | Judged(verdict: Verdict)

  type Wired = map<string, Json>

  // ---------- floors ----------

  predicate IsVoid(ps: seq<Param>) { ps != [] && ps[0].isVoid }

  predicate HasChannel(ps: seq<Param>) { exists i :: 0 <= i < |ps| && ps[i].kind != I32 }

  function Wants(cases: seq<Case>, original: Case -> Want): (r: seq<Want>)
    ensures |r| == |cases| && forall i :: 0 <= i < |cases| ==> r[i] == original(cases[i])
  {
    seq(|cases|, i requires 0 <= i < |cases| => original(cases[i]))
  }

  /** The positions whose case survived the original, in order. */
  function KeptTo(wants: seq<Want>, n: nat): (r: seq<nat>)
    requires n <= |wants|
    ensures |r| <= n
    ensures forall i :: 0 <= i < |r| ==> r[i] < n && wants[r[i]].Returned?
    ensures forall i, j :: 0 <= i < j < |r| ==> r[i] < r[j]
    ensures forall p :: 0 <= p < n && wants[p].Returned? ==> p in r
  {
    if n == 0 then []
    else if wants[n - 1].Returned? then KeptTo(wants, n - 1) + [n - 1]
    else KeptTo(wants, n - 1)
  }

  function Kept(wants: seq<Want>): (r: seq<nat>)
    ensures forall i :: 0 <= i < |r| ==> r[i] < |wants| && wants[r[i]].Returned?
    ensures |r| <= |wants|
  {
    KeptTo(wants, |wants|)
  }

  /** A declared case, one at position `k` or later, made the original fault on memory. */
  ghost predicate DeclaredFault(wants: seq<Want>, k: nat) {
    exists i :: k <= i < |wants| && wants[i] == Faulted(true)
  }

  ghost predicate Varied(cases: seq<Case>, wants: seq<Want>, k: nat)
    requires |cases| == |wants|
  {
    exists i, j :: k <= i < |cases| && k <= j < |cases| && wants[i].Returned? && wants[j].Returned? && cases[i] != cases[j]
  }

  /** Everything that must hold before the model is run at all. */
  ghost predicate FloorsPass(ps: seq<Param>, cases: seq<Case>, k: nat, wants: seq<Want>)
    requires |cases| == |wants|
  {
    && |ps| <= MAX_ARITY
    && (IsVoid(ps) ==> HasChannel(ps))
    && Kept(wants) != []
    && !DeclaredFault(wants, k)
    && Varied(cases, wants, k)
  }

  function SerialisedFrom(cases: seq<Case>, kept: seq<nat>, k: nat): (r: set<Wired>)
    requires forall i :: 0 <= i < |kept| ==> kept[i] < |cases|
  {
    set i | 0 <= i < |kept| && k <= kept[i] :: Wire(cases[kept[i]])
  }

  lemma TwoOrMore<T(!new)>(s: set<T>)
    ensures |s| >= 2 <==> exists x, y :: x in s && y in s && x != y
  {
    if x, y :| x in s && y in s && x != y {
      assert |s - {x}| == |s| - 1 && y in s - {x};
    }
    if |s| >= 2 {
      var x :| x in s;
      assert |s - {x}| >= 1;
      var y :| y in s - {x};
    }
  }

  /** Two distinct serialised survivors exist exactly when two different declared inputs survived. */
  lemma VariedIff(ps: seq<Param>, cases: seq<Case>, wants: seq<Want>, k: nat)
    requires |cases| == |wants| && forall i :: 0 <= i < |cases| ==> WellTyped(ps, cases[i])
    ensures |SerialisedFrom(cases, Kept(wants), k)| >= 2 <==> Varied(cases, wants, k)
  {
    var kept := Kept(wants);
    var s := SerialisedFrom(cases, kept, k);
    TwoOrMore(s);
    if x, y :| x in s && y in s && x != y {
      var a := KeptOf(cases, kept, k, x);
      var b := KeptOf(cases, kept, k, y);
      assert cases[a] != cases[b];
    }
    if i, j :| k <= i < |cases| && k <= j < |cases| && wants[i].Returned? && wants[j].Returned? && cases[i] != cases[j] {
      WireInjective(ps, cases[i], cases[j]);
      SerialisedHas(cases, kept, k, i);
      SerialisedHas(cases, kept, k, j);
    }
  }

  lemma KeptOf(cases: seq<Case>, kept: seq<nat>, k: nat, x: Wired) returns (i: nat)
    requires (forall i :: 0 <= i < |kept| ==> kept[i] < |cases|) && x in SerialisedFrom(cases, kept, k)
    ensures i in kept && k <= i < |cases| && x == Wire(cases[i])
  {
    var a :| 0 <= a < |kept| && k <= kept[a] && x == Wire(cases[kept[a]]);
    i := kept[a];
  }

  lemma SerialisedHas(cases: seq<Case>, kept: seq<nat>, k: nat, i: nat)
    requires (forall i :: 0 <= i < |kept| ==> kept[i] < |cases|) && i in kept && k <= i < |cases|
    ensures Wire(cases[i]) in SerialisedFrom(cases, kept, k)
  {
  }

  // ---------- comparison ----------

  predicate Agrees(want: Want, got: Entry, isVoid: bool)
    requires want.Returned?
  {
    got.Got? && want.mem == got.mem && (isVoid || want.ret == got.ret)
  }

  /** The field reported for a survivor that does not agree. */
  function FieldOf(want: Want, got: Entry): (f: string)
    requires want.Returned?
  {
    if got.Crashed? then "crash" else if want.mem != got.mem then "mem" else "ret"
  }

  predicate LengthOk(entries: seq<Entry>, n: nat) {
    |entries| == n || (0 < |entries| < n && entries[|entries| - 1].Crashed?)
  }

  ghost predicate FirstBad(wants: seq<Want>, entries: seq<Entry>, isVoid: bool, i: nat) {
    var kept := Kept(wants);
    && i < |kept| && i < |entries| && !Agrees(wants[kept[i]], entries[i], isVoid)
    && forall j :: 0 <= j < i ==> Agrees(wants[kept[j]], entries[j], isVoid)
  }

  function Compare(cases: seq<Case>, wants: seq<Want>, entries: seq<Entry>, isVoid: bool, i: nat): (v: Verdict)
    requires |cases| == |wants| && i <= |Kept(wants)| && i <= |entries|
    decreases |entries| - i
  {
    var kept := Kept(wants);
    var skipped := |cases| - |kept|;
    if i == |kept| || i == |entries| then Accepted(i, skipped)
    else if !Agrees(wants[kept[i]], entries[i], isVoid)
    then Diverged(cases[kept[i]], FieldOf(wants[kept[i]], entries[i]), i + 1, skipped)
    else Compare(cases, wants, entries, isVoid, i + 1)
  }

  function Sent(cases: seq<Case>, wants: seq<Want>): (r: seq<Wired>)
    requires |cases| == |wants|
    ensures |r| == |Kept(wants)| && forall i :: 0 <= i < |r| ==> r[i] == Wire(cases[Kept(wants)[i]])
  {
    var kept := Kept(wants);
    seq(|kept|, i requires 0 <= i < |kept| => Wire(cases[kept[i]]))
  }

  /** The floor that refuses the round, in the order they are tested. */
  ghost function FloorStage(ps: seq<Param>, cases: seq<Case>, k: nat, wants: seq<Want>): (r: Option<string>)
    requires |cases| == |wants|
    ensures r.None? <==> FloorsPass(ps, cases, k, wants)
  {
    if |ps| > MAX_ARITY then Some("arity")
    else if IsVoid(ps) && !HasChannel(ps) then Some("spec")
    else if Kept(wants) == [] then Some("skip-starvation")
    else if DeclaredFault(wants, k) || !Varied(cases, wants, k) then Some("spec")
    else None
  }

  /** The gate's verdict, stage by stage. */
  ghost function VerdictOf(ps: seq<Param>, cases: seq<Case>, k: nat, wants: seq<Want>, runModel: seq<Wired> -> Reply): (v: Verdict)
    requires |cases| == |wants|
  {
    match FloorStage(ps, cases, k, wants)
    case Some(stage) => Refused(stage)
    case None =>
      match runModel(Sent(cases, wants))
      case Stage(s) => Refused(s)
      case Results(entries) =>
        if !LengthOk(entries, |Kept(wants)|) then Refused("worker")
        else Compare(cases, wants, entries, IsVoid(ps), 0)
  }

  method CompareResults(cases: seq<Case>, wants: seq<Want>, entries: seq<Entry>, isVoid: bool) returns (v: Verdict)
    requires |cases| == |wants|
    ensures v == Compare(cases, wants, entries, isVoid, 0)
  {
    var kept := Kept(wants);
    var skipped := |cases| - |kept|;
    var compared := 0;
    while compared < |kept| && compared < |entries|
      invariant 0 <= compared <= |kept| && compared <= |entries|
      invariant Compare(cases, wants, entries, isVoid, compared) == Compare(cases, wants, entries, isVoid, 0)
    {
      var want, got := wants[kept[compared]], entries[compared];
      if !Agrees(want, got, isVoid) {
        compared := compared + 1;
        return Diverged(cases[kept[compared - 1]], FieldOf(want, got), compared, skipped);
      }
      compared := compared + 1;
    }
    return Accepted(compared, skipped);
  }

  /** The floors that look at the declaration alone. */
  predicate DeclarationPasses(ps: seq<Param>) {
    |ps| <= MAX_ARITY && (IsVoid(ps) ==> HasChannel(ps))
  }

  /** Running the original on every case; None is the raise on a case whose cells cannot be packed. */
  method RunOriginals(ps: seq<Param>, cases: seq<Case>, original: Case -> Want) returns (r: Option<seq<Want>>)
    ensures r.None? <==> exists i :: 0 <= i < |cases| && !Packable(ps, cases[i])
    ensures r.Some? ==> r.value == Wants(cases, original)
  {
    var wants: seq<Want> := [];
    for i := 0 to |cases|
      invariant wants == Wants(cases, original)[..i]
      invariant forall j :: 0 <= j < i ==> Packable(ps, cases[j])
    {
      if !Packable(ps, cases[i]) { return None; }
      wants := wants + [original(cases[i])];
    }
    return Some(wants);
  }

  /** validate_function on a drawn round; positions before `k` are the judge's own scouts. */
  method ValidateFunction(ps: seq<Param>, cases: seq<Case>, k: nat, original: Case -> Want, runModel: seq<Wired> -> Reply)
    returns (r: Outcome)
    requires forall i :: 0 <= i < |cases| ==> WellTyped(ps, cases[i])
    ensures r.Raised? <==> DeclarationPasses(ps) && exists i :: 0 <= i < |cases| && !Packable(ps, cases[i])
    ensures r.Judged? ==> r.verdict == VerdictOf(ps, cases, k, Wants(cases, original), runModel)
  {
    if |ps| > MAX_ARITY { return Judged(Refused("arity")); }
    if IsVoid(ps) && !HasChannel(ps) { return Judged(Refused("spec")); }
    var ran := RunOriginals(ps, cases, original);
    if ran.None? { return Raised; }
    var v := JudgeRound(ps, cases, k, ran.value, runModel);
    return Judged(v);
  }

  /** The verdict once the original has run on every case. */
  method JudgeRound(ps: seq<Param>, cases: seq<Case>, k: nat, wants: seq<Want>, runModel: seq<Wired> -> Reply) returns (v: Verdict)
    requires DeclarationPasses(ps)
    requires |cases| == |wants| && forall i :: 0 <= i < |cases| ==> WellTyped(ps, cases[i])
    ensures v == VerdictOf(ps, cases, k, wants, runModel)
  {
    var floor := Floors(ps, cases, k, wants);
    if floor.Some? { return Refused(floor.value); }
    var reply := runModel(Sent(cases, wants));
    match reply
    case Stage(s) => return Refused(s);
    case Results(entries) =>
      if !LengthOk(entries, |Kept(wants)|) { return Refused("worker"); }
      v := CompareResults(cases, wants, entries, IsVoid(ps));
  }

  /** The floors that look at what the original did. */
  method Floors(ps: seq<Param>, cases: seq<Case>, k: nat, wants: seq<Want>) returns (r: Option<string>)
    requires DeclarationPasses(ps)
    requires |cases| == |wants| && forall i :: 0 <= i < |cases| ==> WellTyped(ps, cases[i])
    ensures r == FloorStage(ps, cases, k, wants)
  {
    var kept := Kept(wants);
    if kept == [] { return Some("skip-starvation"); }
    if exists i :: k <= i < |wants| && wants[i] == Faulted(true) { return Some("spec"); }
    VariedIff(ps, cases, wants, k);
    if |SerialisedFrom(cases, kept, k)| < 2 { return Some("spec"); }
    return None;
  }

  // ---------- what acceptance means ----------

  /** Acceptance of agreeing entries, or the report of the least one that does not agree, with its field. */
  ghost predicate Reports(v: Verdict, cases: seq<Case>, wants: seq<Want>, entries: seq<Entry>, isVoid: bool)
    requires |cases| == |wants| && |entries| <= |Kept(wants)|
  {
    var kept := Kept(wants);
    if forall j :: 0 <= j < |entries| ==> Agrees(wants[kept[j]], entries[j], isVoid)
    then v == Accepted(|entries|, |cases| - |kept|)
    else exists b: nat :: FirstBad(wants, entries, isVoid, b) &&
           v == Diverged(cases[kept[b]], FieldOf(wants[kept[b]], entries[b]), b + 1, |cases| - |kept|)
  }

  lemma {:induction false} CompareIs(cases: seq<Case>, wants: seq<Want>, entries: seq<Entry>, isVoid: bool, i: nat)
    requires |cases| == |wants| && i <= |entries| <= |Kept(wants)|
    requires forall j :: 0 <= j < i ==> Agrees(wants[Kept(wants)[j]], entries[j], isVoid)
    ensures Reports(Compare(cases, wants, entries, isVoid, i), cases, wants, entries, isVoid)
    decreases |entries| - i
  {
    if i < |entries| {
      if Agrees(wants[Kept(wants)[i]], entries[i], isVoid) {
        CompareIs(cases, wants, entries, isVoid, i + 1);
      } else {
        StopsAt(cases, wants, entries, isVoid, i);
      }
    }
  }

  lemma StopsAt(cases: seq<Case>, wants: seq<Want>, entries: seq<Entry>, isVoid: bool, i: nat)
    requires |cases| == |wants| && |entries| <= |Kept(wants)| && FirstBad(wants, entries, isVoid, i)
    ensures Reports(Compare(cases, wants, entries, isVoid, i), cases, wants, entries, isVoid)
  {
  }

  /** Every survivor is claimed, without a crash, to behave as the original did. */
  ghost predicate AllAgree(wants: seq<Want>, entries: seq<Entry>, isVoid: bool) {
    var kept := Kept(wants);
    |entries| == |kept| && forall i :: 0 <= i < |kept| ==> Agrees(wants[kept[i]], entries[i], isVoid)
  }

  /** For every claim: accepted if and only if the floors pass and the claim agrees on every survivor. */
  lemma AcceptedIff(ps: seq<Param>, cases: seq<Case>, k: nat, wants: seq<Want>, runModel: seq<Wired> -> Reply)
    requires |cases| == |wants|
    ensures var reply := runModel(Sent(cases, wants));
            VerdictOf(ps, cases, k, wants, runModel).Accepted? <==>
              FloorsPass(ps, cases, k, wants) && reply.Results? && AllAgree(wants, reply.entries, IsVoid(ps))
    ensures VerdictOf(ps, cases, k, wants, runModel).Accepted? ==>
              var v := VerdictOf(ps, cases, k, wants, runModel);
              v.compared + v.skipped == |cases| && v.compared == |Kept(wants)|
  {
    if FloorsPass(ps, cases, k, wants) && runModel(Sent(cases, wants)).Results? {
      var entries := runModel(Sent(cases, wants)).entries;
      if LengthOk(entries, |Kept(wants)|) {
        CompareAccepts(cases, wants, entries, IsVoid(ps));
      }
    }
  }

  lemma CompareAccepts(cases: seq<Case>, wants: seq<Want>, entries: seq<Entry>, isVoid: bool)
    requires |cases| == |wants| && LengthOk(entries, |Kept(wants)|)
    ensures var v := Compare(cases, wants, entries, isVoid, 0);
            (v.Accepted? <==> AllAgree(wants, entries, isVoid)) &&
            (v.Accepted? ==> v == Accepted(|Kept(wants)|, |cases| - |Kept(wants)|))
  {
    CompareIs(cases, wants, entries, isVoid, 0);
    if |entries| < |Kept(wants)| {
      assert !Agrees(wants[Kept(wants)[|entries| - 1]], entries[|entries| - 1], isVoid);
    }
  }

  // ---------- the claim ----------

  /** The kinds of the parameters whose memory is read back. */
  function MemKinds(ps: seq<Param>): (r: map<string, Kind>) {
    if ps == [] then map[]
    else
      var before := MemKinds(ps[..|ps| - 1]);
      var p := ps[|ps| - 1];
      if p.kind == I32 then before else before[p.name := p.kind]
  }

  /** A result object of exactly the expected shape, decoded. */
  function GotOf(j: Json, kinds: map<string, Kind>): (r: Option<Entry>)
    ensures r.Some? ==> r.value.Got?
  {
    if !j.JObj? || j.fields.Keys != {"ret", "mem"} || !j.fields["ret"].JInt? || !j.fields["mem"].JObj? then None
    else
      var mem := j.fields["mem"].fields;
      if mem.Keys != kinds.Keys || exists n :: n in kinds && UnwireValue(mem[n], kinds[n]).None? then None
      else Some(Got(j.fields["ret"].i, map n | n in kinds :: UnwireValue(mem[n], kinds[n]).value))
  }

  /** The worker's crash shapes; anything else is some other error. Python's True equals 1 and 1.0. */
  function CrashOf(j: Json): (c: Crash) {
    if j.JObj? && j.fields.Keys == {"timeout"} &&
       (j.fields["timeout"] == JBool(true) || j.fields["timeout"] == JInt(1) || j.fields["timeout"] == JReal(1.0))
    then Timeout
    else if j.JObj? && j.fields.Keys == {"signal"} && j.fields["signal"].JInt? then Signal(j.fields["signal"].i)
    else Error
  }

  function GotAll(js: seq<Json>, kinds: map<string, Kind>): (r: Option<seq<Entry>>)
    ensures r.Some? ==> |r.value| == |js| && forall i :: 0 <= i < |js| ==> GotOf(js[i], kinds) == Some(r.value[i])
    ensures r.None? ==> exists i :: 0 <= i < |js| && GotOf(js[i], kinds).None?
  {
    if js == [] then Some([])
    else
      match GotAll(js[..|js| - 1], kinds)
      case None => None
      case Some(es) =>
        match GotOf(js[|js| - 1], kinds)
        case None => None
        case Some(e) => Some(es + [e])
  }

  predicate IsCrashObject(j: Json) { j.JObj? && j.fields.Keys == {"crash"} }

  /** The worker's output as a claim about `n` cases. A short list must end in a crash. */
  function ClaimOf(out: Json, kinds: map<string, Kind>, n: nat): (r: Reply) {
    if !out.JObj? then Stage("worker")
    else if "stage" in out.fields then Stage("reported")
    else if "results" !in out.fields || !out.fields["results"].JArr? then Stage("worker")
    else
      var res := out.fields["results"].items;
      if !(0 < |res| <= n) then Stage("worker")
      else
        var body, last := res[..|res| - 1], res[|res| - 1];
        var lastEntry :=
          if IsCrashObject(last) then Some(Crashed(CrashOf(last.fields["crash"])))
          else if |res| < n then None
          else GotOf(last, kinds);
        match (GotAll(body, kinds), lastEntry)
        case (Some(es), Some(e)) => Results(es + [e])
        case _ => Stage("worker")
  }

  /** A claim that gets past the shape check has a length the comparison can trust. */
  lemma ClaimLength(out: Json, kinds: map<string, Kind>, n: nat)
    ensures ClaimOf(out, kinds, n).Results? ==> 0 < |ClaimOf(out, kinds, n).entries| && LengthOk(ClaimOf(out, kinds, n).entries, n)
  {
  }

  datatype JobResult = JobResult(failed: bool, output: Option<Json>)

  /** A worker round trip: a failed, timed-out or truncated job, or output that is not JSON, is a worker stage. */
  function JobModel(run: seq<Wired> -> JobResult, ps: seq<Param>): (r: seq<Wired> -> Reply) {
    (cases: seq<Wired>) =>
      var job := run(cases);
      if job.failed || job.output.None? then Stage("worker") else ClaimOf(job.output.value, MemKinds(ps), |cases|)
  }

  /** The output object claims a value for each of `n` cases. */
  ghost predicate ClaimsAll(out: Json, kinds: map<string, Kind>, n: nat) {
    && out.JObj? && "stage" !in out.fields && "results" in out.fields && out.fields["results"].JArr?
    && |out.fields["results"].items| == n
    && forall i :: 0 <= i < n ==> GotOf(out.fields["results"].items[i], kinds).Some?
  }

  lemma ClaimedValues(out: Json, kinds: map<string, Kind>, n: nat)
    requires ClaimOf(out, kinds, n).Results? && |ClaimOf(out, kinds, n).entries| == n
    requires forall i :: 0 <= i < n ==> ClaimOf(out, kinds, n).entries[i].Got?
    ensures ClaimsAll(out, kinds, n)
    ensures forall i :: 0 <= i < n ==> GotOf(out.fields["results"].items[i], kinds) == Some(ClaimOf(out, kinds, n).entries[i])
  {
    var res, es := out.fields["results"].items, ClaimOf(out, kinds, n).entries;
    assert es[n - 1].Got?;
    forall i | 0 <= i < n
      ensures GotOf(res[i], kinds) == Some(es[i])
    {
      if i < n - 1 { assert res[..n - 1][i] == res[i]; }
    }
  }

  /**
   What acceptance certifies, however the worker's output was forged: the job
   delivered one well-shaped value per survivor, each equal to the original's
   behaviour, over at least two different declared inputs, with no declared
   memory fault, a channel to compare, and every case of the round accounted for.
   */
  lemma AcceptanceIsEarned(ps: seq<Param>, cases: seq<Case>, k: nat, wants: seq<Want>, run: seq<Wired> -> JobResult)
    requires |cases| == |wants|
    requires VerdictOf(ps, cases, k, wants, JobModel(run, ps)).Accepted?
    ensures FloorsPass(ps, cases, k, wants)
    ensures var v := VerdictOf(ps, cases, k, wants, JobModel(run, ps)); v.compared + v.skipped == |cases|
    ensures var job := run(Sent(cases, wants));
            var kept := Kept(wants);
            && !job.failed && job.output.Some? && ClaimsAll(job.output.value, MemKinds(ps), |kept|)
            && forall i :: 0 <= i < |kept| ==>
                 Agrees(wants[kept[i]], GotOf(job.output.value.fields["results"].items[i], MemKinds(ps)).value, IsVoid(ps))
  {
    AcceptedIff(ps, cases, k, wants, JobModel(run, ps));
    ClaimedValues(run(Sent(cases, wants)).output.value, MemKinds(ps), |Kept(wants)|);
  }

  // ---------- the same in the declaration's and the wire's own terms ----------

  /** The parameters whose memory travels: the buffers and the strings, each with its kind. */
  lemma {:induction false} MemKindsIff(ps: seq<Param>, n: string)
    requires NamesDistinct(ps)
    ensures n in MemKinds(ps) <==> exists i :: 0 <= i < |ps| && ps[i].name == n && ps[i].kind != I32
    ensures forall i :: 0 <= i < |ps| && ps[i].name == n && ps[i].kind != I32 ==> n in MemKinds(ps) && MemKinds(ps)[n] == ps[i].kind
  {
    if ps != [] {
      var m := |ps| - 1;
      MemKindsIff(ps[..m], n);
      assert forall i :: 0 <= i < m ==> ps[..m][i] == ps[i];
      assert ps == ps[..m] + [ps[m]];
    }
  }

  /** The floors: six parameters at most, something to compare, no declared memory fault, two different declared survivors. */
  lemma FloorsMean(ps: seq<Param>, cases: seq<Case>, k: nat, wants: seq<Want>)
    requires |cases| == |wants|
    ensures FloorsPass(ps, cases, k, wants) <==>
              && |ps| <= 6
              && (ps != [] && ps[0].isVoid ==> exists i :: 0 <= i < |ps| && (ps[i].kind == BufferI32 || ps[i].kind == CString))
              && !(exists i :: k <= i < |wants| && wants[i].Faulted? && wants[i].memFault)
              && exists i, j :: k <= i < |cases| && k <= j < |cases| && wants[i].Returned? && wants[j].Returned? && cases[i] != cases[j]
  {
    if Varied(cases, wants, k) {
      var i, j :| k <= i < |cases| && k <= j < |cases| && wants[i].Returned? && wants[j].Returned? && cases[i] != cases[j];
      assert i in Kept(wants);
    }
    assert HasChannel(ps) <==> exists i :: 0 <= i < |ps| && (ps[i].kind == BufferI32 || ps[i].kind == CString);
    assert DeclaredFault(wants, k) <==> exists i :: k <= i < |wants| && wants[i].Faulted? && wants[i].memFault;
  }

  /** One result object says what the original did: the return value unless the function is void, and every buffer and string. */
  ghost predicate ResultSpells(j: Json, want: Want, ps: seq<Param>)
    requires want.Returned?
  {
    && j.JObj? && j.fields.Keys == {"ret", "mem"} && j.fields["ret"].JInt? && j.fields["mem"].JObj?
    && (ps == [] || !ps[0].isVoid ==> j.fields["ret"] == JInt(want.ret))
    && (forall n :: n in j.fields["mem"].fields <==> exists i :: 0 <= i < |ps| && ps[i].name == n && ps[i].kind != I32)
    && forall i :: 0 <= i < |ps| && ps[i].kind != I32 ==>
         && ps[i].name in j.fields["mem"].fields && ps[i].name in want.mem
         && UnwireValue(j.fields["mem"].fields[ps[i].name], ps[i].kind) == Some(want.mem[ps[i].name])
  }

  lemma AgreedSpells(j: Json, want: Want, ps: seq<Param>)
    requires want.Returned? && NamesDistinct(ps) && GotOf(j, MemKinds(ps)).Some?
    requires Agrees(want, GotOf(j, MemKinds(ps)).value, IsVoid(ps))
    ensures ResultSpells(j, want, ps)
  {
    var kinds, mem := MemKinds(ps), j.fields["mem"].fields;
    forall n
      ensures n in mem <==> exists i :: 0 <= i < |ps| && ps[i].name == n && ps[i].kind != I32
    {
      MemKindsIff(ps, n);
      assert n in mem <==> n in kinds;
    }
    forall i | 0 <= i < |ps| && ps[i].kind != I32
      ensures ps[i].name in mem && ps[i].name in want.mem && UnwireValue(mem[ps[i].name], ps[i].kind) == Some(want.mem[ps[i].name])
    {
      MemKindsIff(ps, ps[i].name);
      assert ps[i].name in kinds && kinds[ps[i].name] == ps[i].kind;
      assert UnwireValue(mem[ps[i].name], kinds[ps[i].name]).Some?;
    }
  }

  /** An accepted job printed, for each survivor in order, an object that says what the original did there. */
  lemma AcceptedSpells(ps: seq<Param>, cases: seq<Case>, k: nat, wants: seq<Want>, run: seq<Wired> -> JobResult, i: nat)
    requires |cases| == |wants| && NamesDistinct(ps) && VerdictOf(ps, cases, k, wants, JobModel(run, ps)).Accepted?
    requires i < |Kept(wants)|
    ensures var job := run(Sent(cases, wants));
            && job.output.Some? && job.output.value.JObj? && "results" in job.output.value.fields
            && job.output.value.fields["results"].JArr? && i < |job.output.value.fields["results"].items|
            && ResultSpells(job.output.value.fields["results"].items[i], wants[Kept(wants)[i]], ps)
  {
    AcceptanceIsEarned(ps, cases, k, wants, run);
    var job := run(Sent(cases, wants));
    AgreedSpells(job.output.value.fields["results"].items[i], wants[Kept(wants)[i]], ps);
  }

  /** The field a report names: crash, else memory when it differs, else the return value. */
  lemma FieldIs(want: Want, got: Entry, isVoid: bool)
    requires want.Returned? && !Agrees(want, got, isVoid)
    ensures FieldOf(want, got) == "crash" <==> got.Crashed?
    ensures FieldOf(want, got) == "mem" <==> got.Got? && got.mem != want.mem
    ensures FieldOf(want, got) == "ret" <==> got.Got? && got.mem == want.mem && got.ret != want.ret && !isVoid
  {
    assert |"crash"| == 5 && "mem"[0] == 'm' && "ret"[0] == 'r';
  }
}
