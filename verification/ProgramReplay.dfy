/**
 The program gate: nominated cases and a hidden suite are recorded on the host,
 the model is replayed in one contained job, and the job's untrusted output is
 judged against the recordings.
 */
module ProgramReplay {
  import opened Prelude
  import opened Canonical
  import opened Canonicalizer
  import opened Observation
  import opened HiddenInputs
  import opened Compare

  const MAX_CASES := 16
  const MAX_ARGS := 16
  const MAX_ARG := 256
  const MAX_STDIN := 4096

  // ---------- recording ----------

  /** What the original binary did on one run. */
  datatype Run = Run(stdout: string, stderr: string, exitCode: int, files: map<string, string>, events: seq<Event>)

  /** The recorder: the outcome of the first (false) and of the second (true) recording of an input. */
  type Recorder = (Input, bool) -> Run

  function Record(binary: string, record: Recorder, x: Input, again: bool): (t: Trace)
    ensures t.argv == [binary] + x.argv && t.stdinHex == Hex(x.stdin)
  {
    var r := record(x, again);
    Trace([binary] + x.argv, Hex(x.stdin), r.stdout, r.stderr, r.exitCode, r.files, r.events)
  }

  /** Ground truth, or nothing when two recordings differ after canonicalisation. */
  function RecordStable(binary: string, record: Recorder, x: Input): (r: Option<Trace>)
    ensures r.Some? ==> r.value.argv != [] && r.value.argv[1..] == x.argv && r.value.stdinHex == Hex(x.stdin)
  {
    var a := CanonTrace(Record(binary, record, x, false));
    if a == CanonTrace(Record(binary, record, x, true)) then Some(a) else None
  }

  lemma StableEchoes(binary: string, record: Recorder)
    ensures Echoes(x => RecordStable(binary, record, x), InputKey)
  {
  }

  // ---------- nominated cases ----------

  datatype Nomination = Nomination(argv: seq<string>, stdinHex: string)

  /** A nominated input whose stdin text decodes. */
  type Case = c: Nomination | FromHex(c.stdinHex).Some? witness Nomination([], "")

  predicate ArgOk(a: Json) {
    a.JStr? && |a.s| <= MAX_ARG && '\0' !in a.s
  }

  predicate CaseOk(c: Json) {
    && c.JObj? && c.fields.Keys == {"argv", "stdin_hex"}
    && c.fields["argv"].JArr? && |c.fields["argv"].items| <= MAX_ARGS
    && (forall i :: 0 <= i < |c.fields["argv"].items| ==> ArgOk(c.fields["argv"].items[i]))
    && c.fields["stdin_hex"].JStr? && |c.fields["stdin_hex"].s| <= 2 * MAX_STDIN
    && FromHex(c.fields["stdin_hex"].s).Some?
  }

  function Texts(items: seq<Json>): (r: seq<string>)
    requires forall i :: 0 <= i < |items| ==> items[i].JStr?
    ensures |r| == |items|
  {
    seq(|items|, i requires 0 <= i < |items| => items[i].s)
  }

  function CaseOf(c: Json): (r: Case)
    requires CaseOk(c)
  {
    Nomination(Texts(c.fields["argv"].items), c.fields["stdin_hex"].s)
  }

  /** The list is well-formed as a whole. */
  predicate CasesOk(raw: Option<Json>) {
    && raw.Some? && raw.value.JArr? && |raw.value.items| <= MAX_CASES
    && forall i :: 0 <= i < |raw.value.items| ==> CaseOk(raw.value.items[i])
  }

  function CaseList(items: seq<Json>): (r: seq<Case>)
    requires forall i :: 0 <= i < |items| ==> CaseOk(items[i])
    ensures |r| == |items|
  {
    seq(|items|, i requires 0 <= i < |items| => CaseOf(items[i]))
  }

  ghost predicate Listed(items: seq<Json>, n: nat, list: seq<Case>) {
    |list| == n <= |items| && forall j :: 0 <= j < n ==> CaseOk(items[j]) && list[j] == CaseOf(items[j])
  }

  lemma ListedStep(items: seq<Json>, n: nat, list: seq<Case>)
    requires n < |items| && Listed(items, n, list) && CaseOk(items[n])
    ensures Listed(items, n + 1, list + [CaseOf(items[n])])
  {
  }

  lemma ListedAll(items: seq<Json>, list: seq<Case>)
    requires Listed(items, |items|, list)
    ensures forall i :: 0 <= i < |items| ==> CaseOk(items[i])
    ensures list == CaseList(items)
  {
  }

  /** The nominated cases, deduplicated in order; None when any of them is malformed. */
  method ParseCases(raw: Option<Json>) returns (r: Option<seq<Case>>)
    ensures r.Some? <==> CasesOk(raw)
    ensures r.Some? ==> r.value == FirstSeen(CaseList(raw.value.items))
  {
    if raw.None? || !raw.value.JArr? || |raw.value.items| > MAX_CASES { return None; }
    var items := raw.value.items;
    var out: seq<Case> := [];
    ghost var list: seq<Case> := [];
    for i := 0 to |items|
      invariant Listed(items, i, list)
      invariant out == FirstSeen(list)
    {
      if !CaseOk(items[i]) { return None; }
      var c := CaseOf(items[i]);
      FirstSeenSnoc(list, c);
      ListedStep(items, i, list);
      list := list + [c];
      if c !in out {
        out := out + [c];
      }
    }
    ListedAll(items, list);
    return Some(out);
  }

  // ---------- the job's untrusted output ----------

  predicate IsHexText(fields: map<string, Json>, key: string) {
    key in fields && fields[key].JStr? && FromHex(fields[key].s).Some?
  }

  predicate EventOk(e: Json) {
    && e.JObj?
    && "sc" in e.fields && e.fields["sc"].JStr?
    && "phase" in e.fields && e.fields["phase"].JStr?
    && "args" in e.fields && e.fields["args"].JArr?
    && forall i :: 0 <= i < |e.fields["args"].items| ==> e.fields["args"].items[i].JStr?
  }

  /** The shape the comparison relies on. */
  predicate TraceOk(t: Json) {
    && t.JObj?
    && IsHexText(t.fields, "stdout") && IsHexText(t.fields, "stderr")
    && "exit_code" in t.fields && t.fields["exit_code"].JInt?
    && "files_written" in t.fields && t.fields["files_written"].JObj?
    && (forall k :: k in t.fields["files_written"].fields ==> t.fields["files_written"].fields[k].JStr?)
    && "events" in t.fields && t.fields["events"].JArr?
    && forall i :: 0 <= i < |t.fields["events"].items| ==> EventOk(t.fields["events"].items[i])
  }

  function EventOf(e: Json): (r: Event)
    requires EventOk(e)
  {
    Event(e.fields["sc"].s, e.fields["phase"].s, Texts(e.fields["args"].items), e.fields - {"sc", "phase", "args"})
  }

  function ClaimOf(t: Json): (c: Claim)
    requires TraceOk(t)
  {
    var files := t.fields["files_written"].fields;
    var events := t.fields["events"].items;
    Claim(t.fields["stdout"].s, t.fields["stderr"].s, t.fields["exit_code"].i,
          map k | k in files :: files[k].s,
          seq(|events|, i requires 0 <= i < |events| => EventOf(events[i])))
  }

  function Claims(lines: seq<Json>): (r: seq<Claim>)
    requires forall i :: 0 <= i < |lines| ==> TraceOk(lines[i])
    ensures |r| == |lines|
    ensures forall i :: 0 <= i < |lines| ==> r[i] == ClaimOf(lines[i])
  {
    seq(|lines|, i requires 0 <= i < |lines| => ClaimOf(lines[i]))
  }

  // ---------- the check ----------

  datatype Model = Missing | NotUtf8 | Source(text: string)

  /** The candidate's files; `cases` is None when absent and Some(None) when not JSON. */
  datatype Candidate = Malformed | Files(model: Model, hasParams: bool, cases: Option<Option<Json>>)

  /** What came back from the job; `lines` is None when some line was not JSON. */
  datatype Job = Job(timedOut: bool, truncated: bool, returncode: int, lines: Option<seq<Json>>)

  datatype Reason =
    | BadCandidate | BadCases | FlakyCase
    | ReplayTimeout | ReplayOutput | CompileError | ReplayFault
    | HiddenStarvation | Differs(divergence: Divergence)

  datatype Stage = CandidateStage | RecordedStage | ReplayStage | CompileStage | HiddenStage

  datatype Decision =
    | Passed(recordedCases: nat, hiddenCases: nat)
    | Rejected(reason: Reason, stage: Stage)

  function RawCases(candidate: Candidate): (r: Option<Json>)
    requires candidate.Files?
  {
    match candidate.cases
    case None => Some(JArr([]))
    case Some(raw) => raw
  }

  /** Ground truth of every nominated case, None when one is not stable. */
  function Truths(truth: Truth, cases: seq<Case>): (r: Option<seq<Trace>>)
  {
    if cases == [] then Some([])
    else
      var n := |cases| - 1;
      match Truths(truth, cases[..n])
      case None => None
      case Some(before) =>
        match truth(Input(cases[n].argv, FromHex(cases[n].stdinHex).value))
        case None => None
        case Some(t) => Some(before + [t])
  }

  function Replayed(ts: seq<Trace>): (r: seq<Key>) {
    seq(|ts|, i requires 0 <= i < |ts| => KeyOf(ts[i]))
  }

  ghost predicate WellFormedJob(job: Job, n: nat) {
    && !job.timedOut && !job.truncated && job.returncode == 0
    && job.lines.Some? && |job.lines.value| == n
    && forall i :: 0 <= i < n ==> TraceOk(job.lines.value[i])
  }

  ghost predicate CandidateOk(candidate: Candidate) {
    candidate.Files? && candidate.model.Source? && !candidate.hasParams && CasesOk(RawCases(candidate))
  }

  ghost function Nominated(candidate: Candidate): (r: seq<Case>)
    requires CandidateOk(candidate)
  {
    FirstSeen(CaseList(RawCases(candidate).value.items))
  }

  ghost predicate AllAgree(ts: seq<Trace>, claims: seq<Claim>) {
    |ts| == |claims| && forall i :: 0 <= i < |ts| ==> Agrees(ts[i], claims[i])
  }

  /** Everything that must hold of a submission for it to pass. */
  ghost predicate Acceptable(candidate: Candidate, truth: Truth, draws: nat -> Input, runJob: seq<Key> -> Job) {
    && CandidateOk(candidate)
    && Truths(truth, Nominated(candidate)).Some?
    && var rec := Truths(truth, Nominated(candidate)).value;
       var hidden := HiddenSuite(truth, draws, rec);
       var all := rec + hidden;
       var job := runJob(Replayed(all));
       && |hidden| == HIDDEN_N
       && WellFormedJob(job, |all|)
       && AllAgree(all, Claims(job.lines.value))
  }

  method RecordNominated(truth: Truth, cases: seq<Case>) returns (r: Option<seq<Trace>>)
    ensures r == Truths(truth, cases)
  {
    var rec: seq<Trace> := [];
    for i := 0 to |cases|
      invariant Truths(truth, cases[..i]) == Some(rec)
    {
      assert cases[..i + 1][..i] == cases[..i];
      var t := truth(Input(cases[i].argv, FromHex(cases[i].stdinHex).value));
      if t.None? {
        TruthsStop(truth, cases, i + 1);
        return None;
      }
      rec := rec + [t.value];
    }
    assert cases[..|cases|] == cases;
    return Some(rec);
  }

  lemma {:induction false} TruthsStop(truth: Truth, cases: seq<Case>, i: nat)
    requires i <= |cases| && Truths(truth, cases[..i]).None?
    ensures Truths(truth, cases).None?
  {
    if i == |cases| {
      assert cases[..i] == cases;
    } else {
      assert cases[..|cases| - 1][..i] == cases[..i];
      TruthsStop(truth, cases[..|cases| - 1], i);
    }
  }

  /** The report describes the least diverging case and says whether it was nominated or hidden. */
  ghost predicate NamesLeast(d: Divergence, stage: Stage, rec: seq<Trace>, hidden: seq<Trace>, claims: seq<Claim>) {
    exists k: nat ::
      && LeastDivergence(rec + hidden, claims, k)
      && Describes(d, (rec + hidden)[k], claims[k])
      && stage == if k < |rec| then RecordedStage else HiddenStage
  }

  ghost predicate RecordedHold(rec: seq<Trace>, claims: seq<Claim>)
    requires |rec| <= |claims|
  {
    forall i :: 0 <= i < |rec| ==> Agrees(rec[i], claims[i])
  }

  /** Each outcome of judging well-formed claims, and exactly when it is reached. */
  ghost predicate Explains(d: Decision, rec: seq<Trace>, hidden: seq<Trace>, claims: seq<Claim>)
    requires |claims| == |rec| + |hidden|
  {
    && (d.Passed? <==> |hidden| == HIDDEN_N && AllAgree(rec + hidden, claims))
    && (d.Passed? ==> d == Passed(|rec|, HIDDEN_N))
    && (d == Rejected(HiddenStarvation, HiddenStage) <==> RecordedHold(rec, claims) && |hidden| < HIDDEN_N)
    && (d.Rejected? ==> d == Rejected(HiddenStarvation, HiddenStage) ||
                        (d.reason.Differs? && NamesLeast(d.reason.divergence, d.stage, rec, hidden, claims)))
  }

  /** Judging well-formed claims, nominated cases first. */
  method JudgeClaims(rec: seq<Trace>, hidden: seq<Trace>, claims: seq<Claim>) returns (d: Decision)
    requires |hidden| <= HIDDEN_N && |claims| == |rec| + |hidden|
    ensures Explains(d, rec, hidden, claims)
  {
    var v := CompareAll(rec, claims[..|rec|]);
    if v.Diverged? {
      ghost var k: nat :| LeastDivergence(rec, claims[..|rec|], k) && Describes(v.divergence, rec[k], claims[..|rec|][k]);
      RecordedLeast(rec, hidden, claims, k);
      return Rejected(Differs(v.divergence), RecordedStage);
    }
    RecordedAgree(rec, claims);
    if |hidden| < HIDDEN_N { return Rejected(HiddenStarvation, HiddenStage); }
    v := CompareAll(hidden, claims[|rec|..]);
    if v.Diverged? {
      ghost var k: nat :| LeastDivergence(hidden, claims[|rec|..], k) && Describes(v.divergence, hidden[k], claims[|rec|..][k]);
      HiddenLeast(rec, hidden, claims, k);
      return Rejected(Differs(v.divergence), HiddenStage);
    }
    BothAgree(rec, hidden, claims);
    return Passed(|rec|, HIDDEN_N);
  }

  lemma RecordedLeast(rec: seq<Trace>, hidden: seq<Trace>, claims: seq<Claim>, k: nat)
    requires |claims| == |rec| + |hidden| && LeastDivergence(rec, claims[..|rec|], k)
    ensures LeastDivergence(rec + hidden, claims, k)
    ensures (rec + hidden)[k] == rec[k] && claims[k] == claims[..|rec|][k]
    ensures !AllAgree(rec + hidden, claims)
  {
    assert forall i :: 0 <= i < |rec| ==> (rec + hidden)[i] == rec[i] && claims[i] == claims[..|rec|][i];
  }

  lemma RecordedAgree(rec: seq<Trace>, claims: seq<Claim>)
    requires |rec| <= |claims|
    requires forall i :: 0 <= i < |rec| && i < |claims[..|rec|]| ==> Agrees(rec[i], claims[..|rec|][i])
    ensures forall i :: 0 <= i < |rec| ==> Agrees(rec[i], claims[i])
  {
    assert forall i :: 0 <= i < |rec| ==> claims[i] == claims[..|rec|][i];
  }

  lemma BothAgree(rec: seq<Trace>, hidden: seq<Trace>, claims: seq<Claim>)
    requires |claims| == |rec| + |hidden|
    requires forall i :: 0 <= i < |rec| ==> Agrees(rec[i], claims[i])
    requires forall i :: 0 <= i < |hidden| && i < |claims[|rec|..]| ==> Agrees(hidden[i], claims[|rec|..][i])
    ensures AllAgree(rec + hidden, claims)
  {
    forall i | 0 <= i < |rec + hidden|
      ensures Agrees((rec + hidden)[i], claims[i])
    {
      if |rec| <= i {
        assert (rec + hidden)[i] == hidden[i - |rec|] && claims[i] == claims[|rec|..][i - |rec|];
      }
    }
  }

  /** The job ran to an end and its first line is a compiler's complaint and nothing else. */
  predicate CompileReport(job: Job) {
    && job.returncode == 0 && job.lines.Some? && job.lines.value != []
    && job.lines.value[0].JObj? && job.lines.value[0].fields.Keys == {"compile"}
  }

  lemma CompileIsNoTrace(job: Job, n: nat)
    requires CompileReport(job)
    ensures !WellFormedJob(job, n)
  {
    assert "stdout" !in job.lines.value[0].fields;
    assert !TraceOk(job.lines.value[0]);
  }

  /** The outcome for every job: what it says about the job itself, or else about the claims it made. */
  ghost predicate Settles(d: Decision, rec: seq<Trace>, hidden: seq<Trace>, job: Job) {
    if job.timedOut then d == Rejected(ReplayTimeout, ReplayStage)
    else if job.truncated then d == Rejected(ReplayOutput, ReplayStage)
    else if CompileReport(job) then d == Rejected(CompileError, CompileStage)
    else if !WellFormedJob(job, |rec| + |hidden|) then d == Rejected(ReplayFault, ReplayStage)
    else Explains(d, rec, hidden, Claims(job.lines.value))
  }

  /** Judging whatever the job returned. */
  method Judge(rec: seq<Trace>, hidden: seq<Trace>, job: Job) returns (d: Decision)
    requires |hidden| <= HIDDEN_N
    ensures Settles(d, rec, hidden, job)
    ensures d.Passed? <==>
              && |hidden| == HIDDEN_N && WellFormedJob(job, |rec| + |hidden|)
              && AllAgree(rec + hidden, Claims(job.lines.value))
  {
    if job.timedOut { return Rejected(ReplayTimeout, ReplayStage); }
    if job.truncated { return Rejected(ReplayOutput, ReplayStage); }
    if CompileReport(job) {
      CompileIsNoTrace(job, |rec| + |hidden|);
      return Rejected(CompileError, CompileStage);
    }
    if job.returncode != 0 || job.lines.None? || |job.lines.value| != |rec| + |hidden| ||
       !(forall i :: 0 <= i < |job.lines.value| ==> TraceOk(job.lines.value[i]))
    {
      return Rejected(ReplayFault, ReplayStage);
    }
    d := JudgeClaims(rec, hidden, Claims(job.lines.value));
  }

  lemma HiddenLeast(rec: seq<Trace>, hidden: seq<Trace>, claims: seq<Claim>, k: nat)
    requires |claims| == |rec| + |hidden|
    requires forall i :: 0 <= i < |rec| ==> Agrees(rec[i], claims[i])
    requires LeastDivergence(hidden, claims[|rec|..], k)
    ensures LeastDivergence(rec + hidden, claims, |rec| + k)
    ensures (rec + hidden)[|rec| + k] == hidden[k] && claims[|rec| + k] == claims[|rec|..][k]
    ensures !AllAgree(rec + hidden, claims)
  {
    var all := rec + hidden;
    assert claims[|rec|..][k] == claims[|rec| + k];
    forall i | 0 <= i < |rec| + k
      ensures Agrees(all[i], claims[i])
    {
      if |rec| <= i {
        assert all[i] == hidden[i - |rec|] && claims[i] == claims[|rec|..][i - |rec|];
      }
    }
  }

  /** Why a submission was rejected before or after its job ran. */
  ghost predicate Accounts(d: Decision, candidate: Candidate, truth: Truth, draws: nat -> Input, runJob: seq<Key> -> Job) {
    if candidate.Malformed? || !candidate.model.Source? || candidate.hasParams then d == Rejected(BadCandidate, CandidateStage)
    else if !CasesOk(RawCases(candidate)) then d == Rejected(BadCases, CandidateStage)
    else if Truths(truth, Nominated(candidate)).None? then d == Rejected(FlakyCase, RecordedStage)
    else
      var rec := Truths(truth, Nominated(candidate)).value;
      var hidden := HiddenSuite(truth, draws, rec);
      Settles(d, rec, hidden, runJob(Replayed(rec + hidden)))
  }

  /** The whole gate: it passes exactly the acceptable submissions, whatever the job printed. */
  method Check(candidate: Candidate, binary: string, record: Recorder, draws: nat -> Input, runJob: seq<Key> -> Job)
    returns (d: Decision)
    ensures d.Passed? <==> Acceptable(candidate, x => RecordStable(binary, record, x), draws, runJob)
    ensures Accounts(d, candidate, x => RecordStable(binary, record, x), draws, runJob)
  {
    var truth: Truth := x => RecordStable(binary, record, x);
    if candidate.Malformed? || !candidate.model.Source? || candidate.hasParams {
      return Rejected(BadCandidate, CandidateStage);
    }
    var cases := ParseCases(RawCases(candidate));
    if cases.None? { return Rejected(BadCases, CandidateStage); }
    assert cases.value == Nominated(candidate);
    var rec := RecordNominated(truth, cases.value);
    if rec.None? { return Rejected(FlakyCase, RecordedStage); }
    var hidden := DrawHidden(truth, draws, rec.value);
    d := Judge(rec.value, hidden, runJob(Replayed(rec.value + hidden)));
  }

  /** What a pass rests on: eight hidden inputs, pairwise distinct and disjoint from the nominated ones. */
  lemma PassMeansFreshEvidence(candidate: Candidate, binary: string, record: Recorder, draws: nat -> Input, runJob: seq<Key> -> Job)
    requires Acceptable(candidate, x => RecordStable(binary, record, x), draws, runJob)
    ensures var truth: Truth := x => RecordStable(binary, record, x);
            var rec := Truths(truth, Nominated(candidate)).value;
            var hidden := HiddenSuite(truth, draws, rec);
            && |hidden| == HIDDEN_N && DistinctKeys(hidden)
            && forall i :: 0 <= i < |hidden| ==> KeyOf(hidden[i]) !in KnownKeys(rec)
  {
    var truth: Truth := x => RecordStable(binary, record, x);
    StableEchoes(binary, record);
    HiddenSuiteIsFresh(truth, draws, Truths(truth, Nominated(candidate)).value);
  }
}
