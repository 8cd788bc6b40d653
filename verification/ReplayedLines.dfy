/**
 The program gate read off the job's own lines: what a passing job must have
 printed, field by field, and what an honest job is judged by.
 */
module ReplayedLines {
  import opened Prelude
  import opened Canonical
  import opened Canonicalizer
  import opened AlphaEquivalence
  import opened Observation
  import opened HiddenInputs
  import opened Compare
  import opened ProgramReplay

  // ---------- events that count ----------

  predicate Counts(sc: string) { sc == "write" || sc == "writev" || sc == "exit_group" }

  function Counted(evs: seq<Event>): (r: seq<Event>) {
    if evs == [] then [] else if Counts(evs[0].sc) then [evs[0]] + Counted(evs[1..]) else Counted(evs[1..])
  }

  predicate LineCounts(j: Json) { j.JObj? && "sc" in j.fields && j.fields["sc"].JStr? && Counts(j.fields["sc"].s) }

  function CountedLines(items: seq<Json>): (r: seq<Json>) {
    if items == [] then [] else if LineCounts(items[0]) then [items[0]] + CountedLines(items[1..]) else CountedLines(items[1..])
  }

  /** Equal, or both address ordinals. */
  ghost predicate SameArg(x: string, y: string) { x == y || (StartsWith(x, "ADDR_") && StartsWith(y, "ADDR_")) }

  ghost predicate SameArgs(xs: seq<string>, ys: seq<string>) {
    |xs| == |ys| && forall k :: 0 <= k < |xs| ==> SameArg(xs[k], ys[k])
  }

  /** The object spells the event: syscall, phase, arguments up to address ordinals, and every other key. */
  ghost predicate EventSpelled(j: Json, e: Event) {
    && j.JObj?
    && "sc" in j.fields && j.fields["sc"] == JStr(e.sc)
    && "phase" in j.fields && j.fields["phase"] == JStr(e.phase)
    && "args" in j.fields && j.fields["args"].JArr? && |j.fields["args"].items| == |e.args|
    && (forall k :: 0 <= k < |e.args| ==> j.fields["args"].items[k].JStr? && SameArg(j.fields["args"].items[k].s, e.args[k]))
    && j.fields - {"sc", "phase", "args"} == e.rest
  }

  ghost predicate EventsSpelled(items: seq<Json>, evs: seq<Event>) {
    |CountedLines(items)| == |Counted(evs)| &&
    forall i :: 0 <= i < |Counted(evs)| ==> EventSpelled(CountedLines(items)[i], Counted(evs)[i])
  }

  ghost predicate FilesSpelled(j: Json, files: map<string, string>) {
    j.JObj? && j.fields.Keys == files.Keys && forall k :: k in files ==> j.fields[k] == JStr(files[k])
  }

  /** The line says of its case exactly what the recording says, as far as the judge looks. */
  ghost predicate LineSpells(line: Json, t: Trace) {
    && line.JObj?
    && "stdout" in line.fields && line.fields["stdout"] == JStr(t.stdout)
    && "stderr" in line.fields && line.fields["stderr"] == JStr(t.stderr)
    && "exit_code" in line.fields && line.fields["exit_code"] == JInt(t.exitCode)
    && "files_written" in line.fields && FilesSpelled(line.fields["files_written"], t.files)
    && "events" in line.fields && line.fields["events"].JArr? && EventsSpelled(line.fields["events"].items, t.events)
  }

  // ---------- the judge's projection, argument by argument ----------

  lemma WildArgIff(x: string, y: string)
    ensures WildArg(x) == WildArg(y) <==> SameArg(x, y)
  {
    assert "ADDR_*"[..5] == "ADDR_";
  }

  lemma WildArgsIff(xs: seq<string>, ys: seq<string>)
    ensures WildArgs(xs) == WildArgs(ys) <==> SameArgs(xs, ys)
  {
    var a, b := WildArgs(xs), WildArgs(ys);
    forall k | 0 <= k < |xs| && k < |ys|
      ensures a[k] == b[k] <==> SameArg(xs[k], ys[k])
    {
      WildArgIff(xs[k], ys[k]);
    }
    if SameArgs(xs, ys) {
      assert a == b;
    }
  }

  lemma WildIff(d: Event, e: Event)
    ensures Wild(d) == Wild(e) <==> d.sc == e.sc && d.phase == e.phase && d.rest == e.rest && SameArgs(d.args, e.args)
  {
    WildArgsIff(d.args, e.args);
  }

  lemma SpelledIff(j: Json, e: Event)
    requires EventOk(j)
    ensures Wild(EventOf(j)) == Wild(e) <==> EventSpelled(j, e)
  {
    WildIff(EventOf(j), e);
    var items := j.fields["args"].items;
    assert forall k :: 0 <= k < |items| ==> Texts(items)[k] == items[k].s;
  }

  // ---------- the projection of a whole stream ----------

  lemma {:induction false} ObsAreCounted(evs: seq<Event>)
    ensures |ObsEvents(evs)| == |Counted(evs)|
    ensures forall i :: 0 <= i < |Counted(evs)| ==> ObsEvents(evs)[i] == Wild(Counted(evs)[i])
  {
    if evs != [] {
      ObsAreCounted(evs[1..]);
    }
  }

  function EventsOf(items: seq<Json>): (r: seq<Event>)
    requires forall i :: 0 <= i < |items| ==> EventOk(items[i])
    ensures |r| == |items| && forall i :: 0 <= i < |items| ==> r[i] == EventOf(items[i])
  {
    seq(|items|, i requires 0 <= i < |items| => EventOf(items[i]))
  }

  lemma {:induction false} LinesAreCounted(items: seq<Json>)
    requires forall i :: 0 <= i < |items| ==> EventOk(items[i])
    ensures |ObsEvents(EventsOf(items))| == |CountedLines(items)|
    ensures forall i :: 0 <= i < |CountedLines(items)| ==>
              EventOk(CountedLines(items)[i]) && ObsEvents(EventsOf(items))[i] == Wild(EventOf(CountedLines(items)[i]))
  {
    if items != [] {
      LinesAreCounted(items[1..]);
      assert EventsOf(items)[1..] == EventsOf(items[1..]);
      assert EventsOf(items)[0] == EventOf(items[0]);
    }
  }

  lemma StreamsIff(items: seq<Json>, evs: seq<Event>)
    requires forall i :: 0 <= i < |items| ==> EventOk(items[i])
    ensures ObsEvents(EventsOf(items)) == ObsEvents(evs) <==> EventsSpelled(items, evs)
  {
    LinesAreCounted(items);
    ObsAreCounted(evs);
    var a, b := CountedLines(items), Counted(evs);
    forall i | 0 <= i < |a| && i < |b|
      ensures ObsEvents(EventsOf(items))[i] == ObsEvents(evs)[i] <==> EventSpelled(a[i], b[i])
    {
      SpelledIff(a[i], b[i]);
    }
    if EventsSpelled(items, evs) {
      assert ObsEvents(EventsOf(items)) == ObsEvents(evs);
    }
  }

  lemma FilesIff(fields: map<string, Json>, files: map<string, string>)
    requires forall k :: k in fields ==> fields[k].JStr?
    ensures (map k | k in fields :: fields[k].s) == files <==> FilesSpelled(JObj(fields), files)
  {
    var claimed := map k | k in fields :: fields[k].s;
    assert claimed.Keys == fields.Keys;
    if FilesSpelled(JObj(fields), files) {
      assert claimed == files;
    }
    if claimed == files {
      assert forall k :: k in files ==> fields[k] == JStr(files[k]);
    }
  }

  /** A well-formed line agrees with a recording if and only if it spells it. */
  lemma LineIff(line: Json, t: Trace)
    requires TraceOk(line)
    ensures Agrees(t, ClaimOf(line)) <==> LineSpells(line, t)
  {
    var items := line.fields["events"].items;
    StreamsIff(items, t.events);
    assert ClaimOf(line).events == EventsOf(items);
    FilesIff(line.fields["files_written"].fields, t.files);
  }

  // ---------- what a pass means on the wire ----------

  /** Everything up to the job: a well-formed candidate, stable nominations, a full hidden suite. */
  ghost predicate Prepared(candidate: Candidate, truth: Truth, draws: nat -> Input) {
    && CandidateOk(candidate)
    && Truths(truth, Nominated(candidate)).Some?
    && |HiddenSuite(truth, draws, Truths(truth, Nominated(candidate)).value)| == 8
  }

  /** The cases a submission is judged on: the nominated ones, then the hidden ones. */
  ghost function Judged(candidate: Candidate, truth: Truth, draws: nat -> Input): (all: seq<Trace>)
    requires Prepared(candidate, truth, draws)
  {
    var rec := Truths(truth, Nominated(candidate)).value;
    rec + HiddenSuite(truth, draws, rec)
  }

  ghost predicate JobSpells(job: Job, all: seq<Trace>) {
    && !job.timedOut && !job.truncated && job.returncode == 0
    && job.lines.Some? && |job.lines.value| == |all|
    && forall i :: 0 <= i < |all| ==> TraceOk(job.lines.value[i]) && LineSpells(job.lines.value[i], all[i])
  }

  /** For every job: a prepared submission is acceptable if and only if each line is well-formed and spells its recording. */
  lemma AcceptableIff(candidate: Candidate, truth: Truth, draws: nat -> Input, runJob: seq<Key> -> Job)
    ensures Acceptable(candidate, truth, draws, runJob) <==>
              Prepared(candidate, truth, draws) &&
              JobSpells(runJob(Replayed(Judged(candidate, truth, draws))), Judged(candidate, truth, draws))
  {
    if Prepared(candidate, truth, draws) {
      var all := Judged(candidate, truth, draws);
      var job := runJob(Replayed(all));
      if WellFormedJob(job, |all|) {
        forall i | 0 <= i < |all|
          ensures Agrees(all[i], Claims(job.lines.value)[i]) <==> LineSpells(job.lines.value[i], all[i])
        {
          LineIff(job.lines.value[i], all[i]);
        }
      }
    }
  }

  // ---------- an honest job ----------

  function Strings(xs: seq<string>): (r: seq<Json>)
    ensures |r| == |xs| && forall i :: 0 <= i < |xs| ==> r[i] == JStr(xs[i])
  {
    seq(|xs|, i requires 0 <= i < |xs| => JStr(xs[i]))
  }

  function EventJson(e: Event): (j: Json) {
    JObj(e.rest + map["sc" := JStr(e.sc), "phase" := JStr(e.phase), "args" := JArr(Strings(e.args))])
  }

  function EventsJson(evs: seq<Event>): (r: seq<Json>)
    ensures |r| == |evs| && forall i :: 0 <= i < |evs| ==> r[i] == EventJson(evs[i])
  {
    seq(|evs|, i requires 0 <= i < |evs| => EventJson(evs[i]))
  }

  /** A canonical trace as the job prints it. */
  function TraceJson(t: Trace): (j: Json) {
    JObj(map["argv" := JArr(Strings(t.argv)), "stdin_hex" := JStr(t.stdinHex),
             "stdout" := JStr(t.stdout), "stderr" := JStr(t.stderr), "exit_code" := JInt(t.exitCode),
             "files_written" := JObj(map k | k in t.files :: JStr(t.files[k])),
             "events" := JArr(EventsJson(t.events))])
  }

  /** Output channels are hex text, and an event's own keys are kept apart from the rest. */
  ghost predicate Printable(t: Trace) {
    && FromHex(t.stdout).Some? && FromHex(t.stderr).Some?
    && forall i :: 0 <= i < |t.events| ==> KeysApart(t.events[i])
  }

  ghost predicate KeysApart(e: Event) { "sc" !in e.rest && "phase" !in e.rest && "args" !in e.rest }

  /** The job that replays a model and prints what it did on each input it was sent. */
  function HonestJob(model: Key -> Trace): (run: seq<Key> -> Job) {
    (keys: seq<Key>) => Job(false, false, 0, Some(seq(|keys|, i requires 0 <= i < |keys| => TraceJson(model(keys[i])))))
  }

  /** The model did what was recorded, as far as the judge looks. */
  ghost predicate Reproduces(u: Trace, t: Trace) {
    && u.stdout == t.stdout && u.stderr == t.stderr && u.exitCode == t.exitCode && u.files == t.files
    && |Counted(u.events)| == |Counted(t.events)|
    && forall i :: 0 <= i < |Counted(t.events)| ==>
         var d, e := Counted(u.events)[i], Counted(t.events)[i];
         d.sc == e.sc && d.phase == e.phase && d.rest == e.rest && SameArgs(d.args, e.args)
  }

  lemma EventJsonReads(e: Event)
    requires KeysApart(e)
    ensures EventOk(EventJson(e)) && EventOf(EventJson(e)) == e
  {
    var f := EventJson(e).fields;
    assert f["sc"] == JStr(e.sc) && f["phase"] == JStr(e.phase) && f["args"] == JArr(Strings(e.args));
    assert Texts(Strings(e.args)) == e.args;
    assert f - {"sc", "phase", "args"} == e.rest;
  }

  lemma TraceFields(t: Trace)
    ensures var f := TraceJson(t).fields;
            && "stdout" in f && f["stdout"] == JStr(t.stdout) && "stderr" in f && f["stderr"] == JStr(t.stderr)
            && "exit_code" in f && f["exit_code"] == JInt(t.exitCode)
            && "files_written" in f && f["files_written"] == JObj(map k | k in t.files :: JStr(t.files[k]))
            && "events" in f && f["events"] == JArr(EventsJson(t.events))
  {
  }

  lemma TraceJsonReads(t: Trace)
    requires Printable(t)
    ensures TraceOk(TraceJson(t))
    ensures ClaimOf(TraceJson(t)) == Claim(t.stdout, t.stderr, t.exitCode, t.files, t.events)
  {
    var f, js := TraceJson(t).fields, EventsJson(t.events);
    TraceFields(t);
    forall i | 0 <= i < |js|
      ensures EventOk(js[i]) && EventOf(js[i]) == t.events[i]
    {
      EventJsonReads(t.events[i]);
    }
    assert ClaimOf(TraceJson(t)).files == t.files;
    assert ClaimOf(TraceJson(t)).events == t.events;
  }

  lemma ReproducesIff(u: Trace, t: Trace)
    ensures Agrees(t, Claim(u.stdout, u.stderr, u.exitCode, u.files, u.events)) <==> Reproduces(u, t)
  {
    ObsAreCounted(u.events);
    ObsAreCounted(t.events);
    forall i | 0 <= i < |Counted(u.events)| && i < |Counted(t.events)|
      ensures ObsEvents(u.events)[i] == ObsEvents(t.events)[i] <==>
                var d, e := Counted(u.events)[i], Counted(t.events)[i];
                d.sc == e.sc && d.phase == e.phase && d.rest == e.rest && SameArgs(d.args, e.args)
    {
      WildIff(Counted(u.events)[i], Counted(t.events)[i]);
    }
    if Reproduces(u, t) {
      assert ObsEvents(u.events) == ObsEvents(t.events);
    }
  }

  /**
   An honest job on a prepared submission passes if and only if the model, run on
   the very inputs of the nominated and hidden cases, reproduces each recording.
   */
  lemma HonestPassIff(candidate: Candidate, truth: Truth, draws: nat -> Input, model: Key -> Trace)
    requires Prepared(candidate, truth, draws) && forall k :: Printable(model(k))
    ensures Acceptable(candidate, truth, draws, HonestJob(model)) <==>
              forall i :: 0 <= i < |Judged(candidate, truth, draws)| ==>
                var t := Judged(candidate, truth, draws)[i]; Reproduces(model((Tail(t.argv), t.stdinHex)), t)
  {
    var all := Judged(candidate, truth, draws);
    var job := HonestJob(model)(Replayed(all));
    var lines := job.lines.value;
    forall i | 0 <= i < |all|
      ensures TraceOk(lines[i])
      ensures LineSpells(lines[i], all[i]) <==> Reproduces(model((Tail(all[i].argv), all[i].stdinHex)), all[i])
    {
      var u := model((Tail(all[i].argv), all[i].stdinHex));
      assert lines[i] == TraceJson(u);
      TraceJsonReads(u);
      LineIff(lines[i], all[i]);
      ReproducesIff(u, all[i]);
    }
    AcceptableIff(candidate, truth, draws, HonestJob(model));
  }

  // ---------- the ground truth itself ----------

  /** Two recordings are stable exactly when they agree on every channel and on the canonical events; the truth is then the first. */
  lemma StableIff(binary: string, record: Recorder, x: Input)
    ensures var a, b, r := record(x, false), record(x, true), RecordStable(binary, record, x);
            && (r.Some? <==>
                  && a.stdout == b.stdout && a.stderr == b.stderr && a.exitCode == b.exitCode && a.files == b.files
                  && Canon(a.events) == Canon(b.events))
            && (r.Some? ==> r.value == Trace([Basename(binary)] + x.argv, Hex(x.stdin), a.stdout, a.stderr, a.exitCode, a.files, Canon(a.events)))
  {
    var a := Record(binary, record, x, false);
    assert a.argv[1..] == x.argv;
  }

  /** On plain recordings: stable exactly when the two differ in nothing but the names of addresses and paths. */
  lemma StableUpToNames(binary: string, record: Recorder, x: Input)
    requires Plain(record(x, false).events) && Plain(record(x, true).events)
    ensures var a, b := record(x, false), record(x, true);
            RecordStable(binary, record, x).Some? <==>
              && a.stdout == b.stdout && a.stderr == b.stderr && a.exitCode == b.exitCode && a.files == b.files
              && exists sigma, pi :: Renamed(a.events, b.events, sigma, pi)
  {
    StableIff(binary, record, x);
    CanonForgetsOnlyNames(record(x, false).events, record(x, true).events);
  }

  /** The recordings of the nominated cases are the truths of their inputs, in order; one unstable case and there are none. */
  lemma {:induction false} TruthsIff(truth: Truth, cases: seq<Case>, ts: seq<Trace>)
    ensures Truths(truth, cases) == Some(ts) <==>
              |ts| == |cases| && forall i :: 0 <= i < |cases| ==>
                truth(Input(cases[i].argv, FromHex(cases[i].stdinHex).value)) == Some(ts[i])
  {
    if cases != [] {
      var n := |cases| - 1;
      if ts == [] {
        TruthsLength(truth, cases);
      } else {
        TruthsIff(truth, cases[..n], ts[..|ts| - 1]);
        assert ts == ts[..|ts| - 1] + [ts[|ts| - 1]];
        TruthsSnoc(truth, cases, ts);
      }
    }
  }

  lemma {:induction false} TruthsLength(truth: Truth, cases: seq<Case>)
    ensures Truths(truth, cases).Some? ==> |Truths(truth, cases).value| == |cases|
  {
    if cases != [] {
      TruthsLength(truth, cases[..|cases| - 1]);
    }
  }

  lemma TruthsSnoc(truth: Truth, cases: seq<Case>, ts: seq<Trace>)
    requires cases != [] && ts != []
    ensures var n, last := |cases| - 1, ts[|ts| - 1];
            Truths(truth, cases) == Some(ts) <==>
              && Truths(truth, cases[..n]) == Some(ts[..|ts| - 1])
              && truth(Input(cases[n].argv, FromHex(cases[n].stdinHex).value)) == Some(last)
  {
    var n := |cases| - 1;
    var before, t := Truths(truth, cases[..n]), truth(Input(cases[n].argv, FromHex(cases[n].stdinHex).value));
    if before.Some? && t.Some? {
      assert Truths(truth, cases) == Some(before.value + [t.value]);
      SnocEqual(before.value, t.value, ts);
    }
  }

  lemma SnocEqual<T>(xs: seq<T>, x: T, ys: seq<T>)
    requires ys != []
    ensures xs + [x] == ys <==> xs == ys[..|ys| - 1] && x == ys[|ys| - 1]
  {
    assert (xs + [x])[..|xs|] == xs && (xs + [x])[|xs|] == x;
    assert ys == ys[..|ys| - 1] + [ys[|ys| - 1]];
  }

  // ---------- nominated cases on the wire ----------

  function CaseJson(argv: seq<string>, stdinHex: string): (j: Json) {
    JObj(map["argv" := JArr(Strings(argv)), "stdin_hex" := JStr(stdinHex)])
  }

  /** At most 16 arguments of 256 characters without a NUL, and at most 4096 bytes of hex. */
  ghost predicate Nominable(argv: seq<string>, stdinHex: string) {
    && |argv| <= 16 && (forall i :: 0 <= i < |argv| ==> |argv[i]| <= 256 && '\0' !in argv[i])
    && |stdinHex| <= 8192 && FromHex(stdinHex).Some?
  }

  /** A case object is accepted exactly when it is a nominable case spelled out, and it is read as that case. */
  lemma CaseIff(j: Json)
    ensures CaseOk(j) <==> exists argv, stdinHex :: j == CaseJson(argv, stdinHex) && Nominable(argv, stdinHex)
    ensures CaseOk(j) ==> j == CaseJson(CaseOf(j).argv, CaseOf(j).stdinHex)
  {
    if CaseOk(j) {
      var items, c := j.fields["argv"].items, CaseOf(j);
      assert forall i :: 0 <= i < |items| ==> ArgOk(items[i]) && items[i] == JStr(c.argv[i]);
      assert Strings(c.argv) == items;
      assert j.fields == CaseJson(c.argv, c.stdinHex).fields;
      assert Nominable(c.argv, c.stdinHex);
    }
    if argv, stdinHex :| j == CaseJson(argv, stdinHex) && Nominable(argv, stdinHex) {
      assert j.fields["argv"] == JArr(Strings(argv)) && j.fields["stdin_hex"] == JStr(stdinHex);
      assert j.fields.Keys == {"argv", "stdin_hex"};
    }
  }

  ghost predicate SpellsCase(j: Json) { exists argv, stdinHex :: j == CaseJson(argv, stdinHex) && Nominable(argv, stdinHex) }

  /** A nomination is a list of at most sixteen such objects. */
  lemma CaseListIff(raw: Option<Json>)
    ensures CasesOk(raw) <==>
              && raw.Some? && raw.value.JArr? && |raw.value.items| <= 16
              && forall i :: 0 <= i < |raw.value.items| ==> SpellsCase(raw.value.items[i])
  {
    if raw.Some? && raw.value.JArr? {
      forall i | 0 <= i < |raw.value.items|
        ensures CaseOk(raw.value.items[i]) <==> SpellsCase(raw.value.items[i])
      {
        CaseIff(raw.value.items[i]);
      }
    }
  }

  /** What the comparison relies on: hex output, an integer exit code, text files, and events with text fields. */
  lemma WellFormedMeans(line: Json)
    requires TraceOk(line)
    ensures var f := line.fields;
            && "stdout" in f && f["stdout"].JStr? && FromHex(f["stdout"].s).Some?
            && "stderr" in f && f["stderr"].JStr? && FromHex(f["stderr"].s).Some?
            && "exit_code" in f && f["exit_code"].JInt?
            && "files_written" in f && f["files_written"].JObj?
            && "events" in f && f["events"].JArr?
    ensures forall k :: k in line.fields["files_written"].fields ==> line.fields["files_written"].fields[k].JStr?
    ensures forall i :: 0 <= i < |line.fields["events"].items| ==>
              var e := line.fields["events"].items[i];
              && e.JObj? && "sc" in e.fields && e.fields["sc"].JStr? && "phase" in e.fields && e.fields["phase"].JStr?
              && "args" in e.fields && e.fields["args"].JArr?
              && forall k :: 0 <= k < |e.fields["args"].items| ==> e.fields["args"].items[k].JStr?
  {
    assert forall i :: 0 <= i < |line.fields["events"].items| ==> EventOk(line.fields["events"].items[i]);
  }
}
