/**
 Judging claimed traces against recorded ones, pairwise and in order: the first
 divergence decides, and it is named exactly.
 */
module Compare {
  import opened Prelude
  import opened Canonical
  import opened Observation
  import opened HiddenInputs
  import DepSlice

  /** What a replay claims about one case. */
  datatype Claim = Claim(stdout: string, stderr: string, exitCode: int, files: map<string, string>, events: seq<Event>)

  datatype Io = Io(stdout: string, stderr: string, exitCode: int)

  datatype Divergence =
    | IoMismatch(argv: seq<string>, expectedIo: Io, actualIo: Io, fault: Option<Event>)
    | FilesMismatch(argv: seq<string>, expectedFiles: map<string, string>, actualFiles: map<string, string>,
                    slice: Option<seq<Event>>)
    | EventDivergence(argv: seq<string>, index: nat, expected: Event, actual: Event, slice: Option<seq<Event>>)
    | EventLength(argv: seq<string>, expectedLen: nat, actualLen: nat)

  datatype Verdict = Same | Diverged(divergence: Divergence)

  function TraceIo(t: Trace): (r: Io) { Io(t.stdout, t.stderr, t.exitCode) }
  function ClaimIo(c: Claim): (r: Io) { Io(c.stdout, c.stderr, c.exitCode) }

  /** The claim reproduces everything the judge can see of the recording. */
  ghost predicate Agrees(t: Trace, c: Claim) {
    TraceIo(t) == ClaimIo(c) && t.files == c.files && ObsEvents(t.events) == ObsEvents(c.events)
  }

  // ---------- positions of observable events ----------

  function ObsIndices(evs: seq<Event>): (r: seq<nat>)
    ensures |r| <= |evs|
  {
    if evs == [] then []
    else
      var before := ObsIndices(evs[..|evs| - 1]);
      if Observable(evs[|evs| - 1].sc) then before + [|evs| - 1] else before
  }

  lemma {:induction false} ObsAppend(evs: seq<Event>, e: Event)
    ensures ObsEvents(evs + [e]) == ObsEvents(evs) + if Observable(e.sc) then [Wild(e)] else []
  {
    if evs == [] {
      assert [] + [e] == [e] && [e][1..] == [];
    } else {
      assert (evs + [e])[1..] == evs[1..] + [e];
      ObsAppend(evs[1..], e);
    }
  }

  /** `j` is where the i-th observable event stands in the full stream. */
  ghost predicate StandsAt(evs: seq<Event>, i: nat, j: nat) {
    && j < |evs| && Observable(evs[j].sc)
    && |ObsEvents(evs[..j])| == i
    && i < |ObsEvents(evs)| && ObsEvents(evs)[i] == Wild(evs[j])
  }

  lemma {:induction false} IndexIsExact(evs: seq<Event>, i: nat)
    ensures |ObsIndices(evs)| == |ObsEvents(evs)|
    ensures i < |ObsIndices(evs)| ==> StandsAt(evs, i, ObsIndices(evs)[i])
  {
    if evs != [] {
      var n := |evs| - 1;
      var prefix := evs[..n];
      IndexIsExact(prefix, i);
      ObsAppend(prefix, evs[n]);
      assert evs == prefix + [evs[n]];
      if i < |ObsIndices(prefix)| {
        assert prefix[..ObsIndices(prefix)[i]] == evs[..ObsIndices(prefix)[i]];
      }
    }
  }

  // ---------- what each divergence says ----------

  ghost predicate FirstDifference(xs: seq<Event>, ys: seq<Event>, i: nat) {
    i < |xs| && i < |ys| && xs[i] != ys[i] && forall j :: 0 <= j < i ==> xs[j] == ys[j]
  }

  /** The report describes the pair truthfully and completely. */
  ghost predicate Describes(d: Divergence, t: Trace, c: Claim) {
    && d.argv == Tail(t.argv)
    && var te, ge := ObsEvents(t.events), ObsEvents(c.events);
       match d
       case IoMismatch(_, expected, actual, fault) =>
         && expected == TraceIo(t) && actual == ClaimIo(c) && expected != actual
         && fault == if c.exitCode == -1 && c.events != [] then Some(c.events[|c.events| - 1]) else None
       case FilesMismatch(_, expected, actual, slice) =>
         && TraceIo(t) == ClaimIo(c)
         && expected == t.files && actual == c.files && expected != actual
         && slice == DepSlice.SliceForFiles(t.events)
       case EventDivergence(_, i, expected, actual, slice) =>
         && TraceIo(t) == ClaimIo(c) && t.files == c.files
         && FirstDifference(te, ge, i) && expected == te[i] && actual == ge[i]
         && exists j: nat :: StandsAt(t.events, i, j) && slice == DepSlice.SliceAt(t.events, j)
       case EventLength(_, m, n) =>
         && TraceIo(t) == ClaimIo(c) && t.files == c.files
         && m == |te| && n == |ge| && m != n && (te <= ge || ge <= te)
  }

  lemma DescribedDisagrees(d: Divergence, t: Trace, c: Claim)
    requires Describes(d, t, c)
    ensures !Agrees(t, c)
  {
  }

  method CompareEvents(t: Trace, c: Claim) returns (v: Verdict)
    requires TraceIo(t) == ClaimIo(c) && t.files == c.files
    ensures v.Same? <==> ObsEvents(t.events) == ObsEvents(c.events)
    ensures v.Diverged? ==> Describes(v.divergence, t, c)
  {
    var ge, te := ObsEvents(c.events), ObsEvents(t.events);
    var least := if |te| < |ge| then |te| else |ge|;
    for i := 0 to least
      invariant forall j :: 0 <= j < i ==> te[j] == ge[j]
    {
      if ge[i] != te[i] {
        IndexIsExact(t.events, i);
        var j := ObsIndices(t.events)[i];
        var d := EventDivergence(Tail(t.argv), i, te[i], ge[i], DepSlice.SliceAt(t.events, j));
        assert FirstDifference(te, ge, i);
        assert StandsAt(t.events, i, j);
        return Diverged(d);
      }
    }
    if |ge| != |te| {
      assert te[..least] == ge[..least];
      return Diverged(EventLength(Tail(t.argv), |te|, |ge|));
    }
    assert te == ge;
    return Same;
  }

  /** One pair. */
  method ComparePair(t: Trace, c: Claim) returns (v: Verdict)
    ensures v.Same? <==> Agrees(t, c)
    ensures v.Diverged? ==> Describes(v.divergence, t, c)
  {
    if c.stdout != t.stdout || c.stderr != t.stderr || c.exitCode != t.exitCode {
      var fault := if c.exitCode == -1 && c.events != [] then Some(c.events[|c.events| - 1]) else None;
      return Diverged(IoMismatch(Tail(t.argv), TraceIo(t), ClaimIo(c), fault));
    }
    if c.files != t.files {
      return Diverged(FilesMismatch(Tail(t.argv), t.files, c.files, DepSlice.SliceForFiles(t.events)));
    }
    v := CompareEvents(t, c);
  }

  ghost predicate LeastDivergence(traces: seq<Trace>, claims: seq<Claim>, k: nat) {
    && k < |traces| && k < |claims| && !Agrees(traces[k], claims[k])
    && forall i :: 0 <= i < k ==> Agrees(traces[i], claims[i])
  }

  /** All pairs agree, or the report describes the least one that does not. */
  method CompareAll(traces: seq<Trace>, claims: seq<Claim>) returns (v: Verdict)
    ensures v.Same? <==> forall i :: 0 <= i < |traces| && i < |claims| ==> Agrees(traces[i], claims[i])
    ensures v.Diverged? ==>
              exists k: nat :: LeastDivergence(traces, claims, k) && Describes(v.divergence, traces[k], claims[k])
  {
    var n := if |traces| < |claims| then |traces| else |claims|;
    for i := 0 to n
      invariant forall j :: 0 <= j < i ==> Agrees(traces[j], claims[j])
    {
      v := ComparePair(traces[i], claims[i]);
      if v.Diverged? {
        assert LeastDivergence(traces, claims, i);
        return;
      }
    }
    v := Same;
  }
}
