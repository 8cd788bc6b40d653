/**
 Re-grading recorded checks: everything but the judge is rebuilt from evidence,
 so that a changed verdict can only mean a changed judge.
 */
module Regrade {
  import opened Prelude

  // ---------- checkers ----------

  datatype Reply = Seed(seed: int) | Output(value: Json)

  datatype Action = Finish(status: string) | WantSeed | WantJob(request: Json)

  /** A checker on fixed files: what it does next given every reply so far, and a bound on the replies left. */
  datatype Judge = Judge(act: seq<Reply> -> Action, left: seq<Reply> -> nat)

  ghost predicate Bounded(j: Judge) {
    forall h, r :: !j.act(h).Finish? ==> j.left(h + [r]) < j.left(h)
  }

  /** Contained jobs are deterministic. */
  type Jobs = Json -> Json

  datatype Recorded = Recorded(status: string, seeds: seq<int>, ranJobs: bool)

  /** A check with fresh entropy: what it decided, the seeds it drew in order, and whether it ran jobs. */
  function Live(j: Judge, h: seq<Reply>, entropy: nat -> int, drawn: nat, jobs: Jobs): (r: Recorded)
    requires Bounded(j)
    decreases j.left(h)
  {
    match j.act(h)
    case Finish(status) => Recorded(status, [], false)
    case WantSeed =>
      var rest := Live(j, h + [Seed(entropy(drawn))], entropy, drawn + 1, jobs);
      rest.(seeds := [entropy(drawn)] + rest.seeds)
    case WantJob(request) =>
      Live(j, h + [Output(jobs(request))], entropy, drawn, jobs).(ranJobs := true)
  }

  datatype Outcome = Judged(status: string) | WantsMoreSeeds

  /** The same walk with recorded seeds only: the outcome and the seeds handed out. */
  function Replay(j: Judge, h: seq<Reply>, recorded: seq<int>, used: nat, jobs: Jobs): (r: (Outcome, nat))
    requires Bounded(j) && used <= |recorded|
    ensures used <= r.1 <= |recorded|
    ensures r.0.WantsMoreSeeds? ==> r.1 == |recorded|
    decreases j.left(h)
  {
    match j.act(h)
    case Finish(status) => (Judged(status), used)
    case WantSeed =>
      if used == |recorded| then (WantsMoreSeeds, used)
      else Replay(j, h + [Seed(recorded[used])], recorded, used + 1, jobs)
    case WantJob(request) => Replay(j, h + [Output(jobs(request))], recorded, used, jobs)
  }

  lemma {:induction false} ReplayFollows(j: Judge, h: seq<Reply>, entropy: nat -> int, drawn: nat, recorded: seq<int>, used: nat, jobs: Jobs)
    requires Bounded(j) && used <= |recorded| && recorded[used..] == Live(j, h, entropy, drawn, jobs).seeds
    ensures Replay(j, h, recorded, used, jobs) == (Judged(Live(j, h, entropy, drawn, jobs).status), |recorded|)
    decreases j.left(h)
  {
    match j.act(h)
    case Finish(_) =>
    case WantSeed =>
      assert recorded[used] == recorded[used..][0] == entropy(drawn);
      assert recorded[used + 1..] == recorded[used..][1..];
      ReplayFollows(j, h + [Seed(entropy(drawn))], entropy, drawn + 1, recorded, used + 1, jobs);
    case WantJob(request) =>
      ReplayFollows(j, h + [Output(jobs(request))], entropy, drawn, recorded, used, jobs);
  }

  /** Replaying a recorded check under the same checker gives the recorded verdict and uses every seed. */
  lemma ReplayFidelity(j: Judge, entropy: nat -> int, jobs: Jobs)
    requires Bounded(j)
    ensures var live := Live(j, [], entropy, 0, jobs);
            Replay(j, [], live.seeds, 0, jobs) == (Judged(live.status), |live.seeds|)
  {
    var live := Live(j, [], entropy, 0, jobs);
    assert live.seeds[0..] == live.seeds;
    ReplayFollows(j, [], entropy, 0, live.seeds, 0, jobs);
  }

  /** With an entropy source that starts with the recorded seeds, a checker is unreplayable iff it would draw past them. */
  lemma {:induction false} UnreplayableIff(j: Judge, h: seq<Reply>, recorded: seq<int>, used: nat, entropy: nat -> int, jobs: Jobs)
    requires Bounded(j) && used <= |recorded|
    requires forall i :: used <= i < |recorded| ==> entropy(i) == recorded[i]
    ensures Replay(j, h, recorded, used, jobs).0.WantsMoreSeeds? <==>
              used + |Live(j, h, entropy, used, jobs).seeds| > |recorded|
    ensures Replay(j, h, recorded, used, jobs).0.Judged? ==>
              Replay(j, h, recorded, used, jobs).0.status == Live(j, h, entropy, used, jobs).status
    decreases j.left(h)
  {
    match j.act(h)
    case Finish(_) =>
    case WantSeed =>
      if used < |recorded| {
        UnreplayableIff(j, h + [Seed(recorded[used])], recorded, used + 1, entropy, jobs);
      }
    case WantJob(request) =>
      UnreplayableIff(j, h + [Output(jobs(request))], recorded, used, entropy, jobs);
  }

  /** The replaying context: it hands out recorded seeds in order and nothing else, ever. */
  class ReplayContext {
    const recorded: seq<int>
    var seeds: seq<int>

    ghost predicate Valid()
      reads this
    {
      seeds <= recorded
    }

    constructor (recorded: seq<int>)
      ensures Valid() && seeds == [] && this.recorded == recorded
    {
      this.recorded := recorded;
      seeds := [];
    }

    /** None stands for the raise that makes a row unreplayable. */
    method DrawSeed() returns (seed: Option<int>)
      requires Valid()
      modifies this
      ensures Valid()
      ensures if |old(seeds)| == |recorded| then seed == None && seeds == old(seeds)
              else seed == Some(recorded[|old(seeds)|]) && seeds == recorded[..|old(seeds)| + 1]
    {
      if |seeds| == |recorded| { return None; }
      var s := recorded[|seeds|];
      seeds := seeds + [s];
      return Some(s);
    }

    method Check(j: Judge, jobs: Jobs) returns (r: Outcome)
      requires Valid() && Bounded(j)
      modifies this
      ensures Valid()
      ensures (r, |seeds|) == Replay(j, [], recorded, |old(seeds)|, jobs)
    {
      var h: seq<Reply> := [];
      ghost var goal := Replay(j, [], recorded, |seeds|, jobs);
      while !j.act(h).Finish?
        invariant Valid()
        invariant Replay(j, h, recorded, |seeds|, jobs) == goal
        decreases j.left(h)
      {
        match j.act(h)
        case WantSeed =>
          var s := DrawSeed();
          if s.None? { return WantsMoreSeeds; }
          h := h + [Seed(s.value)];
        case WantJob(request) =>
          h := h + [Output(jobs(request))];
      }
      return Judged(j.act(h).status);
    }
  }

  // ---------- rebuilding the evidence ----------

  type Bytes = seq<byte>
  type Digest = string

  predicate IsNotes(file: string) { file == "notes.json" || file == "notes-error.txt" }

  /** The text after the first /candidate/, empty when there is none. */
  function FileOf(name: string): (r: string) {
    if "/candidate/" <= name then name[11..] else if name == "" then "" else FileOf(name[1..])
  }

  /** The file of a captured name, whatever its first component is. */
  lemma {:induction false} FileAfter(prefix: string, file: string)
    requires '/' !in prefix
    ensures FileOf(prefix + "/candidate/" + file) == file
  {
    var s := prefix + "/candidate/" + file;
    if prefix == "" {
      assert s[..11] == "/candidate/" && s[11..] == file;
    } else {
      assert s[0] == prefix[0] && "/candidate/"[0] == '/';
      assert s[1..] == prefix[1..] + "/candidate/" + file;
      FileAfter(prefix[1..], file);
    }
  }

  /** What the ledger gives back for a digest; None when the artifact is missing or does not match it. */
  type Store = Digest -> Option<Bytes>

  datatype Rebuilt = Candidate(files: map<string, Bytes>) | Tampered

  /** A captured artifact: its ledger name and digest. */
  datatype Captured = Captured(name: string, digest: Digest)

  ghost predicate DistinctFiles(captured: seq<Captured>) {
    forall i, j :: 0 <= i < j < |captured| ==> FileOf(captured[i].name) != FileOf(captured[j].name)
  }

  ghost predicate Matches(claimed: map<string, Digest>, captured: seq<Captured>, store: Store) {
    && |claimed| == |captured|
    && forall i :: 0 <= i < |captured| ==>
         var file := FileOf(captured[i].name);
         file in claimed && claimed[file] == captured[i].digest && (IsNotes(file) || store(captured[i].digest).Some?)
  }

  function Files(captured: seq<Captured>, store: Store): (m: map<string, Bytes>) {
    if captured == [] then map[]
    else
      var last := captured[|captured| - 1];
      var before := Files(captured[..|captured| - 1], store);
      match store(last.digest)
      case None => before
      case Some(b) => if IsNotes(FileOf(last.name)) then before else before[FileOf(last.name) := b]
  }

  method Rebuild(claimed: map<string, Digest>, captured: seq<Captured>, store: Store) returns (r: Rebuilt)
    ensures r.Candidate? <==> Matches(claimed, captured, store)
    ensures r.Candidate? ==> r.files == Files(captured, store)
  {
    var candidate: map<string, Bytes> := map[];
    for i := 0 to |captured|
      invariant candidate == Files(captured[..i], store)
      invariant forall k :: 0 <= k < i ==>
                  var file := FileOf(captured[k].name);
                  file in claimed && claimed[file] == captured[k].digest && (IsNotes(file) || store(captured[k].digest).Some?)
    {
      var c := captured[i];
      var file := FileOf(c.name);
      assert captured[..i + 1][..i] == captured[..i];
      if file !in claimed || claimed[file] != c.digest { return Tampered; }
      if !IsNotes(file) {
        var b := store(c.digest);
        if b.None? { return Tampered; }
        candidate := candidate[file := b.value];
      }
    }
    assert captured[..|captured|] == captured;
    if |claimed| != |captured| { return Tampered; }
    return Candidate(candidate);
  }

  ghost function FileSet(captured: seq<Captured>): (s: set<string>) {
    set i | 0 <= i < |captured| :: FileOf(captured[i].name)
  }

  lemma {:induction false} FileSetSize(captured: seq<Captured>)
    requires DistinctFiles(captured)
    ensures |FileSet(captured)| == |captured|
  {
    if captured != [] {
      var n := |captured| - 1;
      var prefix, last := captured[..n], FileOf(captured[n].name);
      FileSetSize(prefix);
      assert FileSet(captured) == FileSet(prefix) + {last};
      assert last !in FileSet(prefix);
    }
  }

  lemma {:induction false} FilesAre(claimed: map<string, Digest>, captured: seq<Captured>, store: Store)
    requires forall i :: 0 <= i < |captured| ==>
               var file := FileOf(captured[i].name);
               file in claimed && claimed[file] == captured[i].digest && (IsNotes(file) || store(captured[i].digest).Some?)
    ensures forall f :: f in Files(captured, store) <==> f in FileSet(captured) && !IsNotes(f)
    ensures forall f :: f in Files(captured, store) ==>
              f in claimed && store(claimed[f]) == Some(Files(captured, store)[f])
  {
    if captured != [] {
      var n := |captured| - 1;
      var prefix, last := captured[..n], FileOf(captured[n].name);
      FilesAre(claimed, prefix, store);
      assert FileSet(captured) == FileSet(prefix) + {last};
    }
  }

  /** Distinct captured files that match the claim rebuild exactly the claimed candidate, less the notes. */
  lemma RebuiltIsClaimed(claimed: map<string, Digest>, captured: seq<Captured>, store: Store)
    requires DistinctFiles(captured) && Matches(claimed, captured, store)
    ensures var files := Files(captured, store);
            && (forall f :: f in files <==> f in claimed && f != "notes.json" && f != "notes-error.txt")
            && forall f :: f in files ==> store(claimed[f]) == Some(files[f])
  {
    FileSetSize(captured);
    FilesAre(claimed, captured, store);
    var s := FileSet(captured);
    assert s <= claimed.Keys;
    SameSize(s, claimed.Keys);
  }

  /** Among matching captures, every claimed file was captured exactly when no file was captured twice. */
  lemma CompleteIff(claimed: map<string, Digest>, captured: seq<Captured>, store: Store)
    requires Matches(claimed, captured, store)
    ensures FileSet(captured) == claimed.Keys <==> DistinctFiles(captured)
  {
    var s := FileSet(captured);
    assert s <= claimed.Keys;
    if DistinctFiles(captured) {
      FileSetSize(captured);
      SameSize(s, claimed.Keys);
    } else {
      var i, j :| 0 <= i < j < |captured| && FileOf(captured[i].name) == FileOf(captured[j].name);
      RepeatShrinks(captured, i, j);
    }
  }

  lemma RepeatShrinks(captured: seq<Captured>, i: nat, j: nat)
    requires i < j < |captured| && FileOf(captured[i].name) == FileOf(captured[j].name)
    ensures |FileSet(captured)| < |captured|
  {
    var without := captured[..j] + captured[j + 1..];
    assert without[i] == captured[i];
    forall f | f in FileSet(captured)
      ensures f in FileSet(without)
    {
      var k :| 0 <= k < |captured| && FileOf(captured[k].name) == f;
      var m := if k < j then k else if k == j then i else k - 1;
      assert FileOf(without[m].name) == f;
    }
    SubsetSize(FileSet(captured), FileSet(without));
    FileSetBound(without);
  }

  lemma {:induction false} FileSetBound(captured: seq<Captured>)
    ensures |FileSet(captured)| <= |captured|
  {
    if captured != [] {
      var n := |captured| - 1;
      FileSetBound(captured[..n]);
      assert FileSet(captured) == FileSet(captured[..n]) + {FileOf(captured[n].name)};
    }
  }

  /** The rebuilt candidate is the claimed one, less the notes, exactly when every claimed file but the notes was captured. */
  lemma RebuiltIff(claimed: map<string, Digest>, captured: seq<Captured>, store: Store)
    requires Matches(claimed, captured, store)
    ensures (forall f :: f in Files(captured, store) <==> f in claimed && f != "notes.json" && f != "notes-error.txt") <==>
            (forall f :: f in claimed && f != "notes.json" && f != "notes-error.txt" ==> f in FileSet(captured))
  {
    FilesAre(claimed, captured, store);
    assert FileSet(captured) <= claimed.Keys;
  }

  lemma {:induction false} SameSize(s: set<string>, t: set<string>)
    requires s <= t && |s| == |t|
    ensures s == t
  {
    if x :| x in t && x !in s {
      assert s <= t - {x};
      SubsetSize(s, t - {x});
    }
  }

  lemma {:induction false} SubsetSize(s: set<string>, t: set<string>)
    requires s <= t
    ensures |s| <= |t|
  {
    if x :| x in s {
      SubsetSize(s - {x}, t - {x});
    }
  }

  /** Without that premise a claimed file can be missing: one file captured twice stands in for two. */
  lemma RepeatedFileSlips()
    ensures var claimed := map["a" := "d", "b" := "e"];
            var captured := [Captured("x/candidate/a", "d"), Captured("y/candidate/a", "d")];
            var store: Store := _ => Some([]);
            Matches(claimed, captured, store) && "b" !in Files(captured, store)
  {
    var claimed := map["a" := "d", "b" := "e"];
    var captured := [Captured("x/candidate/a", "d"), Captured("y/candidate/a", "d")];
    var store: Store := _ => Some([]);
    assert FileOf("/candidate/a") == "a" by { assert "/candidate/a"[..11] == "/candidate/"; }
    assert "x/candidate/a"[1..] == "/candidate/a" && "y/candidate/a"[1..] == "/candidate/a";
    assert "x/candidate/a"[0] == 'x' && "y/candidate/a"[0] == 'y' && "/candidate/"[0] == '/';
    assert FileOf("x/candidate/a") == "a" && FileOf("y/candidate/a") == "a";
    assert |claimed.Keys| == |{"a", "b"}| by { assert claimed.Keys == {"a", "b"}; }
    FilesAre(claimed, captured, store);
  }

  // ---------- one recorded check ----------

  /** An input of a recorded check, by the channel its name spells. */
  datatype CheckInput =
    | SubmissionRecord(observation: nat, digest: Digest)
    | WorkerFile(file: string, digest: Digest)
    | PrivateFile(file: string, digest: Digest)
    | Unexpected

  /** A ledger operation; each recorded channel is None when absent. */
  datatype Op = Op(
    isCheck: bool, completed: bool, run: string, submission: nat, check: string,
    verified: bool, inputs: seq<CheckInput>,
    verdict: Option<string>, seeds: Option<seq<int>>, images: Option<set<string>>)

  datatype Ledger = Ledger(
    store: Store,
    observations: map<nat, seq<Captured>>,
    submissions: Digest -> Option<map<string, Digest>>)

  datatype Evidence = Evidence(
    candidate: map<string, Bytes>, inputs: map<string, Bytes>, secret: map<string, Bytes>,
    status: string, seeds: seq<int>, images: set<string>)

  datatype Found = Refused | NoVerdict | Intact(evidence: Evidence)

  datatype Inputs = BadInputs | GoodInputs(files: map<string, Bytes>, secret: map<string, Bytes>, target: Option<(nat, Digest)>)

  function AddInput(acc: Inputs, x: CheckInput, store: Store): (r: Inputs) {
    if acc.BadInputs? then BadInputs
    else
      match x
      case SubmissionRecord(n, d) => acc.(target := Some((n, d)))
      case WorkerFile(f, d) => if store(d).None? then BadInputs else acc.(files := acc.files[f := store(d).value])
      case PrivateFile(f, d) => if store(d).None? then BadInputs else acc.(secret := acc.secret[f := store(d).value])
      case Unexpected => BadInputs
  }

  function SortInputs(inputs: seq<CheckInput>, store: Store): (r: Inputs) {
    if inputs == [] then GoodInputs(map[], map[], None)
    else AddInput(SortInputs(inputs[..|inputs| - 1], store), inputs[|inputs| - 1], store)
  }

  // ---------- what the inputs say ----------

  /** An input that refuses the whole check: no known channel, or bytes that do not read back. */
  predicate Unusable(x: CheckInput, store: Store) {
    x.Unexpected? || ((x.WorkerFile? || x.PrivateFile?) && store(x.digest).None?)
  }

  ghost predicate AnyUnusable(inputs: seq<CheckInput>, store: Store) {
    exists i :: 0 <= i < |inputs| && Unusable(inputs[i], store)
  }

  /** The submission record that counts: no later one replaces it. */
  ghost predicate LastRecord(inputs: seq<CheckInput>, i: int) {
    0 <= i < |inputs| && inputs[i].SubmissionRecord? && forall j :: i < j < |inputs| ==> !inputs[j].SubmissionRecord?
  }

  ghost predicate NoRecord(inputs: seq<CheckInput>) {
    forall j :: 0 <= j < |inputs| ==> !inputs[j].SubmissionRecord?
  }

  predicate Names(x: CheckInput, secret: bool, file: string) {
    if secret then x.PrivateFile? && x.file == file else x.WorkerFile? && x.file == file
  }

  /** The last input of that name on the channel. */
  ghost predicate LastNamed(inputs: seq<CheckInput>, secret: bool, file: string, i: int) {
    0 <= i < |inputs| && Names(inputs[i], secret, file) && forall j :: i < j < |inputs| ==> !Names(inputs[j], secret, file)
  }

  /** A channel's files are exactly those some input names, each with the bytes of the last input naming it. */
  ghost predicate Channel(files: map<string, Bytes>, inputs: seq<CheckInput>, secret: bool, store: Store) {
    && (forall f :: f in files ==> exists i :: LastNamed(inputs, secret, f, i))
    && forall f, i :: LastNamed(inputs, secret, f, i) ==> f in files && store(inputs[i].digest) == Some(files[f])
  }

  /** What reading the inputs comes to, whatever order they stand in. */
  ghost predicate Sorts(r: Inputs, inputs: seq<CheckInput>, store: Store) {
    if AnyUnusable(inputs, store) then r.BadInputs?
    else
      && r.GoodInputs?
      && (r.target.None? <==> NoRecord(inputs))
      && (forall i :: LastRecord(inputs, i) ==> r.target == Some((inputs[i].observation, inputs[i].digest)))
      && Channel(r.files, inputs, false, store) && Channel(r.secret, inputs, true, store)
  }

  lemma UnusableSnoc(inputs: seq<CheckInput>, x: CheckInput, store: Store)
    ensures AnyUnusable(inputs + [x], store) <==> AnyUnusable(inputs, store) || Unusable(x, store)
  {
    var more := inputs + [x];
    assert more[|inputs|] == x;
    assert forall i :: 0 <= i < |inputs| ==> more[i] == inputs[i];
  }

  lemma LastNamedSnoc(inputs: seq<CheckInput>, x: CheckInput, secret: bool, file: string, i: int)
    ensures LastNamed(inputs + [x], secret, file, i) <==>
              if Names(x, secret, file) then i == |inputs| else LastNamed(inputs, secret, file, i)
  {
    var more := inputs + [x];
    assert more[|inputs|] == x;
    assert forall j :: 0 <= j < |inputs| ==> more[j] == inputs[j];
  }

  lemma LastRecordSnoc(inputs: seq<CheckInput>, x: CheckInput, i: int)
    ensures LastRecord(inputs + [x], i) <==> if x.SubmissionRecord? then i == |inputs| else LastRecord(inputs, i)
    ensures NoRecord(inputs + [x]) <==> NoRecord(inputs) && !x.SubmissionRecord?
  {
    var more := inputs + [x];
    assert more[|inputs|] == x;
    assert forall j :: 0 <= j < |inputs| ==> more[j] == inputs[j];
  }

  /** The channel after one more input: extended when the input is on it, untouched otherwise. */
  ghost function ChannelAfter(files: map<string, Bytes>, x: CheckInput, secret: bool, store: Store): (r: map<string, Bytes>)
    requires !Unusable(x, store)
  {
    if (if secret then x.PrivateFile? else x.WorkerFile?) then files[x.file := store(x.digest).value] else files
  }

  lemma ChannelSnoc(files: map<string, Bytes>, inputs: seq<CheckInput>, x: CheckInput, secret: bool, store: Store)
    requires Channel(files, inputs, secret, store) && !Unusable(x, store)
    ensures Channel(ChannelAfter(files, x, secret, store), inputs + [x], secret, store)
  {
    var more, after := inputs + [x], ChannelAfter(files, x, secret, store);
    assert more[|inputs|] == x;
    forall f | f in after
      ensures exists i :: LastNamed(more, secret, f, i)
    {
      if Names(x, secret, f) {
        LastNamedSnoc(inputs, x, secret, f, |inputs|);
      } else {
        var i :| LastNamed(inputs, secret, f, i);
        LastNamedSnoc(inputs, x, secret, f, i);
      }
    }
    forall f, i | LastNamed(more, secret, f, i)
      ensures f in after && store(more[i].digest) == Some(after[f])
    {
      LastNamedSnoc(inputs, x, secret, f, i);
      if !Names(x, secret, f) { assert more[i] == inputs[i]; }
    }
  }

  lemma SortsSnoc(r: Inputs, inputs: seq<CheckInput>, x: CheckInput, store: Store)
    requires Sorts(r, inputs, store)
    ensures Sorts(AddInput(r, x, store), inputs + [x], store)
  {
    UnusableSnoc(inputs, x, store);
    if r.GoodInputs? && !Unusable(x, store) {
      var more, after := inputs + [x], AddInput(r, x, store);
      ChannelSnoc(r.files, inputs, x, false, store);
      ChannelSnoc(r.secret, inputs, x, true, store);
      LastRecordSnoc(inputs, x, |inputs|);
      forall i | LastRecord(more, i)
        ensures after.target == Some((more[i].observation, more[i].digest))
      {
        LastRecordSnoc(inputs, x, i);
        assert i < |inputs| ==> more[i] == inputs[i];
      }
    }
  }

  lemma {:induction false} InputsAreSorted(inputs: seq<CheckInput>, store: Store)
    ensures Sorts(SortInputs(inputs, store), inputs, store)
  {
    if inputs != [] {
      var n := |inputs| - 1;
      InputsAreSorted(inputs[..n], store);
      SortsSnoc(SortInputs(inputs[..n], store), inputs[..n], inputs[n], store);
      assert inputs == inputs[..n] + [inputs[n]];
    }
  }

  method CollectInputs(inputs: seq<CheckInput>, store: Store) returns (r: Inputs)
    ensures r == SortInputs(inputs, store)
    ensures Sorts(r, inputs, store)
  {
    r := GoodInputs(map[], map[], None);
    for i := 0 to |inputs|
      invariant r == SortInputs(inputs[..i], store)
    {
      assert inputs[..i + 1][..i] == inputs[..i];
      r := AddInput(r, inputs[i], store);
    }
    assert inputs[..|inputs|] == inputs;
    InputsAreSorted(inputs, store);
  }

  /** The evidence of a check, or why there is none: each refusal and the missing verdict in the code's order. */
  ghost function EvidenceOf(op: Op, ledger: Ledger): (r: Found) {
    var sorted := SortInputs(op.inputs, ledger.store);
    if !op.verified || sorted.BadInputs? || sorted.target.None? || sorted.target.value.0 !in ledger.observations then Refused
    else
      var captured := ledger.observations[sorted.target.value.0];
      var claimed := ledger.submissions(sorted.target.value.1);
      if claimed.None? || !Matches(claimed.value, captured, ledger.store) then Refused
      else if op.verdict.None? then NoVerdict
      else if op.seeds.None? || op.images.None? then Refused
      else Intact(Evidence(Files(captured, ledger.store), sorted.files, sorted.secret,
                           op.verdict.value, op.seeds.value, op.images.value))
  }

  /** The check verifies, its inputs are usable, and the last submission record it names matches what was captured. */
  ghost predicate Grounded(op: Op, ledger: Ledger, i: int) {
    && op.verified && !AnyUnusable(op.inputs, ledger.store) && LastRecord(op.inputs, i)
    && op.inputs[i].observation in ledger.observations && ledger.submissions(op.inputs[i].digest).Some?
    && Matches(ledger.submissions(op.inputs[i].digest).value, ledger.observations[op.inputs[i].observation], ledger.store)
  }

  /** The verdict and everything recorded with it is there. */
  predicate FullyRecorded(op: Op) { op.verdict.Some? && op.seeds.Some? && op.images.Some? }

  lemma {:induction false} SomeLastRecord(inputs: seq<CheckInput>) returns (i: int)
    requires !NoRecord(inputs)
    ensures LastRecord(inputs, i)
  {
    var n := |inputs| - 1;
    if inputs[n].SubmissionRecord? {
      i := n;
    } else {
      assert forall j :: 0 <= j < n ==> inputs[..n][j] == inputs[j];
      i := SomeLastRecord(inputs[..n]);
    }
  }

  lemma GroundedEvidence(op: Op, ledger: Ledger, i: int)
    requires Grounded(op, ledger, i)
    ensures EvidenceOf(op, ledger).NoVerdict? <==> op.verdict.None?
    ensures EvidenceOf(op, ledger).Intact? <==> FullyRecorded(op)
    ensures EvidenceOf(op, ledger).Intact? ==> Bears(EvidenceOf(op, ledger).evidence, op, ledger, i)
  {
    InputsAreSorted(op.inputs, ledger.store);
  }

  lemma UngroundedEvidence(op: Op, ledger: Ledger)
    requires forall i :: !Grounded(op, ledger, i)
    ensures EvidenceOf(op, ledger).Refused?
  {
    InputsAreSorted(op.inputs, ledger.store);
    if op.verified && !AnyUnusable(op.inputs, ledger.store) && !NoRecord(op.inputs) {
      var i := SomeLastRecord(op.inputs);
      assert !Grounded(op, ledger, i);
    }
  }

  /** Evidence that is what it says: the captured candidate, the named files, and what was recorded. */
  ghost predicate Bears(ev: Evidence, op: Op, ledger: Ledger, i: int)
    requires Grounded(op, ledger, i) && FullyRecorded(op)
  {
    && ev.candidate == Files(ledger.observations[op.inputs[i].observation], ledger.store)
    && Channel(ev.inputs, op.inputs, false, ledger.store) && Channel(ev.secret, op.inputs, true, ledger.store)
    && ev.status == op.verdict.value && ev.seeds == op.seeds.value && ev.images == op.images.value
  }

  /** Each of the three findings, and exactly when it is reached. */
  ghost predicate Finds(r: Found, op: Op, ledger: Ledger) {
    && (r.NoVerdict? <==> (exists i :: Grounded(op, ledger, i)) && op.verdict.None?)
    && (r.Intact? <==> (exists i :: Grounded(op, ledger, i)) && FullyRecorded(op))
    && (r.Refused? <==> (forall i :: !Grounded(op, ledger, i)) || (op.verdict.Some? && !FullyRecorded(op)))
    && (r.Intact? ==> forall i :: Grounded(op, ledger, i) ==> Bears(r.evidence, op, ledger, i))
  }

  lemma EvidenceFinds(op: Op, ledger: Ledger)
    ensures Finds(EvidenceOf(op, ledger), op, ledger)
  {
    if i :| Grounded(op, ledger, i) {
      GroundedEvidence(op, ledger, i);
      forall i | Grounded(op, ledger, i) && EvidenceOf(op, ledger).Intact?
        ensures Bears(EvidenceOf(op, ledger).evidence, op, ledger, i)
      {
        GroundedEvidence(op, ledger, i);
      }
    } else {
      UngroundedEvidence(op, ledger);
    }
  }

  method GatherEvidence(op: Op, ledger: Ledger) returns (r: Found)
    ensures r == EvidenceOf(op, ledger)
    ensures Finds(r, op, ledger)
  {
    EvidenceFinds(op, ledger);
    if !op.verified { return Refused; }
    var sorted := CollectInputs(op.inputs, ledger.store);
    if sorted.BadInputs? || sorted.target.None? || sorted.target.value.0 !in ledger.observations { return Refused; }
    var claimed := ledger.submissions(sorted.target.value.1);
    if claimed.None? { return Refused; }
    var captured := ledger.observations[sorted.target.value.0];
    var rebuilt := Rebuild(claimed.value, captured, ledger.store);
    if rebuilt.Tampered? { return Refused; }
    if op.verdict.None? { return NoVerdict; }
    if op.seeds.None? || op.images.None? { return Refused; }
    return Intact(Evidence(rebuilt.files, sorted.files, sorted.secret, op.verdict.value, op.seeds.value, op.images.value));
  }

  // ---------- rows ----------

  /** The current judge: checkers by name, each given the files it may see, and the current image. */
  type Checker = (map<string, Bytes>, map<string, Bytes>, map<string, Bytes>) -> Judge
  datatype Domain = Domain(checkers: map<string, Checker>, image: string)

  ghost predicate DomainOk(d: Domain) {
    forall name, c, i, p :: name in d.checkers ==> Bounded(d.checkers[name](c, i, p))
  }

  /** A report row; a key the report does not set is None. */
  datatype Row = Row(refused: Option<string>, unreplayable: Option<string>, recorded: Option<string>,
                     regraded: Option<string>, holds: Option<bool>)

  const BLANK := Row(None, None, None, None, None)

  ghost function GradeOf(ev: Evidence, check: string, domain: Domain, jobs: Jobs): (r: Row)
    requires DomainOk(domain)
  {
    var row := BLANK.(recorded := Some(ev.status));
    if ev.status == "infrastructure_failure" then row.(unreplayable := Some("infrastructure failure"))
    else if check !in domain.checkers then row.(unreplayable := Some("no current checker"))
    else if ev.images != {} && ev.images != {domain.image} then row.(unreplayable := Some("image changed"))
    else
      match Replay(domain.checkers[check](ev.candidate, ev.inputs, ev.secret), [], ev.seeds, 0, jobs).0
      case WantsMoreSeeds => row.(unreplayable := Some("more seeds"))
      case Judged(status) => row.(regraded := Some(status), holds := Some(status == ev.status))
  }

  ghost function RowOf(op: Op, ledger: Ledger, domain: Domain, jobs: Jobs): (r: Row)
    requires DomainOk(domain)
  {
    match EvidenceOf(op, ledger)
    case Refused => BLANK.(refused := Some("tampered evidence"))
    case NoVerdict => BLANK.(unreplayable := Some("no verdict"))
    case Intact(ev) => GradeOf(ev, op.check, domain, jobs)
  }

  predicate Selected(op: Op, run: Option<string>, submission: Option<nat>) {
    op.isCheck && op.completed && (run.Some? ==> op.run == run.value) && (submission.Some? ==> op.submission == submission.value)
  }

  ghost function Rows(ops: seq<Op>, ledger: Ledger, domain: Domain, jobs: Jobs, run: Option<string>, submission: Option<nat>): (r: seq<Row>)
    requires DomainOk(domain)
  {
    if ops == [] then []
    else
      var before := Rows(ops[..|ops| - 1], ledger, domain, jobs, run, submission);
      var op := ops[|ops| - 1];
      if Selected(op, run, submission) then before + [RowOf(op, ledger, domain, jobs)] else before
  }

  // ---------- each class of row, from the evidence ----------

  ghost predicate IsGrounded(op: Op, ledger: Ledger) { exists i :: Grounded(op, ledger, i) }

  /** An entropy source whose first draws are the recorded seeds. */
  ghost predicate StartsWithSeeds(entropy: nat -> int, seeds: seq<int>) {
    forall i :: 0 <= i < |seeds| ==> entropy(i) == seeds[i]
  }

  /** A recorded judgement that everything but the judge can be pinned for: the check exists and runs under the recorded image. */
  ghost predicate Replayable(op: Op, ledger: Ledger, domain: Domain) {
    && IsGrounded(op, ledger) && op.verdict.Some? && op.seeds.Some? && op.images.Some?
    && op.verdict.value != "infrastructure_failure"
    && op.check in domain.checkers
    && (op.images.value == {} || op.images.value == {domain.image})
  }

  /** The current checker's own run on the evidence, with fresh entropy. */
  ghost function Rerun(op: Op, ledger: Ledger, domain: Domain, entropy: nat -> int, jobs: Jobs): (r: Recorded)
    requires DomainOk(domain) && op.check in domain.checkers && EvidenceOf(op, ledger).Intact?
  {
    var ev := EvidenceOf(op, ledger).evidence;
    Live(domain.checkers[op.check](ev.candidate, ev.inputs, ev.secret), [], entropy, 0, jobs)
  }

  lemma ReplayableIsIntact(op: Op, ledger: Ledger, domain: Domain)
    requires Replayable(op, ledger, domain)
    ensures EvidenceOf(op, ledger).Intact?
    ensures var ev := EvidenceOf(op, ledger).evidence;
            ev.status == op.verdict.value && ev.seeds == op.seeds.value && ev.images == op.images.value
  {
    EvidenceFinds(op, ledger);
    var i :| Grounded(op, ledger, i);
    assert Bears(EvidenceOf(op, ledger).evidence, op, ledger, i);
  }

  /** The current checker, run on the evidence with the recorded seeds first, stays within them. */
  ghost predicate StaysWithin(op: Op, ledger: Ledger, domain: Domain, entropy: nat -> int, jobs: Jobs)
    requires DomainOk(domain)
  {
    Replayable(op, ledger, domain) &&
    (ReplayableIsIntact(op, ledger, domain); |Rerun(op, ledger, domain, entropy, jobs).seeds| <= |op.seeds.value|)
  }

  /** What the current checker answers there. */
  ghost function Answer(op: Op, ledger: Ledger, domain: Domain, entropy: nat -> int, jobs: Jobs): (status: string)
    requires DomainOk(domain) && StaysWithin(op, ledger, domain, entropy, jobs)
  {
    ReplayableIsIntact(op, ledger, domain);
    Rerun(op, ledger, domain, entropy, jobs).status
  }

  /** Why a grounded check cannot be replayed: the first of five causes. */
  ghost function Cause(op: Op, domain: Domain): (r: string) {
    if op.verdict.None? then "no verdict"
    else if op.verdict.value == "infrastructure_failure" then "infrastructure failure"
    else if op.check !in domain.checkers then "no current checker"
    else if op.images.Some? && op.images.value != {} && op.images.value != {domain.image} then "image changed"
    else "more seeds"
  }

  /** Each key of a row, and exactly when it is set and to what. */
  ghost predicate Grades(row: Row, op: Op, ledger: Ledger, domain: Domain, entropy: nat -> int, jobs: Jobs)
    requires DomainOk(domain)
  {
    var complete := op.seeds.Some? && op.images.Some?;
    && (row.refused.Some? <==> !IsGrounded(op, ledger) || (op.verdict.Some? && !complete))
    && (row.unreplayable.Some? <==>
          && IsGrounded(op, ledger)
          && (op.verdict.None? || (complete && !StaysWithin(op, ledger, domain, entropy, jobs))))
    && (row.unreplayable.Some? ==> row.unreplayable.value == Cause(op, domain))
    && (row.holds == Some(true) <==>
          StaysWithin(op, ledger, domain, entropy, jobs) && Answer(op, ledger, domain, entropy, jobs) == op.verdict.value)
    && (row.holds == Some(false) <==>
          StaysWithin(op, ledger, domain, entropy, jobs) && Answer(op, ledger, domain, entropy, jobs) != op.verdict.value)
    && (row.regraded == if StaysWithin(op, ledger, domain, entropy, jobs) then Some(Answer(op, ledger, domain, entropy, jobs)) else None)
    && (row.recorded == if IsGrounded(op, ledger) && complete then op.verdict else None)
  }

  /** The replay's outcome in terms of that run. */
  lemma ReplayIsRerun(op: Op, ledger: Ledger, domain: Domain, entropy: nat -> int, jobs: Jobs)
    requires DomainOk(domain) && Replayable(op, ledger, domain) && StartsWithSeeds(entropy, op.seeds.value)
    requires EvidenceOf(op, ledger).Intact?
    ensures var ev := EvidenceOf(op, ledger).evidence;
            var outcome := Replay(domain.checkers[op.check](ev.candidate, ev.inputs, ev.secret), [], ev.seeds, 0, jobs).0;
            if StaysWithin(op, ledger, domain, entropy, jobs)
            then outcome == Judged(Answer(op, ledger, domain, entropy, jobs)) else outcome.WantsMoreSeeds?
  {
    ReplayableIsIntact(op, ledger, domain);
    var ev := EvidenceOf(op, ledger).evidence;
    UnreplayableIff(domain.checkers[op.check](ev.candidate, ev.inputs, ev.secret), [], ev.seeds, 0, entropy, jobs);
  }

  lemma GroundedRow(op: Op, ledger: Ledger, domain: Domain, entropy: nat -> int, jobs: Jobs)
    requires DomainOk(domain) && IsGrounded(op, ledger) && FullyRecorded(op) && StartsWithSeeds(entropy, op.seeds.value)
    ensures Grades(RowOf(op, ledger, domain, jobs), op, ledger, domain, entropy, jobs)
  {
    EvidenceFinds(op, ledger);
    var i :| Grounded(op, ledger, i);
    assert Bears(EvidenceOf(op, ledger).evidence, op, ledger, i);
    if Replayable(op, ledger, domain) {
      ReplayIsRerun(op, ledger, domain, entropy, jobs);
    }
  }

  /** For every operation: the row is what the evidence and the current checker's own run make it. */
  lemma RowGrades(op: Op, ledger: Ledger, domain: Domain, entropy: nat -> int, jobs: Jobs)
    requires DomainOk(domain) && (op.seeds.Some? ==> StartsWithSeeds(entropy, op.seeds.value))
    ensures Grades(RowOf(op, ledger, domain, jobs), op, ledger, domain, entropy, jobs)
  {
    EvidenceFinds(op, ledger);
    if IsGrounded(op, ledger) && FullyRecorded(op) {
      GroundedRow(op, ledger, domain, entropy, jobs);
    }
  }

  method GradeRow(op: Op, ledger: Ledger, domain: Domain, jobs: Jobs) returns (row: Row)
    requires DomainOk(domain)
    ensures row == RowOf(op, ledger, domain, jobs)
    ensures forall entropy: nat -> int :: (op.seeds.Some? ==> StartsWithSeeds(entropy, op.seeds.value)) ==>
              Grades(row, op, ledger, domain, entropy, jobs)
  {
    forall entropy: nat -> int | op.seeds.Some? ==> StartsWithSeeds(entropy, op.seeds.value)
      ensures Grades(RowOf(op, ledger, domain, jobs), op, ledger, domain, entropy, jobs)
    {
      RowGrades(op, ledger, domain, entropy, jobs);
    }
    row := BLANK;
    var found := GatherEvidence(op, ledger);
    match found
    case Refused =>
      row := row.(refused := Some("tampered evidence"));
    case NoVerdict =>
      row := row.(unreplayable := Some("no verdict"));
    case Intact(ev) =>
      row := row.(recorded := Some(ev.status));
      if ev.status == "infrastructure_failure" {
        row := row.(unreplayable := Some("infrastructure failure"));
      } else if op.check !in domain.checkers {
        row := row.(unreplayable := Some("no current checker"));
      } else if ev.images != {} && ev.images != {domain.image} {
        row := row.(unreplayable := Some("image changed"));
      } else {
        var ctx := new ReplayContext(ev.seeds);
        var outcome := ctx.Check(domain.checkers[op.check](ev.candidate, ev.inputs, ev.secret), jobs);
        match outcome
        case WantsMoreSeeds => row := row.(unreplayable := Some("more seeds"));
        case Judged(status) => row := row.(regraded := Some(status), holds := Some(status == ev.status));
      }
  }

  /** The rows are those of the operations at `at`, in order: completed checks of the run and submission asked for, and all of them. */
  ghost predicate RowsAt(rows: seq<Row>, at: seq<nat>, ops: seq<Op>, ledger: Ledger, domain: Domain, jobs: Jobs, run: Option<string>, submission: Option<nat>)
    requires DomainOk(domain)
  {
    && |at| == |rows|
    && (forall k, l :: 0 <= k < l < |at| ==> at[k] < at[l])
    && (forall k :: 0 <= k < |at| ==> at[k] < |ops| && rows[k] == RowOf(ops[at[k]], ledger, domain, jobs))
    && forall i: nat :: i < |ops| ==>
         (i in at <==>
            && ops[i].isCheck && ops[i].completed
            && (run == None || run == Some(ops[i].run)) && (submission == None || submission == Some(ops[i].submission)))
  }

  lemma {:induction false} RowsArePicked(ops: seq<Op>, ledger: Ledger, domain: Domain, jobs: Jobs, run: Option<string>, submission: Option<nat>)
    returns (at: seq<nat>)
    requires DomainOk(domain)
    ensures RowsAt(Rows(ops, ledger, domain, jobs, run, submission), at, ops, ledger, domain, jobs, run, submission)
  {
    if ops == [] {
      at := [];
    } else {
      var n := |ops| - 1;
      at := RowsArePicked(ops[..n], ledger, domain, jobs, run, submission);
      assert forall i :: 0 <= i < n ==> ops[..n][i] == ops[i];
      if Selected(ops[n], run, submission) {
        at := at + [n];
      }
    }
  }

  method RegradeAll(ops: seq<Op>, ledger: Ledger, domain: Domain, jobs: Jobs, run: Option<string>, submission: Option<nat>)
    returns (rows: seq<Row>)
    requires DomainOk(domain)
    ensures rows == Rows(ops, ledger, domain, jobs, run, submission)
    ensures exists at :: RowsAt(rows, at, ops, ledger, domain, jobs, run, submission)
  {
    ghost var at := RowsArePicked(ops, ledger, domain, jobs, run, submission);
    rows := [];
    for i := 0 to |ops|
      invariant rows == Rows(ops[..i], ledger, domain, jobs, run, submission)
    {
      assert ops[..i + 1][..i] == ops[..i];
      if Selected(ops[i], run, submission) {
        var row := GradeRow(ops[i], ledger, domain, jobs);
        rows := rows + [row];
      }
    }
    assert ops[..|ops|] == ops;
  }

  // ---------- what a row can say ----------

  datatype Class = RefusedRow | UnreplayableRow | HoldsRow | FlippedRow

  /** The four verdicts of the report, read off the keys a row has. */
  ghost predicate Is(row: Row, c: Class) {
    match c
    case RefusedRow => row.refused.Some?
    case UnreplayableRow => row.unreplayable.Some?
    case HoldsRow => row.holds == Some(true)
    case FlippedRow => row.holds == Some(false)
  }

  /** The class the totals count, in the order they test the keys. */
  function ClassOf(row: Row): (c: Class) {
    if row.refused.Some? then RefusedRow
    else if row.unreplayable.Some? then UnreplayableRow
    else if row.holds == Some(true) then HoldsRow
    else FlippedRow
  }

  /** The row is what it is counted as, and nothing else. */
  ghost predicate ExactlyOne(row: Row) {
    forall c :: Is(row, c) <==> c == ClassOf(row)
  }

  lemma GradeIsClassified(ev: Evidence, check: string, domain: Domain, jobs: Jobs)
    requires DomainOk(domain)
    ensures ExactlyOne(GradeOf(ev, check, domain, jobs))
  {
    OneKeyOneClass(GradeOf(ev, check, domain, jobs));
  }

  lemma OneKeyOneClass(row: Row)
    requires (if row.refused.Some? then 1 else 0) + (if row.unreplayable.Some? then 1 else 0) +
             (if row.holds.Some? then 1 else 0) == 1
    ensures ExactlyOne(row)
  {
    assert row.holds.Some? ==> row.holds == Some(row.holds.value) && (row.holds.value == true || row.holds.value == false);
    forall c
      ensures Is(row, c) <==> c == ClassOf(row)
    {
      match c
      case RefusedRow =>
      case UnreplayableRow =>
      case HoldsRow =>
      case FlippedRow =>
    }
  }

  lemma RowIsClassified(op: Op, ledger: Ledger, domain: Domain, jobs: Jobs)
    requires DomainOk(domain)
    ensures ExactlyOne(RowOf(op, ledger, domain, jobs))
  {
    OneKeyOneClass(BLANK.(refused := Some("tampered evidence")));
    OneKeyOneClass(BLANK.(unreplayable := Some("no verdict")));
    var found := EvidenceOf(op, ledger);
    if found.Intact? {
      GradeIsClassified(found.evidence, op.check, domain, jobs);
    }
  }

  /** Every row of every report is exactly one of refused, unreplayable, holds, flipped. */
  lemma {:induction false} EveryRowIsClassified(ops: seq<Op>, ledger: Ledger, domain: Domain, jobs: Jobs, run: Option<string>, submission: Option<nat>)
    requires DomainOk(domain)
    ensures forall i :: 0 <= i < |Rows(ops, ledger, domain, jobs, run, submission)| ==>
              ExactlyOne(Rows(ops, ledger, domain, jobs, run, submission)[i])
  {
    if ops != [] {
      EveryRowIsClassified(ops[..|ops| - 1], ledger, domain, jobs, run, submission);
      RowIsClassified(ops[|ops| - 1], ledger, domain, jobs);
    }
  }

  /** The evidence a check leaves behind when it runs under `domain`. */
  ghost function Leaves(check: string, candidate: map<string, Bytes>, inputs: map<string, Bytes>, secret: map<string, Bytes>,
                        domain: Domain, entropy: nat -> int, jobs: Jobs): (ev: Evidence)
    requires DomainOk(domain) && check in domain.checkers
  {
    var live := Live(domain.checkers[check](candidate, inputs, secret), [], entropy, 0, jobs);
    Evidence(candidate, inputs, secret, live.status, live.seeds, if live.ranJobs then {domain.image} else {})
  }

  /** Unchanged judge, unchanged image: a recorded judgement holds, whatever its seeds were. It never flips. */
  lemma UnchangedJudgeHolds(op: Op, ledger: Ledger, domain: Domain, entropy: nat -> int, jobs: Jobs)
    requires DomainOk(domain) && op.check in domain.checkers && EvidenceOf(op, ledger).Intact?
    requires var ev := EvidenceOf(op, ledger).evidence;
             ev == Leaves(op.check, ev.candidate, ev.inputs, ev.secret, domain, entropy, jobs) &&
             ev.status != "infrastructure_failure"
    ensures var status := EvidenceOf(op, ledger).evidence.status;
            RowOf(op, ledger, domain, jobs) == Row(None, None, Some(status), Some(status), Some(true))
  {
    var ev := EvidenceOf(op, ledger).evidence;
    ReplayFidelity(domain.checkers[op.check](ev.candidate, ev.inputs, ev.secret), entropy, jobs);
  }
}
