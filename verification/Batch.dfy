/**
 A whole case list on one machine: a snapshot is restored before every case, so
 the batch must equal one fresh machine per case. An edge recorder may ride
 along; its totals must be those of the cases taken one by one.
 */
module Batch {
  import opened Prelude

  const BINS := 0x8000

  /** What one run leaves behind: the machine, the world outside the snapshot, its trace and its basic blocks. */
  datatype Ran<Core, World, Out> = Ran(core: Core, world: World, out: Out, blocks: seq<nat>)

  type Stepper<!Core, !World, !Case, Out> = (Core, World, Case) -> Ran<Core, World, Out>

  // ---------- premises ----------

  /** Runs change nothing outside registers and memory. */
  ghost predicate Pure<Core(!new), World(!new), Case(!new), Out(!new)>(step: Stepper<Core, World, Case, Out>) {
    forall c, w, x :: step(c, w, x).world == w
  }

  /** Runs read nothing outside registers and memory. */
  ghost predicate Blind<Core(!new), World(!new), Case(!new), Out(!new)>(step: Stepper<Core, World, Case, Out>) {
    forall c, w, v, x :: step(c, w, x).out == step(c, v, x).out && step(c, w, x).blocks == step(c, v, x).blocks
  }

  /** Where the world has got to after running the cases one after another, each from the boot state. */
  ghost function WorldAfter<Core, World, Case, Out>(step: Stepper<Core, World, Case, Out>, boot: Core, world: World, cases: seq<Case>): (w: World) {
    if cases == [] then world
    else step(boot, WorldAfter(step, boot, world, cases[..|cases| - 1]), cases[|cases| - 1]).world
  }

  /** What a run shows: its trace and its blocks. */
  ghost function Shown<Core, World, Out>(r: Ran<Core, World, Out>): (s: (Out, seq<nat>)) { (r.out, r.blocks) }

  /** No run shows anything else for what the runs before it did to the world. */
  ghost predicate Steady<Core, World, Case, Out>(step: Stepper<Core, World, Case, Out>, boot: Core, world: World, cases: seq<Case>) {
    cases == [] ||
    var n := |cases| - 1;
    && Steady(step, boot, world, cases[..n])
    && Shown(step(boot, WorldAfter(step, boot, world, cases[..n]), cases[n])) == Shown(step(boot, world, cases[n]))
  }

  /** A set of worlds that runs never leave and in none of which a run shows anything else than in `world`. */
  ghost predicate Shelters<Core(!new), World(!new), Case(!new), Out(!new)>(
    ws: iset<World>, step: Stepper<Core, World, Case, Out>, boot: Core, world: World)
  {
    && world in ws
    && (forall w, x :: w in ws ==> step(boot, w, x).world in ws)
    && (forall w, x :: w in ws ==> Shown(step(boot, w, x)) == Shown(step(boot, world, x)))
  }

  /** What runs do to the world outside the snapshot never shows. */
  ghost predicate Insulated<Core(!new), World(!new), Case(!new), Out(!new)>(
    step: Stepper<Core, World, Case, Out>, boot: Core, world: World)
  {
    exists ws :: Shelters(ws, step, boot, world)
  }

  lemma {:induction false} ShelteredWorld<Core(!new), World(!new), Case(!new), Out(!new)>(
    ws: iset<World>, step: Stepper<Core, World, Case, Out>, boot: Core, world: World, cases: seq<Case>)
    requires Shelters(ws, step, boot, world)
    ensures WorldAfter(step, boot, world, cases) in ws
    ensures Steady(step, boot, world, cases)
  {
    if cases != [] {
      ShelteredWorld(ws, step, boot, world, cases[..|cases| - 1]);
    }
  }

  ghost predicate Reached<Core(!new), World(!new), Case(!new), Out(!new)>(
    step: Stepper<Core, World, Case, Out>, boot: Core, world: World, w: World)
  {
    exists cases :: WorldAfter(step, boot, world, cases) == w
  }

  ghost function Reachable<Core(!new), World(!new), Case(!new), Out(!new)>(
    step: Stepper<Core, World, Case, Out>, boot: Core, world: World): (ws: iset<World>)
  {
    iset w: World | Reached(step, boot, world, w)
  }

  /** The reachable worlds are such a set when every case list is steady. */
  lemma ReachableShelters<Core(!new), World(!new), Case(!new), Out(!new)>(step: Stepper<Core, World, Case, Out>, boot: Core, world: World)
    requires forall cases :: Steady(step, boot, world, cases)
    ensures Shelters(Reachable(step, boot, world), step, boot, world)
  {
    var ws := Reachable(step, boot, world);
    assert WorldAfter(step, boot, world, []) == world;
    forall w, x | w in ws
      ensures step(boot, w, x).world in ws && Shown(step(boot, w, x)) == Shown(step(boot, world, x))
    {
      var cases :| WorldAfter(step, boot, world, cases) == w;
      var more := cases + [x];
      assert more[..|cases|] == cases && more[|cases|] == x;
      assert Steady(step, boot, world, more);
      assert step(boot, w, x).world == WorldAfter(step, boot, world, more);
    }
  }

  /** An insulated callee is steady on every case list. */
  lemma InsulatedIsSteady<Core(!new), World(!new), Case(!new), Out(!new)>(
    step: Stepper<Core, World, Case, Out>, boot: Core, world: World, cases: seq<Case>)
    requires Insulated(step, boot, world)
    ensures Steady(step, boot, world, cases)
  {
    var ws :| Shelters(ws, step, boot, world);
    ShelteredWorld(ws, step, boot, world, cases);
  }

  /** No run tells the two worlds apart. */
  ghost predicate LooksLike<Core(!new), World(!new), Case(!new), Out(!new)>(
    step: Stepper<Core, World, Case, Out>, boot: Core, w: World, world: World)
  {
    forall x :: Shown(step(boot, w, x)) == Shown(step(boot, world, x))
  }

  /** A callee that leaves the outside world alone, or never looks at it, is insulated. */
  lemma PureOrBlindIsInsulated<Core(!new), World(!new), Case(!new), Out(!new)>(
    step: Stepper<Core, World, Case, Out>, boot: Core, world: World)
    requires Pure(step) || Blind(step)
    ensures Insulated(step, boot, world)
  {
    if Pure(step) {
      assert Shelters(iset{world}, step, boot, world);
    } else {
      var alike := iset w: World | LooksLike(step, boot, w, world);
      assert Shelters(alike, step, boot, world);
    }
  }

  // ---------- one fresh machine per case ----------

  function FreshOuts<Core, World, Case, Out>(step: Stepper<Core, World, Case, Out>, boot: Core, world: World, cases: seq<Case>): (r: seq<Out>)
    ensures |r| == |cases| && forall i :: 0 <= i < |cases| ==> r[i] == step(boot, world, cases[i]).out
  {
    seq(|cases|, i requires 0 <= i < |cases| => step(boot, world, cases[i]).out)
  }

  // ---------- edges ----------

  /** The bin of the edge from block `prev` to block `address`. */
  function EdgeBin(address: nat, prev: nat): (b: nat)
    ensures b < BINS
  {
    Xor(address, prev / 2) % BINS
  }

  /** The bits below `w` are those of the remainder. */
  lemma {:induction false} BitsBelow(n: nat, q: nat, r: nat, w: nat, k: nat)
    requires n == q * Pow2(w) + r && r < Pow2(w)
    ensures Bit(r, k) <==> k < w && Bit(n, k)
  {
    if w == 0 {
      ZeroBits(k);
    } else {
      Twice(q, Pow2(w - 1));
      HalfSum(n, q * Pow2(w - 1), r);
      if k != 0 {
        BitsBelow(n / 2, q, r / 2, w - 1, k - 1);
      }
    }
  }

  lemma {:induction false} ZeroBits(k: nat)
    ensures !Bit(0, k)
  {
    if k != 0 {
      ZeroBits(k - 1);
    }
  }

  lemma Twice(q: nat, m: nat)
    ensures q * (2 * m) == 2 * (q * m) && 0 <= q * m
  {
  }

  lemma HalfSum(n: nat, s: nat, r: nat)
    requires n == 2 * s + r
    ensures n / 2 == s + r / 2 && n % 2 == r % 2
  {
  }

  /** Bit k of an edge's bin: set in the block's address or one up in the previous one, not in both; fifteen bits in all. */
  lemma EdgeBits(address: nat, prev: nat, k: nat)
    ensures Bit(EdgeBin(address, prev), k) <==> k < 15 && Bit(address, k) != Bit(prev, k + 1)
  {
    assert Pow2(5) == 32 && Pow2(10) == 1024 && Pow2(15) == BINS;
    XorBits(address, prev / 2, k);
    var x := Xor(address, prev / 2);
    BitsBelow(x, x / BINS, x % BINS, 15, k);
  }

  function EdgesFrom(prev: nat, blocks: seq<nat>): (r: set<nat>)
    ensures forall b :: b in r ==> b < BINS
    decreases blocks
  {
    if blocks == [] then {} else {EdgeBin(blocks[0], prev)} + EdgesFrom(blocks[0], blocks[1..])
  }

  /** The bins one case hits on its own. */
  function CaseEdges(blocks: seq<nat>): (r: set<nat>)
    ensures forall b :: b in r ==> b < BINS
  {
    EdgesFrom(0, blocks)
  }

  /** `b` is the bin of the edge into block `i`. */
  ghost predicate EdgeAt(prev: nat, blocks: seq<nat>, i: int, b: nat) {
    0 <= i < |blocks| && b == EdgeBin(blocks[i], if i == 0 then prev else blocks[i - 1])
  }

  /** A case hits exactly the bins of its consecutive blocks. */
  lemma {:induction false} EdgesIff(prev: nat, blocks: seq<nat>, b: nat)
    ensures b in EdgesFrom(prev, blocks) <==> exists i :: EdgeAt(prev, blocks, i, b)
    decreases |blocks|
  {
    if blocks != [] {
      var rest := blocks[1..];
      EdgesIff(blocks[0], rest, b);
      if i :| EdgeAt(blocks[0], rest, i, b) {
        assert EdgeAt(prev, blocks, i + 1, b);
      }
      if i :| EdgeAt(prev, blocks, i, b) {
        assert i == 0 || EdgeAt(blocks[0], rest, i - 1, b);
      }
      if b == EdgeBin(blocks[0], prev) {
        assert EdgeAt(prev, blocks, 0, b);
      }
    }
  }

  function UnionEdges(runs: seq<seq<nat>>): (r: set<nat>)
    ensures forall b :: b in r ==> b < BINS
  {
    if runs == [] then {} else UnionEdges(runs[..|runs| - 1]) + CaseEdges(runs[|runs| - 1])
  }

  function SumHits(runs: seq<seq<nat>>): (r: nat) {
    if runs == [] then 0 else SumHits(runs[..|runs| - 1]) + |runs[|runs| - 1]|
  }

  /** One batch's totals and the block last seen. */
  class Recorder {
    const bits: array<bool>
    var hits: nat
    var prev: nat

    ghost predicate Valid()
      reads this
    {
      bits.Length == BINS
    }

    ghost function Seen(): (r: set<nat>)
      requires Valid()
      reads this, bits
    {
      set i | 0 <= i < BINS && bits[i]
    }

    constructor ()
      ensures Valid() && fresh(bits) && Seen() == {} && hits == 0
    {
      bits := new bool[BINS](_ => false);
      hits, prev := 0, 0;
    }

    /** No edge joins the last block of one case to the first of the next. */
    method BeforeCase()
      requires Valid()
      modifies this`prev
      ensures prev == 0
    {
      prev := 0;
    }

    method Block(address: nat)
      requires Valid()
      modifies this`hits, this`prev, bits
      ensures Seen() == old(Seen()) + {EdgeBin(address, old(prev))}
      ensures hits == old(hits) + 1 && prev == address
    {
      bits[EdgeBin(address, prev)] := true;
      prev := address;
      hits := hits + 1;
    }

    /** The callbacks of one run. */
    method Observe(blocks: seq<nat>)
      requires Valid()
      modifies this`hits, this`prev, bits
      ensures Seen() == old(Seen()) + EdgesFrom(old(prev), blocks)
      ensures hits == old(hits) + |blocks|
    {
      for i := 0 to |blocks|
        invariant Seen() + EdgesFrom(prev, blocks[i..]) == old(Seen()) + EdgesFrom(old(prev), blocks)
        invariant hits == old(hits) + i
      {
        assert blocks[i..][0] == blocks[i] && blocks[i..][1..] == blocks[i + 1..];
        Block(blocks[i]);
      }
    }
  }

  /** A machine under test and the world its snapshot does not span. */
  class Vm<Core, World> {
    var core: Core
    var world: World

    constructor (core: Core, world: World)
      ensures this.core == core && this.world == world
    {
      this.core, this.world := core, world;
    }

    method Save() returns (snapshot: Core)
      ensures snapshot == core
    {
      snapshot := core;
    }

    /** Registers and memory only. */
    method Restore(snapshot: Core)
      modifies this`core
      ensures core == snapshot
    {
      core := snapshot;
    }

    method Run<Case, Out>(step: Stepper<Core, World, Case, Out>, x: Case) returns (out: Out, blocks: seq<nat>)
      modifies this
      ensures var r := step(old(core), old(world), x);
              core == r.core && world == r.world && out == r.out && blocks == r.blocks
    {
      var r := step(core, world, x);
      core, world, out, blocks := r.core, r.world, r.out, r.blocks;
    }
  }

  datatype Mode = BatchedSnapshot | FreshVmFallback

  /** The blocks each case would execute on a fresh machine. */
  ghost function FreshBlocks<Core, World, Case, Out>(step: Stepper<Core, World, Case, Out>, boot: Core, world: World, cases: seq<Case>): (r: seq<seq<nat>>)
    ensures |r| == |cases| && forall i :: 0 <= i < |cases| ==> r[i] == step(boot, world, cases[i]).blocks
  {
    seq(|cases|, i requires 0 <= i < |cases| => step(boot, world, cases[i]).blocks)
  }

  lemma UnionSnoc(runs: seq<seq<nat>>, i: nat)
    requires i < |runs|
    ensures UnionEdges(runs[..i + 1]) == UnionEdges(runs[..i]) + CaseEdges(runs[i])
    ensures SumHits(runs[..i + 1]) == SumHits(runs[..i]) + |runs[i]|
  {
    assert runs[..i + 1][..i] == runs[..i];
  }

  /** Reset the recorder, run one case under it. */
  method RunHooked<Core, World, Case, Out>(vm: Vm<Core, World>, step: Stepper<Core, World, Case, Out>, x: Case, recorder: Recorder)
    returns (out: Out)
    requires recorder.Valid()
    modifies vm, recorder`hits, recorder`prev, recorder.bits
    ensures var r := step(old(vm.core), old(vm.world), x);
            && out == r.out && vm.world == r.world
            && recorder.Seen() == old(recorder.Seen()) + CaseEdges(r.blocks)
            && recorder.hits == old(recorder.hits) + |r.blocks|
  {
    recorder.BeforeCase();
    var blocks;
    out, blocks := vm.Run(step, x);
    recorder.Observe(blocks);
  }

  /** The recorder has added the first `n` runs to what it held before. */
  ghost predicate Added(recorder: Recorder, seen: set<nat>, hits: nat, runs: seq<seq<nat>>, n: nat)
    requires recorder.Valid() && n <= |runs|
    reads recorder, recorder.bits
  {
    recorder.Seen() == seen + UnionEdges(runs[..n]) && recorder.hits == hits + SumHits(runs[..n])
  }

  /** The next run of a batch, added to the recorder. */
  method RunNext<Core, World, Case, Out>(vm: Vm<Core, World>, step: Stepper<Core, World, Case, Out>, x: Case, recorder: Recorder,
                                         ghost seen: set<nat>, ghost hits: nat, ghost runs: seq<seq<nat>>, ghost n: nat)
    returns (out: Out)
    requires recorder.Valid() && n < |runs| && Added(recorder, seen, hits, runs, n)
    requires step(vm.core, vm.world, x).blocks == runs[n]
    modifies vm, recorder`hits, recorder`prev, recorder.bits
    ensures var r := step(old(vm.core), old(vm.world), x); out == r.out && vm.world == r.world
    ensures Added(recorder, seen, hits, runs, n + 1)
  {
    UnionSnoc(runs, n);
    out := RunHooked(vm, step, x, recorder);
  }

  /** One machine per case. */
  method FreshRoute<Core(!new), World(!new), Case(!new), Out(!new)>(
    step: Stepper<Core, World, Case, Out>, boot: Core, world: World, cases: seq<Case>, recorder: Recorder)
    returns (outs: seq<Out>)
    requires recorder.Valid()
    modifies recorder`hits, recorder`prev, recorder.bits
    ensures outs == FreshOuts(step, boot, world, cases)
    ensures Added(recorder, old(recorder.Seen()), old(recorder.hits), FreshBlocks(step, boot, world, cases), |cases|)
  {
    outs := [];
    ghost var runs, goal := FreshBlocks(step, boot, world, cases), FreshOuts(step, boot, world, cases);
    ghost var seen, hits := recorder.Seen(), recorder.hits;
    for i := 0 to |cases|
      invariant outs == goal[..i]
      invariant Added(recorder, seen, hits, runs, i)
    {
      var vm := new Vm<Core, World>(boot, world);
      var out := RunNext(vm, step, cases[i], recorder, seen, hits, runs, i);
      outs := outs + [out];
    }
  }

  lemma {:induction false} SteadyTo<Core, World, Case, Out>(
    step: Stepper<Core, World, Case, Out>, boot: Core, world: World, cases: seq<Case>, i: nat)
    requires Steady(step, boot, world, cases) && i <= |cases|
    ensures Steady(step, boot, world, cases[..i])
  {
    if i == |cases| {
      assert cases[..i] == cases;
    } else {
      var n := |cases| - 1;
      SteadyTo(step, boot, world, cases[..n], i);
      assert cases[..n][..i] == cases[..i];
    }
  }

  lemma SteadyAt<Core, World, Case, Out>(
    step: Stepper<Core, World, Case, Out>, boot: Core, world: World, cases: seq<Case>, i: nat)
    requires Steady(step, boot, world, cases) && i < |cases|
    ensures var r := step(boot, WorldAfter(step, boot, world, cases[..i]), cases[i]);
            && r.out == FreshOuts(step, boot, world, cases)[i]
            && r.blocks == FreshBlocks(step, boot, world, cases)[i]
            && r.world == WorldAfter(step, boot, world, cases[..i + 1])
  {
    SteadyTo(step, boot, world, cases, i + 1);
    assert cases[..i + 1][..i] == cases[..i];
  }

  /** One machine, its snapshot restored before every case. */
  method SnapshotRoute<Core(!new), World(!new), Case(!new), Out(!new)>(
    step: Stepper<Core, World, Case, Out>, boot: Core, world: World, cases: seq<Case>, recorder: Recorder)
    returns (outs: seq<Out>)
    requires recorder.Valid() && Steady(step, boot, world, cases)
    modifies recorder`hits, recorder`prev, recorder.bits
    ensures outs == FreshOuts(step, boot, world, cases)
    ensures Added(recorder, old(recorder.Seen()), old(recorder.hits), FreshBlocks(step, boot, world, cases), |cases|)
  {
    outs := [];
    ghost var runs, goal := FreshBlocks(step, boot, world, cases), FreshOuts(step, boot, world, cases);
    ghost var seen, hits := recorder.Seen(), recorder.hits;
    var vm := new Vm<Core, World>(boot, world);
    var snapshot := vm.Save();
    for i := 0 to |cases|
      invariant fresh(vm) && vm.world == WorldAfter(step, boot, world, cases[..i])
      invariant outs == goal[..i]
      invariant Added(recorder, seen, hits, runs, i)
    {
      SteadyAt(step, boot, world, cases, i);
      vm.Restore(snapshot);
      var out := RunNext(vm, step, cases[i], recorder, seen, hits, runs, i);
      outs := outs + [out];
    }
  }

  /**
   The batch. `hasSyscall` is the opcode scan: Some(false) takes the shared
   snapshot, which relies on the callee being insulated, or on these cases at
   least being steady; anything else gets one machine per case and relies on
   nothing. Every case's trace is that of a fresh machine, and the recorder ends
   with the union of the cases' edges and the sum of their hits.
   */
  method BatchCall<Core(!new), World(!new), Case(!new), Out(!new)>(
    step: Stepper<Core, World, Case, Out>, boot: Core, world: World, hasSyscall: Option<bool>, cases: seq<Case>, recorder: Recorder)
    returns (outs: seq<Out>, mode: Mode)
    requires recorder.Valid() && (hasSyscall == Some(false) ==> Insulated(step, boot, world) || Steady(step, boot, world, cases))
    modifies recorder`hits, recorder`prev, recorder.bits
    ensures outs == FreshOuts(step, boot, world, cases)
    ensures mode == if hasSyscall == Some(false) then BatchedSnapshot else FreshVmFallback
    ensures recorder.Seen() == old(recorder.Seen()) + UnionEdges(FreshBlocks(step, boot, world, cases))
    ensures recorder.hits == old(recorder.hits) + SumHits(FreshBlocks(step, boot, world, cases))
  {
    ghost var runs := FreshBlocks(step, boot, world, cases);
    assert runs[..|cases|] == runs;
    if hasSyscall != Some(false) {
      outs := FreshRoute(step, boot, world, cases, recorder);
      mode := FreshVmFallback;
    } else {
      if Insulated(step, boot, world) { InsulatedIsSteady(step, boot, world, cases); }
      outs := SnapshotRoute(step, boot, world, cases, recorder);
      mode := BatchedSnapshot;
    }
  }

  // ---------- why the premise is needed ----------

  /** What every case shows when one machine is restored before each of them and the world is not. */
  ghost function SnapshotRuns<Core, World, Case, Out>(step: Stepper<Core, World, Case, Out>, boot: Core, world: World, cases: seq<Case>)
    : (r: seq<(Out, seq<nat>)>)
    ensures |r| == |cases|
  {
    if cases == [] then []
    else
      var n := |cases| - 1;
      SnapshotRuns(step, boot, world, cases[..n]) + [Shown(step(boot, WorldAfter(step, boot, world, cases[..n]), cases[n]))]
  }

  /** What every case shows on a machine and a world of its own. */
  ghost function FreshRuns<Core, World, Case, Out>(step: Stepper<Core, World, Case, Out>, boot: Core, world: World, cases: seq<Case>)
    : (r: seq<(Out, seq<nat>)>)
    ensures |r| == |cases|
  {
    if cases == [] then []
    else
      var n := |cases| - 1;
      FreshRuns(step, boot, world, cases[..n]) + [Shown(step(boot, world, cases[n]))]
  }

  lemma {:induction false} SteadyIsFaithful<Core, World, Case, Out>(step: Stepper<Core, World, Case, Out>, boot: Core, world: World, cases: seq<Case>)
    ensures SnapshotRuns(step, boot, world, cases) == FreshRuns(step, boot, world, cases) <==> Steady(step, boot, world, cases)
  {
    if cases != [] {
      var n := |cases| - 1;
      SteadyIsFaithful(step, boot, world, cases[..n]);
      var a, b := SnapshotRuns(step, boot, world, cases), FreshRuns(step, boot, world, cases);
      assert a[..n] == SnapshotRuns(step, boot, world, cases[..n]) && b[..n] == FreshRuns(step, boot, world, cases[..n]);
      assert a == a[..n] + [a[n]] && b == b[..n] + [b[n]];
    }
  }

  ghost predicate Faithful<Core(!new), World(!new), Case(!new), Out(!new)>(
    step: Stepper<Core, World, Case, Out>, boot: Core, world: World, cases: seq<Case>)
  {
    SnapshotRuns(step, boot, world, cases) == FreshRuns(step, boot, world, cases)
  }

  /**
   One shared machine is faithful on every case list if and only if some set of
   worlds holds the first one, is closed under runs, and looks the same to every
   run from anywhere in it.
   */
  lemma SnapshotFaithfulIff<Core(!new), World(!new), Case(!new), Out(!new)>(step: Stepper<Core, World, Case, Out>, boot: Core, world: World)
    ensures (forall cases :: Faithful(step, boot, world, cases)) <==> Insulated(step, boot, world)
  {
    if Insulated(step, boot, world) {
      forall cases
        ensures Faithful(step, boot, world, cases)
      {
        InsulatedIsSteady(step, boot, world, cases);
        SteadyIsFaithful(step, boot, world, cases);
      }
    }
    if forall cases :: Faithful(step, boot, world, cases) {
      forall cases
        ensures Steady(step, boot, world, cases)
      {
        assert Faithful(step, boot, world, cases);
        SteadyIsFaithful(step, boot, world, cases);
      }
      ReachableShelters(step, boot, world);
    }
  }

  /** A callee that counts its calls in a file: the snapshot does not undo the count. */
  lemma CountingLeaks()
    ensures var step: Stepper<(), int, (), int> := (c, w, x) => Ran(c, w + 1, w, []);
            SnapshotRuns(step, (), 0, [(), ()]) != FreshRuns(step, (), 0, [(), ()])
  {
    var step: Stepper<(), int, (), int> := (c, w, x) => Ran(c, w + 1, w, []);
    var two := [(), ()];
    assert two[..1] == [()] && [()][..0] == [];
    assert WorldAfter(step, (), 0, [()]) == 1;
    assert SnapshotRuns(step, (), 0, two)[1] == (1, []);
  }
}
