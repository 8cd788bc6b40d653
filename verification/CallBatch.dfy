/**
 Whole case lists of real calls: the batch of fresh machines or of one shared
 machine, with the call driver as what every run does.
 */
module CallBatch {
  import opened Prelude
  import opened FunctionSpec
  import opened CallDriver
  import opened Batch

  /** How a callee left things: its stop, the world outside the snapshot, and the blocks it executed. */
  datatype Left<World> = Left(stop: Stop, world: World, blocks: seq<nat>)

  /** A callee that may also read and change the world outside registers and memory. */
  type Outgoing<!World> = (Memory, seq<int>, int, World) -> Left<World>

  /** The callee as it behaves in one world. */
  function In<World>(callee: Outgoing<World>, world: World): (r: Callee) {
    (m: Memory, regs: seq<int>, rsp: int) => callee(m, regs, rsp, world).stop
  }

  function MemoryAfter(m: Memory, stop: Stop): (r: Memory) {
    if stop.Trapped? then stop.memory else m
  }

  /** One call as a step of a batch. */
  function CallStep<World>(ps: seq<Param>, sp: int, callee: Outgoing<World>): (step: Stepper<Memory, World, Case, CallResult>) {
    (m: Memory, w: World, c: Case) =>
      if !CanMarshal(ps, c) then Ran(m, w, Unpackable, [])
      else
        var left := callee(Entered(m, sp, ps, c), RegValues(sp, ps, c, |ps|), Rsp(Top(sp, ps, c, |ps|)), w);
        Ran(MemoryAfter(m, left.stop), left.world, Finished(left.stop, sp, ps, c), left.blocks)
  }

  lemma StepIsCall<World>(ps: seq<Param>, sp: int, callee: Outgoing<World>, m: Memory, w: World, c: Case)
    ensures CallStep(ps, sp, callee)(m, w, c).out == Called(m, sp, ps, c, In(callee, w))
  {
  }

  /** A set of worlds the callee never leaves and cannot tell from `world`. */
  ghost predicate Confines<World(!new)>(ws: iset<World>, callee: Outgoing<World>, world: World) {
    && world in ws
    && (forall m, regs, rsp, w :: w in ws ==> callee(m, regs, rsp, w).world in ws)
    && (forall m, regs, rsp, w :: w in ws ==>
          && callee(m, regs, rsp, w).stop == callee(m, regs, rsp, world).stop
          && callee(m, regs, rsp, w).blocks == callee(m, regs, rsp, world).blocks)
  }

  /** Nothing the callee does outside the snapshot ever comes back to it. */
  ghost predicate Confined<World(!new)>(callee: Outgoing<World>, world: World) {
    exists ws :: Confines(ws, callee, world)
  }

  lemma ConfinedIsInsulated<World(!new)>(ps: seq<Param>, sp: int, boot: Memory, callee: Outgoing<World>, world: World)
    requires Confined(callee, world)
    ensures Insulated(CallStep(ps, sp, callee), boot, world)
  {
    var ws :| Confines(ws, callee, world);
    var step := CallStep(ps, sp, callee);
    forall w, c | w in ws
      ensures step(boot, w, c).world in ws && Shown(step(boot, w, c)) == Shown(step(boot, world, c))
    {
      ConfinedStep(ps, sp, boot, callee, world, ws, w, c);
    }
    assert Shelters(ws, step, boot, world);
  }

  lemma ConfinedStep<World(!new)>(ps: seq<Param>, sp: int, boot: Memory, callee: Outgoing<World>, world: World, ws: iset<World>, w: World, c: Case)
    requires Confines(ws, callee, world) && w in ws
    ensures var step := CallStep(ps, sp, callee);
            step(boot, w, c).world in ws && Shown(step(boot, w, c)) == Shown(step(boot, world, c))
  {
    if CanMarshal(ps, c) {
      var m, regs, rsp := Entered(boot, sp, ps, c), RegValues(sp, ps, c, |ps|), Rsp(Top(sp, ps, c, |ps|));
      assert callee(m, regs, rsp, w).world in ws;
      assert callee(m, regs, rsp, w).stop == callee(m, regs, rsp, world).stop;
    }
  }

  /**
   A batch of calls: on the shared machine when the scan found no syscall, which
   relies on the callee being confined, and on fresh machines otherwise. Case by
   case the outcome is that of the call alone, so a case that faults, stalls or
   scribbles over memory changes no other. An unpackable or unreadable outcome
   is a raise, which ends the batch there.
   */
  method BatchOfCalls<World(!new)>(ps: seq<Param>, sp: int, boot: Memory, world: World, callee: Outgoing<World>,
                                   hasSyscall: Option<bool>, cases: seq<Case>, recorder: Recorder)
    returns (outs: seq<CallResult>)
    requires recorder.Valid() && (hasSyscall == Some(false) ==> Confined(callee, world))
    modifies recorder`hits, recorder`prev, recorder.bits
    ensures |outs| == |cases|
    ensures forall i :: 0 <= i < |cases| ==> outs[i] == Called(boot, sp, ps, cases[i], In(callee, world))
  {
    var step := CallStep(ps, sp, callee);
    if hasSyscall == Some(false) { ConfinedIsInsulated(ps, sp, boot, callee, world); }
    var mode;
    outs, mode := BatchCall(step, boot, world, hasSyscall, cases, recorder);
    forall i | 0 <= i < |cases|
      ensures outs[i] == Called(boot, sp, ps, cases[i], In(callee, world))
    {
      StepIsCall(ps, sp, callee, boot, world, cases[i]);
    }
  }

  /**
   For every case list and both routes: behind a callee that keeps to its frame,
   every buffer and string of every case comes back as it went in.
   */
  lemma BatchRoundTrip<World(!new)>(ps: seq<Param>, sp: int, boot: Memory, world: World, callee: Outgoing<World>, cases: seq<Case>, k: nat, i: nat)
    requires k < |cases| && i < |ps| && NamesDistinct(ps) && sp % 16 < 8 && InMemory(ps[i]) && CanMarshal(ps, cases[k])
    requires var c := cases[k];
             var rsp := Rsp(Top(sp, ps, c, |ps|));
             var stop := callee(Entered(boot, sp, ps, c), RegValues(sp, ps, c, |ps|), rsp, world).stop;
             stop.Trapped? && WritesBelow(Entered(boot, sp, ps, c), stop.memory, rsp)
    ensures var r := FreshOuts(CallStep(ps, sp, callee), boot, world, cases)[k];
            r.Out? && ps[i].name in r.mem && r.mem[ps[i].name] == cases[k][ps[i].name]
    ensures Confined(callee, world) ==>
              SnapshotRuns(CallStep(ps, sp, callee), boot, world, cases) == FreshRuns(CallStep(ps, sp, callee), boot, world, cases)
  {
    CallRoundTrip(boot, sp, ps, cases[k], In(callee, world), i);
    StepIsCall(ps, sp, callee, boot, world, cases[k]);
    if Confined(callee, world) {
      ConfinedIsInsulated(ps, sp, boot, callee, world);
      InsulatedIsSteady(CallStep(ps, sp, callee), boot, world, cases);
      SteadyIsFaithful(CallStep(ps, sp, callee), boot, world, cases);
    }
  }
}
