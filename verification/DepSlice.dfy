/**
 Backward dependency slices: the open that owns a descriptor and the writes
 that went through it, cut to the last six events.
 */
module DepSlice {
  import opened Prelude
  import opened Canonical
  import opened AlphaEquivalence
  import opened FdWalks

  // ---------- specification ----------

  predicate IsWrite(e: Event, fd: string) {
    (e.sc == "write" || e.sc == "writev") && e.args != [] && e.args[0] == fd
  }

  function Writes(evs: seq<Event>, fd: string): (r: seq<Event>) {
    if evs == [] then []
    else
      var before := Writes(evs[..|evs| - 1], fd);
      if IsWrite(evs[|evs| - 1], fd) then before + [evs[|evs| - 1]] else before
  }

  /** The last open entered, when it was for writing. */
  function LastEnter(evs: seq<Event>): (r: Option<Event>) {
    if evs == [] then None
    else
      var e := evs[|evs| - 1];
      if OpenFamily(e.sc) && e.phase == "enter" then
        if WriteIntent(e.sc, e.args) then Some(e) else None
      else LastEnter(evs[..|evs| - 1])
  }

  function Opener(evs: seq<Event>, literal: string): (r: seq<Event>) {
    if evs == [] then []
    else
      var e := evs[|evs| - 1];
      var prefix := evs[..|evs| - 1];
      if OpenFamily(e.sc) && e.phase == "exit" && ResultText(e) == Some(literal) && LastEnter(prefix).Some?
      then [LastEnter(prefix).value, e]
      else Opener(prefix, literal)
  }

  function LastSix(evs: seq<Event>): (r: seq<Event>)
    ensures |r| <= 6
  {
    if |evs| <= 6 then evs else evs[|evs| - 6..]
  }

  function Chain(evs: seq<Event>, literal: string, fd: string): (r: Option<seq<Event>>) {
    var chain := Opener(evs, literal) + Writes(evs, fd);
    if chain == [] then None else Some(LastSix(chain))
  }

  /** The literal behind a canonical descriptor; any other text stands for itself. */
  function LiteralOf(table: seq<string>, fd: string): (r: string) {
    if table == [] then fd
    else if fd == FdName(|table| - 1) then table[|table| - 1]
    else LiteralOf(table[..|table| - 1], fd)
  }

  function SliceAt(evs: seq<Event>, focus: int): (r: Option<seq<Event>>) {
    if !(0 <= focus < |evs|) || evs[focus].args == [] then None
    else
      var fd := evs[focus].args[0];
      Chain(evs[..focus + 1], LiteralOf(FdWalk(evs).0, fd), fd)
  }

  /** The slice for a files mismatch: the descriptor opened last for writing, and its writes. */
  function SliceForFiles(evs: seq<Event>): (r: Option<seq<Event>>) {
    var table := FdWalk(evs).0;
    if table == [] then None else Chain(evs, table[|table| - 1], FdName(|table| - 1))
  }

  // ---------- the loops ----------

  method FdTable(events: seq<Event>) returns (fds: seq<string>)
    ensures fds == FdWalk(events).0
  {
    fds := [];
    var pending := false;
    for i := 0 to |events|
      invariant (fds, pending) == FdWalk(events[..i])
    {
      var e := events[i];
      assert events[..i + 1][..i] == events[..i];
      if OpenFamily(e.sc) && e.phase == "enter" {
        pending := WriteIntent(e.sc, e.args);
      } else if OpenFamily(e.sc) && e.phase == "exit" {
        var res := ResultText(e);
        if pending && res.Some? && StartsWith(res.value, "0x") {
          if res.value !in fds {
            fds := fds + [res.value];
          }
        }
        pending := false;
      }
    }
    assert events[..|events|] == events;
  }

  method BuildChain(evs: seq<Event>, literal: string, fd: string) returns (r: Option<seq<Event>>)
    ensures r == Chain(evs, literal, fd)
  {
    var chain: seq<Event> := [];
    var enter: Option<Event> := None;
    for i := 0 to |evs|
      invariant chain == Opener(evs[..i], literal)
      invariant enter == LastEnter(evs[..i])
    {
      var e := evs[i];
      assert evs[..i + 1][..i] == evs[..i];
      if OpenFamily(e.sc) && e.phase == "enter" {
        enter := if WriteIntent(e.sc, e.args) then Some(e) else None;
      } else if OpenFamily(e.sc) && e.phase == "exit" && ResultText(e) == Some(literal) && enter.Some? {
        chain := [enter.value, e];
      }
    }
    assert evs[..|evs|] == evs;
    var opener := chain;
    for i := 0 to |evs|
      invariant chain == opener + Writes(evs[..i], fd)
    {
      assert evs[..i + 1][..i] == evs[..i];
      if IsWrite(evs[i], fd) {
        chain := chain + [evs[i]];
      }
    }
    if chain == [] { return None; }
    return Some(if |chain| <= 6 then chain else chain[|chain| - 6..]);
  }

  // ---------- what a slice is anchored at ----------

  /** An exit at `q` that returned `literal`, whose latest open entered, at `p`, was for writing. */
  ghost predicate Anchor(evs: seq<Event>, p: int, q: int, literal: string) {
    && 0 <= p < q < |evs|
    && OpenEnter(evs[p]) && WriteIntent(evs[p].sc, evs[p].args)
    && (forall k :: p < k < q ==> !OpenEnter(evs[k]))
    && OpenExit(evs[q]) && ResultText(evs[q]) == Some(literal)
  }

  ghost predicate LastAnchor(evs: seq<Event>, p: int, q: int, literal: string) {
    Anchor(evs, p, q, literal) && forall p', q' :: Anchor(evs, p', q', literal) ==> q' <= q
  }

  ghost predicate EnteredAt(evs: seq<Event>, p: int) {
    0 <= p < |evs| && OpenEnter(evs[p]) && WriteIntent(evs[p].sc, evs[p].args) &&
    forall k :: p < k < |evs| ==> !OpenEnter(evs[k])
  }

  lemma {:induction false} LastEnterSound(evs: seq<Event>) returns (p: int)
    requires LastEnter(evs).Some?
    ensures EnteredAt(evs, p) && LastEnter(evs).value == evs[p]
  {
    var n := |evs| - 1;
    if OpenEnter(evs[n]) {
      p := n;
    } else {
      p := LastEnterSound(evs[..n]);
      assert forall k :: 0 <= k < n ==> evs[k] == evs[..n][k];
    }
  }

  lemma {:induction false} LastEnterComplete(evs: seq<Event>, p: int)
    requires EnteredAt(evs, p)
    ensures LastEnter(evs).Some?
  {
    var n := |evs| - 1;
    if p < n {
      assert forall k :: 0 <= k < n ==> evs[k] == evs[..n][k];
      assert !OpenEnter(evs[n]);
      LastEnterComplete(evs[..n], p);
    }
  }

  ghost predicate OpenerAt(evs: seq<Event>, literal: string, p: int, q: int) {
    LastAnchor(evs, p, q, literal) && Opener(evs, literal) == [evs[p], evs[q]]
  }

  /** Whether the last event is an exit that completes an opener. */
  ghost predicate Completes(evs: seq<Event>, literal: string)
    requires evs != []
  {
    var e := evs[|evs| - 1];
    OpenExit(e) && ResultText(e) == Some(literal) && LastEnter(evs[..|evs| - 1]).Some?
  }

  lemma OpenerStep(evs: seq<Event>, literal: string)
    requires evs != []
    ensures Opener(evs, literal) ==
            if Completes(evs, literal) then [LastEnter(evs[..|evs| - 1]).value, evs[|evs| - 1]] else Opener(evs[..|evs| - 1], literal)
  {
  }

  lemma CompletedIsLast(evs: seq<Event>, literal: string) returns (p: int)
    requires evs != [] && Completes(evs, literal)
    ensures OpenerAt(evs, literal, p, |evs| - 1)
  {
    var n := |evs| - 1;
    p := LastEnterSound(evs[..n]);
    assert forall k :: 0 <= k < n ==> evs[k] == evs[..n][k];
    OpenerStep(evs, literal);
  }

  /** When any anchor exists, the collected opener is the last one. */
  lemma {:induction false} OpenerIsLast(evs: seq<Event>, literal: string, p0: int, q0: int) returns (p: int, q: int)
    requires Anchor(evs, p0, q0, literal)
    ensures OpenerAt(evs, literal, p, q)
  {
    var n := |evs| - 1;
    if Completes(evs, literal) {
      p := CompletedIsLast(evs, literal);
      q := n;
    } else {
      AnchorBefore(evs, p0, q0, literal);
      p, q := OpenerIsLast(evs[..n], literal, p0, q0);
      AnchorStays(evs, evs[..n], p, q, literal);
      OpenerStep(evs, literal);
    }
  }

  lemma AnchorBefore(evs: seq<Event>, p: int, q: int, literal: string)
    requires Anchor(evs, p, q, literal) && !Completes(evs, literal)
    ensures Anchor(evs[..|evs| - 1], p, q, literal)
  {
    var n := |evs| - 1;
    assert forall k :: 0 <= k < n ==> evs[k] == evs[..n][k];
    if q == n {
      assert EnteredAt(evs[..n], p);
      LastEnterComplete(evs[..n], p);
    }
  }

  lemma AnchorStays(evs: seq<Event>, prefix: seq<Event>, p: int, q: int, literal: string)
    requires evs != [] && prefix == evs[..|evs| - 1]
    requires LastAnchor(prefix, p, q, literal)
    requires !(OpenExit(evs[|evs| - 1]) && ResultText(evs[|evs| - 1]) == Some(literal) && LastEnter(prefix).Some?)
    ensures LastAnchor(evs, p, q, literal) && evs[p] == prefix[p] && evs[q] == prefix[q]
  {
    var n := |evs| - 1;
    assert forall k :: 0 <= k < n ==> evs[k] == prefix[k];
    assert Anchor(evs, p, q, literal);
    forall p', q' | Anchor(evs, p', q', literal)
      ensures q' <= q
    {
      if q' == n {
        assert EnteredAt(prefix, p');
        LastEnterComplete(prefix, p');
      } else {
        assert Anchor(prefix, p', q', literal);
      }
    }
  }

  // ---------- a write through a canonical descriptor ----------

  lemma FdNameInjective(i: nat, j: nat)
    requires FdName(i) == FdName(j)
    ensures i == j
  {
    assert Dec(i) == FdName(i)[3..] == FdName(j)[3..] == Dec(j);
    DecInjective(i, j);
  }

  lemma {:induction false} LiteralOfName(table: seq<string>, k: nat)
    requires k < |table|
    ensures LiteralOf(table, FdName(k)) == table[k]
  {
    if FdName(k) == FdName(|table| - 1) {
      FdNameInjective(k, |table| - 1);
    } else {
      LiteralOfName(table[..|table| - 1], k);
    }
  }

  lemma {:induction false} CanonPrefix(t: seq<Event>, i: nat)
    requires i <= |t|
    ensures Canon(t)[..i] == Canon(t[..i])
  {
    if i == |t| {
      assert t[..i] == t && Canon(t)[..i] == Canon(t);
    } else {
      var u := t[..|t| - 1];
      CanonSnoc(t);
      CanonPrefix(u, i);
      assert u[..i] == t[..i];
      assert Canon(t)[..i] == Canon(u)[..i];
    }
  }

  lemma PrefixReadable(t: seq<Event>, i: nat)
    requires AllReadable(t) && i <= |t|
    ensures AllReadable(t[..i])
  {
  }

  /** A write through a descriptor opened for writing carries that descriptor's ordinal. */
  lemma CanonWriteHead(t: seq<Event>, i: nat)
    requires i < |t| && IsWriteEvent(t[i]) && t[i].args[0] in FdWalk(t[..i + 1]).0
    ensures Canon(t)[i].args != []
    ensures Canon(t)[i].args[0] == FdName(Ord(FdWalk(t[..i + 1]).0, t[i].args[0]))
  {
    var u := t[..i + 1];
    assert u[..i] == t[..i] && u[i] == t[i];
    CanonPrefix(t, i + 1);
    assert Canon(t)[i] == Canon(t)[..i + 1][i] == Canon(u)[i];
    CanonSnoc(u);
    CanonTable(u);
    var n := CanonEvents(t[..i], FRESH).1;
    CanonTable(t[..i]);
    var o := OpenStep(t[i], n.fds, n.pending);
    assert o == FdWalk(u);
    var n1 := n.(fds := o.0, pending := o.1);
    FdNamePlain(Ord(o.0, t[i].args[0]), n1);
    assert FdArgs(t[i], o.0)[0] == FdName(Ord(o.0, t[i].args[0]));
  }

  ghost function StdoutReopened(): (t: seq<Event>) {
    [Event("creat", "enter", [], map[]), Event("creat", "exit", [], map["result" := JStr("0x1")]),
     Event("write", "enter", ["0x1"], map[])]
  }

  /** Nothing exempts descriptor 1: once an open for writing returns it, a write to it shows FD_0. */
  lemma StdoutIsRenamed()
    ensures Canon(StdoutReopened())[2].args[0] == "FD_0"
  {
    var t := StdoutReopened();
    assert t[..3] == t;
    ReopenedTable(t[0], t[1], t[2]);
    CanonWriteHead(t, 2);
    assert FdName(0) == "FD_0";
  }

  lemma ReopenedTable(e: Event, x: Event, w: Event)
    requires e.sc == "creat" && e.phase == "enter" && x.sc == "creat" && x.phase == "exit" && !OpenFamily(w.sc)
    requires ResultText(x) == Some("0x1")
    ensures FdWalk([e, x, w]).0 == ["0x1"]
  {
    assert [e, x, w][..2] == [e, x] && [e, x][..1] == [e] && [e][..0] == [];
    assert StartsWith("0x1", "0x");
    assert FdWalk([e]) == ([], true);
    assert FdWalk([e, x]).0 == ["0x1"];
  }

  ghost predicate IsWriteEvent(e: Event) {
    (e.sc == "write" || e.sc == "writev") && e.args != []
  }

  /** Ends at the focus, at most six events: the last six of the owning open and the writes, all of them while at most four writes follow it. */
  ghost predicate Anchored(slice: seq<Event>, evs: seq<Event>, focus: nat, p: int, q: int)
    requires focus < |evs| && evs[focus].args != [] && 0 <= p < |evs| && 0 <= q < |evs|
  {
    var writes := Writes(evs[..focus + 1], evs[focus].args[0]);
    && 1 <= |slice| <= 6 && slice[|slice| - 1] == evs[focus]
    && (|writes| <= 4 ==> slice == [evs[p], evs[q]] + writes)
    && (|writes| > 4 ==> slice == ([evs[p], evs[q]] + writes)[|writes| - 4..])
  }

  /** `at` are the places of the writes and writevs whose first argument is the descriptor, in order, and `ws` those events. */
  ghost predicate StandAt(ws: seq<Event>, at: seq<nat>, evs: seq<Event>, fd: string) {
    && |at| == |ws|
    && (forall k, l :: 0 <= k < l < |at| ==> at[k] < at[l])
    && (forall k :: 0 <= k < |at| ==> at[k] < |evs| && ws[k] == evs[at[k]])
    && forall i: nat :: i < |evs| ==>
         (i in at <==> (evs[i].sc == "write" || evs[i].sc == "writev") && evs[i].args != [] && evs[i].args[0] == fd)
  }

  lemma StandSnoc(ws: seq<Event>, at: seq<nat>, evs: seq<Event>, e: Event, fd: string)
    requires StandAt(ws, at, evs, fd)
    ensures if IsWrite(e, fd) then StandAt(ws + [e], at + [|evs|], evs + [e], fd) else StandAt(ws, at, evs + [e], fd)
  {
    assert forall i :: 0 <= i < |evs| ==> (evs + [e])[i] == evs[i];
    assert (evs + [e])[|evs|] == e;
  }

  /** The writes a slice collects, by where they stand. */
  lemma {:induction false} WritesStand(evs: seq<Event>, fd: string) returns (at: seq<nat>)
    ensures StandAt(Writes(evs, fd), at, evs, fd)
  {
    if evs == [] {
      at := [];
    } else {
      var n := |evs| - 1;
      at := WritesStand(evs[..n], fd);
      StandSnoc(Writes(evs[..n], fd), at, evs[..n], evs[n], fd);
      assert evs[..n] + [evs[n]] == evs;
      if IsWrite(evs[n], fd) {
        at := at + [n];
      }
    }
  }

  /**
   The slice of a write through an opened descriptor: it ends at the focus, it
   has at most six events, and while at most four writes reached the descriptor
   it starts with the last open for writing that returned it.
   */
  lemma {:induction false} SliceIsAnchored(t: seq<Event>, focus: nat) returns (p: int, q: int)
    requires AllReadable(t) && focus < |t|
    requires IsWriteEvent(t[focus]) && t[focus].args[0] in FdWalk(t[..focus + 1]).0
    ensures LastAnchor(Canon(t)[..focus + 1], p, q, t[focus].args[0])
    ensures Canon(t)[focus].args != []
    ensures SliceAt(Canon(t), focus).Some?
    ensures Anchored(SliceAt(Canon(t), focus).value, Canon(t), focus, p, q)
  {
    SliceReadsLiteral(t, focus);
    p, q := FocusIsOpened(t, focus);
    CanonKeepsShape(t, FRESH, focus);
    ChainIsAnchored(Canon(t), focus, t[focus].args[0], p, q);
  }

  lemma ChainIsAnchored(c: seq<Event>, focus: nat, literal: string, p: int, q: int)
    requires focus < |c| && IsWriteEvent(c[focus])
    requires OpenerAt(c[..focus + 1], literal, p, q)
    ensures Chain(c[..focus + 1], literal, c[focus].args[0]).Some?
    ensures Anchored(Chain(c[..focus + 1], literal, c[focus].args[0]).value, c, focus, p, q)
  {
    var d := c[..focus + 1];
    assert d[focus] == c[focus] && d[p] == c[p] && d[q] == c[q];
    ChainEnds(d, literal, c[focus].args[0]);
  }

  lemma {:induction false} SliceReadsLiteral(t: seq<Event>, focus: nat)
    requires AllReadable(t) && focus < |t|
    requires IsWriteEvent(t[focus]) && t[focus].args[0] in FdWalk(t[..focus + 1]).0
    ensures Canon(t)[focus].args != []
    ensures SliceAt(Canon(t), focus) == Chain(Canon(t)[..focus + 1], t[focus].args[0], Canon(t)[focus].args[0])
  {
    CanonWriteHead(t, focus);
    FdWalksAgree(t);
    FdWalkGrows(t, focus + 1);
    var k := Ord(FdWalk(t[..focus + 1]).0, t[focus].args[0]);
    LiteralOfName(FdWalk(Canon(t)).0, k);
  }

  lemma {:induction false} FocusIsOpened(t: seq<Event>, focus: nat) returns (p: int, q: int)
    requires AllReadable(t) && focus < |t|
    requires IsWriteEvent(t[focus]) && t[focus].args[0] in FdWalk(t[..focus + 1]).0
    ensures OpenerAt(Canon(t)[..focus + 1], t[focus].args[0], p, q)
  {
    var d, literal := Canon(t)[..focus + 1], t[focus].args[0];
    CanonPrefix(t, focus + 1);
    PrefixReadable(t, focus + 1);
    FdWalksAgree(t[..focus + 1]);
    var p0, q0 := FdTableSound(d, literal);
    assert Anchor(d, p0, q0, literal);
    p, q := OpenerIsLast(d, literal, p0, q0);
  }

  lemma ChainEnds(evs: seq<Event>, literal: string, fd: string)
    requires evs != [] && IsWrite(evs[|evs| - 1], fd) && |Opener(evs, literal)| == 2
    ensures var s := Chain(evs, literal, fd);
            && s.Some? && 1 <= |s.value| <= 6 && s.value[|s.value| - 1] == evs[|evs| - 1]
            && (|Writes(evs, fd)| <= 4 ==> s.value == Opener(evs, literal) + Writes(evs, fd))
            && (|Writes(evs, fd)| > 4 ==> s.value == (Opener(evs, literal) + Writes(evs, fd))[|Writes(evs, fd)| - 4..])
  {
    var w := Writes(evs, fd);
    assert w[|w| - 1] == evs[|evs| - 1];
  }

  // ---------- the slice for a files mismatch ----------

  /** `fd` is the descriptor whose first open for writing came last. */
  ghost predicate OpenedLast(evs: seq<Event>, fd: string) {
    exists q :: FirstOpen(evs, q, fd) && forall gd, r :: FirstOpen(evs, r, gd) ==> r <= q
  }

  lemma LastOfTable(evs: seq<Event>)
    requires FdWalk(evs).0 != []
    ensures OpenedLast(evs, FdWalk(evs).0[|FdWalk(evs).0| - 1])
  {
    var table := FdWalk(evs).0;
    var n := |table| - 1;
    var q := FirstOfTabled(evs, table[n]);
    OrdAt(table, n);
    forall gd, r | FirstOpen(evs, r, gd)
      ensures r <= q
    {
      if q < r {
        TableOrder(evs, q, r, table[n], gd);
      }
    }
  }

  /** No slice exactly when nothing was opened for writing. */
  lemma NoFilesSlice(evs: seq<Event>)
    ensures SliceForFiles(evs).None? <==> forall gd :: !OpenedToWrite(evs, gd)
  {
    var table := FdWalk(evs).0;
    forall gd
      ensures OpenedToWrite(evs, gd) <==> gd in table
    {
      FdTableIff(evs, gd);
    }
    if table != [] {
      assert OpenedToWrite(evs, table[0]);
      var fd, p, q := SliceOfTable(evs);
    }
  }

  lemma SliceOfTable(evs: seq<Event>) returns (fd: string, p: int, q: int)
    requires FdWalk(evs).0 != []
    ensures OpenedLast(evs, fd) && OpenerAt(evs, fd, p, q)
    ensures SliceForFiles(evs) == Chain(evs, fd, FdName(|FdWalk(evs).0| - 1)) && SliceForFiles(evs).Some?
  {
    var table := FdWalk(evs).0;
    fd := table[|table| - 1];
    LastOfTable(evs);
    var p0, q0 := FdTableSound(evs, fd);
    assert Anchor(evs, p0, q0, fd);
    p, q := OpenerIsLast(evs, fd, p0, q0);
  }

  /**
   The slice for a files mismatch: the last six of the last owning open of the
   descriptor opened last and the writes that carry its ordinal.
   */
  lemma FilesSlice(evs: seq<Event>) returns (fd: string, p: int, q: int)
    requires SliceForFiles(evs).Some?
    ensures OpenedLast(evs, fd) && LastAnchor(evs, p, q, fd)
    ensures var chain := [evs[p], evs[q]] + Writes(evs, FdName(|FdWalk(evs).0| - 1));
            SliceForFiles(evs).value == if |chain| <= 6 then chain else chain[|chain| - 6..]
  {
    fd, p, q := SliceOfTable(evs);
  }
}
