/**
 The descriptor table is built twice: by the canonicaliser on the raw events and
 again, for dependency slices, on the canonical ones. The two walks agree, and
 a slice is anchored at the open that owns its descriptor.
 */
module FdWalks {
  import opened Prelude
  import opened Canonical
  import opened AlphaEquivalence

  // ---------- the walk and what it collects ----------

  /** Table and pending flag after the events so far, in the order they happened. */
  function FdWalk(evs: seq<Event>): (r: (seq<string>, bool))
    ensures Distinct(r.0)
  {
    if evs == [] then ([], false)
    else
      var before := FdWalk(evs[..|evs| - 1]);
      OpenStep(evs[|evs| - 1], before.0, before.1)
  }

  ghost predicate OpenEnter(e: Event) { OpenFamily(e.sc) && e.phase == "enter" }
  ghost predicate OpenExit(e: Event) { OpenFamily(e.sc) && e.phase == "exit" }

  /** An open for writing entered at `p` and returned descriptor `fd` at `q`, with no open event between. */
  ghost predicate WriteOpen(evs: seq<Event>, p: int, q: int, fd: string) {
    && 0 <= p < q < |evs|
    && OpenEnter(evs[p]) && WriteIntent(evs[p].sc, evs[p].args)
    && OpenExit(evs[q]) && ResultText(evs[q]) == Some(fd) && StartsWith(fd, "0x")
    && forall k :: p < k < q ==> !OpenEnter(evs[k]) && !OpenExit(evs[k])
  }

  ghost predicate PendingSince(evs: seq<Event>, p: int) {
    && 0 <= p < |evs|
    && OpenEnter(evs[p]) && WriteIntent(evs[p].sc, evs[p].args)
    && forall k :: p < k < |evs| ==> !OpenEnter(evs[k]) && !OpenExit(evs[k])
  }

  lemma {:induction false} PendingSound(evs: seq<Event>) returns (p: int)
    requires FdWalk(evs).1
    ensures PendingSince(evs, p)
  {
    var n := |evs| - 1;
    PendingNow(evs);
    if OpenEnter(evs[n]) {
      p := n;
    } else {
      p := PendingSound(evs[..n]);
      PendingGoesOn(evs, p);
    }
  }

  lemma PendingNow(evs: seq<Event>)
    requires FdWalk(evs).1
    ensures evs != []
    ensures var n := |evs| - 1;
            if OpenEnter(evs[n]) then WriteIntent(evs[n].sc, evs[n].args) else !OpenExit(evs[n]) && FdWalk(evs[..n]).1
  {
  }

  lemma PendingGoesOn(evs: seq<Event>, p: int)
    requires evs != [] && PendingSince(evs[..|evs| - 1], p) && !OpenEnter(evs[|evs| - 1]) && !OpenExit(evs[|evs| - 1])
    ensures PendingSince(evs, p)
  {
    assert forall k :: 0 <= k < |evs| - 1 ==> evs[k] == evs[..|evs| - 1][k];
  }

  lemma {:induction false} PendingComplete(evs: seq<Event>, p: int)
    requires PendingSince(evs, p)
    ensures FdWalk(evs).1
  {
    var n := |evs| - 1;
    if p < n {
      assert forall k :: 0 <= k < n ==> evs[k] == evs[..n][k];
      assert !OpenEnter(evs[n]) && !OpenExit(evs[n]);
      PendingComplete(evs[..n], p);
    }
  }

  lemma {:induction false} FdTableSound(evs: seq<Event>, fd: string) returns (p: int, q: int)
    requires fd in FdWalk(evs).0
    ensures WriteOpen(evs, p, q, fd)
  {
    var n := |evs| - 1;
    var prefix := evs[..n];
    assert forall k :: 0 <= k < n ==> evs[k] == prefix[k];
    if fd in FdWalk(prefix).0 {
      p, q := FdTableSound(prefix, fd);
    } else {
      p := PendingSound(prefix);
      q := n;
    }
  }

  lemma {:induction false} FdTableComplete(evs: seq<Event>, p: int, q: int, fd: string)
    requires WriteOpen(evs, p, q, fd)
    ensures fd in FdWalk(evs).0
  {
    var n := |evs| - 1;
    WriteOpenPrefix(evs, p, q, fd);
    if q < n {
      FdTableComplete(evs[..n], p, q, fd);
    } else {
      PendingComplete(evs[..n], p);
    }
    TableStep(evs, fd);
  }

  lemma WriteOpenPrefix(evs: seq<Event>, p: int, q: int, fd: string)
    requires WriteOpen(evs, p, q, fd)
    ensures if q < |evs| - 1 then WriteOpen(evs[..|evs| - 1], p, q, fd) else PendingSince(evs[..|evs| - 1], p)
  {
    assert forall k :: 0 <= k < |evs| - 1 ==> evs[k] == evs[..|evs| - 1][k];
  }

  lemma TableStep(evs: seq<Event>, fd: string)
    requires evs != []
    requires var last, before := evs[|evs| - 1], FdWalk(evs[..|evs| - 1]);
             fd in before.0 || (before.1 && OpenExit(last) && ResultText(last) == Some(fd) && StartsWith(fd, "0x"))
    ensures fd in FdWalk(evs).0
  {
  }

  /** The table holds exactly the descriptors some open for writing returned. */
  lemma FdTableIff(evs: seq<Event>, fd: string)
    ensures fd in FdWalk(evs).0 <==> exists p, q :: WriteOpen(evs, p, q, fd)
  {
    if fd in FdWalk(evs).0 {
      var p, q := FdTableSound(evs, fd);
    }
    if p, q :| WriteOpen(evs, p, q, fd) {
      FdTableComplete(evs, p, q, fd);
    }
  }

  lemma {:induction false} FdWalkGrows(evs: seq<Event>, i: nat)
    requires i <= |evs|
    ensures FdWalk(evs[..i]).0 <= FdWalk(evs).0
  {
    if i == |evs| {
      assert evs[..i] == evs;
    } else {
      assert evs[..|evs| - 1][..i] == evs[..i];
      FdWalkGrows(evs[..|evs| - 1], i);
    }
  }

  // ---------- the canonicaliser's walk, read off the canonical trace ----------

  /** Flags and results of opens stay below the address shape, so canonicalisation leaves them readable. */
  ghost predicate OpensReadable(e: Event) {
    OpenFamily(e.sc) ==>
      && (FlagsIndex(e.sc) < |e.args| ==> !IsAddr(e.args[FlagsIndex(e.sc)]))
      && (ResultText(e).Some? ==> !IsAddr(ResultText(e).value))
  }

  ghost predicate AllReadable(t: seq<Event>) {
    forall i :: 0 <= i < |t| ==> OpensReadable(t[i])
  }

  lemma {:induction false} CanonKeepsShape(t: seq<Event>, n: Names, i: nat)
    requires i < |t|
    ensures var c := CanonEvents(t, n).0[i]; c.sc == t[i].sc && c.phase == t[i].phase && |c.args| == |t[i].args|
  {
    if 0 < i {
      CanonKeepsShape(t[1..], CanonEvent(t[0], n).1, i - 1);
    }
  }

  lemma {:induction false} CanonAppend(t: seq<Event>, e: Event, n: Names)
    ensures CanonEvents(t + [e], n).0 == CanonEvents(t, n).0 + [CanonEvent(e, CanonEvents(t, n).1).0]
    ensures CanonEvents(t + [e], n).1 == CanonEvent(e, CanonEvents(t, n).1).1
  {
    var u := t + [e];
    if t == [] {
      assert u == [e];
      assert u[1..] == [];
    } else {
      assert u[0] == t[0] && u[1..] == t[1..] + [e];
      CanonAppend(t[1..], e, CanonEvent(t[0], n).1);
    }
  }

  /** The canonical trace and the tables, one event later. */
  lemma {:induction false} CanonSnoc(t: seq<Event>)
    requires t != []
    ensures Canon(t) == Canon(t[..|t| - 1]) + [CanonEvent(t[|t| - 1], CanonEvents(t[..|t| - 1], FRESH).1).0]
    ensures CanonEvents(t, FRESH).1 == CanonEvent(t[|t| - 1], CanonEvents(t[..|t| - 1], FRESH).1).1
  {
    assert t == t[..|t| - 1] + [t[|t| - 1]];
    CanonAppend(t[..|t| - 1], t[|t| - 1], FRESH);
  }

  lemma {:induction false} CanonArgsAt(xs: seq<string>, n: Names, j: nat) returns (m: Names)
    requires j < |xs|
    ensures CanonArgs(xs, n).0[j] == CanonArg(xs[j], m).0
  {
    if j == 0 {
      m := n;
    } else {
      CanonArgsTail(xs, n, j);
      m := CanonArgsAt(xs[1..], CanonArg(xs[0], n).1, j - 1);
    }
  }

  lemma CanonArgsTail(xs: seq<string>, n: Names, j: nat)
    requires 0 < j < |xs|
    ensures CanonArgs(xs, n).0[j] == CanonArgs(xs[1..], CanonArg(xs[0], n).1).0[j - 1]
  {
  }

  lemma {:induction false} PathLeavesP(ps: seq<Piece>, xs: seq<string>)
    ensures if AllCh(ps) then CanonPieces(ps, xs).0 == Unlex(ps) else 'P' in CanonPieces(ps, xs).0
  {
    if ps != [] {
      CanonHead(ps, xs);
      PathLeavesP(ps[1..], xs);
    }
  }

  lemma TextIs(a: string, n: Names)
    requires !IsAddr(a)
    ensures CanonArg(a, n).0 == a || ('/' in a && 'P' in CanonArg(a, n).0)
  {
    PathLeavesP(Lex(a), n.paths);
    LexRoundTrip(a);
    PathMeansSlash(a);
  }

  /** Text that is not an address reads as the same number before and after. */
  lemma TextParses(a: string, n: Names)
    requires !IsAddr(a)
    ensures ParseHexInt(CanonArg(a, n).0) == ParseHexInt(a)
  {
    TextIs(a, n);
    SameNumber(CanonArg(a, n).0, a, 'P', '/');
  }

  // ---------- what is left to see after canonicalisation ----------

  /** An open whose intent to write can still be read off its canonical flags. */
  predicate ShowsIntent(sc: string, args: seq<string>)
    requires OpenFamily(sc)
  {
    WriteIntent(sc, args) && (sc == "creat" || (FlagsIndex(sc) < |args| && !IsAddr(args[FlagsIndex(sc)])))
  }

  /** The walk's step on a raw event, blind to opens whose flags or result are address-shaped. */
  function VisibleStep(e: Event, fds: seq<string>, pending: bool): (r: (seq<string>, bool))
    ensures Distinct(fds) ==> Distinct(r.0)
  {
    if OpenFamily(e.sc) && e.phase == "enter" then (fds, ShowsIntent(e.sc, e.args))
    else if OpenFamily(e.sc) && e.phase == "exit" then
      var res := ResultText(e);
      if pending && res.Some? && StartsWith(res.value, "0x") && !IsAddr(res.value)
      then (Sight(fds, res.value), false)
      else (fds, false)
    else (fds, pending)
  }

  /** Table and pending flag of the raw events as far as the canonical ones still show them. */
  function VisibleWalk(evs: seq<Event>): (r: (seq<string>, bool))
    ensures Distinct(r.0)
  {
    if evs == [] then ([], false)
    else
      var before := VisibleWalk(evs[..|evs| - 1]);
      VisibleStep(evs[|evs| - 1], before.0, before.1)
  }

  lemma IntentShown(e: Event, n: Names)
    requires OpenFamily(e.sc)
    ensures WriteIntent(e.sc, CanonEvent(e, n).0.args) == ShowsIntent(e.sc, e.args)
  {
    var j := FlagsIndex(e.sc);
    if e.sc != "creat" && j < |e.args| {
      if IsAddr(e.args[j]) {
        AddrFlagsHide(e, n);
      } else {
        FlagsSurvive(e, n);
        IntentAgrees(e.sc, CanonEvent(e, n).0.args, e.args);
      }
    }
  }

  lemma FlagsSurvive(e: Event, n: Names)
    requires OpenFamily(e.sc) && FlagsIndex(e.sc) < |e.args| && !IsAddr(e.args[FlagsIndex(e.sc)])
    ensures ParseHexInt(CanonEvent(e, n).0.args[FlagsIndex(e.sc)]) == ParseHexInt(e.args[FlagsIndex(e.sc)])
  {
    var o := OpenStep(e, n.fds, n.pending);
    var n1 := n.(fds := o.0, pending := o.1);
    assert FdArgs(e, n1.fds) == e.args;
    var m := CanonArgsAt(e.args, n1, FlagsIndex(e.sc));
    TextParses(e.args[FlagsIndex(e.sc)], m);
  }

  /** A result survives unless it is address-shaped, and then it no longer looks like a descriptor. */
  lemma ResultShown(e: Event, n: Names)
    ensures var res, shown := ResultText(e), ResultText(CanonEvent(e, n).0);
            if res.Some? && IsAddr(res.value) then shown.Some? && !StartsWith(shown.value, "0x") else shown == res
  {
    EventParts(e, n);
    var m := Argued(e, n).1;
    if ResultText(e).Some? && IsAddr(ResultText(e).value) {
      var a := ResultText(e).value;
      var k := Ord(Sight(m.addrs, a), a);
      assert CanonResult(e.rest, m).0["result"] == JStr(AddrName(k));
      assert AddrName(k)[0] == 'A' && "0x"[0] == '0';
    }
  }

  lemma StepShown(e: Event, n: Names, fds: seq<string>, pending: bool)
    ensures OpenStep(CanonEvent(e, n).0, fds, pending) == VisibleStep(e, fds, pending)
  {
    if OpenFamily(e.sc) { IntentShown(e, n); }
    ResultShown(e, n);
  }

  /** For every trace: re-walking the canonical events finds exactly what is visible in the raw ones. */
  lemma {:induction false} CanonWalkIsVisible(t: seq<Event>)
    ensures FdWalk(Canon(t)) == VisibleWalk(t)
  {
    if t != [] {
      var n := |t| - 1;
      CanonWalkIsVisible(t[..n]);
      CanonSnoc(t);
      assert Canon(t)[..n] == Canon(t[..n]);
      var before := VisibleWalk(t[..n]);
      StepShown(t[n], CanonEvents(t[..n], FRESH).1, before.0, before.1);
    }
  }

  lemma EventKeepsWalk(e: Event, n: Names)
    ensures (CanonEvent(e, n).1.fds, CanonEvent(e, n).1.pending) == OpenStep(e, n.fds, n.pending)
  {
    var o := OpenStep(e, n.fds, n.pending);
    var n1 := n.(fds := o.0, pending := o.1);
    ArgsGrow(FdArgs(e, n1.fds), n1);
  }

  /** The canonicaliser's own table is the walk of the raw events. */
  lemma {:induction false} CanonTable(t: seq<Event>)
    ensures (CanonEvents(t, FRESH).1.fds, CanonEvents(t, FRESH).1.pending) == FdWalk(t)
  {
    if t != [] {
      CanonTable(t[..|t| - 1]);
      CanonSnoc(t);
      EventKeepsWalk(t[|t| - 1], CanonEvents(t[..|t| - 1], FRESH).1);
    }
  }

  // ---------- exactly when the two walks agree ----------

  /** A write-open that canonicalisation leaves readable. */
  ghost predicate VisibleOpen(evs: seq<Event>, p: int, q: int, fd: string) {
    WriteOpen(evs, p, q, fd) && ShowsIntent(evs[p].sc, evs[p].args) && !IsAddr(fd)
  }

  lemma {:induction false} CanonAt(t: seq<Event>, n: Names, i: nat) returns (m: Names)
    requires i < |t|
    ensures CanonEvents(t, n).0[i] == CanonEvent(t[i], m).0
  {
    if i == 0 {
      m := n;
    } else {
      CanonTail(t, n, i);
      m := CanonAt(t[1..], CanonEvent(t[0], n).1, i - 1);
    }
  }

  lemma CanonTail(t: seq<Event>, n: Names, i: nat)
    requires 0 < i < |t|
    ensures CanonEvents(t, n).0[i] == CanonEvents(t[1..], CanonEvent(t[0], n).1).0[i - 1]
  {
  }

  /** What one canonical event still says about opens. */
  lemma OpenShown(t: seq<Event>, i: nat)
    requires i < |t|
    ensures OpenEnter(Canon(t)[i]) == OpenEnter(t[i]) && OpenExit(Canon(t)[i]) == OpenExit(t[i])
    ensures OpenEnter(t[i]) ==> WriteIntent(Canon(t)[i].sc, Canon(t)[i].args) == ShowsIntent(t[i].sc, t[i].args)
    ensures forall fd :: StartsWith(fd, "0x") ==>
              (ResultText(Canon(t)[i]) == Some(fd) <==> ResultText(t[i]) == Some(fd) && !IsAddr(fd))
  {
    var m := CanonAt(t, FRESH, i);
    if OpenEnter(t[i]) { IntentShown(t[i], m); }
    ResultShown(t[i], m);
  }

  /** The write-opens of the canonical trace are the visible ones of the raw trace, at the same places. */
  lemma OpensShown(t: seq<Event>, p: int, q: int, fd: string)
    ensures WriteOpen(Canon(t), p, q, fd) <==> VisibleOpen(t, p, q, fd)
  {
    if 0 <= p < q < |t| {
      OpenShown(t, p);
      OpenShown(t, q);
      forall k | p < k < q
        ensures OpenEnter(Canon(t)[k]) == OpenEnter(t[k]) && OpenExit(Canon(t)[k]) == OpenExit(t[k])
      {
        OpenShown(t, k);
      }
    }
  }

  /** The first exit at which an open for writing returned `fd`. */
  ghost predicate FirstOpen(evs: seq<Event>, q: int, fd: string) {
    (exists p :: WriteOpen(evs, p, q, fd)) && forall p', q' :: WriteOpen(evs, p', q', fd) ==> q <= q'
  }

  ghost predicate FirstVisible(evs: seq<Event>, q: int, fd: string) {
    (exists p :: VisibleOpen(evs, p, q, fd)) && forall p', q' :: VisibleOpen(evs, p', q', fd) ==> q <= q'
  }

  lemma FirstShown(t: seq<Event>, q: int, fd: string)
    ensures FirstOpen(Canon(t), q, fd) <==> FirstVisible(t, q, fd)
  {
    forall p', q'
      ensures WriteOpen(Canon(t), p', q', fd) <==> VisibleOpen(t, p', q', fd)
    {
      OpensShown(t, p', q', fd);
    }
  }

  lemma PrefixOpens(evs: seq<Event>, k: nat, p: int, q: int, fd: string)
    requires k <= |evs|
    ensures WriteOpen(evs[..k], p, q, fd) <==> WriteOpen(evs, p, q, fd) && q < k
  {
    assert forall i :: 0 <= i < k ==> evs[..k][i] == evs[i];
  }

  /** A literal is in the table from its first open on. */
  lemma TabledFrom(evs: seq<Event>, k: nat, q: int, fd: string)
    requires k <= |evs| && FirstOpen(evs, q, fd)
    ensures fd in FdWalk(evs[..k]).0 <==> q < k
  {
    FdTableIff(evs[..k], fd);
    if fd in FdWalk(evs[..k]).0 {
      var p', q' :| WriteOpen(evs[..k], p', q', fd);
      PrefixOpens(evs, k, p', q', fd);
    }
    if q < k {
      var p :| WriteOpen(evs, p, q, fd);
      PrefixOpens(evs, k, p, q, fd);
    }
  }

  /** The table lists literals in the order of their first opens. */
  lemma TableOrder(evs: seq<Event>, q: int, r: int, fd: string, gd: string)
    requires FirstOpen(evs, q, fd) && FirstOpen(evs, r, gd) && q < r
    ensures fd in FdWalk(evs).0 && gd in FdWalk(evs).0 && Ord(FdWalk(evs).0, fd) < Ord(FdWalk(evs).0, gd)
  {
    var table, early := FdWalk(evs).0, FdWalk(evs[..r]).0;
    assert evs[..|evs|] == evs;
    TabledFrom(evs, |evs|, q, fd);
    TabledFrom(evs, |evs|, r, gd);
    TabledFrom(evs, r, q, fd);
    TabledFrom(evs, r, r, gd);
    FdWalkGrows(evs, r);
    OrdStable(early, table, fd);
    assert forall i :: 0 <= i < |early| ==> early[i] == table[i];
  }

  lemma {:induction false} SomeFirstOpen(evs: seq<Event>, p: int, q: int, fd: string) returns (f: int)
    requires WriteOpen(evs, p, q, fd)
    ensures FirstOpen(evs, f, fd)
    decreases q
  {
    if p', q' :| WriteOpen(evs, p', q', fd) && q' < q {
      f := SomeFirstOpen(evs, p', q', fd);
    } else {
      f := q;
    }
  }

  lemma FirstOfTabled(evs: seq<Event>, fd: string) returns (q: int)
    requires fd in FdWalk(evs).0
    ensures FirstOpen(evs, q, fd)
  {
    var p, r := FdTableSound(evs, fd);
    q := SomeFirstOpen(evs, p, r, fd);
  }

  /** Two first exits at one place are of one literal. */
  lemma FirstsDiffer(evs: seq<Event>, q: int, fd: string, gd: string)
    requires FirstOpen(evs, q, fd) && FirstOpen(evs, q, gd)
    ensures fd == gd
  {
  }

  ghost predicate SameOrder(a: seq<string>, b: seq<string>) {
    forall x, y :: x in a && y in a && x in b && y in b && Ord(a, x) < Ord(a, y) ==> Ord(b, x) < Ord(b, y)
  }

  /** Tables with the same members in the same order are the same table. */
  lemma {:induction false} OrderedAlike(a: seq<string>, b: seq<string>)
    requires Distinct(a) && Distinct(b) && SameOrder(a, b) && forall x :: x in a <==> x in b
    ensures a == b
  {
    assert b != [] ==> b[0] in b;
    if a != [] {
      var x := a[|a| - 1];
      assert x in a;
      var y := b[|b| - 1];
      assert y in b;
      OrdAt(a, |a| - 1);
      OrdAt(b, |b| - 1);
      assert x == y;
      OrderedAlikePrefix(a, b);
      OrderedAlike(a[..|a| - 1], b[..|b| - 1]);
      assert a == a[..|a| - 1] + [x] && b == b[..|b| - 1] + [y];
    }
  }

  lemma DropLastMember(a: seq<string>, x: string)
    requires a != [] && Distinct(a)
    ensures x in a[..|a| - 1] <==> x in a && x != a[|a| - 1]
  {
    assert a == a[..|a| - 1] + [a[|a| - 1]];
  }

  lemma OrderedAlikePrefix(a: seq<string>, b: seq<string>)
    requires a != [] && b != [] && a[|a| - 1] == b[|b| - 1]
    requires Distinct(a) && Distinct(b) && SameOrder(a, b) && forall x :: x in a <==> x in b
    ensures var c, d := a[..|a| - 1], b[..|b| - 1];
            SameOrder(c, d) && forall x :: x in c <==> x in d
  {
    var c, d := a[..|a| - 1], b[..|b| - 1];
    forall x
      ensures x in c <==> x in d
    {
      DropLastMember(a, x);
      DropLastMember(b, x);
    }
    forall x, y | x in c && y in c && x in d && y in d && Ord(c, x) < Ord(c, y)
      ensures Ord(d, x) < Ord(d, y)
    {
      OrdStable(c, a, x);
      OrdStable(c, a, y);
      OrdStable(d, b, x);
      OrdStable(d, b, y);
    }
  }

  ghost predicate OpenedToWrite(t: seq<Event>, fd: string) { exists p, q :: WriteOpen(t, p, q, fd) }
  ghost predicate VisiblyOpened(t: seq<Event>, fd: string) { exists p, q :: VisibleOpen(t, p, q, fd) }

  /** No descriptor is lost: whatever was opened for writing was so opened visibly as well. */
  ghost predicate NoneLost(t: seq<Event>) {
    forall fd :: OpenedToWrite(t, fd) ==> VisiblyOpened(t, fd)
  }

  /** No descriptor is moved: first visible opens come in the order of first opens. */
  ghost predicate NoneMoved(t: seq<Event>) {
    forall fd, gd, q, r, q', r' ::
      FirstOpen(t, q, fd) && FirstOpen(t, r, gd) && FirstVisible(t, q', fd) && FirstVisible(t, r', gd) && q < r ==> q' < r'
  }

  /** The rebuilt table holds exactly the descriptors some visible open returned. */
  lemma ShownTableIff(t: seq<Event>, fd: string)
    ensures fd in FdWalk(Canon(t)).0 <==> VisiblyOpened(t, fd)
    ensures VisiblyOpened(t, fd) ==> OpenedToWrite(t, fd)
  {
    FdTableIff(Canon(t), fd);
    if p, q :| WriteOpen(Canon(t), p, q, fd) {
      OpensShown(t, p, q, fd);
    }
    if p, q :| VisibleOpen(t, p, q, fd) {
      OpensShown(t, p, q, fd);
    }
  }

  lemma LostIff(t: seq<Event>)
    ensures NoneLost(t) <==> forall fd :: fd in FdWalk(t).0 <==> fd in FdWalk(Canon(t)).0
  {
    var a, b := FdWalk(t).0, FdWalk(Canon(t)).0;
    forall fd
      ensures (fd in a <==> OpenedToWrite(t, fd)) && (fd in b <==> VisiblyOpened(t, fd)) && (fd in b ==> fd in a)
    {
      FdTableIff(t, fd);
      ShownTableIff(t, fd);
    }
    if NoneLost(t) {
      forall fd
        ensures fd in a <==> fd in b
      {
        assert fd in a ==> OpenedToWrite(t, fd);
      }
    }
    if forall fd :: fd in a <==> fd in b {
      forall fd | OpenedToWrite(t, fd)
        ensures VisiblyOpened(t, fd)
      {
        assert fd in a && fd in b;
      }
    }
  }

  lemma UnmovedIsOrdered(t: seq<Event>)
    requires NoneMoved(t)
    ensures SameOrder(FdWalk(t).0, FdWalk(Canon(t)).0)
  {
    var a, b := FdWalk(t).0, FdWalk(Canon(t)).0;
    forall x, y | x in a && y in a && x in b && y in b && Ord(a, x) < Ord(a, y)
      ensures Ord(b, x) < Ord(b, y)
    {
      var q := FirstOfTabled(t, x);
      var r := FirstOfTabled(t, y);
      var q' := FirstOfTabled(Canon(t), x);
      var r' := FirstOfTabled(Canon(t), y);
      FirstShown(t, q', x);
      FirstShown(t, r', y);
      OrderMeansEarlier(t, q, r, x, y);
      TableOrder(Canon(t), q', r', x, y);
    }
  }

  lemma OrderMeansEarlier(evs: seq<Event>, q: int, r: int, fd: string, gd: string)
    requires FirstOpen(evs, q, fd) && FirstOpen(evs, r, gd) && fd in FdWalk(evs).0 && gd in FdWalk(evs).0
    requires Ord(FdWalk(evs).0, fd) < Ord(FdWalk(evs).0, gd)
    ensures q < r
  {
    if r < q {
      TableOrder(evs, r, q, gd, fd);
    } else if r == q {
      FirstsDiffer(evs, q, fd, gd);
    }
  }

  lemma AgreeingIsUnmoved(t: seq<Event>)
    requires FdWalk(t).0 == FdWalk(Canon(t)).0
    ensures NoneMoved(t)
  {
    forall fd, gd, q, r, q', r' |
      FirstOpen(t, q, fd) && FirstOpen(t, r, gd) && FirstVisible(t, q', fd) && FirstVisible(t, r', gd) && q < r
      ensures q' < r'
    {
      FirstShown(t, q', fd);
      FirstShown(t, r', gd);
      TableOrder(t, q, r, fd, gd);
      OrderMeansEarlier(Canon(t), q', r', fd, gd);
    }
  }

  /**
   For every trace: re-walking the canonical events rebuilds the canonicaliser's
   own table if and only if every descriptor opened for writing was also opened
   by a call whose flags and result are not address-shaped, and the first such
   opens come in the order of the first opens.
   */
  lemma WalksAgreeIff(t: seq<Event>)
    ensures FdWalk(Canon(t)).0 == CanonEvents(t, FRESH).1.fds <==> NoneLost(t) && NoneMoved(t)
  {
    CanonTable(t);
    LostIff(t);
    if NoneLost(t) && NoneMoved(t) {
      UnmovedIsOrdered(t);
      OrderedAlike(FdWalk(t).0, FdWalk(Canon(t)).0);
    }
    if FdWalk(Canon(t)).0 == FdWalk(t).0 {
      AgreeingIsUnmoved(t);
    }
  }

  lemma {:induction false} VisibleHasNoAddress(t: seq<Event>)
    ensures forall fd :: fd in VisibleWalk(t).0 ==> !IsAddr(fd)
  {
    if t != [] {
      VisibleHasNoAddress(t[..|t| - 1]);
    }
  }

  lemma {:induction false} ReadableIsVisible(t: seq<Event>)
    requires AllReadable(t)
    ensures VisibleWalk(t) == FdWalk(t)
  {
    if t != [] {
      var n := |t| - 1;
      ReadableIsVisible(t[..n]);
      assert OpensReadable(t[n]);
    }
  }

  /** Re-walking the canonical trace rebuilds the table the canonicaliser made from the raw one. */
  lemma FdWalksAgree(t: seq<Event>)
    requires AllReadable(t)
    ensures FdWalk(Canon(t)) == FdWalk(t)
    ensures FdWalk(Canon(t)).0 == CanonEvents(t, FRESH).1.fds
  {
    CanonWalkIsVisible(t);
    ReadableIsVisible(t);
    CanonTable(t);
  }

  ghost function LargeFd(): seq<Event> {
    [Event("creat", "enter", [], map[]), Event("creat", "exit", [], map["result" := JStr("0x100000")])]
  }

  /** An address-shaped result hides the descriptor: the raw walk finds it, the canonical walk does not. */
  lemma WalksCanDisagree()
    ensures "0x100000" in FdWalk(LargeFd()).0 && "0x100000" !in FdWalk(Canon(LargeFd())).0
  {
    assert StartsWith("0x100000", "0x") && IsAddr("0x100000");
    assert WriteOpen(LargeFd(), 0, 1, "0x100000");
    FdTableComplete(LargeFd(), 0, 1, "0x100000");
    CanonWalkIsVisible(LargeFd());
    VisibleHasNoAddress(LargeFd());
  }

  /** An address-shaped flags word is an ordinal afterwards, and no ordinal says it meant to write. */
  lemma AddrFlagsHide(e: Event, n: Names)
    requires OpenFamily(e.sc) && e.sc != "creat"
    requires FlagsIndex(e.sc) < |e.args| && IsAddr(e.args[FlagsIndex(e.sc)])
    ensures !WriteIntent(e.sc, CanonEvent(e, n).0.args)
  {
    var o := OpenStep(e, n.fds, n.pending);
    var n1 := n.(fds := o.0, pending := o.1);
    var j := FlagsIndex(e.sc);
    assert FdArgs(e, n1.fds) == e.args;
    var m := CanonArgsAt(e.args, n1, j);
    AddrNameIsNoNumber(Ord(Sight(m.addrs, e.args[j]), e.args[j]));
  }

  lemma AddrNameIsNoNumber(k: nat)
    ensures ParseHexInt(AddrName(k)).None?
  {
    assert AddrName(k)[3] == 'R';
    NotNumeral(AddrName(k), 'R');
  }
}
