/**
 The observable channel of a canonical trace: writes and the exit, with address
 ordinals wildcarded. It does not depend on which addresses and descriptor
 numbers a run happened to get, nor on the silent events around it.
 */
module Observation {
  import opened Prelude
  import opened Canonical
  import opened AlphaEquivalence
  import opened FdWalks

  predicate Observable(sc: string) { sc == "write" || sc == "writev" || sc == "exit_group" }

  function WildArg(a: string): (r: string) { if StartsWith(a, "ADDR_") then "ADDR_*" else a }

  function WildArgs(args: seq<string>): (r: seq<string>)
    ensures |r| == |args|
    ensures forall j :: 0 <= j < |args| ==> r[j] == WildArg(args[j])
  {
    if args == [] then [] else [WildArg(args[0])] + WildArgs(args[1..])
  }

  function Wild(e: Event): (r: Event) { e.(args := WildArgs(e.args)) }

  function ObsEvents(evs: seq<Event>): (r: seq<Event>)
    ensures |r| <= |evs|
  {
    if evs == [] then []
    else if Observable(evs[0].sc) then [Wild(evs[0])] + ObsEvents(evs[1..])
    else ObsEvents(evs[1..])
  }

  // ---------- the same run under other numbers ----------

  /** Any map of addresses to addresses; two addresses may even be merged. */
  ghost predicate AddressMap(sigma: string -> string) {
    forall a :: IsAddr(a) ==> IsAddr(sigma(a))
  }

  /** One injective renaming of descriptor literals for the whole run, keeping what makes them descriptors. */
  ghost predicate DescriptorMap(phi: string -> string) {
    && (forall x, y :: phi(x) == phi(y) ==> x == y)
    && (forall x :: StartsWith(phi(x), "0x") == StartsWith(x, "0x"))
    && (forall x :: IsAddr(phi(x)) == IsAddr(x))
  }

  function MapArg(a: string, sigma: string -> string): (r: string) { if IsAddr(a) then sigma(a) else a }

  function MapArgs(args: seq<string>, sigma: string -> string): (r: seq<string>)
    ensures |r| == |args|
    ensures forall j :: 0 <= j < |args| ==> r[j] == MapArg(args[j], sigma)
  {
    if args == [] then [] else [MapArg(args[0], sigma)] + MapArgs(args[1..], sigma)
  }

  /** Descriptors are renamed where they are carried and where an open returns them, addresses everywhere else. */
  function Rename(e: Event, sigma: string -> string, phi: string -> string): (f: Event) {
    var args :=
      if FdCarrier(e.sc) && e.args != [] then [phi(e.args[0])] + MapArgs(e.args[1..], sigma)
      else MapArgs(e.args, sigma);
    var res := ResultText(e);
    var rest :=
      if res.None? then e.rest
      else if OpenFamily(e.sc) then e.rest["result" := JStr(phi(res.value))]
      else e.rest["result" := JStr(MapArg(res.value, sigma))];
    Event(e.sc, e.phase, args, rest)
  }

  /** An event the judge does not see and that cannot disturb an open under way. */
  ghost predicate Silent(e: Event, pending: bool) {
    && !Observable(e.sc)
    && (OpenEnter(e) || OpenExit(e) ==> !pending)
    && (OpenEnter(e) ==> !WriteIntent(e.sc, e.args))
  }

  /** `u` is the renamed `t` with silent events inserted where `keep` is false. */
  ghost predicate Woven(t: seq<Event>, u: seq<Event>, keep: seq<bool>, pending: bool,
                        sigma: string -> string, phi: string -> string)
    decreases |u|
  {
    && |keep| == |u|
    && if u == [] then t == []
       else if keep[0] then
         && t != [] && u[0] == Rename(t[0], sigma, phi)
         && Woven(t[1..], u[1..], keep[1..], OpenStep(t[0], [], pending).1, sigma, phi)
       else
         Silent(u[0], pending) && Woven(t, u[1..], keep[1..], pending, sigma, phi)
  }

  /** The renaming fixes every descriptor that is shown literally because no open for writing returned it yet. */
  ghost predicate FixesShown(t: seq<Event>, fds: seq<string>, pending: bool, phi: string -> string) {
    t != [] ==>
      var after := OpenStep(t[0], fds, pending);
      && (Observable(t[0].sc) && FdCarrier(t[0].sc) && t[0].args != [] && t[0].args[0] !in after.0 ==>
            phi(t[0].args[0]) == t[0].args[0] || IsAddr(t[0].args[0]))
      && FixesShown(t[1..], after.0, after.1, phi)
  }

  /** Observable results are not address-shaped and observable arguments hold no path; flags are not addresses. */
  ghost predicate Judgeable(e: Event) {
    && (Observable(e.sc) ==>
          && (ResultText(e).Some? ==> !IsAddr(ResultText(e).value))
          && forall j :: 0 <= j < |e.args| ==> IsAddr(e.args[j]) || AllCh(Lex(e.args[j])))
    && (OpenFamily(e.sc) && FlagsIndex(e.sc) < |e.args| ==> !IsAddr(e.args[FlagsIndex(e.sc)]))
  }

  // ---------- what the judge sees of one argument ----------

  function Seen(a: string): (r: string) { if IsAddr(a) || StartsWith(a, "ADDR_") then "ADDR_*" else a }

  lemma SeenIsWild(a: string, n: Names)
    requires IsAddr(a) || AllCh(Lex(a))
    ensures WildArg(CanonArg(a, n).0) == Seen(a)
  {
    if IsAddr(a) {
      AddrNamePrefix(Ord(Sight(n.addrs, a), a));
    } else {
      PathLeavesP(Lex(a), n.paths);
      LexRoundTrip(a);
    }
  }

  /** Observed arguments do not depend on the tables. */
  lemma {:induction false} SeenArgs(xs: seq<string>, n: Names)
    requires forall j :: 0 <= j < |xs| ==> IsAddr(xs[j]) || AllCh(Lex(xs[j]))
    ensures forall j :: 0 <= j < |xs| ==> WildArg(CanonArgs(xs, n).0[j]) == Seen(xs[j])
  {
    if xs != [] {
      SeenIsWild(xs[0], n);
      SeenArgs(xs[1..], CanonArg(xs[0], n).1);
    }
  }

  lemma FdNameHasNoPath(k: nat)
    ensures AllCh(Lex(FdName(k))) && Seen(FdName(k)) == FdName(k)
  {
    FdNamePlain(k, FRESH);
    SlashFree(FdName(k), []);
    PathMeansSlash(FdName(k));
    assert forall i :: 3 <= i < |FdName(k)| ==> IsDigit(FdName(k)[i]);
  }

  // ---------- renaming the descriptor table ----------

  ghost predicate MappedTable(xs: seq<string>, ys: seq<string>, phi: string -> string) {
    |xs| == |ys| && forall i :: 0 <= i < |xs| ==> ys[i] == phi(xs[i])
  }

  lemma MappedSight(xs: seq<string>, ys: seq<string>, x: string, phi: string -> string)
    requires DescriptorMap(phi) && MappedTable(xs, ys, phi)
    ensures x in xs <==> phi(x) in ys
    ensures MappedTable(Sight(xs, x), Sight(ys, phi(x)), phi)
    ensures x in xs ==> Ord(xs, x) == Ord(ys, phi(x))
  {
    if x in xs {
      assert ys[Ord(xs, x)] == phi(x);
    }
    if phi(x) in ys {
      assert xs[Ord(ys, phi(x))] == x;
    }
  }

  lemma RenamedOpen(e: Event, xs: seq<string>, ys: seq<string>, pending: bool, sigma: string -> string, phi: string -> string)
    requires DescriptorMap(phi) && AddressMap(sigma) && Judgeable(e) && MappedTable(xs, ys, phi)
    ensures var a, b := OpenStep(e, xs, pending), OpenStep(Rename(e, sigma, phi), ys, pending);
            MappedTable(a.0, b.0, phi) && a.1 == b.1
  {
    if OpenFamily(e.sc) {
      IntentAgrees(e.sc, e.args, MapArgs(e.args, sigma));
    }
    OpenStepMapped(e, Rename(e, sigma, phi), xs, ys, pending, phi);
  }

  lemma OpenStepMapped(e: Event, f: Event, xs: seq<string>, ys: seq<string>, pending: bool, phi: string -> string)
    requires DescriptorMap(phi) && MappedTable(xs, ys, phi) && e.sc == f.sc && e.phase == f.phase
    requires OpenFamily(e.sc) ==> WriteIntent(e.sc, e.args) == WriteIntent(f.sc, f.args)
    requires OpenFamily(e.sc) ==>
               ResultText(f) == match ResultText(e) case None => None case Some(x) => Some(phi(x))
    ensures var a, b := OpenStep(e, xs, pending), OpenStep(f, ys, pending);
            MappedTable(a.0, b.0, phi) && a.1 == b.1
  {
    if OpenFamily(e.sc) && ResultText(e).Some? {
      MappedSight(xs, ys, ResultText(e).value, phi);
    }
  }

  lemma SilentOpen(e: Event, fds: seq<string>, pending: bool)
    requires Silent(e, pending)
    ensures OpenStep(e, fds, pending) == (fds, pending)
  {
  }

  lemma ObservedHead(e: Event, xs: seq<string>, ys: seq<string>, sigma: string -> string, phi: string -> string)
    requires DescriptorMap(phi) && AddressMap(sigma) && MappedTable(xs, ys, phi)
    requires Judgeable(e) && Observable(e.sc) && e.args != []
    requires FdCarrier(e.sc) && e.args[0] !in xs ==> phi(e.args[0]) == e.args[0] || IsAddr(e.args[0])
    ensures var a, b := FdArgs(e, xs)[0], FdArgs(Rename(e, sigma, phi), ys)[0];
            && (IsAddr(a) || AllCh(Lex(a))) && (IsAddr(b) || AllCh(Lex(b))) && Seen(a) == Seen(b)
  {
    assert IsAddr(e.args[0]) || AllCh(Lex(e.args[0]));
    if FdCarrier(e.sc) {
      MappedSight(xs, ys, e.args[0], phi);
      if e.args[0] in xs {
        FdNameHasNoPath(Ord(xs, e.args[0]));
      }
    }
  }

  lemma ObservedTail(e: Event, xs: seq<string>, ys: seq<string>, sigma: string -> string, phi: string -> string, j: nat)
    requires AddressMap(sigma) && Judgeable(e) && Observable(e.sc) && 0 < j < |e.args|
    ensures var a, b := FdArgs(e, xs)[j], FdArgs(Rename(e, sigma, phi), ys)[j];
            && (IsAddr(a) || AllCh(Lex(a))) && (IsAddr(b) || AllCh(Lex(b))) && Seen(a) == Seen(b)
  {
    assert FdArgs(e, xs)[j] == e.args[j];
    var f := Rename(e, sigma, phi);
    assert FdArgs(f, ys)[j] == f.args[j];
    assert f.args[j] == MapArg(e.args[j], sigma);
  }

  /** One observable event looks the same before and after the renaming, whatever the tables held. */
  lemma ObservedEvent(e: Event, m: Names, n: Names, sigma: string -> string, phi: string -> string)
    requires DescriptorMap(phi) && AddressMap(sigma) && Judgeable(e) && Observable(e.sc)
    requires MappedTable(m.fds, n.fds, phi)
    requires FdCarrier(e.sc) && e.args != [] && e.args[0] !in m.fds ==> phi(e.args[0]) == e.args[0] || IsAddr(e.args[0])
    ensures Wild(CanonEvent(e, m).0) == Wild(CanonEvent(Rename(e, sigma, phi), n).0)
  {
    var f := Rename(e, sigma, phi);
    ObservedArgs(e, m.fds, n.fds, sigma, phi);
    RenamedRestSame(e, sigma, phi);
    AlikeEvents(e, f, m, n);
  }

  lemma ObservedArgs(e: Event, xs: seq<string>, ys: seq<string>, sigma: string -> string, phi: string -> string)
    requires DescriptorMap(phi) && AddressMap(sigma) && MappedTable(xs, ys, phi)
    requires Judgeable(e) && Observable(e.sc)
    requires FdCarrier(e.sc) && e.args != [] && e.args[0] !in xs ==> phi(e.args[0]) == e.args[0] || IsAddr(e.args[0])
    ensures |Rename(e, sigma, phi).args| == |e.args|
    ensures forall j :: 0 <= j < |e.args| ==> LookAlike(FdArgs(e, xs)[j], FdArgs(Rename(e, sigma, phi), ys)[j])
  {
    forall j | 0 <= j < |e.args|
      ensures LookAlike(FdArgs(e, xs)[j], FdArgs(Rename(e, sigma, phi), ys)[j])
    {
      if j == 0 {
        ObservedHead(e, xs, ys, sigma, phi);
      } else {
        ObservedTail(e, xs, ys, sigma, phi, j);
      }
    }
  }

  lemma RenamedRestSame(e: Event, sigma: string -> string, phi: string -> string)
    requires Judgeable(e) && Observable(e.sc)
    ensures var f := Rename(e, sigma, phi); f.sc == e.sc && f.phase == e.phase && f.rest == e.rest
    ensures ResultText(e).Some? ==> !IsAddr(ResultText(e).value)
  {
  }

  lemma AlikeEvents(e: Event, f: Event, m: Names, n: Names)
    requires Observable(e.sc) && e.sc == f.sc && e.phase == f.phase && e.rest == f.rest && |e.args| == |f.args|
    requires ResultText(e).Some? ==> !IsAddr(ResultText(e).value)
    requires forall j :: 0 <= j < |e.args| ==> LookAlike(FdArgs(e, m.fds)[j], FdArgs(f, n.fds)[j])
    ensures Wild(CanonEvent(e, m).0) == Wild(CanonEvent(f, n).0)
  {
    AlikeArgs(FdArgs(e, m.fds), FdArgs(f, n.fds), m, n);
    ObservableParts(e, m);
    ObservableParts(f, n);
  }

  /** Two arguments without paths that the judge cannot tell apart. */
  ghost predicate LookAlike(a: string, b: string) {
    (IsAddr(a) || AllCh(Lex(a))) && (IsAddr(b) || AllCh(Lex(b))) && Seen(a) == Seen(b)
  }

  lemma AlikeArgs(xs: seq<string>, ys: seq<string>, m: Names, n: Names)
    requires |xs| == |ys| && forall j :: 0 <= j < |xs| ==> LookAlike(xs[j], ys[j])
    ensures WildArgs(CanonArgs(xs, m).0) == WildArgs(CanonArgs(ys, n).0)
  {
    SeenArgs(xs, m);
    SeenArgs(ys, n);
  }

  lemma ObservableParts(e: Event, n: Names)
    requires Observable(e.sc) && (ResultText(e).Some? ==> !IsAddr(ResultText(e).value))
    ensures CanonEvent(e, n).0 == Event(e.sc, e.phase, CanonArgs(FdArgs(e, n.fds), n).0, e.rest)
  {
    assert OpenStep(e, n.fds, n.pending) == (n.fds, n.pending);
    assert n.(fds := n.fds, pending := n.pending) == n;
    ResultKept(e, CanonArgs(FdArgs(e, n.fds), n).1);
  }

  lemma ResultKept(e: Event, n: Names)
    requires ResultText(e).Some? ==> !IsAddr(ResultText(e).value)
    ensures CanonResult(e.rest, n) == (e.rest, n)
  {
  }

  lemma {:induction false} SilentSame(u: seq<Event>, n: Names, pending: bool)
    requires u != [] && Silent(u[0], pending) && n.pending == pending
    ensures ObsEvents(CanonEvents(u, n).0) == ObsEvents(CanonEvents(u[1..], CanonEvent(u[0], n).1).0)
    ensures CanonEvent(u[0], n).1.fds == n.fds && CanonEvent(u[0], n).1.pending == n.pending
  {
    SilentOpen(u[0], n.fds, n.pending);
    EventKeepsWalk(u[0], n);
    ObsOfEvents(u, n);
  }

  lemma {:induction false} KeptSame(t: seq<Event>, u: seq<Event>, m: Names, n: Names, sigma: string -> string, phi: string -> string)
    requires DescriptorMap(phi) && AddressMap(sigma)
    requires t != [] && u != [] && u[0] == Rename(t[0], sigma, phi) && Judgeable(t[0])
    requires MappedTable(m.fds, n.fds, phi) && FixesShown(t, m.fds, m.pending, phi)
    requires ObsEvents(CanonEvents(t[1..], CanonEvent(t[0], m).1).0) == ObsEvents(CanonEvents(u[1..], CanonEvent(u[0], n).1).0)
    ensures ObsEvents(CanonEvents(t, m).0) == ObsEvents(CanonEvents(u, n).0)
  {
    KeptSeen(t, u[0], m, n, sigma, phi);
    ObsOfEvents(t, m);
    ObsOfEvents(u, n);
  }

  lemma {:induction false} WovenSame(t: seq<Event>, u: seq<Event>, keep: seq<bool>, m: Names, n: Names,
                                     sigma: string -> string, phi: string -> string)
    requires DescriptorMap(phi) && AddressMap(sigma)
    requires forall i :: 0 <= i < |t| ==> Judgeable(t[i])
    requires MappedTable(m.fds, n.fds, phi) && m.pending == n.pending
    requires FixesShown(t, m.fds, m.pending, phi)
    requires Woven(t, u, keep, m.pending, sigma, phi)
    ensures ObsEvents(CanonEvents(t, m).0) == ObsEvents(CanonEvents(u, n).0)
    decreases |u|
  {
    if u != [] {
      if keep[0] {
        KeptWalk(t, u[0], m, n, sigma, phi);
        WovenSame(t[1..], u[1..], keep[1..], CanonEvent(t[0], m).1, CanonEvent(u[0], n).1, sigma, phi);
        KeptSame(t, u, m, n, sigma, phi);
      } else {
        SilentSame(u, n, m.pending);
        WovenSame(t, u[1..], keep[1..], m, CanonEvent(u[0], n).1, sigma, phi);
      }
    }
  }

  lemma ObsOfEvents(u: seq<Event>, n: Names)
    requires u != []
    ensures var rest := ObsEvents(CanonEvents(u[1..], CanonEvent(u[0], n).1).0);
            ObsEvents(CanonEvents(u, n).0) ==
            if Observable(u[0].sc) then [Wild(CanonEvent(u[0], n).0)] + rest else rest
  {
    var c := CanonEvents(u, n).0;
    assert c[1..] == CanonEvents(u[1..], CanonEvent(u[0], n).1).0;
  }

  lemma {:induction false} KeptWalk(t: seq<Event>, f: Event, m: Names, n: Names, sigma: string -> string, phi: string -> string)
    requires DescriptorMap(phi) && AddressMap(sigma)
    requires t != [] && f == Rename(t[0], sigma, phi) && Judgeable(t[0])
    requires MappedTable(m.fds, n.fds, phi) && m.pending == n.pending
    requires FixesShown(t, m.fds, m.pending, phi)
    ensures var m', n' := CanonEvent(t[0], m).1, CanonEvent(f, n).1;
            && MappedTable(m'.fds, n'.fds, phi) && m'.pending == n'.pending
            && m'.pending == OpenStep(t[0], [], m.pending).1
            && FixesShown(t[1..], m'.fds, m'.pending, phi)
  {
    RenamedOpen(t[0], m.fds, n.fds, m.pending, sigma, phi);
    EventKeepsWalk(t[0], m);
    EventKeepsWalk(f, n);
  }

  lemma {:induction false} KeptSeen(t: seq<Event>, f: Event, m: Names, n: Names, sigma: string -> string, phi: string -> string)
    requires DescriptorMap(phi) && AddressMap(sigma)
    requires t != [] && f == Rename(t[0], sigma, phi) && Judgeable(t[0])
    requires MappedTable(m.fds, n.fds, phi)
    requires FixesShown(t, m.fds, m.pending, phi)
    ensures Observable(t[0].sc) ==> Wild(CanonEvent(t[0], m).0) == Wild(CanonEvent(f, n).0)
  {
    if Observable(t[0].sc) {
      assert OpenStep(t[0], m.fds, m.pending).0 == m.fds;
      ObservedEvent(t[0], m, n, sigma, phi);
    }
  }

  /**
   The observable channel is invariant: rename addresses in any way and opened
   descriptors injectively, insert silent events anywhere, and the judge still
   sees the same observable events.
   */
  lemma ObservationInvariance(t: seq<Event>, u: seq<Event>, keep: seq<bool>, sigma: string -> string, phi: string -> string)
    requires DescriptorMap(phi) && AddressMap(sigma)
    requires forall i :: 0 <= i < |t| ==> Judgeable(t[i])
    requires FixesShown(t, [], false, phi)
    requires Woven(t, u, keep, false, sigma, phi)
    ensures ObsEvents(Canon(t)) == ObsEvents(Canon(u))
  {
    WovenSame(t, u, keep, FRESH, FRESH, sigma, phi);
  }

  // ---------- exactly when earlier names show ----------

  /** An observable event whose result is given an address ordinal: results are not wildcarded. */
  predicate ShowsAddress(e: Event) {
    Observable(e.sc) && ResultText(e).Some? && IsAddr(ResultText(e).value)
  }

  /** An argument in which a path ordinal is left standing. */
  ghost predicate PathStands(a: string) {
    !IsAddr(a) && !StartsWith(a, "ADDR_") && !AllCh(Lex(a))
  }

  ghost predicate ShowsPath(e: Event, fds: seq<string>) {
    Observable(e.sc) && exists j :: 0 <= j < |e.args| && PathStands(FdArgs(e, fds)[j])
  }

  /** Some observable event of the run shows a path ordinal, given the descriptors opened so far. */
  ghost predicate PathsShow(t: seq<Event>, fds: seq<string>, pending: bool) {
    t != [] &&
    var after := OpenStep(t[0], fds, pending);
    ShowsPath(t[0], after.0) || PathsShow(t[1..], after.0, after.1)
  }

  ghost predicate AddressesShow(t: seq<Event>) {
    exists i :: 0 <= i < |t| && ShowsAddress(t[i])
  }

  /** `n` knows what `m` knows, and knew `addrs` and `paths` before that. */
  ghost predicate Behind(m: Names, n: Names, addrs: seq<string>, paths: seq<string>) {
    n == m.(addrs := addrs + m.addrs, paths := paths + m.paths)
  }

  /** None of the names occurs in the argument. */
  ghost predicate NewTo(a: string, addrs: seq<string>, paths: seq<string>) {
    (IsAddr(a) ==> a !in addrs) && forall i :: 0 <= i < |Lex(a)| && Lex(a)[i].AbsPath? ==> Lex(a)[i].p !in paths
  }

  ghost predicate NewToEvent(e: Event, addrs: seq<string>, paths: seq<string>) {
    && (forall j :: 0 <= j < |e.args| ==> NewTo(e.args[j], addrs, paths))
    && (ResultText(e).Some? ==> ResultText(e).value !in addrs)
  }

  lemma SightBehind(early: seq<string>, known: seq<string>, x: string)
    requires x !in early
    ensures Sight(early + known, x) == early + Sight(known, x)
    ensures Ord(Sight(early + known, x), x) == |early| + Ord(Sight(known, x), x)
  {
    var r, s := early + Sight(known, x), Sight(known, x);
    assert Sight(early + known, x) == r;
    assert r[|early| + Ord(s, x)] == x;
    forall j | 0 <= j < |early| + Ord(s, x)
      ensures r[j] != x
    {
      if |early| <= j { assert r[j] == s[j - |early|]; }
    }
  }

  /** Paths known earlier move every path ordinal, so the texts differ exactly when the argument holds a path. */
  lemma {:induction false} PiecesBehind(ps: seq<Piece>, xs: seq<string>, paths: seq<string>)
    requires Spaced(ps) && forall i :: 0 <= i < |ps| && ps[i].AbsPath? ==> ps[i].p !in paths
    ensures CanonPieces(ps, paths + xs).1 == paths + CanonPieces(ps, xs).1
    ensures CanonPieces(ps, paths + xs).0 == CanonPieces(ps, xs).0 <==> paths == [] || AllCh(ps)
  {
    if ps != [] {
      assert forall i :: 0 <= i < |ps[1..]| ==> ps[1..][i] == ps[i + 1];
      if ps[0].Ch? {
        PiecesBehind(ps[1..], xs, paths);
        CharBehind(ps, xs, paths + xs);
      } else {
        var p := ps[0].p;
        SightBehind(paths, xs, p);
        PiecesBehind(ps[1..], Sight(xs, p), paths);
        if paths == [] {
          assert paths + xs == xs;
        } else {
          PathBehind(ps, xs, paths + xs);
        }
      }
    }
  }

  lemma CharBehind(ps: seq<Piece>, xs: seq<string>, ys: seq<string>)
    requires ps != [] && ps[0].Ch?
    ensures CanonPieces(ps, xs).0 == CanonPieces(ps, ys).0 <==> CanonPieces(ps[1..], xs).0 == CanonPieces(ps[1..], ys).0
  {
    CanonHead(ps, xs);
    CanonHead(ps, ys);
    assert CanonPieces(ps, xs).0[1..] == CanonPieces(ps[1..], xs).0;
    assert CanonPieces(ps, ys).0[1..] == CanonPieces(ps[1..], ys).0;
  }

  lemma PathBehind(ps: seq<Piece>, xs: seq<string>, ys: seq<string>)
    requires ps != [] && ps[0].AbsPath? && Spaced(ps)
    requires Ord(Sight(xs, ps[0].p), ps[0].p) != Ord(Sight(ys, ps[0].p), ps[0].p)
    ensures CanonPieces(ps, xs).0 != CanonPieces(ps, ys).0
  {
    var xs1, ys1 := Sight(xs, ps[0].p), Sight(ys, ps[0].p);
    if CanonPieces(ps, xs).0 == CanonPieces(ps, ys).0 {
      PathHeadText(ps, xs);
      PathHeadText(ps, ys);
      TailText(ps, xs1);
      TailText(ps, ys1);
      DecReadBack(Ord(xs1, ps[0].p), Ord(ys1, ps[0].p), CanonPieces(ps[1..], xs1).0, CanonPieces(ps[1..], ys1).0);
    }
  }

  /** Whether a text is taken for an address ordinal does not depend on the tables. */
  lemma WildTextIff(a: string, n: Names)
    requires !IsAddr(a)
    ensures StartsWith(CanonArg(a, n).0, "ADDR_") <==> StartsWith(a, "ADDR_")
  {
    if StartsWith(CanonArg(a, n).0, "ADDR_") {
      TextPrefixBack(a, n, "ADDR_");
    }
    if StartsWith(a, "ADDR_") {
      LexPrefix(a, "ADDR_");
      PrefixKept(Lex(a), n.paths, "ADDR_");
    }
  }

  lemma {:induction false} LexPrefix(a: string, w: string)
    requires StartsWith(a, w) && '/' !in w
    ensures |w| <= |Lex(a)| && forall i :: 0 <= i < |w| ==> Lex(a)[i] == Ch(w[i])
    decreases |w|
  {
    if w != "" {
      assert a[0] == w[0];
      LexHead(a);
      assert Lex(a)[0] == Ch(a[0]);
      LexPrefix(a[1..], w[1..]);
    }
  }

  lemma {:induction false} PrefixKept(ps: seq<Piece>, xs: seq<string>, w: string)
    requires |w| <= |ps| && forall i :: 0 <= i < |w| ==> ps[i] == Ch(w[i])
    ensures StartsWith(CanonPieces(ps, xs).0, w)
    decreases |w|
  {
    if w != "" {
      CanonHead(ps, xs);
      PrefixKept(ps[1..], xs, w[1..]);
      assert w == [w[0]] + w[1..];
    }
  }

  lemma ArgBehind(a: string, m: Names, n: Names, addrs: seq<string>, paths: seq<string>)
    requires Behind(m, n, addrs, paths) && NewTo(a, addrs, paths)
    ensures Behind(CanonArg(a, m).1, CanonArg(a, n).1, addrs, paths)
    ensures WildArg(CanonArg(a, m).0) == WildArg(CanonArg(a, n).0) <==> paths == [] || !PathStands(a)
  {
    if IsAddr(a) {
      SightBehind(addrs, m.addrs, a);
      AddrNamePrefix(Ord(Sight(m.addrs, a), a));
      AddrNamePrefix(Ord(Sight(n.addrs, a), a));
    } else {
      LexSpaced(a);
      PiecesBehind(Lex(a), m.paths, paths);
      WildTextIff(a, m);
      WildTextIff(a, n);
    }
  }

  lemma {:induction false} ArgsBehind(xs: seq<string>, m: Names, n: Names, addrs: seq<string>, paths: seq<string>)
    requires Behind(m, n, addrs, paths) && forall j :: 0 <= j < |xs| ==> NewTo(xs[j], addrs, paths)
    ensures Behind(CanonArgs(xs, m).1, CanonArgs(xs, n).1, addrs, paths)
    ensures WildArgs(CanonArgs(xs, m).0) == WildArgs(CanonArgs(xs, n).0) <==>
              paths == [] || forall j :: 0 <= j < |xs| ==> !PathStands(xs[j])
  {
    if xs != [] {
      var m1, n1 := CanonArg(xs[0], m), CanonArg(xs[0], n);
      ArgBehind(xs[0], m, n, addrs, paths);
      ArgsBehind(xs[1..], m1.1, n1.1, addrs, paths);
      WildCons(xs, m);
      WildCons(xs, n);
      StandsCons(xs);
    }
  }

  lemma WildCons(xs: seq<string>, n: Names)
    requires xs != []
    ensures WildArgs(CanonArgs(xs, n).0) ==
            [WildArg(CanonArg(xs[0], n).0)] + WildArgs(CanonArgs(xs[1..], CanonArg(xs[0], n).1).0)
  {
    assert CanonArgs(xs, n).0[1..] == CanonArgs(xs[1..], CanonArg(xs[0], n).1).0;
  }

  lemma StandsCons(xs: seq<string>)
    requires xs != []
    ensures (forall j :: 0 <= j < |xs| ==> !PathStands(xs[j])) <==>
              !PathStands(xs[0]) && forall j :: 0 <= j < |xs[1..]| ==> !PathStands(xs[1..][j])
  {
    assert forall j :: 0 <= j < |xs[1..]| ==> xs[1..][j] == xs[j + 1];
    assert forall j :: 0 < j < |xs| ==> xs[j] == xs[1..][j - 1];
  }

  lemma ResultBehind(rest: map<string, Json>, m: Names, n: Names, addrs: seq<string>, paths: seq<string>)
    requires Behind(m, n, addrs, paths)
    requires "result" in rest && rest["result"].JStr? ==> rest["result"].s !in addrs
    ensures Behind(CanonResult(rest, m).1, CanonResult(rest, n).1, addrs, paths)
    ensures CanonResult(rest, m).0 == CanonResult(rest, n).0 <==>
              addrs == [] || !("result" in rest && rest["result"].JStr? && IsAddr(rest["result"].s))
  {
    if "result" in rest && rest["result"].JStr? && IsAddr(rest["result"].s) {
      var a := rest["result"].s;
      SightBehind(addrs, m.addrs, a);
      NamedResults(rest, Ord(Sight(m.addrs, a), a), |addrs|);
    }
  }

  lemma NamedResults(rest: map<string, Json>, k: nat, d: nat)
    ensures rest["result" := JStr(AddrName(k))] == rest["result" := JStr(AddrName(d + k))] <==> d == 0
  {
    AddrNamesDiffer(k, d + k);
    assert rest["result" := JStr(AddrName(k))]["result"] == JStr(AddrName(k));
    assert rest["result" := JStr(AddrName(d + k))]["result"] == JStr(AddrName(d + k));
  }

  lemma AddrNamesDiffer(i: nat, j: nat)
    ensures AddrName(i) == AddrName(j) ==> i == j
  {
    if AddrName(i) == AddrName(j) {
      assert Dec(i) == AddrName(i)[5..] == AddrName(j)[5..] == Dec(j);
      DecInjective(i, j);
    }
  }

  lemma FdArgsNew(e: Event, fds: seq<string>, addrs: seq<string>, paths: seq<string>)
    requires NewToEvent(e, addrs, paths)
    ensures forall j :: 0 <= j < |e.args| ==> NewTo(FdArgs(e, fds)[j], addrs, paths)
  {
    if FdCarrier(e.sc) && e.args != [] && e.args[0] in fds {
      var k := Ord(fds, e.args[0]);
      FdNamePlain(k, FRESH);
      SlashFree(FdName(k), []);
    }
  }

  /** What the judge sees of one event, with and without the earlier names. */
  lemma EventBehind(e: Event, m: Names, n: Names, addrs: seq<string>, paths: seq<string>)
    requires Behind(m, n, addrs, paths) && NewToEvent(e, addrs, paths)
    ensures Behind(CanonEvent(e, m).1, CanonEvent(e, n).1, addrs, paths)
    ensures Observable(e.sc) ==>
              (Wild(CanonEvent(e, m).0) == Wild(CanonEvent(e, n).0) <==>
               (addrs == [] || !ShowsAddress(e)) && (paths == [] || !ShowsPath(e, Opened(e, m).fds)))
  {
    EventParts(e, m);
    EventParts(e, n);
    FdArgsNew(e, Opened(e, m).fds, addrs, paths);
    ArgsBehind(FdArgs(e, Opened(e, m).fds), Opened(e, m), Opened(e, n), addrs, paths);
    ResultBehind(e.rest, Argued(e, m).1, Argued(e, n).1, addrs, paths);
  }

  /** For every run: names sighted before it change what is observed exactly when it shows an address or a path of its own. */
  lemma {:induction false} EventsBehind(t: seq<Event>, m: Names, n: Names, addrs: seq<string>, paths: seq<string>)
    requires Behind(m, n, addrs, paths) && forall i :: 0 <= i < |t| ==> NewToEvent(t[i], addrs, paths)
    ensures ObsEvents(CanonEvents(t, m).0) == ObsEvents(CanonEvents(t, n).0) <==>
              (addrs == [] || !AddressesShow(t)) && (paths == [] || !PathsShow(t, m.fds, m.pending))
  {
    if t != [] {
      EventBehind(t[0], m, n, addrs, paths);
      EventsBehind(t[1..], CanonEvent(t[0], m).1, CanonEvent(t[0], n).1, addrs, paths);
      HeadsBehind(t, m, n);
      AddressesShowCons(t);
      PathsShowCons(t, m);
    }
  }

  lemma HeadsBehind(t: seq<Event>, m: Names, n: Names)
    requires t != []
    ensures ObsEvents(CanonEvents(t, m).0) == ObsEvents(CanonEvents(t, n).0) <==>
              && (Observable(t[0].sc) ==> Wild(CanonEvent(t[0], m).0) == Wild(CanonEvent(t[0], n).0))
              && ObsEvents(CanonEvents(t[1..], CanonEvent(t[0], m).1).0) == ObsEvents(CanonEvents(t[1..], CanonEvent(t[0], n).1).0)
  {
    ObsOfEvents(t, m);
    ObsOfEvents(t, n);
    if Observable(t[0].sc) {
      ConsEqual(Wild(CanonEvent(t[0], m).0), Wild(CanonEvent(t[0], n).0),
                ObsEvents(CanonEvents(t[1..], CanonEvent(t[0], m).1).0), ObsEvents(CanonEvents(t[1..], CanonEvent(t[0], n).1).0));
    }
  }

  lemma ConsEqual(x: Event, y: Event, xs: seq<Event>, ys: seq<Event>)
    ensures [x] + xs == [y] + ys <==> x == y && xs == ys
  {
    assert ([x] + xs)[0] == x && ([y] + ys)[0] == y;
    assert ([x] + xs)[1..] == xs && ([y] + ys)[1..] == ys;
  }

  lemma PathsShowCons(t: seq<Event>, m: Names)
    requires t != []
    ensures var m' := CanonEvent(t[0], m).1;
            PathsShow(t, m.fds, m.pending) <==> ShowsPath(t[0], Opened(t[0], m).fds) || PathsShow(t[1..], m'.fds, m'.pending)
  {
    EventKeepsWalk(t[0], m);
  }

  lemma AddressesShowCons(t: seq<Event>)
    requires t != []
    ensures AddressesShow(t) <==> ShowsAddress(t[0]) || AddressesShow(t[1..])
  {
    assert forall i :: 0 < i < |t| ==> t[i] == t[1..][i - 1];
  }

  // ---------- one allocation, one path ----------

  function Allocation(a: string): (e: Event) { Event("brk", "exit", [], map["result" := JStr(a)]) }
  function Lookup(p: string): (e: Event) { Event("stat", "enter", [p], map[]) }

  lemma NewResult(e: Event, n: Names, a: string)
    requires e.args == [] && !OpenFamily(e.sc) && ResultText(e) == Some(a) && IsAddr(a) && a !in n.addrs
    ensures CanonEvent(e, n).0 == e.(rest := e.rest["result" := JStr(AddrName(|n.addrs|))])
    ensures CanonEvent(e, n).1 == n.(addrs := n.addrs + [a])
  {
    var known := Sight(n.addrs, a);
    assert known[|n.addrs|] == a;
  }

  /**
   An allocation before the run goes unseen if and only if no observable result
   of the run is address-shaped.
   */
  lemma AllocationUnseenIff(t: seq<Event>, a: string)
    requires IsAddr(a) && forall i :: 0 <= i < |t| ==> a !in t[i].args && ResultText(t[i]) != Some(a)
    ensures ObsEvents(Canon([Allocation(a)] + t)) == ObsEvents(Canon(t)) <==>
              forall i :: 0 <= i < |t| && Observable(t[i].sc) && ResultText(t[i]).Some? ==> !IsAddr(ResultText(t[i]).value)
  {
    AfterAllocation(t, a);
    forall i | 0 <= i < |t|
      ensures NewToEvent(t[i], [a], [])
    {
      AddressIsNew(t[i], a);
    }
    BehindFresh([a], []);
    EventsBehind(t, FRESH, FRESH.(addrs := [a], paths := []), [a], []);
    AddressesShowIff(t);
  }

  lemma AfterAllocation(t: seq<Event>, a: string)
    requires IsAddr(a)
    ensures ObsEvents(Canon([Allocation(a)] + t)) == ObsEvents(CanonEvents(t, FRESH.(addrs := [a], paths := [])).0)
  {
    var u := [Allocation(a)] + t;
    assert u[0] == Allocation(a) && u[1..] == t;
    NewResult(Allocation(a), FRESH, a);
    assert FRESH.(addrs := [] + [a]) == FRESH.(addrs := [a], paths := []);
    ObsOfEvents(u, FRESH);
  }

  lemma AddressIsNew(e: Event, a: string)
    requires a !in e.args && ResultText(e) != Some(a)
    ensures NewToEvent(e, [a], [])
  {
  }

  lemma BehindFresh(addrs: seq<string>, paths: seq<string>)
    ensures Behind(FRESH, FRESH.(addrs := addrs, paths := paths), addrs, paths)
  {
    assert addrs + [] == addrs && paths + [] == paths;
  }

  lemma AddressesShowIff(t: seq<Event>)
    ensures !AddressesShow(t) <==>
              forall i :: 0 <= i < |t| && Observable(t[i].sc) && ResultText(t[i]).Some? ==> !IsAddr(ResultText(t[i]).value)
  {
    if AddressesShow(t) {
      var i :| 0 <= i < |t| && ShowsAddress(t[i]);
    }
  }

  /** A path looked up before the run goes unseen if and only if no observable argument of the run leaves a path standing. */
  lemma LookupUnseenIff(t: seq<Event>, p: string)
    requires !IsAddr(p) && Lex(p) == [AbsPath(p)]
    requires forall i, j :: 0 <= i < |t| && 0 <= j < |t[i].args| ==> AbsPath(p) !in Lex(t[i].args[j])
    ensures ObsEvents(Canon([Lookup(p)] + t)) == ObsEvents(Canon(t)) <==> !PathsShow(t, [], false)
  {
    var u := [Lookup(p)] + t;
    assert u[1..] == t;
    LookupSights(p);
    ObsOfEvents(u, FRESH);
    forall i | 0 <= i < |t|
      ensures NewToEvent(t[i], [], [p])
    {
      forall j | 0 <= j < |t[i].args|
        ensures NewTo(t[i].args[j], [], [p])
      {
        assert AbsPath(p) !in Lex(t[i].args[j]);
      }
    }
    BehindFresh([], [p]);
    EventsBehind(t, FRESH, FRESH.(paths := [p]), [], [p]);
  }

  lemma LookupSights(p: string)
    requires !IsAddr(p) && Lex(p) == [AbsPath(p)]
    ensures CanonEvent(Lookup(p), FRESH).1 == FRESH.(paths := [p])
  {
    var e := Lookup(p);
    EventParts(e, FRESH);
    assert Opened(e, FRESH) == FRESH && FdArgs(e, []) == [p] && ResultText(e).None?;
    assert [p][1..] == [];
    assert CanonArgs([p], FRESH).1 == CanonArg(p, FRESH).1;
    OnePath(p);
  }

  lemma OnePath(p: string)
    ensures CanonPieces([AbsPath(p)], []).1 == [p]
  {
    assert [AbsPath(p)][1..] == [];
    assert Sight([], p) == [p];
  }

  // ---------- the smallest runs that show a name ----------

  const WROTE: Event := Event("write", "exit", [], map["result" := JStr("0x100000")])
  const NAMED: Event := Event("write", "enter", ["/a/b"], map[])

  /** Results are not wildcarded: one silent allocation before it changes what the judge sees of a large count. */
  lemma LargeResultsLeak()
    ensures Silent(Allocation("0x200000"), false)
    ensures ObsEvents(Canon([WROTE])) != ObsEvents(Canon([Allocation("0x200000"), WROTE]))
  {
    assert IsAddr("0x100000") && IsAddr("0x200000");
    assert "0x100000"[2] != "0x200000"[2];
    assert ResultText([WROTE][0]) == Some("0x100000");
    AllocationUnseenIff([WROTE], "0x200000");
    assert [Allocation("0x200000")] + [WROTE] == [Allocation("0x200000"), WROTE];
  }

  lemma TwoComponents(s: string)
    requires |s| == 4 && s[0] == '/' && IsWord(s[1]) && s[2] == '/' && IsWord(s[3])
    ensures Lex(s) == [AbsPath(s)]
  {
    assert s[1..][1..] == s[2..] && s[3..][1..] == "" && s[2..][1..] == s[3..];
    assert WordLen(s[3..]) == 1 && WordLen(s[2..]) == 0;
    assert WordLen(s[1..]) == 1;
    assert SegLen(s) == 2 && SegLen(s[2..]) == 2;
    assert s[2..][2..] == "";
    assert ChainLen(s[2..]) == 2;
    assert PathLen(s) == 4;
    assert s[..4] == s && s[4..] == "";
  }

  /** Nor are paths: one silent lookup before it changes what the judge sees of a path argument. */
  lemma PathArgumentsLeak()
    ensures Silent(Lookup("/c/d"), false)
    ensures ObsEvents(Canon([NAMED])) != ObsEvents(Canon([Lookup("/c/d"), NAMED]))
  {
    NamedShows("/a/b", "/c/d");
    assert [Lookup("/c/d")] + [NAMED] == [Lookup("/c/d"), NAMED];
  }

  lemma NamedShows(a: string, p: string)
    requires |a| == 4 && a[0] == '/' && IsWord(a[1]) && a[2] == '/' && IsWord(a[3])
    requires |p| == 4 && p[0] == '/' && IsWord(p[1]) && p[2] == '/' && IsWord(p[3]) && p != a
    ensures var e := Event("write", "enter", [a], map[]);
            ObsEvents(Canon([e])) != ObsEvents(Canon([Lookup(p)] + [e]))
  {
    var e := Event("write", "enter", [a], map[]);
    TwoComponents(a);
    TwoComponents(p);
    assert PathStands(a) by { assert "ADDR_"[0] == 'A'; }
    assert FdArgs(e, [])[0] == a;
    assert OpenStep(e, [], false) == ([], false);
    assert ShowsPath(e, []);
    assert PathsShow([e], [], false);
    LookupUnseenIff([e], p);
  }
}
