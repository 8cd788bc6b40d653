/**
 Canonicalisation forgets names and nothing else: two recorded event lists have
 the same canonical form exactly when one is the other under a bijection of
 address tokens and a bijection of absolute paths.
 */
module AlphaEquivalence {
  import opened Prelude
  import opened Canonical

  // ---------- what it is to be the same trace under other names ----------

  /** Piece by piece: characters are equal, paths correspond under `pi`. */
  ghost predicate RenamedPieces(ps: seq<Piece>, qs: seq<Piece>, pi: map<string, string>) {
    if ps == [] || qs == [] then ps == [] && qs == []
    else
      && (match ps[0]
          case Ch(c) => qs[0] == Ch(c)
          case AbsPath(p) => p in pi && qs[0] == AbsPath(pi[p]))
      && RenamedPieces(ps[1..], qs[1..], pi)
  }

  ghost predicate RenamedArg(a: string, b: string, sigma: map<string, string>, pi: map<string, string>) {
    if IsAddr(a) then IsAddr(b) && a in sigma && sigma[a] == b
    else !IsAddr(b) && RenamedPieces(Lex(a), Lex(b), pi)
  }

  ghost predicate RenamedRest(r: map<string, Json>, s: map<string, Json>, sigma: map<string, string>) {
    && r.Keys == s.Keys
    && (forall k :: k in r && k != "result" ==> r[k] == s[k])
    && ("result" in r ==>
          if r["result"].JStr? && IsAddr(r["result"].s) then
            s["result"].JStr? && IsAddr(s["result"].s) &&
            r["result"].s in sigma && sigma[r["result"].s] == s["result"].s
          else r["result"] == s["result"])
  }

  ghost predicate RenamedEvent(e: Event, f: Event, sigma: map<string, string>, pi: map<string, string>) {
    && e.sc == f.sc && e.phase == f.phase && |e.args| == |f.args|
    && (forall j :: 0 <= j < |e.args| ==> RenamedArg(e.args[j], f.args[j], sigma, pi))
    && RenamedRest(e.rest, f.rest, sigma)
  }

  /** `u` is `t` with every address and every path replaced, consistently and without merging two names. */
  ghost predicate Renamed(t: seq<Event>, u: seq<Event>, sigma: map<string, string>, pi: map<string, string>) {
    && Injective(sigma) && Injective(pi)
    && |t| == |u|
    && forall i :: 0 <= i < |t| ==> RenamedEvent(t[i], u[i], sigma, pi)
  }

  // ---------- which traces the law is about ----------

  ghost predicate SpellsPath(ps: seq<Piece>) {
    5 <= |ps| && ps[0] == Ch('P') && ps[1] == Ch('A') && ps[2] == Ch('T') && ps[3] == Ch('H') && ps[4] == Ch('_')
  }

  /** No run of ordinary characters spells PATH_. */
  ghost predicate Clean(ps: seq<Piece>) {
    ps == [] || (!SpellsPath(ps) && Clean(ps[1..]))
  }

  ghost predicate PlainArg(a: string) {
    IsAddr(a) || (!StartsWith(a, "ADDR_") && !StartsWith(a, "FD_") && Clean(Lex(a)))
  }

  /** No text posing as an ordinal; flags and results of opens are numbers below the address shape. */
  ghost predicate PlainEvent(e: Event) {
    && (forall j :: 0 <= j < |e.args| ==> PlainArg(e.args[j]))
    && (ResultText(e).Some? ==> !StartsWith(ResultText(e).value, "ADDR_"))
    && (OpenFamily(e.sc) && FlagsIndex(e.sc) < |e.args| ==> !IsAddr(e.args[FlagsIndex(e.sc)]))
    && (OpenFamily(e.sc) && ResultText(e).Some? ==> !IsAddr(ResultText(e).value) && '/' !in ResultText(e).value)
  }

  ghost predicate Plain(t: seq<Event>) {
    forall i :: 0 <= i < |t| ==> PlainEvent(t[i])
  }

  // ---------- facts about pieces ----------

  /** No digit directly after a path. */
  ghost predicate Spaced(ps: seq<Piece>) {
    |ps| < 2 || ((ps[0].AbsPath? && ps[1].Ch? ==> !IsDigit(ps[1].c)) && Spaced(ps[1..]))
  }

  lemma {:induction false} LexSpaced(s: string)
    ensures Spaced(Lex(s))
    decreases |s|
  {
    if s != "" {
      var k := HeadLen(s);
      LexHead(s);
      LexSpaced(s[k..]);
      if s[k..] != "" {
        LexHead(s[k..]);
      }
    }
  }

  /** Text without a slash has no paths and passes through unchanged. */
  lemma SlashFree(s: string, paths: seq<string>)
    requires '/' !in s
    ensures |Lex(s)| == |s| && forall i :: 0 <= i < |s| ==> Lex(s)[i] == Ch(s[i])
    ensures CanonPieces(Lex(s), paths) == (s, paths)
  {
    SlashFreeLex(s);
    PlainPieces(Lex(s), s, paths);
  }

  lemma {:induction false} SlashFreeLex(s: string)
    requires '/' !in s
    ensures |Lex(s)| == |s| && forall i :: 0 <= i < |s| ==> Lex(s)[i] == Ch(s[i])
  {
    if s != "" {
      SlashFreeLex(s[1..]);
      assert PathLen(s) == 0;
      assert Lex(s) == [Ch(s[0])] + Lex(s[1..]);
    }
  }

  lemma {:induction false} PlainPieces(ps: seq<Piece>, s: string, paths: seq<string>)
    requires |ps| == |s| && forall i :: 0 <= i < |s| ==> ps[i] == Ch(s[i])
    ensures CanonPieces(ps, paths) == (s, paths)
  {
    if s != "" {
      PlainPieces(ps[1..], s[1..], paths);
      assert s == [s[0]] + s[1..];
    }
  }

  lemma {:induction false} UnlexSpells(ps: seq<Piece>, w: string)
    requires |w| <= |ps| && forall i :: 0 <= i < |w| ==> ps[i] == Ch(w[i])
    ensures StartsWith(Unlex(ps), w)
    decreases |w|
  {
    if w != "" {
      UnlexSpells(ps[1..], w[1..]);
      assert w == [w[0]] + w[1..];
    }
  }

  lemma LexSpells(s: string, w: string)
    requires |w| <= |Lex(s)| && forall i :: 0 <= i < |w| ==> Lex(s)[i] == Ch(w[i])
    ensures StartsWith(s, w)
  {
    LexRoundTrip(s);
    UnlexSpells(Lex(s), w);
  }

  lemma CanonHead(ps: seq<Piece>, paths: seq<string>)
    requires ps != []
    ensures ps[0].Ch? ==>
              CanonPieces(ps, paths).0 == [ps[0].c] + CanonPieces(ps[1..], paths).0
    ensures ps[0].AbsPath? ==>
              StartsWith(CanonPieces(ps, paths).0, "PATH_") && CanonPieces(ps, paths).0[0] == 'P'
  {
    if ps[0].AbsPath? {
      var name := PathName(Ord(Sight(paths, ps[0].p), ps[0].p));
      assert name[..5] == "PATH_";
    }
  }

  /** A canonical text that starts with `w`, which holds no P, came from the very characters of `w`. */
  lemma {:induction false} Spelled(ps: seq<Piece>, paths: seq<string>, w: string)
    requires StartsWith(CanonPieces(ps, paths).0, w)
    requires 'P' !in w
    ensures |w| <= |ps| && forall i :: 0 <= i < |w| ==> ps[i] == Ch(w[i])
    decreases |w|
  {
    if w != "" {
      var text := CanonPieces(ps, paths).0;
      assert text[0] == w[0];
      CanonHead(ps, paths);
      assert ps[0] == Ch(w[0]);
      assert text[1..] == CanonPieces(ps[1..], paths).0;
      assert w[1..] <= text[1..];
      Spelled(ps[1..], paths, w[1..]);
    }
  }

  lemma CleanTextIsNoPath(ps: seq<Piece>, paths: seq<string>)
    requires ps != [] && ps[0].Ch?
    ensures StartsWith(CanonPieces(ps, paths).0, "PATH_") ==> SpellsPath(ps)
  {
    var text := CanonPieces(ps, paths).0;
    CanonHead(ps, paths);
    if StartsWith(text, "PATH_") {
      assert text[1..] == CanonPieces(ps[1..], paths).0;
      assert text[0] == "PATH_"[0] == 'P';
      assert "ATH_" == "PATH_"[1..] <= text[1..];
      Spelled(ps[1..], paths, "ATH_");
      assert forall i :: 0 <= i < 4 ==> ps[i + 1] == ps[1..][i];
    }
  }

  // ---------- same canonical form, hence the same trace up to names ----------

  ghost predicate Paired(xs: seq<string>, ys: seq<string>, x: string, y: string) {
    x in xs && y in ys && Ord(xs, x) == Ord(ys, y)
  }

  ghost predicate Level(xs: seq<string>, ys: seq<string>) {
    |xs| == |ys| && Distinct(xs) && Distinct(ys)
  }

  /** Two first sightings with equal ordinals keep the tables level and pair the two names. */
  lemma SightLevel(xs: seq<string>, ys: seq<string>, x: string, y: string)
    requires Level(xs, ys)
    requires Ord(Sight(xs, x), x) == Ord(Sight(ys, y), y)
    ensures Level(Sight(xs, x), Sight(ys, y))
    ensures Paired(Sight(xs, x), Sight(ys, y), x, y)
  {
  }

  lemma PairedStays(xs: seq<string>, ys: seq<string>, xs': seq<string>, ys': seq<string>, x: string, y: string)
    requires Paired(xs, ys, x, y) && xs <= xs' && ys <= ys'
    ensures Paired(xs', ys', x, y)
  {
    OrdStable(xs, xs', x);
    OrdStable(ys, ys', y);
  }

  ghost predicate PiecesPaired(ps: seq<Piece>, qs: seq<Piece>, xs: seq<string>, ys: seq<string>) {
    if ps == [] || qs == [] then ps == [] && qs == []
    else
      && (match ps[0]
          case Ch(c) => qs[0] == Ch(c)
          case AbsPath(p) => qs[0].AbsPath? && Paired(xs, ys, p, qs[0].p))
      && PiecesPaired(ps[1..], qs[1..], xs, ys)
  }

  lemma {:induction false} PathsGrow(ps: seq<Piece>, xs: seq<string>)
    ensures xs <= CanonPieces(ps, xs).1
    ensures Distinct(xs) ==> Distinct(CanonPieces(ps, xs).1)
  {
    if ps != [] {
      PathsGrow(ps[1..], if ps[0].Ch? then xs else Sight(xs, ps[0].p));
    }
  }

  lemma {:induction false} PiecesBack(ps: seq<Piece>, qs: seq<Piece>, xs: seq<string>, ys: seq<string>)
    requires Clean(ps) && Clean(qs) && Spaced(ps) && Spaced(qs) && Level(xs, ys)
    requires CanonPieces(ps, xs).0 == CanonPieces(qs, ys).0
    ensures PiecesPaired(ps, qs, CanonPieces(ps, xs).1, CanonPieces(qs, ys).1)
    ensures Level(CanonPieces(ps, xs).1, CanonPieces(qs, ys).1)
  {
    if ps == [] || qs == [] {
      EmptyText(ps, xs);
      EmptyText(qs, ys);
    } else {
      CanonHead(ps, xs);
      CanonHead(qs, ys);
      if ps[0].AbsPath? && qs[0].AbsPath? {
        var p, q := ps[0].p, qs[0].p;
        PathHeadsBack(ps, qs, xs, ys);
        var xs1, ys1 := Sight(xs, p), Sight(ys, q);
        PiecesBack(ps[1..], qs[1..], xs1, ys1);
        PathsGrow(ps[1..], xs1);
        PathsGrow(qs[1..], ys1);
        PairedStays(xs1, ys1, CanonPieces(ps, xs).1, CanonPieces(qs, ys).1, p, q);
      } else {
        CharHeadsBack(ps, qs, xs, ys);
        PiecesBack(ps[1..], qs[1..], xs, ys);
      }
    }
  }

  lemma EmptyText(ps: seq<Piece>, xs: seq<string>)
    ensures CanonPieces(ps, xs).0 == "" ==> ps == []
  {
    if ps != [] {
      CanonHead(ps, xs);
    }
  }

  lemma CharHeadsBack(ps: seq<Piece>, qs: seq<Piece>, xs: seq<string>, ys: seq<string>)
    requires Clean(ps) && Clean(qs)
    requires ps != [] && qs != [] && (ps[0].Ch? || qs[0].Ch?)
    requires CanonPieces(ps, xs).0 == CanonPieces(qs, ys).0
    ensures ps[0] == qs[0] && ps[0].Ch?
    ensures CanonPieces(ps[1..], xs).0 == CanonPieces(qs[1..], ys).0
  {
    CanonHead(ps, xs);
    CanonHead(qs, ys);
    if ps[0].Ch? { CleanTextIsNoPath(ps, xs); }
    if qs[0].Ch? { CleanTextIsNoPath(qs, ys); }
    var text := CanonPieces(ps, xs).0;
    assert text[1..] == CanonPieces(ps[1..], xs).0;
    assert text[1..] == CanonPieces(qs[1..], ys).0;
  }

  lemma TailText(ps: seq<Piece>, xs: seq<string>)
    requires Spaced(ps) && ps != [] && ps[0].AbsPath?
    ensures NoLeadingDigit(CanonPieces(ps[1..], xs).0)
  {
    if ps[1..] != [] {
      CanonHead(ps[1..], xs);
      assert ps[1..][0] == ps[1];
    }
  }

  lemma PathHeadText(ps: seq<Piece>, xs: seq<string>)
    requires ps != [] && ps[0].AbsPath?
    ensures 5 <= |CanonPieces(ps, xs).0|
    ensures CanonPieces(ps, xs).0[5..] ==
            Dec(Ord(Sight(xs, ps[0].p), ps[0].p)) + CanonPieces(ps[1..], Sight(xs, ps[0].p)).0
  {
    PathNameTail(Ord(Sight(xs, ps[0].p), ps[0].p), CanonPieces(ps[1..], Sight(xs, ps[0].p)).0);
  }

  lemma PathNameTail(k: nat, rest: string)
    ensures 5 <= |PathName(k) + rest| && (PathName(k) + rest)[5..] == Dec(k) + rest
  {
    assert PathName(k)[5..] == Dec(k);
    assert (PathName(k) + rest)[5..] == PathName(k)[5..] + rest;
  }

  lemma PathHeadsBack(ps: seq<Piece>, qs: seq<Piece>, xs: seq<string>, ys: seq<string>)
    requires Spaced(ps) && Spaced(qs) && Level(xs, ys)
    requires ps != [] && qs != [] && ps[0].AbsPath? && qs[0].AbsPath?
    requires CanonPieces(ps, xs).0 == CanonPieces(qs, ys).0
    ensures Level(Sight(xs, ps[0].p), Sight(ys, qs[0].p))
    ensures Paired(Sight(xs, ps[0].p), Sight(ys, qs[0].p), ps[0].p, qs[0].p)
    ensures CanonPieces(ps[1..], Sight(xs, ps[0].p)).0 == CanonPieces(qs[1..], Sight(ys, qs[0].p)).0
  {
    var p, q := ps[0].p, qs[0].p;
    var xs1, ys1 := Sight(xs, p), Sight(ys, q);
    var s, t := CanonPieces(ps[1..], xs1).0, CanonPieces(qs[1..], ys1).0;
    var m, n := Ord(xs1, p), Ord(ys1, q);
    PathHeadText(ps, xs);
    PathHeadText(qs, ys);
    TailText(ps, xs1);
    TailText(qs, ys1);
    DecReadBack(m, n, s, t);
    SightLevel(xs, ys, p, q);
  }

  // ---------- arguments ----------

  ghost predicate TablesLevel(m: Names, n: Names) {
    Level(m.addrs, n.addrs) && Level(m.paths, n.paths)
  }

  ghost predicate Grown(m: Names, m': Names) {
    m.addrs <= m'.addrs && m.paths <= m'.paths && m.fds == m'.fds && m.pending == m'.pending
  }

  ghost predicate ArgPaired(a: string, b: string, m: Names, n: Names) {
    if IsAddr(a) then IsAddr(b) && Paired(m.addrs, n.addrs, a, b)
    else !IsAddr(b) && PiecesPaired(Lex(a), Lex(b), m.paths, n.paths)
  }

  ghost predicate ArgsPaired(xs: seq<string>, ys: seq<string>, m: Names, n: Names) {
    |xs| == |ys| && forall j :: 0 <= j < |xs| ==> ArgPaired(xs[j], ys[j], m, n)
  }

  lemma {:induction false} PiecesPairedStay(ps: seq<Piece>, qs: seq<Piece>, m: Names, n: Names, m': Names, n': Names)
    requires PiecesPaired(ps, qs, m.paths, n.paths) && Grown(m, m') && Grown(n, n')
    ensures PiecesPaired(ps, qs, m'.paths, n'.paths)
  {
    if ps != [] && qs != [] {
      if ps[0].AbsPath? {
        PairedStays(m.paths, n.paths, m'.paths, n'.paths, ps[0].p, qs[0].p);
      }
      PiecesPairedStay(ps[1..], qs[1..], m, n, m', n');
    }
  }

  lemma ArgPairedStays(a: string, b: string, m: Names, n: Names, m': Names, n': Names)
    requires ArgPaired(a, b, m, n) && Grown(m, m') && Grown(n, n')
    ensures ArgPaired(a, b, m', n')
  {
    if IsAddr(a) {
      PairedStays(m.addrs, n.addrs, m'.addrs, n'.addrs, a, b);
    } else {
      PiecesPairedStay(Lex(a), Lex(b), m, n, m', n');
    }
  }

  lemma ArgGrows(a: string, m: Names)
    ensures Grown(m, CanonArg(a, m).1)
  {
    PathsGrow(Lex(a), m.paths);
  }

  lemma {:induction false} ArgsGrow(xs: seq<string>, m: Names)
    ensures Grown(m, CanonArgs(xs, m).1)
  {
    if xs != [] {
      ArgGrows(xs[0], m);
      ArgsGrow(xs[1..], CanonArg(xs[0], m).1);
    }
  }

  /** A canonical text argument starts with `w` only if the raw one did. */
  lemma TextPrefixBack(b: string, n: Names, w: string)
    requires !IsAddr(b) && 'P' !in w
    requires StartsWith(CanonArg(b, n).0, w)
    ensures StartsWith(b, w)
  {
    Spelled(Lex(b), n.paths, w);
    LexSpells(b, w);
  }

  lemma AddrNamePrefix(k: nat)
    ensures StartsWith(AddrName(k), "ADDR_") && !StartsWith(AddrName(k), "FD_")
  {
    assert AddrName(k)[..5] == "ADDR_";
    assert AddrName(k)[0] == 'A' && "FD_"[0] == 'F';
  }

  ghost predicate PosesAsNoName(a: string) {
    IsAddr(a) || (!StartsWith(a, "ADDR_") && Clean(Lex(a)))
  }

  lemma ArgBack(a: string, b: string, m: Names, n: Names)
    requires TablesLevel(m, n) && PosesAsNoName(a) && PosesAsNoName(b)
    requires CanonArg(a, m).0 == CanonArg(b, n).0
    ensures TablesLevel(CanonArg(a, m).1, CanonArg(b, n).1)
    ensures ArgPaired(a, b, CanonArg(a, m).1, CanonArg(b, n).1)
  {
    if IsAddr(a) && IsAddr(b) {
      var i, j := Ord(Sight(m.addrs, a), a), Ord(Sight(n.addrs, b), b);
      assert Dec(i) == AddrName(i)[5..] == AddrName(j)[5..] == Dec(j);
      DecInjective(i, j);
      SightLevel(m.addrs, n.addrs, a, b);
    } else if !IsAddr(a) && !IsAddr(b) {
      LexSpaced(a);
      LexSpaced(b);
      PiecesBack(Lex(a), Lex(b), m.paths, n.paths);
    } else if IsAddr(a) {
      AddrNamePrefix(Ord(Sight(m.addrs, a), a));
      TextPrefixBack(b, n, "ADDR_");
    } else {
      AddrNamePrefix(Ord(Sight(n.addrs, b), b));
      TextPrefixBack(a, m, "ADDR_");
    }
  }

  lemma {:induction false} ArgsBack(xs: seq<string>, ys: seq<string>, m: Names, n: Names)
    requires TablesLevel(m, n)
    requires forall j :: 0 <= j < |xs| ==> PosesAsNoName(xs[j])
    requires forall j :: 0 <= j < |ys| ==> PosesAsNoName(ys[j])
    requires CanonArgs(xs, m).0 == CanonArgs(ys, n).0
    ensures TablesLevel(CanonArgs(xs, m).1, CanonArgs(ys, n).1)
    ensures ArgsPaired(xs, ys, CanonArgs(xs, m).1, CanonArgs(ys, n).1)
  {
    if xs != [] {
      var m1, n1 := CanonArg(xs[0], m), CanonArg(ys[0], n);
      assert m1.0 == CanonArgs(xs, m).0[0] == n1.0;
      assert CanonArgs(xs[1..], m1.1).0 == CanonArgs(xs, m).0[1..] == CanonArgs(ys[1..], n1.1).0;
      ArgBack(xs[0], ys[0], m, n);
      ArgsBack(xs[1..], ys[1..], m1.1, n1.1);
      ArgsGrow(xs[1..], m1.1);
      ArgsGrow(ys[1..], n1.1);
      ArgPairedStays(xs[0], ys[0], m1.1, n1.1, CanonArgs(xs, m).1, CanonArgs(ys, n).1);
      ArgsPairedCons(xs, ys, CanonArgs(xs, m).1, CanonArgs(ys, n).1);
    }
  }

  lemma ArgsPairedCons(xs: seq<string>, ys: seq<string>, m: Names, n: Names)
    requires xs != [] && ys != []
    requires ArgPaired(xs[0], ys[0], m, n) && ArgsPaired(xs[1..], ys[1..], m, n)
    ensures ArgsPaired(xs, ys, m, n)
  {
    forall j | 0 <= j < |xs|
      ensures ArgPaired(xs[j], ys[j], m, n)
    {
      if 0 < j {
        assert xs[j] == xs[1..][j - 1] && ys[j] == ys[1..][j - 1];
      }
    }
  }

  // ---------- flags survive renaming ----------

  ghost predicate AllCh(ps: seq<Piece>) {
    ps == [] || (ps[0].Ch? && AllCh(ps[1..]))
  }

  ghost predicate SameShape(ps: seq<Piece>, qs: seq<Piece>) {
    if ps == [] || qs == [] then ps == [] && qs == []
    else (if ps[0].Ch? then qs[0] == ps[0] else qs[0].AbsPath?) && SameShape(ps[1..], qs[1..])
  }

  lemma {:induction false} PathMeansSlash(s: string)
    ensures !AllCh(Lex(s)) ==> '/' in s
    decreases |s|
  {
    if s != "" {
      LexHead(s);
      PathMeansSlash(s[HeadLen(s)..]);
    }
  }

  lemma {:induction false} AllChShape(ps: seq<Piece>, qs: seq<Piece>)
    requires SameShape(ps, qs)
    ensures AllCh(ps) == AllCh(qs)
    ensures AllCh(ps) ==> ps == qs
  {
    if ps != [] && qs != [] {
      AllChShape(ps[1..], qs[1..]);
      assert ps == [ps[0]] + ps[1..];
      assert qs == [qs[0]] + qs[1..];
    }
  }

  lemma {:induction false} PairedShape(ps: seq<Piece>, qs: seq<Piece>, xs: seq<string>, ys: seq<string>)
    requires PiecesPaired(ps, qs, xs, ys)
    ensures SameShape(ps, qs)
  {
    if ps != [] && qs != [] {
      PairedShape(ps[1..], qs[1..], xs, ys);
    }
  }

  lemma {:induction false} RenamedShape(ps: seq<Piece>, qs: seq<Piece>, pi: map<string, string>)
    requires RenamedPieces(ps, qs, pi)
    ensures SameShape(ps, qs)
  {
    if ps != [] && qs != [] {
      RenamedShape(ps[1..], qs[1..], pi);
    }
  }

  /** Flags with the same characters outside paths parse to the same number, or neither parses. */
  lemma ShapeParses(a: string, b: string)
    requires SameShape(Lex(a), Lex(b))
    ensures ParseHexInt(a) == ParseHexInt(b)
    ensures AllCh(Lex(a)) ==> a == b
  {
    ShapeOrSlash(a, b);
    SameNumber(a, b, '/', '/');
  }

  lemma ShapeOrSlash(a: string, b: string)
    requires SameShape(Lex(a), Lex(b))
    ensures a == b || ('/' in a && '/' in b)
    ensures AllCh(Lex(a)) ==> a == b
  {
    LexRoundTrip(a);
    LexRoundTrip(b);
    PathMeansSlash(a);
    PathMeansSlash(b);
    ShapeTexts(Lex(a), Lex(b), a, b);
  }

  lemma ShapeTexts(ps: seq<Piece>, qs: seq<Piece>, a: string, b: string)
    requires SameShape(ps, qs) && Unlex(ps) == a && Unlex(qs) == b
    requires (!AllCh(ps) ==> '/' in a) && (!AllCh(qs) ==> '/' in b)
    ensures a == b || ('/' in a && '/' in b)
    ensures AllCh(ps) ==> a == b
  {
    AllChShape(ps, qs);
  }

  /** Texts that are the same, or each hold a character no numeral has, read as the same number. */
  lemma SameNumber(a: string, b: string, x: char, y: char)
    requires !IsNumeralChar(x) && !IsNumeralChar(y) && (a == b || (x in a && y in b))
    ensures ParseHexInt(a) == ParseHexInt(b)
  {
    if a != b {
      NotNumeral(a, x);
      NotNumeral(b, y);
    }
  }

  // ---------- events ----------

  ghost predicate FdsPlain(fds: seq<string>) {
    forall x :: x in fds ==> !IsAddr(x) && '/' !in x
  }

  ghost predicate InStep(m: Names, n: Names) {
    TablesLevel(m, n) && m.fds == n.fds && m.pending == n.pending && FdsPlain(m.fds)
  }

  ghost predicate RestPaired(r: map<string, Json>, s: map<string, Json>, m: Names, n: Names) {
    && r.Keys == s.Keys
    && (forall k :: k in r && k != "result" ==> r[k] == s[k])
    && ("result" in r ==>
          if r["result"].JStr? && IsAddr(r["result"].s) then
            s["result"].JStr? && IsAddr(s["result"].s) && Paired(m.addrs, n.addrs, r["result"].s, s["result"].s)
          else r["result"] == s["result"])
  }

  ghost predicate EventPaired(e: Event, f: Event, m: Names, n: Names) {
    && e.sc == f.sc && e.phase == f.phase
    && ArgsPaired(e.args, f.args, m, n)
    && RestPaired(e.rest, f.rest, m, n)
  }

  lemma {:induction false} NoPIsClean(ps: seq<Piece>)
    requires forall i :: 0 <= i < |ps| ==> ps[i] != Ch('P')
    ensures Clean(ps)
  {
    if ps != [] {
      NoPIsClean(ps[1..]);
    }
  }

  lemma FdNameText(k: nat)
    ensures StartsWith(FdName(k), "FD_") && !StartsWith(FdName(k), "ADDR_") && !IsAddr(FdName(k))
    ensures '/' !in FdName(k) && 'P' !in FdName(k)
  {
    var s := FdName(k);
    assert s[..3] == "FD_";
    assert s[0] == 'F' && "ADDR_"[0] == 'A';
    forall i | 0 <= i < |s|
      ensures s[i] != '/' && s[i] != 'P'
    {
      if i < 3 { assert s[i] == "FD_"[i]; } else { assert s[i] == Dec(k)[i - 3] && IsDigit(s[i]); }
    }
  }

  lemma FdNamePlain(k: nat, n: Names)
    ensures PosesAsNoName(FdName(k)) && !IsAddr(FdName(k)) && StartsWith(FdName(k), "FD_")
    ensures CanonArg(FdName(k), n) == (FdName(k), n)
  {
    FdNameText(k);
    SlashFree(FdName(k), n.paths);
    NoPIsClean(Lex(FdName(k)));
  }

  lemma {:induction false} SamePiecesPaired(ps: seq<Piece>, xs: seq<string>, ys: seq<string>)
    requires forall i :: 0 <= i < |ps| ==> ps[i].Ch?
    ensures PiecesPaired(ps, ps, xs, ys)
  {
    if ps != [] {
      SamePiecesPaired(ps[1..], xs, ys);
    }
  }

  lemma SlashFreePaired(a: string, m: Names, n: Names)
    requires !IsAddr(a) && '/' !in a
    ensures ArgPaired(a, a, m, n)
  {
    SlashFree(a, m.paths);
    SamePiecesPaired(Lex(a), m.paths, n.paths);
  }

  /** Equal canonical descriptors come from equal literals. */
  lemma FdHeadBack(a: string, b: string, fds: seq<string>, n: Names)
    requires a in fds && PlainArg(b)
    requires FdName(Ord(fds, a)) == if b in fds then FdName(Ord(fds, b)) else CanonArg(b, n).0
    ensures a == b
  {
    FdNamePlain(Ord(fds, a), n);
    if b in fds {
      var i, j := Ord(fds, a), Ord(fds, b);
      assert Dec(i) == FdName(i)[3..] == FdName(j)[3..] == Dec(j);
      DecInjective(i, j);
    } else if IsAddr(b) {
      AddrNamePrefix(Ord(Sight(n.addrs, b), b));
    } else {
      TextPrefixBack(b, n, "FD_");
    }
  }

  lemma FdArgsPlain(e: Event, fds: seq<string>)
    requires PlainEvent(e)
    ensures forall j :: 0 <= j < |e.args| ==> PosesAsNoName(FdArgs(e, fds)[j])
  {
    forall j | 0 <= j < |e.args|
      ensures PosesAsNoName(FdArgs(e, fds)[j])
    {
      if FdArgs(e, fds) != e.args {
        FdNamePlain(Ord(fds, e.args[0]), FRESH);
      }
      assert PlainArg(e.args[j]);
    }
  }

  lemma FdArgsBack(e: Event, f: Event, m: Names, n: Names)
    requires PlainEvent(e) && PlainEvent(f) && e.sc == f.sc
    requires TablesLevel(m, n) && m.fds == n.fds && FdsPlain(m.fds)
    requires CanonArgs(FdArgs(e, m.fds), m).0 == CanonArgs(FdArgs(f, n.fds), n).0
    ensures TablesLevel(CanonArgs(FdArgs(e, m.fds), m).1, CanonArgs(FdArgs(f, n.fds), n).1)
    ensures ArgsPaired(e.args, f.args, CanonArgs(FdArgs(e, m.fds), m).1, CanonArgs(FdArgs(f, n.fds), n).1)
  {
    var xs, ys := FdArgs(e, m.fds), FdArgs(f, n.fds);
    FdArgsPlain(e, m.fds);
    FdArgsPlain(f, n.fds);
    ArgsBack(xs, ys, m, n);
    var m', n' := CanonArgs(xs, m).1, CanonArgs(ys, n).1;
    if xs != [] {
      assert CanonArg(xs[0], m).0 == CanonArgs(xs, m).0[0] == CanonArg(ys[0], n).0;
      FdFirstBack(e, f, m, n, m', n');
      forall j | 0 <= j < |e.args|
        ensures ArgPaired(e.args[j], f.args[j], m', n')
      {
        if 0 < j {
          assert e.args[j] == xs[j] && f.args[j] == ys[j];
        }
      }
    }
  }

  lemma FdFirstBack(e: Event, f: Event, m: Names, n: Names, m': Names, n': Names)
    requires PlainEvent(e) && PlainEvent(f) && e.sc == f.sc && e.args != [] && f.args != []
    requires m.fds == n.fds && FdsPlain(m.fds)
    requires CanonArg(FdArgs(e, m.fds)[0], m).0 == CanonArg(FdArgs(f, n.fds)[0], n).0
    requires ArgPaired(FdArgs(e, m.fds)[0], FdArgs(f, n.fds)[0], m', n')
    ensures ArgPaired(e.args[0], f.args[0], m', n')
  {
    var a, b, fds := e.args[0], f.args[0], m.fds;
    assert PlainArg(a) && PlainArg(b);
    if FdCarrier(e.sc) && a in fds {
      FdNamePlain(Ord(fds, a), m);
      if b in fds { FdNamePlain(Ord(fds, b), n); }
      FdHeadBack(a, b, fds, n);
      SlashFreePaired(a, m', n');
    } else if FdCarrier(e.sc) && b in fds {
      FdNamePlain(Ord(fds, b), n);
      FdHeadBack(b, a, fds, m);
    }
  }

  lemma ResultBack(r: map<string, Json>, s: map<string, Json>, m: Names, n: Names)
    requires TablesLevel(m, n)
    requires "result" in r && r["result"].JStr? ==> !StartsWith(r["result"].s, "ADDR_")
    requires "result" in s && s["result"].JStr? ==> !StartsWith(s["result"].s, "ADDR_")
    requires CanonResult(r, m).0 == CanonResult(s, n).0
    ensures TablesLevel(CanonResult(r, m).1, CanonResult(s, n).1)
    ensures RestPaired(r, s, CanonResult(r, m).1, CanonResult(s, n).1)
  {
    var c := CanonResult(r, m).0;
    var ra := "result" in r && r["result"].JStr? && IsAddr(r["result"].s);
    var sa := "result" in s && s["result"].JStr? && IsAddr(s["result"].s);
    assert r.Keys == c.Keys == s.Keys;
    assert forall k :: k in r && k != "result" ==> r[k] == c[k] == s[k];
    if ra && sa {
      var x, y := r["result"].s, s["result"].s;
      var i, j := Ord(Sight(m.addrs, x), x), Ord(Sight(n.addrs, y), y);
      assert c["result"] == JStr(AddrName(i)) == JStr(AddrName(j));
      assert Dec(i) == AddrName(i)[5..] == AddrName(j)[5..] == Dec(j);
      DecInjective(i, j);
      SightLevel(m.addrs, n.addrs, x, y);
    }
  }

  /** The open bookkeeping agrees once arguments and results are known to. */
  lemma OpenAgrees(e: Event, f: Event, fds: seq<string>, pending: bool)
    requires e.sc == f.sc && e.phase == f.phase && |e.args| == |f.args|
    requires OpenFamily(e.sc) ==> e.rest == f.rest
    requires OpenFamily(e.sc) && FlagsIndex(e.sc) < |e.args| ==>
               SameShape(Lex(e.args[FlagsIndex(e.sc)]), Lex(f.args[FlagsIndex(e.sc)]))
    ensures OpenStep(e, fds, pending) == OpenStep(f, fds, pending)
  {
    if OpenFamily(e.sc) {
      if FlagsIndex(e.sc) < |e.args| {
        ShapeParses(e.args[FlagsIndex(e.sc)], f.args[FlagsIndex(e.sc)]);
      }
      IntentAgrees(e.sc, e.args, f.args);
    }
    OpenStepAgrees(e, f, fds, pending);
  }

  lemma IntentAgrees(sc: string, xs: seq<string>, ys: seq<string>)
    requires OpenFamily(sc) && |xs| == |ys|
    requires FlagsIndex(sc) < |xs| ==> ParseHexInt(xs[FlagsIndex(sc)]) == ParseHexInt(ys[FlagsIndex(sc)])
    ensures WriteIntent(sc, xs) == WriteIntent(sc, ys)
  {
  }

  lemma OpenStepAgrees(e: Event, f: Event, fds: seq<string>, pending: bool)
    requires e.sc == f.sc && e.phase == f.phase
    requires OpenFamily(e.sc) ==> WriteIntent(e.sc, e.args) == WriteIntent(f.sc, f.args) && e.rest == f.rest
    ensures OpenStep(e, fds, pending) == OpenStep(f, fds, pending)
  {
  }

  lemma OpenFdsPlain(e: Event, fds: seq<string>, pending: bool)
    requires PlainEvent(e) && FdsPlain(fds)
    ensures FdsPlain(OpenStep(e, fds, pending).0)
  {
  }

  lemma OpenRestBack(e: Event, f: Event, m: Names, n: Names)
    requires PlainEvent(e) && PlainEvent(f) && e.sc == f.sc && OpenFamily(e.sc)
    requires CanonResult(e.rest, m).0 == CanonResult(f.rest, n).0
    ensures e.rest == f.rest
  {
  }

  /** The names before arguments and result are canonicalised. */
  ghost function Opened(e: Event, m: Names): (r: Names) {
    var o := OpenStep(e, m.fds, m.pending);
    m.(fds := o.0, pending := o.1)
  }

  ghost function Argued(e: Event, m: Names): (r: (seq<string>, Names)) {
    CanonArgs(FdArgs(e, Opened(e, m).fds), Opened(e, m))
  }

  lemma EventParts(e: Event, m: Names)
    ensures CanonEvent(e, m).0 == Event(e.sc, e.phase, Argued(e, m).0, CanonResult(e.rest, Argued(e, m).1).0)
    ensures CanonEvent(e, m).1 == CanonResult(e.rest, Argued(e, m).1).1
    ensures Grown(Opened(e, m), Argued(e, m).1)
  {
    ArgsGrow(FdArgs(e, Opened(e, m).fds), Opened(e, m));
  }

  lemma EventBack(e: Event, f: Event, m: Names, n: Names)
    requires PlainEvent(e) && PlainEvent(f) && InStep(m, n)
    requires CanonEvent(e, m).0 == CanonEvent(f, n).0
    ensures InStep(CanonEvent(e, m).1, CanonEvent(f, n).1)
    ensures EventPaired(e, f, CanonEvent(e, m).1, CanonEvent(f, n).1)
  {
    EventParts(e, m);
    EventParts(f, n);
    var a, b := Argued(e, m), Argued(f, n);
    if OpenFamily(e.sc) {
      OpenRestBack(e, f, a.1, b.1);
    }
    EventBackFds(e, f, m, n);
    FdArgsBack(e, f, Opened(e, m), Opened(f, n));
    ResultBack(e.rest, f.rest, a.1, b.1);
    EventBackOpen(e, f, m, a.1, b.1);
    EventBackArgs(e, f, a.1, b.1);
  }

  lemma EventBackFds(e: Event, f: Event, m: Names, n: Names)
    requires PlainEvent(e) && e.sc == f.sc && e.phase == f.phase && InStep(m, n)
    requires OpenFamily(e.sc) ==> e.rest == f.rest
    ensures Opened(e, m).fds == Opened(f, n).fds && FdsPlain(Opened(e, m).fds)
    ensures TablesLevel(Opened(e, m), Opened(f, n))
  {
    OpenFdsPlain(e, m.fds, m.pending);
  }

  lemma EventBackOpen(e: Event, f: Event, m: Names, a: Names, b: Names)
    requires PlainEvent(e) && e.sc == f.sc && e.phase == f.phase
    requires OpenFamily(e.sc) ==> e.rest == f.rest
    requires ArgsPaired(e.args, f.args, a, b)
    ensures OpenStep(e, m.fds, m.pending) == OpenStep(f, m.fds, m.pending)
  {
    if OpenFamily(e.sc) && FlagsIndex(e.sc) < |e.args| {
      var j := FlagsIndex(e.sc);
      assert ArgPaired(e.args[j], f.args[j], a, b);
      PairedShape(Lex(e.args[j]), Lex(f.args[j]), a.paths, b.paths);
    }
    OpenAgrees(e, f, m.fds, m.pending);
  }

  lemma EventBackArgs(e: Event, f: Event, a: Names, b: Names)
    requires ArgsPaired(e.args, f.args, a, b)
    ensures ArgsPaired(e.args, f.args, CanonResult(e.rest, a).1, CanonResult(f.rest, b).1)
  {
    forall j | 0 <= j < |e.args|
      ensures ArgPaired(e.args[j], f.args[j], CanonResult(e.rest, a).1, CanonResult(f.rest, b).1)
    {
      ArgPairedStays(e.args[j], f.args[j], a, b, CanonResult(e.rest, a).1, CanonResult(f.rest, b).1);
    }
  }

  lemma {:induction false} EventsGrow(t: seq<Event>, m: Names)
    ensures m.addrs <= CanonEvents(t, m).1.addrs && m.paths <= CanonEvents(t, m).1.paths
  {
    if t != [] {
      var o := OpenStep(t[0], m.fds, m.pending);
      var m1 := m.(fds := o.0, pending := o.1);
      ArgsGrow(FdArgs(t[0], m1.fds), m1);
      EventsGrow(t[1..], CanonEvent(t[0], m).1);
    }
  }

  lemma EventPairedStays(e: Event, f: Event, m: Names, n: Names, m': Names, n': Names)
    requires EventPaired(e, f, m, n)
    requires m.addrs <= m'.addrs && m.paths <= m'.paths && n.addrs <= n'.addrs && n.paths <= n'.paths
    ensures EventPaired(e, f, m', n')
  {
    var mm, nn := m.(addrs := m'.addrs, paths := m'.paths), n.(addrs := n'.addrs, paths := n'.paths);
    forall j | 0 <= j < |e.args|
      ensures ArgPaired(e.args[j], f.args[j], m', n')
    {
      ArgPairedStays(e.args[j], f.args[j], m, n, mm, nn);
    }
    if "result" in e.rest && e.rest["result"].JStr? && IsAddr(e.rest["result"].s) {
      PairedStays(m.addrs, n.addrs, m'.addrs, n'.addrs, e.rest["result"].s, f.rest["result"].s);
    }
  }

  lemma {:induction false} EventsBack(t: seq<Event>, u: seq<Event>, m: Names, n: Names)
    requires Plain(t) && Plain(u) && InStep(m, n)
    requires CanonEvents(t, m).0 == CanonEvents(u, n).0
    ensures TablesLevel(CanonEvents(t, m).1, CanonEvents(u, n).1)
    ensures |t| == |u|
    ensures forall i :: 0 <= i < |t| ==> EventPaired(t[i], u[i], CanonEvents(t, m).1, CanonEvents(u, n).1)
  {
    if t != [] {
      var a, b := CanonEvent(t[0], m), CanonEvent(u[0], n);
      assert a.0 == CanonEvents(t, m).0[0] == b.0;
      assert CanonEvents(t[1..], a.1).0 == CanonEvents(t, m).0[1..] == CanonEvents(u[1..], b.1).0;
      EventBack(t[0], u[0], m, n);
      EventsBack(t[1..], u[1..], a.1, b.1);
      EventsGrow(t[1..], a.1);
      EventsGrow(u[1..], b.1);
      var m', n' := CanonEvents(t, m).1, CanonEvents(u, n).1;
      EventPairedStays(t[0], u[0], a.1, b.1, m', n');
      EventsPairedCons(t, u, m', n');
    }
  }

  lemma EventsPairedCons(t: seq<Event>, u: seq<Event>, m: Names, n: Names)
    requires t != [] && |t| == |u| && EventPaired(t[0], u[0], m, n)
    requires forall i :: 0 <= i < |t[1..]| ==> EventPaired(t[1..][i], u[1..][i], m, n)
    ensures forall i :: 0 <= i < |t| ==> EventPaired(t[i], u[i], m, n)
  {
    forall i | 0 <= i < |t|
      ensures EventPaired(t[i], u[i], m, n)
    {
      if 0 < i {
        assert t[i] == t[1..][i - 1] && u[i] == u[1..][i - 1];
      }
    }
  }

  /** Two level tables, read as a renaming. */
  ghost function Pairing(xs: seq<string>, ys: seq<string>): (m: map<string, string>)
    requires Level(xs, ys)
    ensures Injective(m)
    ensures forall x, y :: Paired(xs, ys, x, y) ==> x in m && m[x] == y
  {
    var m := map x | x in xs :: ys[Ord(xs, x)];
    assert forall x, y :: x in m && y in m && m[x] == m[y] ==> Ord(xs, x) == Ord(xs, y);
    m
  }

  lemma {:induction false} PairingRenamesPieces(ps: seq<Piece>, qs: seq<Piece>, xs: seq<string>, ys: seq<string>)
    requires Level(xs, ys) && PiecesPaired(ps, qs, xs, ys)
    ensures RenamedPieces(ps, qs, Pairing(xs, ys))
  {
    if ps != [] && qs != [] {
      PairingRenamesPieces(ps[1..], qs[1..], xs, ys);
    }
  }

  lemma PairingRenames(e: Event, f: Event, m: Names, n: Names)
    requires TablesLevel(m, n) && EventPaired(e, f, m, n)
    ensures RenamedEvent(e, f, Pairing(m.addrs, n.addrs), Pairing(m.paths, n.paths))
  {
    forall j | 0 <= j < |e.args|
      ensures RenamedArg(e.args[j], f.args[j], Pairing(m.addrs, n.addrs), Pairing(m.paths, n.paths))
    {
      assert ArgPaired(e.args[j], f.args[j], m, n);
      if !IsAddr(e.args[j]) {
        PairingRenamesPieces(Lex(e.args[j]), Lex(f.args[j]), m.paths, n.paths);
      }
    }
  }

  // ---------- the same trace up to names, hence the same canonical form ----------

  ghost predicate Follows(xs: seq<string>, ys: seq<string>, sigma: map<string, string>) {
    && |xs| == |ys|
    && forall i :: 0 <= i < |xs| ==> xs[i] in sigma && ys[i] == sigma[xs[i]]
  }

  lemma SightFollows(xs: seq<string>, ys: seq<string>, sigma: map<string, string>, x: string)
    requires Follows(xs, ys, sigma) && Injective(sigma) && x in sigma
    ensures Follows(Sight(xs, x), Sight(ys, sigma[x]), sigma)
    ensures Ord(Sight(xs, x), x) == Ord(Sight(ys, sigma[x]), sigma[x])
  {
    if x in xs {
      assert ys[Ord(xs, x)] == sigma[x];
    }
    if sigma[x] in ys {
      assert xs[Ord(ys, sigma[x])] == x;
    }
  }

  ghost predicate Tracks(m: Names, n: Names, sigma: map<string, string>, pi: map<string, string>) {
    && Injective(sigma) && Injective(pi)
    && Follows(m.addrs, n.addrs, sigma) && Follows(m.paths, n.paths, pi)
    && m.fds == n.fds && m.pending == n.pending && FdsPlain(m.fds)
  }

  lemma {:induction false} PiecesForth(ps: seq<Piece>, qs: seq<Piece>, xs: seq<string>, ys: seq<string>, pi: map<string, string>)
    requires RenamedPieces(ps, qs, pi) && Follows(xs, ys, pi) && Injective(pi)
    ensures CanonPieces(ps, xs).0 == CanonPieces(qs, ys).0
    ensures Follows(CanonPieces(ps, xs).1, CanonPieces(qs, ys).1, pi)
  {
    if ps != [] && qs != [] {
      if ps[0].AbsPath? {
        SightFollows(xs, ys, pi, ps[0].p);
        PiecesForth(ps[1..], qs[1..], Sight(xs, ps[0].p), Sight(ys, qs[0].p), pi);
      } else {
        PiecesForth(ps[1..], qs[1..], xs, ys, pi);
      }
    }
  }

  lemma ArgForth(a: string, b: string, m: Names, n: Names, sigma: map<string, string>, pi: map<string, string>)
    requires RenamedArg(a, b, sigma, pi) && Tracks(m, n, sigma, pi)
    ensures CanonArg(a, m).0 == CanonArg(b, n).0
    ensures Tracks(CanonArg(a, m).1, CanonArg(b, n).1, sigma, pi)
  {
    if IsAddr(a) {
      SightFollows(m.addrs, n.addrs, sigma, a);
    } else {
      PiecesForth(Lex(a), Lex(b), m.paths, n.paths, pi);
    }
  }

  lemma {:induction false} ArgsForth(xs: seq<string>, ys: seq<string>, m: Names, n: Names, sigma: map<string, string>, pi: map<string, string>)
    requires |xs| == |ys| && forall j :: 0 <= j < |xs| ==> RenamedArg(xs[j], ys[j], sigma, pi)
    requires Tracks(m, n, sigma, pi)
    ensures CanonArgs(xs, m).0 == CanonArgs(ys, n).0
    ensures Tracks(CanonArgs(xs, m).1, CanonArgs(ys, n).1, sigma, pi)
  {
    if xs != [] {
      ArgForth(xs[0], ys[0], m, n, sigma, pi);
      ArgsForth(xs[1..], ys[1..], CanonArg(xs[0], m).1, CanonArg(ys[0], n).1, sigma, pi);
    }
  }

  lemma {:induction false} SlashFreeRenamed(ps: seq<Piece>, pi: map<string, string>)
    requires forall i :: 0 <= i < |ps| ==> ps[i].Ch?
    ensures RenamedPieces(ps, ps, pi)
  {
    if ps != [] {
      SlashFreeRenamed(ps[1..], pi);
    }
  }

  /** A descriptor literal is neither an address nor a path, so a renaming leaves it alone. */
  lemma FdFixed(a: string, b: string, sigma: map<string, string>, pi: map<string, string>)
    requires RenamedArg(a, b, sigma, pi) && !IsAddr(a)
    requires '/' !in a || '/' !in b
    ensures a == b
  {
    RenamedShape(Lex(a), Lex(b), pi);
    AllChShape(Lex(a), Lex(b));
    PathMeansSlash(a);
    PathMeansSlash(b);
    ShapeParses(a, b);
  }

  lemma FdArgsForth(e: Event, f: Event, fds: seq<string>, sigma: map<string, string>, pi: map<string, string>)
    requires RenamedEvent(e, f, sigma, pi) && FdsPlain(fds)
    ensures forall j :: 0 <= j < |e.args| ==> RenamedArg(FdArgs(e, fds)[j], FdArgs(f, fds)[j], sigma, pi)
  {
    if FdCarrier(e.sc) && e.args != [] {
      var a, b := e.args[0], f.args[0];
      assert RenamedArg(a, b, sigma, pi);
      if a in fds || b in fds {
        FdFixed(a, b, sigma, pi);
        var name := FdName(Ord(fds, a));
        FdNamePlain(Ord(fds, a), FRESH);
        SlashFree(name, []);
        SlashFreeRenamed(Lex(name), pi);
      }
    }
  }

  lemma ResultForth(r: map<string, Json>, s: map<string, Json>, m: Names, n: Names, sigma: map<string, string>, pi: map<string, string>)
    requires RenamedRest(r, s, sigma) && Tracks(m, n, sigma, pi)
    ensures CanonResult(r, m).0 == CanonResult(s, n).0
    ensures Tracks(CanonResult(r, m).1, CanonResult(s, n).1, sigma, pi)
  {
    if "result" in r && r["result"].JStr? && IsAddr(r["result"].s) {
      SightFollows(m.addrs, n.addrs, sigma, r["result"].s);
    }
  }

  lemma OpenForth(e: Event, f: Event, fds: seq<string>, pending: bool, sigma: map<string, string>, pi: map<string, string>)
    requires PlainEvent(e) && RenamedEvent(e, f, sigma, pi)
    ensures OpenStep(e, fds, pending) == OpenStep(f, fds, pending)
  {
    if OpenFamily(e.sc) {
      assert e.rest == f.rest;
      if FlagsIndex(e.sc) < |e.args| {
        var j := FlagsIndex(e.sc);
        assert RenamedArg(e.args[j], f.args[j], sigma, pi);
        RenamedShape(Lex(e.args[j]), Lex(f.args[j]), pi);
      }
    }
    OpenAgrees(e, f, fds, pending);
  }

  lemma EventForth(e: Event, f: Event, m: Names, n: Names, sigma: map<string, string>, pi: map<string, string>)
    requires PlainEvent(e) && RenamedEvent(e, f, sigma, pi) && Tracks(m, n, sigma, pi)
    ensures CanonEvent(e, m).0 == CanonEvent(f, n).0
    ensures Tracks(CanonEvent(e, m).1, CanonEvent(f, n).1, sigma, pi)
  {
    OpenForth(e, f, m.fds, m.pending, sigma, pi);
    OpenFdsPlain(e, m.fds, m.pending);
    var o := OpenStep(e, m.fds, m.pending);
    var m1, n1 := m.(fds := o.0, pending := o.1), n.(fds := o.0, pending := o.1);
    FdArgsForth(e, f, o.0, sigma, pi);
    ArgsForth(FdArgs(e, o.0), FdArgs(f, o.0), m1, n1, sigma, pi);
    ResultForth(e.rest, f.rest, CanonArgs(FdArgs(e, o.0), m1).1, CanonArgs(FdArgs(f, o.0), n1).1, sigma, pi);
  }

  lemma {:induction false} EventsForth(t: seq<Event>, u: seq<Event>, m: Names, n: Names, sigma: map<string, string>, pi: map<string, string>)
    requires Plain(t) && |t| == |u| && Tracks(m, n, sigma, pi)
    requires forall i :: 0 <= i < |t| ==> RenamedEvent(t[i], u[i], sigma, pi)
    ensures CanonEvents(t, m).0 == CanonEvents(u, n).0
  {
    if t != [] {
      EventForth(t[0], u[0], m, n, sigma, pi);
      EventsForth(t[1..], u[1..], CanonEvent(t[0], m).1, CanonEvent(u[0], n).1, sigma, pi);
    }
  }

  // ---------- the law ----------

  /**
   Two recorded event lists canonicalise to the same list if and only if one is
   the other under some bijection of addresses and some bijection of paths.
   */
  lemma CanonForgetsOnlyNames(t: seq<Event>, u: seq<Event>)
    requires Plain(t) && Plain(u)
    ensures Canon(t) == Canon(u) <==> exists sigma, pi :: Renamed(t, u, sigma, pi)
  {
    if Canon(t) == Canon(u) {
      EventsBack(t, u, FRESH, FRESH);
      var m, n := CanonEvents(t, FRESH).1, CanonEvents(u, FRESH).1;
      var sigma, pi := Pairing(m.addrs, n.addrs), Pairing(m.paths, n.paths);
      forall i | 0 <= i < |t|
        ensures RenamedEvent(t[i], u[i], sigma, pi)
      {
        PairingRenames(t[i], u[i], m, n);
      }
      assert Renamed(t, u, sigma, pi);
    }
    if sigma, pi :| Renamed(t, u, sigma, pi) {
      EventsForth(t, u, FRESH, FRESH, sigma, pi);
    }
  }
}
