/**
 The canonicaliser as it runs: three memo dictionaries, a descriptor table and
 a pending flag, updated event by event.
 */
module Canonicalizer {
  import opened Prelude
  import opened Canonical

  /** The dictionary that names the i-th key prefix_i. */
  ghost function Table(prefix: string, keys: seq<string>): (m: map<string, string>) {
    if keys == [] then map[]
    else Table(prefix, keys[..|keys| - 1])[keys[|keys| - 1] := prefix + "_" + Dec(|keys| - 1)]
  }

  lemma {:induction false} TableFacts(prefix: string, keys: seq<string>, s: string)
    requires Distinct(keys)
    ensures |Table(prefix, keys)| == |keys|
    ensures s in Table(prefix, keys) <==> s in keys
    ensures s in keys ==> Table(prefix, keys)[s] == prefix + "_" + Dec(Ord(keys, s))
  {
    if keys != [] {
      var n := |keys| - 1;
      TableFacts(prefix, keys[..n], keys[n]);
      TableFacts(prefix, keys[..n], s);
      assert keys == keys[..n] + [keys[n]];
      if s in keys[..n] {
        OrdStable(keys[..n], keys, s);
      } else if s == keys[n] {
        OrdAt(keys, n);
      }
    }
  }

  /** A memo that names each new key with the next ordinal. */
  class Mapper {
    const prefix: string
    var m: map<string, string>
    ghost var keys: seq<string>

    ghost predicate Valid()
      reads this
    {
      m == Table(prefix, keys) && Distinct(keys)
    }

    constructor (prefix: string)
      ensures Valid() && keys == [] && this.prefix == prefix
    {
      this.prefix := prefix;
      m := map[];
      keys := [];
    }

    method Name(s: string) returns (r: string)
      requires Valid()
      modifies this
      ensures Valid()
      ensures keys == Sight(old(keys), s)
      ensures m == old(m)[s := r]
      ensures r == prefix + "_" + Dec(Ord(keys, s))
    {
      TableFacts(prefix, keys, s);
      if s !in m {
        m := m[s := prefix + "_" + Dec(|m|)];
        keys := keys + [s];
        assert keys[..|keys| - 1] == old(keys);
        TableFacts(prefix, keys, s);
      }
      r := m[s];
    }
  }

  /** `r` followed by the rest of the walk over the pieces from `i` gives `goal`. */
  ghost predicate PathsLeft(r: string, ps: seq<Piece>, i: nat, keys: seq<string>, goal: (string, seq<string>)) {
    i <= |ps| &&
    var left := CanonPieces(ps[i..], keys);
    r + left.0 == goal.0 && left.1 == goal.1
  }

  lemma PathStep(r: string, ps: seq<Piece>, i: nat, keys: seq<string>, goal: (string, seq<string>))
    requires i < |ps| && PathsLeft(r, ps, i, keys, goal)
    ensures match ps[i]
            case Ch(c) => PathsLeft(r + [c], ps, i + 1, keys, goal)
            case AbsPath(p) => PathsLeft(r + PathName(Ord(Sight(keys, p), p)), ps, i + 1, Sight(keys, p), goal)
  {
    assert ps[i..][1..] == ps[i + 1..];
  }

  lemma PathsDone(r: string, ps: seq<Piece>, keys: seq<string>, goal: (string, seq<string>))
    requires PathsLeft(r, ps, |ps|, keys, goal)
    ensures (r, keys) == goal
  {
    assert ps[|ps|..] == [];
    assert r + "" == r;
  }

  lemma NameText(k: nat)
    ensures "ADDR" + "_" + Dec(k) == AddrName(k)
    ensures "FD" + "_" + Dec(k) == FdName(k)
    ensures "PATH" + "_" + Dec(k) == PathName(k)
  {
    assert "ADDR" + "_" == "ADDR_";
    assert "FD" + "_" == "FD_";
    assert "PATH" + "_" == "PATH_";
  }

  /** ABSPATH.sub with the path memo as its callback. */
  method SubstitutePaths(a: string, pathOf: Mapper) returns (r: string)
    requires pathOf.Valid() && pathOf.prefix == "PATH"
    modifies pathOf
    ensures pathOf.Valid()
    ensures (r, pathOf.keys) == CanonPieces(Lex(a), old(pathOf.keys))
  {
    r := "";
    var ps := Lex(a);
    ghost var goal := CanonPieces(ps, pathOf.keys);
    assert ps[0..] == ps;
    for i := 0 to |ps|
      invariant pathOf.Valid()
      invariant PathsLeft(r, ps, i, pathOf.keys, goal)
    {
      PathStep(r, ps, i, pathOf.keys, goal);
      match ps[i]
      case Ch(c) => r := r + [c];
      case AbsPath(p) =>
        var name := pathOf.Name(p);
        NameText(Ord(pathOf.keys, p));
        r := r + name;
    }
    PathsDone(r, ps, pathOf.keys, goal);
  }

  ghost predicate ArgsLeft(r: seq<string>, args: seq<string>, i: nat, n: Names, goal: (seq<string>, Names)) {
    i <= |args| &&
    var left := CanonArgs(args[i..], n);
    r + left.0 == goal.0 && left.1 == goal.1
  }

  lemma ArgStep(r: seq<string>, args: seq<string>, i: nat, n: Names, goal: (seq<string>, Names))
    requires i < |args| && ArgsLeft(r, args, i, n, goal)
    ensures ArgsLeft(r + [CanonArg(args[i], n).0], args, i + 1, CanonArg(args[i], n).1, goal)
  {
    assert args[i..][1..] == args[i + 1..];
  }

  lemma ArgsDone(r: seq<string>, args: seq<string>, n: Names, goal: (seq<string>, Names))
    requires ArgsLeft(r, args, |args|, n, goal)
    ensures (r, n) == goal
  {
    assert args[|args|..] == [];
    assert r + [] == r;
  }

  method SubstituteArg(a: string, addrOf: Mapper, pathOf: Mapper, ghost n: Names) returns (r: string)
    requires addrOf.Valid() && pathOf.Valid() && addrOf != pathOf
    requires addrOf.prefix == "ADDR" && pathOf.prefix == "PATH"
    requires n.addrs == addrOf.keys && n.paths == pathOf.keys
    modifies addrOf, pathOf
    ensures addrOf.Valid() && pathOf.Valid()
    ensures (r, n.(addrs := addrOf.keys, paths := pathOf.keys)) == CanonArg(a, n)
  {
    if IsAddr(a) {
      r := addrOf.Name(a);
      NameText(Ord(addrOf.keys, a));
    } else {
      r := SubstitutePaths(a, pathOf);
    }
  }

  method SubstituteArgs(args: seq<string>, addrOf: Mapper, pathOf: Mapper, ghost n: Names) returns (r: seq<string>)
    requires addrOf.Valid() && pathOf.Valid() && addrOf != pathOf
    requires addrOf.prefix == "ADDR" && pathOf.prefix == "PATH"
    requires n.addrs == addrOf.keys && n.paths == pathOf.keys
    modifies addrOf, pathOf
    ensures addrOf.Valid() && pathOf.Valid()
    ensures (r, n.(addrs := addrOf.keys, paths := pathOf.keys)) == CanonArgs(args, n)
  {
    r := [];
    ghost var goal := CanonArgs(args, n);
    ghost var now := n;
    assert args[0..] == args;
    for i := 0 to |args|
      invariant addrOf.Valid() && pathOf.Valid()
      invariant now == n.(addrs := addrOf.keys, paths := pathOf.keys)
      invariant ArgsLeft(r, args, i, now, goal)
    {
      ArgStep(r, args, i, now, goal);
      var a := SubstituteArg(args[i], addrOf, pathOf, now);
      now := CanonArg(args[i], now).1;
      r := r + [a];
    }
    ArgsDone(r, args, now, goal);
  }

  /** The name of the last component, as pathlib reads it: empty and dot components do not count. */
  function Basename(s: string): (r: string) {
    BasenameFrom(s, "", "")
  }

  function BasenameFrom(s: string, current: string, last: string): (r: string)
    decreases |s|
  {
    var done := if current == "" || current == "." then last else current;
    if s == "" then done
    else if s[0] == '/' then BasenameFrom(s[1..], "", done)
    else BasenameFrom(s[1..], current + [s[0]], last)
  }

  /** The name of a path is what follows its last slash. */
  lemma {:induction false} BasenameAfter(dir: string, name: string, current: string, last: string)
    requires name != "" && name != "." && '/' !in name
    ensures BasenameFrom(dir + "/" + name, current, last) == name
    decreases |dir|
  {
    var s := dir + "/" + name;
    var done := if current == "" || current == "." then last else current;
    if dir == "" {
      assert s[0] == '/' && s[1..] == name;
      BasenameRest(name, "", done);
      assert "" + name == name;
    } else {
      assert s[0] == dir[0] && s[1..] == dir[1..] + "/" + name;
      if s[0] == '/' {
        BasenameAfter(dir[1..], name, "", done);
      } else {
        BasenameAfter(dir[1..], name, current + [s[0]], last);
      }
    }
  }

  lemma {:induction false} BasenameRest(s: string, current: string, last: string)
    requires '/' !in s && current + s != "" && current + s != "."
    ensures BasenameFrom(s, current, last) == current + s
    decreases |s|
  {
    if s == "" {
      assert current + s == current;
    } else {
      assert (current + [s[0]]) + s[1..] == current + s;
      BasenameRest(s[1..], current + [s[0]], last);
    }
  }

  /** The recorded argv[0] of a binary is its file name, wherever it lies. */
  lemma BasenameIs(dir: string, name: string)
    requires name != "" && name != "." && '/' !in name
    ensures Basename(dir + "/" + name) == name && Basename(name) == name
  {
    BasenameAfter(dir, name, "", "");
    BasenameRest(name, "", "");
    assert "" + name == name;
  }

  /** What is canonicalised so far, followed by the rest from these names, is `goal`. */
  ghost predicate EventsLeft(evs: seq<Event>, left: seq<Event>, n: Names, goal: seq<Event>) {
    evs + CanonEvents(left, n).0 == goal
  }

  lemma EventStep(evs: seq<Event>, left: seq<Event>, n: Names, goal: seq<Event>)
    requires left != [] && EventsLeft(evs, left, n, goal)
    ensures EventsLeft(evs + [CanonEvent(left[0], n).0], left[1..], CanonEvent(left[0], n).1, goal)
  {
    var c, rest := CanonEvent(left[0], n), CanonEvents(left[1..], CanonEvent(left[0], n).1).0;
    assert CanonEvents(left, n).0 == [c.0] + rest;
    assert evs + ([c.0] + rest) == (evs + [c.0]) + rest;
  }

  /** The pass's four mutable tables. */
  class Memo {
    const addrOf: Mapper
    const fdOf: Mapper
    const pathOf: Mapper
    var fds: map<string, string>
    var pending: bool

    ghost predicate Valid()
      reads this, addrOf, fdOf, pathOf
    {
      && addrOf != fdOf && addrOf != pathOf && fdOf != pathOf
      && addrOf.Valid() && fdOf.Valid() && pathOf.Valid()
      && addrOf.prefix == "ADDR" && fdOf.prefix == "FD" && pathOf.prefix == "PATH"
      && fds == fdOf.m
    }

    ghost function Now(): (n: Names)
      reads this, addrOf, fdOf, pathOf
    {
      Names(addrOf.keys, fdOf.keys, pathOf.keys, pending)
    }

    constructor ()
      ensures Valid() && Now() == FRESH
      ensures fresh(addrOf) && fresh(fdOf) && fresh(pathOf)
    {
      addrOf := new Mapper("ADDR");
      fdOf := new Mapper("FD");
      pathOf := new Mapper("PATH");
      fds := map[];
      pending := false;
      new;
      assert fdOf.m == map[];
    }

    /** Opens: note the intent on entry, enter the returned descriptor on exit. */
    method TrackOpen(e: Event)
      requires Valid()
      modifies this, fdOf
      ensures Valid()
      ensures Now() == old(Now()).(fds := OpenStep(e, old(fdOf.keys), old(pending)).0,
                                   pending := OpenStep(e, old(fdOf.keys), old(pending)).1)
    {
      if OpenFamily(e.sc) && e.phase == "enter" {
        pending := WriteIntent(e.sc, e.args);
      } else if OpenFamily(e.sc) && e.phase == "exit" {
        var res := ResultText(e);
        if pending && res.Some? && StartsWith(res.value, "0x") {
          TableFacts("FD", fdOf.keys, res.value);
          var name := fdOf.Name(res.value);
          if res.value !in fds {
            fds := fds[res.value := name];
          }
        }
        pending := false;
      }
    }

    method Step(e: Event) returns (c: Event)
      requires Valid()
      modifies this, addrOf, fdOf, pathOf
      ensures Valid()
      ensures (c, Now()) == CanonEvent(e, old(Now()))
    {
      TrackOpen(e);
      ghost var n1 := Now();
      var args := e.args;
      if args != [] { TableFacts("FD", fdOf.keys, args[0]); }
      if FdCarrier(e.sc) && args != [] && args[0] in fds {
        NameText(Ord(fdOf.keys, args[0]));
        args := [fds[args[0]]] + args[1..];
      }
      assert args == FdArgs(e, n1.fds);
      args := SubstituteArgs(args, addrOf, pathOf, n1);
      ghost var n2 := Now();
      var rest := e.rest;
      if "result" in rest && rest["result"].JStr? && IsAddr(rest["result"].s) {
        var name := addrOf.Name(rest["result"].s);
        NameText(Ord(addrOf.keys, rest["result"].s));
        rest := rest["result" := JStr(name)];
      }
      assert (rest, Now()) == CanonResult(e.rest, n2);
      c := Event(e.sc, e.phase, args, rest);
    }
  }

  method CanonicalizeEvents(events: seq<Event>) returns (evs: seq<Event>)
    ensures evs == Canon(events)
  {
    var memo := new Memo();
    evs := [];
    ghost var goal := Canon(events);
    assert events[0..] == events;
    for i := 0 to |events|
      invariant fresh(memo) && fresh(memo.addrOf) && fresh(memo.fdOf) && fresh(memo.pathOf)
      invariant memo.Valid()
      invariant EventsLeft(evs, events[i..], memo.Now(), goal)
    {
      EventStep(evs, events[i..], memo.Now(), goal);
      assert events[i..][0] == events[i] && events[i..][1..] == events[i + 1..];
      var c := memo.Step(events[i]);
      evs := evs + [c];
    }
  }

  /** The trace every comparison uses: canonical events, and argv[0] cut to its basename. */
  function CanonTrace(t: Trace): (r: Trace)
    requires t.argv != []
    ensures r.argv != [] && r.argv[1..] == t.argv[1..]
  {
    t.(argv := [Basename(t.argv[0])] + t.argv[1..], events := Canon(t.events))
  }

  method Canonicalize(trace: Trace) returns (t: Trace)
    requires trace.argv != []
    ensures t == CanonTrace(trace)
  {
    var evs := CanonicalizeEvents(trace.events);
    t := trace.(argv := [Basename(trace.argv[0])] + trace.argv[1..], events := evs);
  }
}
