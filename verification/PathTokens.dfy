/**
 What the path substitution takes for a path: the longest run of two or more
 components, each a slash and a word.
 */
module PathTokens {
  import opened Prelude
  import opened Canonical

  ghost predicate Word(c: string) { c != "" && forall i :: 0 <= i < |c| ==> IsWord(c[i]) }

  ghost predicate Words(cs: seq<string>) { forall i :: 0 <= i < |cs| ==> Word(cs[i]) }

  /** Components spelled out, a slash before each. */
  function Slashed(cs: seq<string>): (s: string) {
    if cs == [] then "" else "/" + cs[0] + Slashed(cs[1..])
  }

  /** Neither a word character nor a further component comes next. */
  ghost predicate EndsHere(rest: string) {
    (rest == "" || !IsWord(rest[0])) && !(2 <= |rest| && rest[0] == '/' && IsWord(rest[1]))
  }

  lemma {:induction false} WordLenIs(c: string, rest: string)
    requires (forall i :: 0 <= i < |c| ==> IsWord(c[i])) && (rest == "" || !IsWord(rest[0]))
    ensures WordLen(c + rest) == |c|
  {
    if c == "" {
      assert c + rest == rest;
    } else {
      assert (c + rest)[0] == c[0] && (c + rest)[1..] == c[1..] + rest;
      WordLenIs(c[1..], rest);
    }
  }

  lemma SegLenIs(c: string, rest: string)
    requires Word(c) && (rest == "" || !IsWord(rest[0]))
    ensures SegLen("/" + c + rest) == 1 + |c|
  {
    var s := "/" + c + rest;
    assert s[0] == '/' && s[1..] == c + rest;
    WordLenIs(c, rest);
  }

  lemma NoSegment(rest: string)
    requires EndsHere(rest)
    ensures SegLen(rest) == 0
  {
    if 2 <= |rest| && rest[0] == '/' {
      assert rest[1..][0] == rest[1];
    }
  }

  lemma SlashedStart(cs: seq<string>, rest: string)
    requires EndsHere(rest)
    ensures Slashed(cs) + rest == "" || !IsWord((Slashed(cs) + rest)[0])
  {
    if cs == [] {
      assert Slashed(cs) + rest == rest;
    }
  }

  lemma {:induction false} ChainLenIs(cs: seq<string>, rest: string)
    requires Words(cs) && EndsHere(rest)
    ensures ChainLen(Slashed(cs) + rest) == |Slashed(cs)|
  {
    if cs == [] {
      assert Slashed(cs) + rest == rest;
      NoSegment(rest);
    } else {
      var tail := Slashed(cs[1..]) + rest;
      var s := "/" + cs[0] + tail;
      assert Slashed(cs) + rest == s;
      SlashedStart(cs[1..], rest);
      assert Word(cs[0]);
      SegLenIs(cs[0], tail);
      assert s[1 + |cs[0]|..] == tail;
      ChainLenIs(cs[1..], rest);
    }
  }

  /** Two or more components, and nothing that would continue them, are taken for a path as a whole. */
  lemma PathIsWhole(cs: seq<string>, rest: string)
    requires 2 <= |cs| && Words(cs) && EndsHere(rest)
    ensures PathLen(Slashed(cs) + rest) == |Slashed(cs)|
  {
    FirstSegment(cs, rest);
    FirstSegment(cs[1..], rest);
    ChainLenIs(cs, rest);
  }

  /** The first component is read as a segment, and the others follow it. */
  lemma FirstSegment(cs: seq<string>, rest: string)
    requires cs != [] && Words(cs) && EndsHere(rest)
    ensures var s := Slashed(cs) + rest;
            SegLen(s) == 1 + |cs[0]| && s[SegLen(s)..] == Slashed(cs[1..]) + rest
  {
    var tail := Slashed(cs[1..]) + rest;
    assert Slashed(cs) + rest == "/" + cs[0] + tail;
    assert Word(cs[0]);
    SlashedStart(cs[1..], rest);
    SegLenIs(cs[0], tail);
    assert ("/" + cs[0] + tail)[1 + |cs[0]|..] == tail;
  }

  lemma {:induction false} WordsIn(s: string)
    ensures forall i :: 0 <= i < WordLen(s) ==> IsWord(s[i])
  {
    if s != "" && IsWord(s[0]) {
      WordsIn(s[1..]);
      assert forall i :: 1 <= i < WordLen(s) ==> s[i] == s[1..][i - 1];
    }
  }

  /** A run of segments is a run of components. */
  lemma {:induction false} ChainSpells(s: string) returns (cs: seq<string>)
    ensures Words(cs) && Slashed(cs) == s[..ChainLen(s)]
    ensures 0 < SegLen(s) ==> cs != []
    ensures 0 < SegLen(s) && 0 < SegLen(s[SegLen(s)..]) ==> 2 <= |cs|
    decreases |s|
  {
    var k := SegLen(s);
    if k == 0 {
      cs := [];
    } else {
      var rest := ChainSpells(s[k..]);
      WordsIn(s[1..]);
      cs := [s[1..k]] + rest;
      assert forall i :: 0 <= i < k - 1 ==> s[1..k][i] == s[1..][i];
      assert cs[1..] == rest;
      Spelled(s, k, ChainLen(s[k..]));
    }
  }

  lemma Spelled(s: string, k: nat, n: nat)
    requires 1 <= k && k + n <= |s| && s[0] == '/'
    ensures "/" + s[1..k] + s[k..][..n] == s[..k + n]
  {
  }

  /** Whatever is taken for a path is two or more components. */
  lemma PathSpells(s: string) returns (cs: seq<string>)
    requires 0 < PathLen(s)
    ensures 2 <= |cs| && Words(cs) && s[..PathLen(s)] == Slashed(cs)
  {
    cs := ChainSpells(s);
  }

  /** In an argument: the path in front becomes one piece, and the scan goes on after it. */
  lemma PathLexes(cs: seq<string>, rest: string)
    requires 2 <= |cs| && Words(cs) && EndsHere(rest)
    ensures Lex(Slashed(cs) + rest) == [AbsPath(Slashed(cs))] + Lex(rest)
  {
    var p := Slashed(cs);
    var s := p + rest;
    PathIsWhole(cs, rest);
    assert p != "";
    assert s[..|p|] == p && s[|p|..] == rest;
  }
}
