/**
 The hidden suite: inputs drawn after submission, each recorded on the original
 before it may count, none of them known to the submitter.
 */
module HiddenInputs {
  import opened Prelude
  import opened Canonical

  const HIDDEN_N := 8

  datatype Input = Input(argv: seq<string>, stdin: seq<byte>)

  type Key = (seq<string>, string)

  function Tail<T>(s: seq<T>): (r: seq<T>) { if s == [] then [] else s[1..] }
  function KeyOf(t: Trace): (k: Key) { (Tail(t.argv), t.stdinHex) }
  function InputKey(x: Input): (k: Key) { (x.argv, Hex(x.stdin)) }

  /** Ground truth by input; None for an input whose behaviour is not stable. */
  type Truth = Input -> Option<Trace>

  /** A recording carries the input it was made from. */
  ghost predicate Echoes(truth: Truth, key: Input -> Key) {
    forall x :: truth(x).Some? ==> KeyOf(truth(x).value) == key(x)
  }

  ghost predicate Determines(key: Input -> Key) {
    forall x, y :: key(x) == key(y) ==> x == y
  }

  predicate Usable(truth: Truth, x: Input) {
    truth(x).Some? && truth(x).value.exitCode != -1
  }

  // ---------- the hidden suite ----------

  /** Up to HIDDEN_N usable draws out of the first `left`, each input at most once and none already known. */
  function Hidden(truth: Truth, draws: nat -> Input, key: Input -> Key, from: nat, left: nat, known: set<Key>, have: nat)
    : (r: seq<Trace>)
    requires have <= HIDDEN_N
    ensures |r| <= HIDDEN_N - have
    decreases left
  {
    if left == 0 || have == HIDDEN_N then []
    else
      var x := draws(from);
      if key(x) in known then Hidden(truth, draws, key, from + 1, left - 1, known, have)
      else
        var known' := known + {key(x)};
        if Usable(truth, x) then
          [truth(x).value] + Hidden(truth, draws, key, from + 1, left - 1, known', have + 1)
        else Hidden(truth, draws, key, from + 1, left - 1, known', have)
  }

  function KnownKeys(rec: seq<Trace>): (r: set<Key>) { set t | t in rec :: KeyOf(t) }

  function HiddenSuite(truth: Truth, draws: nat -> Input, rec: seq<Trace>): (r: seq<Trace>)
    ensures |r| <= HIDDEN_N
  {
    Hidden(truth, draws, InputKey, 0, 10 * HIDDEN_N, KnownKeys(rec), 0)
  }

  lemma {:induction false} HiddenFact(truth: Truth, draws: nat -> Input, key: Input -> Key, from: nat, left: nat, known: set<Key>, have: nat, t: Trace)
    requires Echoes(truth, key) && have <= HIDDEN_N
    requires t in Hidden(truth, draws, key, from, left, known, have)
    ensures KeyOf(t) !in known
    ensures exists d: nat :: from <= d < from + left && Usable(truth, draws(d)) &&
                             t == truth(draws(d)).value
    decreases left
  {
    var x := draws(from);
    if key(x) in known {
      HiddenFact(truth, draws, key, from + 1, left - 1, known, have, t);
    } else {
      var known' := known + {key(x)};
      if Usable(truth, x) {
        if t != truth(x).value {
          HiddenFact(truth, draws, key, from + 1, left - 1, known', have + 1, t);
        }
      } else {
        HiddenFact(truth, draws, key, from + 1, left - 1, known', have, t);
      }
    }
  }

  ghost predicate DistinctKeys(ts: seq<Trace>) {
    forall i, j :: 0 <= i < j < |ts| ==> KeyOf(ts[i]) != KeyOf(ts[j])
  }

  lemma {:induction false} HiddenDistinct(truth: Truth, draws: nat -> Input, key: Input -> Key, from: nat, left: nat, known: set<Key>, have: nat)
    requires Echoes(truth, key) && have <= HIDDEN_N
    ensures DistinctKeys(Hidden(truth, draws, key, from, left, known, have))
    decreases left
  {
    if left != 0 && have != HIDDEN_N {
      var x := draws(from);
      if key(x) in known {
        HiddenDistinct(truth, draws, key, from + 1, left - 1, known, have);
      } else {
        var known' := known + {key(x)};
        if Usable(truth, x) {
          var rest := Hidden(truth, draws, key, from + 1, left - 1, known', have + 1);
          HiddenDistinct(truth, draws, key, from + 1, left - 1, known', have + 1);
          forall i | 0 <= i < |rest|
            ensures KeyOf(rest[i]) != key(x)
          {
            HiddenFact(truth, draws, key, from + 1, left - 1, known', have + 1, rest[i]);
          }
        } else {
          HiddenDistinct(truth, draws, key, from + 1, left - 1, known', have);
        }
      }
    }
  }

  ghost predicate HasKey(ts: seq<Trace>, k: Key) {
    ts != [] && (KeyOf(ts[0]) == k || HasKey(ts[1..], k))
  }

  lemma {:induction false} HasKeyKnown(ts: seq<Trace>, k: Key)
    requires HasKey(ts, k)
    ensures k in KnownKeys(ts)
  {
    if KeyOf(ts[0]) != k {
      HasKeyKnown(ts[1..], k);
    }
  }

  /** A draw that did not make the suite was a repeat or had no stable, non-crashing behaviour. */
  lemma {:induction false} HiddenExhausts(truth: Truth, draws: nat -> Input, key: Input -> Key, from: nat, left: nat, known: set<Key>, have: nat, d: nat)
    requires Echoes(truth, key) && Determines(key) && have <= HIDDEN_N && from <= d < from + left
    requires |Hidden(truth, draws, key, from, left, known, have)| < HIDDEN_N - have
    requires key(draws(d)) !in known && Usable(truth, draws(d))
    ensures HasKey(Hidden(truth, draws, key, from, left, known, have), key(draws(d)))
    decreases left
  {
    var x, y := draws(from), draws(d);
    if d == from {
      assert KeyOf(truth(x).value) == key(x);
    } else if key(x) in known {
      HiddenExhausts(truth, draws, key, from + 1, left - 1, known, have, d);
    } else if Usable(truth, x) {
      assert KeyOf(truth(x).value) == key(x);
      if key(y) != key(x) {
        HiddenExhausts(truth, draws, key, from + 1, left - 1, known + {key(x)}, have + 1, d);
      }
    } else {
      HiddenExhausts(truth, draws, key, from + 1, left - 1, known + {key(x)}, have, d);
    }
  }

  /** The key determines the input, so a repeated key repeats the behaviour. */
  lemma SameKeySameInput(x: Input, y: Input)
    ensures InputKey(x) == InputKey(y) ==> x == y
  {
    HexRoundTrip(x.stdin);
    HexRoundTrip(y.stdin);
  }

  /**
   The suite: at most eight stable, non-crashing draws, pairwise distinct and
   disjoint from the nominated inputs; a short suite means the draws starved.
   */
  lemma HiddenSuiteIsFresh(truth: Truth, draws: nat -> Input, rec: seq<Trace>)
    requires Echoes(truth, InputKey)
    ensures var s := HiddenSuite(truth, draws, rec);
            && |s| <= 8 && DistinctKeys(s)
            && (forall i :: 0 <= i < |s| ==> KeyOf(s[i]) !in KnownKeys(rec) && s[i].exitCode != -1)
            && (|s| < 8 ==> forall d: nat :: d < 80 ==>
                  InputKey(draws(d)) in KnownKeys(rec) + KnownKeys(s) || !Usable(truth, draws(d)))
  {
    var s := HiddenSuite(truth, draws, rec);
    HiddenDistinct(truth, draws, InputKey, 0, 10 * HIDDEN_N, KnownKeys(rec), 0);
    forall i | 0 <= i < |s|
      ensures KeyOf(s[i]) !in KnownKeys(rec) && s[i].exitCode != -1
    {
      HiddenFact(truth, draws, InputKey, 0, 10 * HIDDEN_N, KnownKeys(rec), 0, s[i]);
    }
    if |s| < HIDDEN_N {
      forall x, y ensures InputKey(x) == InputKey(y) ==> x == y { SameKeySameInput(x, y); }
      forall d: nat | d < 10 * HIDDEN_N
        ensures InputKey(draws(d)) in KnownKeys(rec) + KnownKeys(s) || !Usable(truth, draws(d))
      {
        if InputKey(draws(d)) !in KnownKeys(rec) && Usable(truth, draws(d)) {
          HiddenExhausts(truth, draws, InputKey, 0, 10 * HIDDEN_N, KnownKeys(rec), 0, d);
          HasKeyKnown(s, InputKey(draws(d)));
        }
      }
    }
  }

  /** The suite so far, followed by what the remaining draws add, is `goal`. */
  ghost predicate DrawsLeft(suite: seq<Trace>, truth: Truth, draws: nat -> Input, key: Input -> Key, attempt: nat, left: nat, known: set<Key>, goal: seq<Trace>) {
    |suite| <= HIDDEN_N && suite + Hidden(truth, draws, key, attempt, left, known, |suite|) == goal
  }

  lemma DrawStep(suite: seq<Trace>, truth: Truth, draws: nat -> Input, key: Input -> Key, attempt: nat, left: nat, known: set<Key>, goal: seq<Trace>)
    requires 0 < left && |suite| < HIDDEN_N && DrawsLeft(suite, truth, draws, key, attempt, left, known, goal)
    ensures var x := draws(attempt);
            if key(x) in known then DrawsLeft(suite, truth, draws, key, attempt + 1, left - 1, known, goal)
            else if Usable(truth, x)
            then DrawsLeft(suite + [truth(x).value], truth, draws, key, attempt + 1, left - 1, known + {key(x)}, goal)
            else DrawsLeft(suite, truth, draws, key, attempt + 1, left - 1, known + {key(x)}, goal)
  {
    var x := draws(attempt);
    if key(x) !in known && Usable(truth, x) {
      var rest := Hidden(truth, draws, key, attempt + 1, left - 1, known + {key(x)}, |suite| + 1);
      assert suite + ([truth(x).value] + rest) == (suite + [truth(x).value]) + rest;
    }
  }

  method DrawHidden(truth: Truth, draws: nat -> Input, rec: seq<Trace>) returns (suite: seq<Trace>)
    ensures suite == HiddenSuite(truth, draws, rec)
  {
    suite := DrawFresh(truth, draws, InputKey, KnownKeys(rec));
  }

  /** The drawing loop: at most ten draws per wanted case, stopping at eight. */
  method DrawFresh(truth: Truth, draws: nat -> Input, key: Input -> Key, recorded: set<Key>) returns (suite: seq<Trace>)
    ensures suite == Hidden(truth, draws, key, 0, 10 * HIDDEN_N, recorded, 0)
  {
    var known := recorded;
    suite := [];
    var attempt := 0;
    ghost var goal := Hidden(truth, draws, key, 0, 10 * HIDDEN_N, recorded, 0);
    while attempt < 10 * HIDDEN_N && |suite| != HIDDEN_N
      invariant attempt <= 10 * HIDDEN_N
      invariant DrawsLeft(suite, truth, draws, key, attempt, 10 * HIDDEN_N - attempt, known, goal)
    {
      DrawStep(suite, truth, draws, key, attempt, 10 * HIDDEN_N - attempt, known, goal);
      var x := draws(attempt);
      attempt := attempt + 1;
      if key(x) !in known {
        known := known + {key(x)};
        var t := truth(x);
        if t.Some? && t.value.exitCode != -1 {
          suite := suite + [t.value];
        }
      }
    }
    DrawsDone(suite, truth, draws, key, attempt, 10 * HIDDEN_N - attempt, known, goal);
  }

  lemma DrawsDone(suite: seq<Trace>, truth: Truth, draws: nat -> Input, key: Input -> Key, attempt: nat, left: nat, known: set<Key>, goal: seq<Trace>)
    requires (left == 0 || |suite| == HIDDEN_N) && DrawsLeft(suite, truth, draws, key, attempt, left, known, goal)
    ensures suite == goal
  {
    assert suite + [] == suite;
  }
}
