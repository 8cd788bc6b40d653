/**
 The corpus manifest: slots of a fixed build matrix, rebuilt in whole or in
 part, always listed in the same canonical order.
 */
module Manifest {
  import opened Prelude

  // ---------- slots and their ids ----------

  /** A seed built by compiler `cc` at level `opt`, stripped or not; the numbers index the fixed matrix. */
  datatype Slot = Slot(seed: string, cc: nat, opt: nat, variant: nat)

  predicate InMatrix(s: Slot) { s.cc < 2 && s.opt < 3 && s.variant < 2 }

  const COMPILERS := ["gcc", "clang"]
  const OPTS := ["-O0", "-O1", "-O2"]
  const VARIANTS := ["sym", "stripped"]

  function CompilerName(i: nat): (r: string) { if i == 0 then "gcc" else "clang" }
  /** The level without its dash. */
  function OptName(i: nat): (r: string) { if i == 0 then "O0" else if i == 1 then "O1" else "O2" }
  function VariantName(i: nat): (r: string) { if i == 0 then "sym" else "stripped" }

  function SlotName(cc: nat, opt: nat, variant: nat): (r: string) {
    CompilerName(cc) + "-" + OptName(opt) + "-" + VariantName(variant)
  }

  function TaskId(s: Slot): (r: string) { s.seed + "::" + SlotName(s.cc, s.opt, s.variant) }

  // ---------- splitting and looking up ----------

  /** Where the first double colon stands, the length when there is none. */
  function SepAt(s: string): (i: nat)
    ensures i <= |s|
    ensures i < |s| ==> i + 2 <= |s| && s[i] == ':' && s[i + 1] == ':'
  {
    if s == "" then 0 else if 2 <= |s| && s[0] == ':' && s[1] == ':' then 0 else 1 + SepAt(s[1..])
  }

  /** s.split("-"). */
  function Split(s: string): (parts: seq<string>)
    ensures parts != []
  {
    if s == "" then [""]
    else
      var rest := Split(s[1..]);
      if s[0] == '-' then [""] + rest else [[s[0]] + rest[0]] + rest[1..]
  }

  /** "-".join(parts). */
  function Join(parts: seq<string>): (s: string)
    requires parts != []
  {
    if |parts| == 1 then parts[0] else parts[0] + "-" + Join(parts[1..])
  }

  lemma {:induction false} SplitJoins(s: string)
    ensures Join(Split(s)) == s
  {
    if s != "" {
      SplitJoins(s[1..]);
      var rest := Split(s[1..]);
      assert s == [s[0]] + s[1..];
      if s[0] == '-' {
        assert ([""] + rest)[1..] == rest;
      } else {
        JoinFirst(s[0], rest);
      }
    }
  }

  /** A character put before the first part stands before the whole. */
  lemma JoinFirst(c: char, rest: seq<string>)
    requires rest != []
    ensures Join([[c] + rest[0]] + rest[1..]) == [c] + Join(rest)
  {
    var parts := [[c] + rest[0]] + rest[1..];
    if |rest| > 1 {
      assert parts[1..] == rest[1..];
    }
  }

  lemma {:induction false} SplitFirst(a: string, rest: string)
    requires '-' !in a
    ensures Split(a + "-" + rest) == [a] + Split(rest)
  {
    var s := a + "-" + rest;
    if a == "" {
      assert s[1..] == rest;
    } else {
      assert s[0] == a[0] && s[1..] == a[1..] + "-" + rest;
      SplitFirst(a[1..], rest);
      assert a == [a[0]] + a[1..];
    }
  }

  lemma {:induction false} SplitWhole(a: string)
    requires '-' !in a
    ensures Split(a) == [a]
  {
    if a != "" {
      SplitWhole(a[1..]);
      assert a == [a[0]] + a[1..];
    }
  }

  /** names.index(s); None where it raises. */
  function IndexOf(names: seq<string>, s: string): (r: Option<nat>)
    ensures r.Some? ==> r.value < |names| && names[r.value] == s && s !in names[..r.value]
    ensures r.None? ==> s !in names
  {
    if names == [] then None
    else if names[0] == s then Some(0)
    else
      match IndexOf(names[1..], s)
      case None => None
      case Some(i) =>
        assert names[..i + 1] == [names[0]] + names[1..][..i];
        Some(i + 1)
  }

  lemma IndexAt(names: seq<string>, i: nat)
    requires i < |names| && Distinct(names)
    ensures IndexOf(names, names[i]) == Some(i)
  {
    var r := IndexOf(names, names[i]);
    assert r.Some?;
  }

  /** The indices a slot name spells; None where the unpacking or a lookup raises. */
  function SlotIndices(rest: string): (r: Option<(nat, nat, nat)>) { PartIndices(Split(rest)) }

  function PartIndices(parts: seq<string>): (r: Option<(nat, nat, nat)>) {
    if |parts| != 3 then None
    else
      var cc, opt, variant := IndexOf(COMPILERS, parts[0]), IndexOf(OPTS, "-" + parts[1]), IndexOf(VARIANTS, parts[2]);
      if cc.None? || opt.None? || variant.None? then None else Some((cc.value, opt.value, variant.value))
  }

  /** The sort key of a task id, as the slot it names: exactly two parts around a double colon, then the slot's three. */
  function SortKey(id: string): (r: Option<Slot>) {
    var i := SepAt(id);
    if i == |id| then None else KeyAt(id[..i], id[i + 2..])
  }

  function KeyAt(seed: string, rest: string): (r: Option<Slot>) {
    if SepAt(rest) != |rest| || SlotIndices(rest).None? then None
    else
      var k := SlotIndices(rest).value;
      Some(Slot(seed, k.0, k.1, k.2))
  }

  // ---------- ids and keys ----------

  lemma ThreeParts(parts: seq<string>)
    requires |parts| == 3
    ensures Join(parts) == parts[0] + "-" + parts[1] + "-" + parts[2]
  {
    assert parts[1..][1..] == [parts[2]];
    assert Join(parts[1..]) == parts[1] + "-" + parts[2];
  }

  /** Indices that were found spell the name they were looked up in. */
  lemma IndicesSpell(rest: string)
    requires SlotIndices(rest).Some?
    ensures var k := SlotIndices(rest).value;
            k.0 < 2 && k.1 < 3 && k.2 < 2 && rest == SlotName(k.0, k.1, k.2)
  {
    var parts, k := Split(rest), SlotIndices(rest).value;
    SplitJoins(rest);
    ThreeParts(parts);
    OptSpelled(parts[1], k.1);
  }

  lemma OptSpelled(part: string, i: nat)
    requires i < 3 && OPTS[i] == "-" + part
    ensures part == OptName(i)
  {
    assert ("-" + part)[1..] == part;
  }

  /** A key names one id: the key is injective wherever it is defined. */
  lemma SortKeyInjective(a: string, b: string)
    requires SortKey(a).Some? && SortKey(a) == SortKey(b)
    ensures a == b
  {
    KeyedId(a);
    KeyedId(b);
  }

  lemma KeyedId(id: string)
    requires SortKey(id).Some?
    ensures InMatrix(SortKey(id).value) && TaskId(SortKey(id).value) == id
  {
    var i := SepAt(id);
    KeyedRest(id[..i], id[i + 2..]);
    Rejoined(id, id[..i], id[i + 2..], i);
  }

  lemma KeyedRest(seed: string, rest: string)
    requires KeyAt(seed, rest).Some?
    ensures InMatrix(KeyAt(seed, rest).value) && TaskId(KeyAt(seed, rest).value) == seed + "::" + rest
  {
    IndicesSpell(rest);
  }

  lemma Rejoined(id: string, seed: string, rest: string, i: nat)
    requires i + 2 <= |id| && id[i] == ':' && id[i + 1] == ':' && seed == id[..i] && rest == id[i + 2..]
    ensures seed + "::" + rest == id
  {
  }

  lemma {:induction false} SepAfter(seed: string, rest: string)
    requires ':' !in seed
    ensures SepAt(seed + "::" + rest) == |seed|
  {
    var s := seed + "::" + rest;
    if seed == "" {
      assert s[0] == ':' && s[1] == ':';
    } else {
      assert s[0] == seed[0] && s[1..] == seed[1..] + "::" + rest;
      SepAfter(seed[1..], rest);
    }
  }

  lemma {:induction false} NoSep(s: string)
    requires ':' !in s
    ensures SepAt(s) == |s|
  {
    if s != "" {
      NoSep(s[1..]);
    }
  }

  lemma PartsOfName(a: string, b: string, c: string)
    requires '-' !in a && '-' !in b && '-' !in c
    ensures Split(a + "-" + b + "-" + c) == [a, b, c]
  {
    assert a + "-" + b + "-" + c == a + "-" + (b + "-" + c);
    SplitFirst(a, b + "-" + c);
    SplitFirst(b, c);
    SplitWhole(c);
  }

  lemma NamesAreListed(a: nat, b: nat, c: nat)
    requires a < 2 && b < 3 && c < 2
    ensures IndexOf(COMPILERS, CompilerName(a)) == Some(a)
    ensures IndexOf(OPTS, "-" + OptName(b)) == Some(b)
    ensures IndexOf(VARIANTS, VariantName(c)) == Some(c)
  {
    assert |COMPILERS[0]| != |COMPILERS[1]| && |VARIANTS[0]| != |VARIANTS[1]|;
    assert OPTS[0][2] == '0' && OPTS[1][2] == '1' && OPTS[2][2] == '2';
    IndexAt(COMPILERS, a);
    IndexAt(OPTS, b);
    IndexAt(VARIANTS, c);
    assert OPTS[b] == "-" + OptName(b);
  }

  lemma IndicesOfName(a: nat, b: nat, c: nat)
    requires a < 2 && b < 3 && c < 2
    ensures SlotIndices(SlotName(a, b, c)) == Some((a, b, c))
  {
    PartsOfName(CompilerName(a), OptName(b), VariantName(c));
    ListedParts(a, b, c, [CompilerName(a), OptName(b), VariantName(c)]);
  }

  lemma ListedParts(a: nat, b: nat, c: nat, parts: seq<string>)
    requires a < 2 && b < 3 && c < 2 && parts == [CompilerName(a), OptName(b), VariantName(c)]
    ensures PartIndices(parts) == Some((a, b, c))
  {
    NamesAreListed(a, b, c);
  }

  lemma NameHasNoColon(a: nat, b: nat, c: nat)
    ensures ':' !in SlotName(a, b, c)
  {
    assert ':' !in CompilerName(a) && ':' !in OptName(b) && ':' !in VariantName(c);
  }

  /** Every slot of the matrix is recovered from its own id. */
  lemma TaskIdRoundTrip(s: Slot)
    requires InMatrix(s) && ':' !in s.seed
    ensures SortKey(TaskId(s)) == Some(s)
  {
    var id, rest := TaskId(s), SlotName(s.cc, s.opt, s.variant);
    SepAfter(s.seed, rest);
    assert id[..|s.seed|] == s.seed && id[|s.seed| + 2..] == rest;
    IndicesOfName(s.cc, s.opt, s.variant);
    NameHasNoColon(s.cc, s.opt, s.variant);
    NoSep(rest);
  }

  // ---------- the canonical order ----------

  /** Code point by code point, the shorter first on a tie. */
  predicate TextLess(a: string, b: string) {
    if b == "" then false
    else if a == "" then true
    else a[0] < b[0] || (a[0] == b[0] && TextLess(a[1..], b[1..]))
  }

  predicate Less(a: Slot, b: Slot) {
    TextLess(a.seed, b.seed) ||
    (a.seed == b.seed &&
     (a.cc < b.cc || (a.cc == b.cc && (a.opt < b.opt || (a.opt == b.opt && a.variant < b.variant)))))
  }

  lemma {:induction false} TextTotal(a: string, b: string)
    ensures TextLess(a, b) || a == b || TextLess(b, a)
    ensures !(TextLess(a, b) && TextLess(b, a)) && !TextLess(a, a)
  {
    if a != "" && b != "" {
      TextTotal(a[1..], b[1..]);
      TextTotal(a[1..], a[1..]);
      assert a == [a[0]] + a[1..] && b == [b[0]] + b[1..];
    } else if a != "" {
      TextTotal(a[1..], a[1..]);
    }
  }

  lemma {:induction false} TextTransitive(a: string, b: string, c: string)
    requires TextLess(a, b) && TextLess(b, c)
    ensures TextLess(a, c)
  {
    if a != "" && a[0] == b[0] && b[0] == c[0] {
      TextTransitive(a[1..], b[1..], c[1..]);
    }
  }

  lemma LessTotal(a: Slot, b: Slot)
    ensures Less(a, b) || a == b || Less(b, a)
    ensures !(Less(a, b) && Less(b, a)) && !Less(a, a)
  {
    TextTotal(a.seed, b.seed);
    TextTotal(a.seed, a.seed);
  }

  lemma LessTransitive(a: Slot, b: Slot, c: Slot)
    requires Less(a, b) && Less(b, c)
    ensures Less(a, c)
  {
    if TextLess(a.seed, b.seed) && TextLess(b.seed, c.seed) {
      TextTransitive(a.seed, b.seed, c.seed);
    }
  }

  /** The seed comes first; within a seed, the place in the nested loops over compilers, levels and variants. */
  lemma LessIff(a: Slot, b: Slot)
    requires InMatrix(a) && InMatrix(b)
    ensures Less(a, b) <==>
              TextLess(a.seed, b.seed) || (a.seed == b.seed && 6 * a.cc + 2 * a.opt + a.variant < 6 * b.cc + 2 * b.opt + b.variant)
  {
  }

  /** Text order: the first difference decides, and a proper prefix comes first. */
  ghost predicate Precedes(a: string, b: string, k: nat) {
    && k <= |a| && k < |b| && a[..k] == b[..k]
    && (k == |a| || a[k] < b[k])
  }

  lemma {:induction false} TextLessIff(a: string, b: string)
    ensures TextLess(a, b) <==> exists k: nat :: Precedes(a, b, k)
  {
    if b != "" && a != "" {
      TextLessIff(a[1..], b[1..]);
      if k: nat :| Precedes(a[1..], b[1..], k) && a[0] == b[0] {
        assert a[..k + 1] == [a[0]] + a[1..][..k] && b[..k + 1] == [b[0]] + b[1..][..k];
        assert Precedes(a, b, k + 1);
      }
      if k: nat :| Precedes(a, b, k) && 0 < k {
        assert a[0] == a[..k][0] == b[..k][0] == b[0];
        assert a[1..][..k - 1] == a[..k][1..] && b[1..][..k - 1] == b[..k][1..];
        assert Precedes(a[1..], b[1..], k - 1);
      }
      if a[0] < b[0] {
        assert Precedes(a, b, 0);
      }
    } else if b != "" {
      assert Precedes(a, b, 0);
    }
  }

  /** A key per id, different for different ids. */
  ghost predicate KeyedBy(ids: set<string>, key: string -> Slot) {
    forall a, b :: a in ids && b in ids && key(a) == key(b) ==> a == b
  }

  /** The ids in strictly increasing key order. */
  ghost predicate Lists(order: seq<string>, ids: set<string>, key: string -> Slot) {
    && (forall id :: id in order <==> id in ids)
    && forall i, j :: 0 <= i < j < |order| ==> Less(key(order[i]), key(order[j]))
  }

  lemma ListedOnce(order: seq<string>, ids: set<string>, key: string -> Slot, i: nat, j: nat)
    requires Lists(order, ids, key) && i < j < |order|
    ensures order[i] != order[j]
  {
    LessTotal(key(order[i]), key(order[j]));
  }

  lemma LastIsGreatest(order: seq<string>, ids: set<string>, key: string -> Slot, id: string)
    requires Lists(order, ids, key) && id in ids
    ensures order != [] && (id == order[|order| - 1] || Less(key(id), key(order[|order| - 1])))
  {
    var i :| 0 <= i < |order| && order[i] == id;
  }

  lemma DropLast(order: seq<string>, ids: set<string>, key: string -> Slot)
    requires Lists(order, ids, key) && order != []
    ensures Lists(order[..|order| - 1], ids - {order[|order| - 1]}, key)
  {
    var n := |order| - 1;
    forall id
      ensures id in order[..n] <==> id in ids - {order[n]}
    {
      if id in order[..n] {
        var i :| 0 <= i < n && order[i] == id;
        ListedOnce(order, ids, key, i, n);
      }
      if id in ids && id != order[n] {
        var i :| 0 <= i < |order| && order[i] == id;
        assert order[..n][i] == id;
      }
    }
  }

  /** A set of ids has one listing only. */
  lemma {:induction false} ListingUnique(a: seq<string>, b: seq<string>, ids: set<string>, key: string -> Slot)
    requires Lists(a, ids, key) && Lists(b, ids, key)
    ensures a == b
    decreases |a|
  {
    assert b != [] ==> b[0] in ids;
    if a != [] {
      var x := a[|a| - 1];
      assert x in ids;
      LastIsGreatest(b, ids, key, x);
      var y := b[|b| - 1];
      LastIsGreatest(a, ids, key, y);
      LessTotal(key(x), key(y));
      DropLast(a, ids, key);
      DropLast(b, ids, key);
      ListingUnique(a[..|a| - 1], b[..|b| - 1], ids - {x}, key);
      assert a == a[..|a| - 1] + [x] && b == b[..|b| - 1] + [y];
    }
  }

  lemma Above(order: seq<string>, ids: set<string>, key: string -> Slot, id: string, p: nat, i: nat)
    requires Lists(order, ids, key) && KeyedBy(ids + {id}, key) && id !in ids && p <= i < |order|
    requires !Less(key(order[p]), key(id))
    ensures Less(key(id), key(order[i]))
  {
    assert order[p] in order;
    LessTotal(key(order[p]), key(id));
    if p < i {
      LessTransitive(key(id), key(order[p]), key(order[i]));
    }
  }

  lemma InsertedMembers(order: seq<string>, ids: set<string>, id: string, p: nat)
    requires p <= |order| && forall x :: x in order <==> x in ids
    ensures forall x :: x in order[..p] + [id] + order[p..] <==> x in ids + {id}
  {
    assert order == order[..p] + order[p..];
  }

  lemma InsertedLists(order: seq<string>, ids: set<string>, key: string -> Slot, id: string, p: nat)
    requires Lists(order, ids, key) && KeyedBy(ids + {id}, key) && id !in ids && p <= |order|
    requires forall i :: 0 <= i < p ==> Less(key(order[i]), key(id))
    requires p < |order| ==> !Less(key(order[p]), key(id))
    ensures Lists(order[..p] + [id] + order[p..], ids + {id}, key)
  {
    var r := order[..p] + [id] + order[p..];
    forall i | p <= i < |order|
      ensures Less(key(id), key(order[i]))
    {
      Above(order, ids, key, id, p, i);
    }
    InsertedMembers(order, ids, id, p);
    assert forall i :: 0 <= i < |r| ==> r[i] == if i < p then order[i] else if i == p then id else order[i - 1];
  }

  /** Insertion into a listing. */
  method Insert(order: seq<string>, ghost ids: set<string>, key: string -> Slot, id: string) returns (r: seq<string>)
    requires Lists(order, ids, key) && KeyedBy(ids + {id}, key) && id !in ids
    ensures Lists(r, ids + {id}, key)
  {
    var p := 0;
    while p < |order| && Less(key(order[p]), key(id))
      invariant 0 <= p <= |order|
      invariant forall i :: 0 <= i < p ==> Less(key(order[i]), key(id))
    {
      p := p + 1;
    }
    r := order[..p] + [id] + order[p..];
    InsertedLists(order, ids, key, id, p);
  }

  /** sorted(ids, key=key). */
  method Sorted(ids: set<string>, key: string -> Slot) returns (order: seq<string>)
    requires KeyedBy(ids, key)
    ensures Lists(order, ids, key)
  {
    order := [];
    var left := ids;
    ghost var done: set<string> := {};
    while left != {}
      invariant left !! done && left + done == ids && Lists(order, done, key)
      decreases left
    {
      var id :| id in left;
      order := Insert(order, done, key, id);
      left, done := left - {id}, done + {id};
    }
  }

  /** The key the manifest is sorted by. */
  function KeyOf(id: string): (s: Slot) { if SortKey(id).Some? then SortKey(id).value else Slot("", 0, 0, 0) }

  /** Every id is one the key can read. */
  ghost predicate Readable(ids: set<string>) { forall id :: id in ids ==> SortKey(id).Some? }

  lemma ReadableIsKeyed(ids: set<string>)
    requires Readable(ids)
    ensures KeyedBy(ids, KeyOf)
  {
    forall a, b | a in ids && b in ids && KeyOf(a) == KeyOf(b)
      ensures a == b
    {
      SortKeyInjective(a, b);
    }
  }

  // ---------- builds ----------

  /** Which seeds and which slots to build; None is no filter. */
  datatype Filter = Filter(seeds: Option<set<string>>, slots: Option<set<string>>)

  const FULL := Filter(None, None)

  predicate Targeted(f: Filter) { f.seeds.Some? || f.slots.Some? }

  predicate Wanted(f: Filter, s: Slot) {
    (f.seeds.Some? ==> s.seed in f.seeds.value) && (f.slots.Some? ==> SlotName(s.cc, s.opt, s.variant) in f.slots.value)
  }

  /** The slots a build plans: the whole matrix over the seeds present, filtered. */
  ghost predicate Plans(seeds: seq<string>, f: Filter, s: Slot) {
    && s.seed in seeds && s.cc < 2 && s.opt < 3 && s.variant < 2
    && (f.seeds == None || s.seed in f.seeds.value)
    && (f.slots == None || SlotName(s.cc, s.opt, s.variant) in f.slots.value)
  }

  method Plan(seeds: seq<string>, f: Filter) returns (plan: seq<Slot>)
    ensures forall s :: s in plan <==> Plans(seeds, f, s)
  {
    plan := [];
    for i := 0 to |seeds|
      invariant forall s :: s in plan <==> Plans(seeds[..i], f, s)
    {
      var row := PlanSeed(seeds[i], f);
      assert forall n :: n in seeds[..i + 1] <==> n in seeds[..i] || n == seeds[i];
      plan := plan + row;
    }
    assert seeds[..|seeds|] == seeds;
  }

  /** Compilers, then levels, then symbols before stripped. */
  method PlanSeed(seed: string, f: Filter) returns (row: seq<Slot>)
    ensures forall s :: s in row <==> s.seed == seed && InMatrix(s) && Wanted(f, s)
  {
    row := [];
    for n := 0 to 12
      invariant forall s :: s in row <==> s.seed == seed && InMatrix(s) && Wanted(f, s) && Position(s) < n
    {
      var s := Slot(seed, n / 6, n / 2 % 3, n % 2);
      PositionOf(s, n);
      if Wanted(f, s) {
        row := row + [s];
      }
    }
  }

  /** The place of a slot in its seed's nested loops. */
  function Position(s: Slot): (n: nat) { 6 * s.cc + 2 * s.opt + s.variant }

  lemma PositionOf(s: Slot, n: nat)
    requires n < 12 && s.cc == n / 6 && s.opt == n / 2 % 3 && s.variant == n % 2
    ensures InMatrix(s) && Position(s) == n
    ensures forall t: Slot :: InMatrix(t) && t.seed == s.seed && Position(t) == n ==> t == s
  {
  }

  /** What building a slot yields; builds are deterministic. */
  type Builder<Entry> = Slot -> Entry

  /** The manifest file: absent, or one entry per task id. */
  type Stored<Entry> = Option<map<string, Entry>>

  ghost predicate PlansId(seeds: seq<string>, f: Filter, id: string) {
    SortKey(id).Some? && Plans(seeds, f, SortKey(id).value)
  }

  ghost predicate PlansAny(seeds: seq<string>, f: Filter) {
    exists s :: Plans(seeds, f, s)
  }

  /** Sorting the merged manifest raises: a preserved id has no key. Nothing is written then. */
  ghost predicate Unwritable<Entry>(seeds: seq<string>, f: Filter, stored: Stored<Entry>) {
    PlansAny(seeds, f) && (f.seeds.Some? || f.slots.Some?) && stored.Some? && !Readable(stored.value.Keys)
  }

  /** The manifest after one build, entry by entry; a build that plans nothing or raises leaves it alone. */
  ghost predicate After<Entry(!new)>(seeds: seq<string>, build: Builder<Entry>, f: Filter, before: Stored<Entry>, after: Stored<Entry>) {
    if !PlansAny(seeds, f) || Unwritable(seeds, f, before) then after == before
    else
      && after.Some?
      && forall id ::
           if PlansId(seeds, f, id) then id in after.value && after.value[id] == build(SortKey(id).value)
           else if (f.seeds.Some? || f.slots.Some?) && before.Some? && id in before.value then id in after.value && after.value[id] == before.value[id]
           else id !in after.value
  }

  ghost predicate SeedsOk(seeds: seq<string>) { forall n :: n in seeds ==> ':' !in n }

  /** One build: plan, build, merge or replace, and write unless sorting raises. */
  method Build<Entry(!new)>(seeds: seq<string>, build: Builder<Entry>, f: Filter, stored: Stored<Entry>)
    returns (r: Stored<Entry>, raised: bool)
    requires SeedsOk(seeds)
    ensures raised <==> Unwritable(seeds, f, stored)
    ensures After(seeds, build, f, stored, r)
  {
    var plan := Plan(seeds, f);
    if plan == [] {
      forall s
        ensures !Plans(seeds, f, s)
      {
        assert s !in plan;
      }
      return stored, false;
    }
    assert Plans(seeds, f, plan[0]);
    var base := if Targeted(f) && stored.Some? then stored.value else map[];
    var m := base;
    for i := 0 to |plan|
      invariant m == Merged(base, plan[..i], build, TaskId)
    {
      assert plan[..i + 1][..i] == plan[..i];
      m := m[TaskId(plan[i]) := build(plan[i])];
    }
    assert plan[..|plan|] == plan;
    MergedIs(seeds, build, f, plan, base);
    MergedReadable(seeds, f, base, m);
    if exists id :: id in m && SortKey(id).None? { return stored, true; }
    return Some(m), false;
  }

  /** Built ids always have a key, so only preserved ones can lack it. */
  lemma MergedReadable<Entry>(seeds: seq<string>, f: Filter, base: map<string, Entry>, m: map<string, Entry>)
    requires forall id :: !PlansId(seeds, f, id) ==> (id in m <==> id in base)
    ensures Readable(m.Keys) <==> Readable(base.Keys)
  {
    forall id | SortKey(id).None?
      ensures id in m <==> id in base
    {
      assert !PlansId(seeds, f, id);
    }
  }

  /** The base with every built entry assigned under its name, in plan order. */
  ghost function Merged<Entry>(base: map<string, Entry>, plan: seq<Slot>, build: Builder<Entry>, name: Slot -> string): (m: map<string, Entry>) {
    if plan == [] then base
    else Merged(base, plan[..|plan| - 1], build, name)[name(plan[|plan| - 1]) := build(plan[|plan| - 1])]
  }

  lemma {:induction false} MergedAt<Entry>(base: map<string, Entry>, plan: seq<Slot>, build: Builder<Entry>, name: Slot -> string, key: string -> Option<Slot>, id: string)
    requires forall j :: 0 <= j < |plan| ==> (name(plan[j]) == id <==> key(id) == Some(plan[j]))
    ensures var m := Merged(base, plan, build, name);
            if key(id).Some? && key(id).value in plan then id in m && m[id] == build(key(id).value)
            else (id in m <==> id in base) && (id in base ==> m[id] == base[id])
  {
    if plan != [] {
      var n := |plan| - 1;
      MergedAt(base, plan[..n], build, name, key, id);
      assert plan == plan[..n] + [plan[n]];
    }
  }

  lemma NameIff(s: Slot, id: string)
    requires InMatrix(s) && ':' !in s.seed
    ensures TaskId(s) == id <==> SortKey(id) == Some(s)
  {
    TaskIdRoundTrip(s);
    if SortKey(id).Some? { KeyedId(id); }
  }

  lemma MergedIs<Entry(!new)>(seeds: seq<string>, build: Builder<Entry>, f: Filter, plan: seq<Slot>, base: map<string, Entry>)
    requires SeedsOk(seeds) && forall s :: s in plan <==> Plans(seeds, f, s)
    ensures var m := Merged(base, plan, build, TaskId);
            forall id ::
              if PlansId(seeds, f, id) then id in m && m[id] == build(SortKey(id).value)
              else (id in m <==> id in base) && (id in base ==> m[id] == base[id])
  {
    var m := Merged(base, plan, build, TaskId);
    assert forall j :: 0 <= j < |plan| ==> plan[j] in plan;
    forall id
      ensures if PlansId(seeds, f, id) then id in m && m[id] == build(SortKey(id).value)
              else (id in m <==> id in base) && (id in base ==> m[id] == base[id])
    {
      forall j | 0 <= j < |plan|
        ensures TaskId(plan[j]) == id <==> SortKey(id) == Some(plan[j])
      {
        NameIff(plan[j], id);
      }
      MergedAt(base, plan, build, TaskId, SortKey, id);
    }
  }

  // ---------- the laws ----------

  /** A targeted build leaves every entry outside its scope as it was. */
  lemma OutOfScopeKept<Entry(!new)>(seeds: seq<string>, build: Builder<Entry>, f: Filter, before: map<string, Entry>, after: Stored<Entry>, id: string)
    requires After(seeds, build, f, Some(before), after) && Targeted(f) && id in before && !PlansId(seeds, f, id)
    ensures after.Some? && id in after.value && after.value[id] == before[id]
  {
  }

  /** An unfiltered build leaves planned slots and nothing else. */
  lemma FullBuildPrunes<Entry(!new)>(seeds: seq<string>, build: Builder<Entry>, before: Stored<Entry>, after: Stored<Entry>, id: string)
    requires After(seeds, build, FULL, before, after) && PlansAny(seeds, FULL)
    ensures after.Some? && (id in after.value <==> PlansId(seeds, FULL, id))
  {
  }

  /** A run of builds: states[i + 1] is what filter i made of states[i]. */
  ghost predicate Runs<Entry(!new)>(seeds: seq<string>, build: Builder<Entry>, fs: seq<Filter>, states: seq<Stored<Entry>>) {
    |states| == |fs| + 1 && forall i :: 0 <= i < |fs| ==> After(seeds, build, fs[i], states[i], states[i + 1])
  }

  ghost predicate Covered(seeds: seq<string>, fs: seq<Filter>, id: string) {
    exists i :: 0 <= i < |fs| && PlansId(seeds, fs[i], id)
  }

  ghost predicate Has<Entry>(m: Stored<Entry>, id: string, e: Entry) { m.Some? && id in m.value && m.value[id] == e }
  ghost predicate Lacks<Entry>(m: Stored<Entry>, id: string) { m.None? || id !in m.value }

  /** A manifest with an id the key cannot read is stuck: no targeted build ever changes it. */
  lemma {:induction false} UnreadableIsStuck<Entry(!new)>(seeds: seq<string>, build: Builder<Entry>, fs: seq<Filter>, states: seq<Stored<Entry>>)
    requires Runs(seeds, build, fs, states) && forall i :: 0 <= i < |fs| ==> Targeted(fs[i])
    requires states[0].Some? && !Readable(states[0].value.Keys)
    ensures states[|fs|] == states[0]
  {
    if fs != [] {
      var n := |fs| - 1;
      RunsPrefix(seeds, build, fs, states);
      UnreadableIsStuck(seeds, build, fs[..n], states[..|fs|]);
      assert After(seeds, build, fs[n], states[n], states[n + 1]);
    }
  }

  lemma RunsPrefix<Entry(!new)>(seeds: seq<string>, build: Builder<Entry>, fs: seq<Filter>, states: seq<Stored<Entry>>)
    requires Runs(seeds, build, fs, states) && fs != []
    ensures Runs(seeds, build, fs[..|fs| - 1], states[..|fs|]) && states[..|fs|][|fs| - 1] == states[|fs| - 1]
  {
    assert forall i :: 0 <= i < |fs| - 1 ==> fs[..|fs| - 1][i] == fs[i];
    assert forall i :: 0 <= i < |fs| ==> states[..|fs|][i] == states[i];
  }

  /** What the key can read stays so. */
  lemma {:induction false} ReadableStays<Entry(!new)>(seeds: seq<string>, build: Builder<Entry>, fs: seq<Filter>, states: seq<Stored<Entry>>)
    requires Runs(seeds, build, fs, states) && StartsReadable(states[0])
    ensures StartsReadable(states[|fs|])
  {
    if fs != [] {
      RunsPrefix(seeds, build, fs, states);
      ReadableStays(seeds, build, fs[..|fs| - 1], states[..|fs|]);
      assert After(seeds, build, fs[|fs| - 1], states[|fs| - 1], states[|fs|]);
      StepReadable(seeds, build, fs[|fs| - 1], states[|fs| - 1], states[|fs|]);
    }
  }

  lemma StepReadable<Entry(!new)>(seeds: seq<string>, build: Builder<Entry>, f: Filter, before: Stored<Entry>, after: Stored<Entry>)
    requires After(seeds, build, f, before, after) && StartsReadable(before)
    ensures StartsReadable(after)
  {
  }

  ghost predicate StartsReadable<Entry>(m: Stored<Entry>) { m.Some? ==> Readable(m.value.Keys) }

  /** After targeted builds in any order, an id that some build covered has its built entry and any other is as at the start. */
  lemma {:induction false} RunResult<Entry(!new)>(seeds: seq<string>, build: Builder<Entry>, fs: seq<Filter>, states: seq<Stored<Entry>>, id: string)
    requires Runs(seeds, build, fs, states) && (forall i :: 0 <= i < |fs| ==> Targeted(fs[i])) && StartsReadable(states[0])
    ensures var first, last := states[0], states[|fs|];
            if Covered(seeds, fs, id) then Has(last, id, build(SortKey(id).value))
            else if first.Some? && id in first.value then Has(last, id, first.value[id])
            else Lacks(last, id)
  {
    if fs != [] {
      var n := |fs| - 1;
      RunsPrefix(seeds, build, fs, states);
      RunResult(seeds, build, fs[..n], states[..|fs|], id);
      ReadableStays(seeds, build, fs[..n], states[..|fs|]);
      assert After(seeds, build, fs[n], states[n], states[n + 1]);
      CoveredSnoc(seeds, fs, id);
      if PlansId(seeds, fs[n], id) {
        assert Plans(seeds, fs[n], SortKey(id).value);
      }
    }
  }

  lemma CoveredSnoc(seeds: seq<string>, fs: seq<Filter>, id: string)
    requires fs != []
    ensures Covered(seeds, fs, id) <==> Covered(seeds, fs[..|fs| - 1], id) || PlansId(seeds, fs[|fs| - 1], id)
  {
    var n := |fs| - 1;
    assert forall i :: 0 <= i < n ==> fs[..n][i] == fs[i];
  }

  /**
   Targeted builds that cover the matrix end, in whatever order they ran, at the
   manifest of a full build, provided they started from entries of the matrix.
   */
  lemma ManifestConfluence<Entry(!new)>(seeds: seq<string>, build: Builder<Entry>, fs: seq<Filter>, states: seq<Stored<Entry>>,
                                        before: Stored<Entry>, full: Stored<Entry>)
    requires Runs(seeds, build, fs, states) && (forall i :: 0 <= i < |fs| ==> Targeted(fs[i]))
    requires forall id :: PlansId(seeds, FULL, id) ==> Covered(seeds, fs, id)
    requires states[0].Some? ==> forall id :: id in states[0].value ==> PlansId(seeds, FULL, id)
    requires After(seeds, build, FULL, before, full) && PlansAny(seeds, FULL) && SeedsOk(seeds)
    ensures states[|fs|] == full
  {
    var last := states[|fs|];
    var s :| Plans(seeds, FULL, s);
    TaskIdRoundTrip(s);
    assert PlansId(seeds, FULL, TaskId(s));
    RunResult(seeds, build, fs, states, TaskId(s));
    forall id
      ensures if PlansId(seeds, FULL, id) then Has(last, id, build(SortKey(id).value)) else Lacks(last, id)
    {
      RunResult(seeds, build, fs, states, id);
      CoveredIsFull(seeds, fs, id);
    }
    SameManifest(seeds, build, before, last, full);
  }

  /** A full build is the one manifest that has what is planned and nothing else. */
  lemma SameManifest<Entry(!new)>(seeds: seq<string>, build: Builder<Entry>, before: Stored<Entry>, last: Stored<Entry>, full: Stored<Entry>)
    requires After(seeds, build, FULL, before, full) && PlansAny(seeds, FULL) && last.Some?
    requires forall id :: if PlansId(seeds, FULL, id) then Has(last, id, build(SortKey(id).value)) else Lacks(last, id)
    ensures last == full
  {
    forall id
      ensures id in last.value <==> id in full.value
      ensures id in full.value ==> last.value[id] == full.value[id]
    {
      assert if PlansId(seeds, FULL, id) then Has(last, id, build(SortKey(id).value)) else Lacks(last, id);
    }
    assert last.value == full.value;
  }

  lemma CoveredIsFull(seeds: seq<string>, fs: seq<Filter>, id: string)
    ensures Covered(seeds, fs, id) ==> PlansId(seeds, FULL, id)
  {
  }

  // ---------- the file ----------

  /** The file: every entry once, in strictly increasing order of its key. */
  ghost predicate Written<Entry>(m: map<string, Entry>, order: seq<string>, file: seq<Entry>) {
    && Lists(order, m.Keys, KeyOf)
    && |file| == |order| && forall i :: 0 <= i < |order| ==> order[i] in m && file[i] == m[order[i]]
  }

  method WriteManifest<Entry>(m: map<string, Entry>) returns (order: seq<string>, file: seq<Entry>)
    requires Readable(m.Keys)
    ensures Written(m, order, file)
  {
    ReadableIsKeyed(m.Keys);
    order := Sorted(m.Keys, KeyOf);
    assert forall i :: 0 <= i < |order| ==> order[i] in order;
    file := seq(|order|, i requires 0 <= i < |order| => m[order[i]]);
  }

  /** One manifest, one file. */
  lemma FileUnique<Entry>(m: map<string, Entry>, a: seq<string>, b: seq<string>, x: seq<Entry>, y: seq<Entry>)
    requires Written(m, a, x) && Written(m, b, y)
    ensures a == b && x == y
  {
    ListingUnique(a, b, m.Keys, KeyOf);
  }

  /**
   Targeted builds that cover the matrix write, in whatever order they ran, the
   very file a full build writes: the same entries in the same order.
   */
  lemma ConfluentFiles<Entry(!new)>(seeds: seq<string>, build: Builder<Entry>, fs: seq<Filter>, states: seq<Stored<Entry>>,
                                    before: Stored<Entry>, full: Stored<Entry>,
                                    order: seq<string>, file: seq<Entry>, fullOrder: seq<string>, fullFile: seq<Entry>)
    requires Runs(seeds, build, fs, states) && (forall i :: 0 <= i < |fs| ==> Targeted(fs[i]))
    requires forall id :: PlansId(seeds, FULL, id) ==> Covered(seeds, fs, id)
    requires states[0].Some? ==> forall id :: id in states[0].value ==> PlansId(seeds, FULL, id)
    requires After(seeds, build, FULL, before, full) && PlansAny(seeds, FULL) && SeedsOk(seeds)
    requires states[|fs|].Some? ==> Written(states[|fs|].value, order, file)
    requires full.Some? ==> Written(full.value, fullOrder, fullFile)
    ensures full.Some? && Readable(full.value.Keys)
    ensures order == fullOrder && file == fullFile
  {
    ManifestConfluence(seeds, build, fs, states, before, full);
    FileUnique(full.value, order, fullOrder, file, fullFile);
  }
}
