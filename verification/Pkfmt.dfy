/**
 pkfmt, the packed-record seed: a bounded tag/length/value parser with a global
 error number and 32-bit wrapping accumulators, and the generator that feeds it.
 */
module Pkfmt {
  import opened Prelude

  const MAGIC_LO: byte := 0xB1
  const MAGIC_HI: byte := 0x5A
  const MIN_VER := 2
  const MAX_VER := 4
  const MAX_PACKET := 4096
  const MAX_LEN := 1024
  const TAG_SUM := 0x20
  const TAG_XOR := 0x30

  type word = x: int | 0 <= x < 0x1_0000_0000
  type int32 = x: int | -0x8000_0000 <= x < 0x8000_0000

  // ---------- the format ----------

  datatype Record = Record(tag: byte, payload: seq<byte>)

  ghost predicate Fits(rs: seq<Record>) {
    forall i :: 0 <= i < |rs| ==> |rs[i].payload| <= MAX_LEN
  }

  /** A record on the wire: tag, 16-bit little-endian length, payload. */
  function Encode(r: Record): (b: seq<byte>)
    requires |r.payload| <= MAX_LEN
  {
    [r.tag, |r.payload| % 256, |r.payload| / 256] + r.payload
  }

  function EncodeAll(rs: seq<Record>): (b: seq<byte>)
    requires Fits(rs)
  {
    if rs == [] then [] else Encode(rs[0]) + EncodeAll(rs[1..])
  }

  /** The length field; the two bytes share no bits, so or-ing them is adding them. */
  function Length(lo: byte, hi: byte): (n: nat) { lo + 256 * hi }

  lemma LengthBytes(lo: byte, hi: byte)
    ensures Length(lo, hi) % 256 == lo && Length(lo, hi) / 256 == hi
  {
  }

  /** Exactly `count` records and nothing after them. */
  function Parse(b: seq<byte>, count: nat): (r: Option<seq<Record>>)
    decreases count
  {
    if count == 0 then if b == [] then Some([]) else None
    else if |b| < 3 then None
    else
      var len := Length(b[1], b[2]);
      if len > MAX_LEN || len > |b| - 3 then None
      else
        Prepend(Record(b[0], b[3..3 + len]), Parse(b[3 + len..], count - 1))
  }

  function Prepend(r: Record, rest: Option<seq<Record>>): (rs: Option<seq<Record>>) {
    match rest case None => None case Some(more) => Some([r] + more)
  }

  lemma {:induction false} ParseEncoded(rs: seq<Record>)
    requires Fits(rs)
    ensures Parse(EncodeAll(rs), |rs|) == Some(rs)
  {
    if rs != [] {
      ParseEncoded(rs[1..]);
      ParseHead(rs[0], EncodeAll(rs[1..]), |rs|);
      assert rs == [rs[0]] + rs[1..];
    }
  }

  /** One record on the wire is read off the front of whatever follows it. */
  lemma ParseHead(r: Record, rest: seq<byte>, count: nat)
    requires |r.payload| <= MAX_LEN && 0 < count
    ensures Parse(Encode(r) + rest, count) == Prepend(r, Parse(rest, count - 1))
  {
    var b, n := Encode(r) + rest, |r.payload|;
    assert b[0] == r.tag && b[1] == n % 256 && b[2] == n / 256;
    assert b[3 + n..] == rest && b[3..3 + n] == r.payload;
  }

  /** The bytes start with the record `r`. */
  ghost predicate Fronts(b: seq<byte>, r: Record) {
    && 3 + |r.payload| <= |b| && |r.payload| <= MAX_LEN && Length(b[1], b[2]) == |r.payload|
    && r == Record(b[0], b[3..3 + |r.payload|])
  }

  lemma ParseFront(b: seq<byte>, r: Record, left: int)
    requires 0 < left && Fronts(b, r)
    ensures Parse(b, left) == Prepend(r, Parse(b[3 + |r.payload|..], left - 1))
  {
  }

  lemma EncodesPrefix(b: seq<byte>, r: Record)
    requires Fronts(b, r)
    ensures Encode(r) == b[..3 + |r.payload|]
  {
    LengthBytes(b[1], b[2]);
  }

  lemma EncodeCons(r: Record, rest: seq<Record>)
    requires |r.payload| <= MAX_LEN && Fits(rest)
    ensures Fits([r] + rest) && EncodeAll([r] + rest) == Encode(r) + EncodeAll(rest)
  {
    assert ([r] + rest)[1..] == rest;
  }

  lemma ParsedFront(b: seq<byte>, count: nat) returns (r: Record)
    requires 0 < count && Parse(b, count).Some?
    ensures Fronts(b, r) && Parse(b[3 + |r.payload|..], count - 1).Some?
    ensures Parse(b, count).value == [r] + Parse(b[3 + |r.payload|..], count - 1).value
  {
    var len := Length(b[1], b[2]);
    r := Record(b[0], b[3..3 + len]);
  }

  lemma {:induction false} ParsedEncodes(b: seq<byte>, count: nat)
    requires Parse(b, count).Some?
    ensures var rs := Parse(b, count).value; |rs| == count && Fits(rs) && EncodeAll(rs) == b
    decreases count
  {
    if count != 0 {
      var r := ParsedFront(b, count);
      var rest := b[3 + |r.payload|..];
      ParsedEncodes(rest, count - 1);
      EncodesPrefix(b, r);
      EncodeCons(r, Parse(rest, count - 1).value);
      assert b == b[..3 + |r.payload|] + rest;
    }
  }

  /** The parser accepts exactly the encodings, and returns the very records encoded. */
  lemma ParserIsExact(b: seq<byte>, count: nat, rs: seq<Record>)
    ensures Parse(b, count) == Some(rs) <==> |rs| == count && Fits(rs) && EncodeAll(rs) == b
  {
    if Parse(b, count).Some? {
      ParsedEncodes(b, count);
    }
    if |rs| == count && Fits(rs) && EncodeAll(rs) == b {
      ParseEncoded(rs);
    }
  }

  // ---------- the accumulators ----------

  /** One step of the fold, on unsigned 32-bit arithmetic that wraps around. */
  function Mix(acc: word, b: byte, len: nat): (r: word) {
    (Xor(acc, b) + len) % 0x1_0000_0000
  }

  function FoldBytes(acc: word, p: seq<byte>, len: nat): (r: word)
  {
    if p == [] then acc else Mix(FoldBytes(acc, p[..|p| - 1], len), p[|p| - 1], len)
  }

  /** One record: its payload is folded in when its tag is the requested one. */
  function Folding(acc: word, r: Record, tag: int): (w: word) {
    if r.tag == tag then FoldBytes(acc, r.payload, |r.payload|) else acc
  }

  /** The payloads of the requested tag, folded in order; other tags are skipped. */
  function FoldRecords(acc: word, rs: seq<Record>, tag: int): (r: word)
    requires Fits(rs)
  {
    if rs == [] then acc
    else
      Folding(FoldRecords(acc, rs[..|rs| - 1], tag), rs[|rs| - 1], tag)
  }

  function Initial(tag: int): (r: word) { if tag == TAG_SUM then 0 else 0xA0A0A0A0 }

  predicate KnownTag(tag: int) { tag == TAG_SUM || tag == TAG_XOR }

  predicate SizeOk(n: int) { 4 <= n <= MAX_PACKET }

  /** (result, errno) of an extraction. */
  function Extraction(buf: seq<byte>, n: int, tag: int): (r: (word, int))
    requires SizeOk(n) ==> |buf| == n
  {
    if !KnownTag(tag) then (0, 4)
    else if !SizeOk(n) then (0, 1)
    else if Parse(buf[4..], buf[3]).None? then (0, 2)
    else
      ParsedEncodes(buf[4..], buf[3]);
      (FoldRecords(Initial(tag), Parse(buf[4..], buf[3]).value, tag), 0)
  }

  function FnvStep(h: word, b: byte): (r: word) { (Xor(h, b) * 16777619) % 0x1_0000_0000 }

  function Fnv(b: seq<byte>): (r: word) {
    if b == [] then 2166136261 else FnvStep(Fnv(b[..|b| - 1]), b[|b| - 1])
  }

  // ---------- the program ----------

  function VersionOk(v: int32): (r: int32)
    ensures r != 0 <==> MIN_VER <= v <= MAX_VER
    ensures r != 0 ==> r == 16 * v
  {
    if v < MIN_VER then 0 else if v > MAX_VER then 0 else v * 16
  }

  datatype Report =
    | BadMagic
    | BadVersion
    | Truncate
    | Summary(version: int, sum: word, xorLit: nat, fnv: word)

  /** What the program reports on an input, in its decision order. */
  function Reported(input: seq<byte>): (r: Report) {
    var buf := if |input| > MAX_PACKET + 1 then input[..MAX_PACKET + 1] else input;
    var n := |buf|;
    if n < 4 || buf[0] != MAGIC_LO || buf[1] != MAGIC_HI then BadMagic
    else if VersionOk(buf[2]) == 0 then BadVersion
    else if n > MAX_PACKET then Truncate
    else
      var a, b := Extraction(buf, n, TAG_SUM), Extraction(buf, n, TAG_XOR);
      if a.1 != 0 || b.1 != 0 then Truncate
      else Summary(VersionOk(buf[2]), a.0, Xor(b.0, 0xA0A0A0A0), Fnv(buf[4..]))
  }

  /** Records parsed so far, in front of what the rest parses to. */
  ghost predicate Resumes(goal: Option<seq<Record>>, done: seq<Record>, rest: Option<seq<Record>>) {
    goal == match rest case None => None case Some(rs) => Some(done + rs)
  }

  class Runner {
    /** The program's global error number. */
    var errno: int

    constructor ()
      ensures errno == 0
    {
      errno := 0;
    }

    /** pk_extract. `buf` is exactly the readable bytes, so no index at or past `n` is ever read. */
    method Extract(buf: seq<byte>, n: int32, tag: int32) returns (acc: word)
      requires SizeOk(n) ==> |buf| == n
      modifies this
      ensures (acc, errno) == Extraction(buf, n, tag)
    {
      errno := 0;
      if tag == TAG_SUM { acc := 0; }
      else if tag == TAG_XOR { acc := 0xA0A0A0A0; }
      else { errno := 4; return 0; }
      if n < 4 || n > MAX_PACKET { errno := 1; return 0; }
      var ok, folded := FoldBuffer(buf, n, tag, acc);
      if !ok { errno := 2; return 0; }
      acc := folded;
    }

    /** pk_checksum. */
    method Checksum(buf: seq<byte>, n: int32) returns (h: word)
      requires SizeOk(n) ==> |buf| == n
      modifies this
      ensures if SizeOk(n) then errno == 0 && h == Fnv(buf[4..]) else errno == 1 && h == 0
    {
      errno := 0;
      if n < 4 || n > MAX_PACKET { errno := 1; return 0; }
      h := 2166136261;
      for i := 4 to n
        invariant errno == 0 && h == Fnv(buf[4..i])
      {
        assert buf[4..i + 1][..i - 4] == buf[4..i];
        h := FnvStep(h, buf[i]);
      }
      assert buf[4..n] == buf[4..];
    }

    /** The decision order of the program's entry point. */
    method Decide(input: seq<byte>) returns (r: Report)
      modifies this
      ensures r == Reported(input)
    {
      var buf := if |input| > MAX_PACKET + 1 then input[..MAX_PACKET + 1] else input;
      var n := |buf|;
      if n < 4 || buf[0] != MAGIC_LO || buf[1] != MAGIC_HI { return BadMagic; }
      var ok := VersionOk(buf[2]);
      if ok == 0 { return BadVersion; }
      if n > MAX_PACKET { return Truncate; }
      var a := Extract(buf, n, TAG_SUM);
      var e1 := errno;
      var b := Extract(buf, n, TAG_XOR);
      var e2 := errno;
      if e1 != 0 || e2 != 0 { return Truncate; }
      var fnv := Checksum(buf, n);
      return Summary(ok, a, Xor(b, 0xA0A0A0A0), fnv);
    }
  }

  /** The parse from `off` on continues `done`, whose fold is `acc`. */
  ghost predicate Progress(buf: seq<byte>, off: int, left: int, tag: int, done: seq<Record>, acc: word, goal: Option<seq<Record>>)
    requires 0 <= off <= |buf| && 0 <= left
  {
    && Fits(done) && acc == FoldRecords(Initial(tag), done, tag)
    && Resumes(goal, done, Parse(buf[off..], left))
  }

  /** No whole record starts at `off`. */
  ghost predicate Stuck(buf: seq<byte>, off: int)
    requires 0 <= off <= |buf|
  {
    || |buf| - off < 3
    || Length(buf[off + 1], buf[off + 2]) > MAX_LEN
    || Length(buf[off + 1], buf[off + 2]) > |buf| - off - 3
  }

  lemma ProgressStuck(buf: seq<byte>, off: int, left: int, tag: int, done: seq<Record>, acc: word, goal: Option<seq<Record>>)
    requires 0 <= off <= |buf| && 0 < left && Progress(buf, off, left, tag, done, acc, goal) && Stuck(buf, off)
    ensures goal.None?
  {
    assert Parse(buf[off..], left).None?;
  }

  /** The record that starts at `off`. */
  ghost function RecordAt(buf: seq<byte>, off: int): (r: Record)
    requires 0 <= off <= |buf| && !Stuck(buf, off)
    ensures |r.payload| == Length(buf[off + 1], buf[off + 2]) <= MAX_LEN
  {
    Record(buf[off], buf[off + 3..off + 3 + Length(buf[off + 1], buf[off + 2])])
  }

  lemma ParseAt(buf: seq<byte>, off: int, left: int)
    requires 0 <= off <= |buf| && 0 < left && !Stuck(buf, off)
    ensures var r := RecordAt(buf, off);
            Parse(buf[off..], left) == Prepend(r, Parse(buf[off + 3 + |r.payload|..], left - 1))
  {
    Reslice(buf, off);
    ParseFront(buf[off..], RecordAt(buf, off), left);
  }

  /** The record at `off`, seen from the bytes that start there. */
  lemma Reslice(buf: seq<byte>, off: int)
    requires 0 <= off <= |buf| && !Stuck(buf, off)
    ensures var b, r := buf[off..], RecordAt(buf, off);
            Fronts(b, r) && b[3 + |r.payload|..] == buf[off + 3 + |r.payload|..]
  {
    var b, len := buf[off..], Length(buf[off + 1], buf[off + 2]);
    assert b[0] == buf[off] && b[1] == buf[off + 1] && b[2] == buf[off + 2];
    assert b[3..3 + len] == buf[off + 3..off + 3 + len];
    DropDrop(buf, off, 3 + len);
  }

  lemma FoldSnoc(acc: word, done: seq<Record>, r: Record, tag: int)
    requires Fits(done) && |r.payload| <= MAX_LEN
    ensures Fits(done + [r])
    ensures FoldRecords(acc, done + [r], tag) == Folding(FoldRecords(acc, done, tag), r, tag)
  {
    assert (done + [r])[..|done|] == done;
  }

  lemma ProgressNext(buf: seq<byte>, off: int, left: int, tag: int, done: seq<Record>, acc: word, goal: Option<seq<Record>>, acc': word)
    requires 0 <= off <= |buf| && 0 < left && Progress(buf, off, left, tag, done, acc, goal) && !Stuck(buf, off)
    requires acc' == Folding(acc, RecordAt(buf, off), tag)
    ensures var r := RecordAt(buf, off);
            Progress(buf, off + 3 + |r.payload|, left - 1, tag, done + [r], acc', goal)
  {
    var r := RecordAt(buf, off);
    ParseAt(buf, off, left);
    ResumesNext(goal, done, r, Parse(buf[off + 3 + |r.payload|..], left - 1));
    FoldSnoc(Initial(tag), done, r, tag);
  }

  /** `ok` says whether the records parsed, and then `acc` is their fold. */
  ghost predicate Folded(parsed: Option<seq<Record>>, tag: int, ok: bool, acc: word) {
    && (ok <==> parsed.Some?)
    && (ok ==> Fits(parsed.value) && acc == FoldRecords(Initial(tag), parsed.value, tag))
  }

  lemma ProgressEnd(buf: seq<byte>, off: int, tag: int, done: seq<Record>, acc: word, goal: Option<seq<Record>>)
    requires 0 <= off <= |buf| && Progress(buf, off, 0, tag, done, acc, goal)
    ensures Folded(goal, tag, off == |buf|, acc)
  {
    assert done + [] == done;
  }

  lemma ResumesStart(goal: Option<seq<Record>>)
    ensures Resumes(goal, [], goal)
  {
    if goal.Some? {
      assert [] + goal.value == goal.value;
    }
  }

  lemma ResumesNext(goal: Option<seq<Record>>, done: seq<Record>, r: Record, rest: Option<seq<Record>>)
    requires Resumes(goal, done, Prepend(r, rest))
    ensures Resumes(goal, done + [r], rest)
  {
    if rest.Some? {
      assert done + ([r] + rest.value) == (done + [r]) + rest.value;
    }
  }

  /** The record loop of pk_extract: not ok is its errno 2. Every index and offset stays in [0, n]. */
  method FoldBuffer(buf: seq<byte>, n: int32, tag: int32, initial: word) returns (ok: bool, acc: word)
    requires SizeOk(n) && |buf| == n && initial == Initial(tag)
    ensures Folded(Parse(buf[4..], buf[3]), tag, ok, acc)
  {
    acc := initial;
    var off: int32 := 4;
    var count: nat := buf[3];
    ghost var goal := Parse(buf[4..], count);
    ghost var done: seq<Record> := [];
    ResumesStart(goal);
    for record := 0 to count
      invariant 4 <= off <= n
      invariant Progress(buf, off, count - record, tag, done, acc, goal)
    {
      var whole, next, folded := FoldRecord(buf, n, tag, off, acc);
      if !whole {
        ProgressStuck(buf, off, count - record, tag, done, acc, goal);
        return false, 0;
      }
      ProgressNext(buf, off, count - record, tag, done, acc, goal, folded);
      done := done + [RecordAt(buf, off)];
      off, acc := next, folded;
    }
    ProgressEnd(buf, off, tag, done, acc, goal);
    ok := off == n;
  }

  /** One turn of the record loop: the bounds tests, the payload of a matching tag, and the next offset. */
  method FoldRecord(buf: seq<byte>, n: int32, tag: int32, start: int32, before: word) returns (whole: bool, off: int32, acc: word)
    requires |buf| == n <= MAX_PACKET && 0 <= start <= n
    ensures whole <==> !Stuck(buf, start)
    ensures whole ==> off == start + 3 + |RecordAt(buf, start).payload| <= n
    ensures whole ==> acc == Folding(before, RecordAt(buf, start), tag)
  {
    off, acc := start, before;
    if n - off < 3 { return false, 0, 0; }
    var t, len := buf[off], Length(buf[off + 1], buf[off + 2]);
    off := off + 3;
    if len > MAX_LEN || len > n - off { return false, 0, 0; }
    if t == tag {
      acc := FoldPayload(acc, buf, off, len);
    }
    off := off + len;
    whole := true;
  }

  method FoldPayload(acc0: word, buf: seq<byte>, off: nat, len: nat) returns (acc: word)
    requires off + len <= |buf| && len <= MAX_LEN
    ensures acc == FoldBytes(acc0, buf[off..off + len], len)
  {
    acc := acc0;
    for i := 0 to len
      invariant acc == FoldBytes(acc0, buf[off..off + i], len)
    {
      assert buf[off..off + i + 1][..i] == buf[off..off + i];
      acc := Mix(acc, buf[off + i], len);
    }
  }

  // ---------- what extraction means ----------

  /** The bytes are a header and exactly the announced records. */
  ghost predicate Packs(buf: seq<byte>, rs: seq<Record>) {
    4 <= |buf| <= MAX_PACKET && |rs| == buf[3] && Fits(rs) && buf[4..] == EncodeAll(rs)
  }

  /** Extraction succeeds exactly on packed record lists, and then folds those very records. */
  lemma ExtractIsExact(buf: seq<byte>, tag: int)
    requires KnownTag(tag)
    ensures Extraction(buf, |buf|, tag).1 == 0 <==> exists rs :: Packs(buf, rs)
    ensures forall rs :: Packs(buf, rs) ==> Extraction(buf, |buf|, tag) == (FoldRecords(Initial(tag), rs, tag), 0)
  {
    if SizeOk(|buf|) {
      if Parse(buf[4..], buf[3]).Some? {
        ParsedEncodes(buf[4..], buf[3]);
        assert Packs(buf, Parse(buf[4..], buf[3]).value);
      }
      forall rs | Packs(buf, rs)
        ensures Extraction(buf, |buf|, tag) == (FoldRecords(Initial(tag), rs, tag), 0)
      {
        ParserIsExact(buf[4..], buf[3], rs);
      }
    }
  }

  /** Encoding a record list behind any header and extracting recovers its fold. */
  lemma ExtractRoundTrip(m0: byte, m1: byte, version: byte, rs: seq<Record>, tag: int)
    requires KnownTag(tag) && Fits(rs) && |rs| < 256 && 4 + |EncodeAll(rs)| <= MAX_PACKET
    ensures var buf := [m0, m1, version, |rs|] + EncodeAll(rs);
            Extraction(buf, |buf|, tag) == (FoldRecords(Initial(tag), rs, tag), 0)
  {
    var buf := [m0, m1, version, |rs|] + EncodeAll(rs);
    assert buf[4..] == EncodeAll(rs);
    assert Packs(buf, rs);
    ExtractIsExact(buf, tag);
  }

  /** Both extractions of the program set the same error number on every buffer and size. */
  lemma SameErrno(buf: seq<byte>, n: int)
    requires SizeOk(n) ==> |buf| == n
    ensures Extraction(buf, n, TAG_SUM).1 == Extraction(buf, n, TAG_XOR).1
  {
  }

  /** The program succeeds exactly on well-formed packets of a supported version. */
  lemma ReportIff(input: seq<byte>)
    ensures Reported(input).Summary? <==>
              && |input| >= 4 && input[0] == MAGIC_LO && input[1] == MAGIC_HI
              && MIN_VER <= input[2] <= MAX_VER
              && exists rs :: Packs(input, rs)
    ensures forall rs :: Packs(input, rs) && Reported(input).Summary? ==>
              Reported(input) == Summary(16 * input[2], FoldRecords(0, rs, TAG_SUM),
                                         Xor(FoldRecords(0xA0A0A0A0, rs, TAG_XOR), 0xA0A0A0A0), Fnv(input[4..]))
  {
    if |input| <= MAX_PACKET {
      ExtractIsExact(input, TAG_SUM);
      ExtractIsExact(input, TAG_XOR);
      SameErrno(input, |input|);
    }
  }

  // ---------- the generator ----------

  /** One generated record: a short payload and how much the declared length overclaims it. */
  datatype Draw = Draw(tag: byte, payload: seq<byte>, over: nat)

  /** Every random choice behind one packet. */
  datatype Choices = Choices(magicBad: bool, version: byte, draws: seq<Draw>)

  ghost predicate Drawn(c: Choices) {
    && (c.version == 2 || c.version == 3 || c.version == 4 || c.version == 5)
    && |c.draws| <= 2
    && forall i :: 0 <= i < |c.draws| ==>
         && |c.draws[i].payload| <= 6 && KnownTag(c.draws[i].tag)
         && (c.draws[i].over == 0 || (i == |c.draws| - 1 && 8 <= c.draws[i].over <= 32))
  }

  function DrawBytes(d: Draw): (b: seq<byte>) {
    var declared := |d.payload| + d.over;
    [d.tag, declared % 256, declared / 256 % 256] + d.payload
  }

  function DrawsBytes(ds: seq<Draw>): (b: seq<byte>) {
    if ds == [] then [] else DrawsBytes(ds[..|ds| - 1]) + DrawBytes(ds[|ds| - 1])
  }

  /** The packet the choices stand for. */
  function Packet(c: Choices): (b: seq<byte>)
    requires |c.draws| < 256
  {
    [if c.magicBad then FlipByte(MAGIC_LO) else MAGIC_LO, MAGIC_HI, c.version, |c.draws|] + DrawsBytes(c.draws)
  }

  function FlipByte(b: byte): (r: byte)
    ensures r != b
  {
    EightOnes();
    XorOnes(b, 8);
    Xor(b, 0xFF)
  }

  function Ones(k: nat): (r: nat) { if k == 0 then 0 else 2 * Ones(k - 1) + 1 }

  lemma XorDoubled(b: nat, m: nat)
    ensures Xor(b, 2 * m + 1) == 1 - b % 2 + 2 * Xor(b / 2, m)
  {
    assert (2 * m + 1) / 2 == m;
    assert (b + (2 * m + 1)) % 2 == 1 - b % 2;
  }

  /** Exclusive or with all ones flips every bit. */
  lemma {:induction false} XorOnes(b: nat, k: nat)
    requires b <= Ones(k)
    ensures Xor(b, Ones(k)) == Ones(k) - b
  {
    if k != 0 {
      XorOnes(b / 2, k - 1);
      XorDoubled(b, Ones(k - 1));
    }
  }

  lemma EightOnes()
    ensures Ones(8) == 0xFF
  {
    assert Ones(2) == 3 && Ones(4) == 15 && Ones(6) == 63;
  }

  lemma DrawsSnoc(ds: seq<Draw>, index: nat)
    requires index < |ds|
    ensures DrawsBytes(ds[..index + 1]) == DrawsBytes(ds[..index]) + DrawBytes(ds[index])
  {
    assert ds[..index + 1][..index] == ds[..index];
  }

  /** Appending a record's three bytes and payload appends the record. */
  lemma AppendDraw(head: seq<byte>, before: seq<byte>, d: Draw, declared: nat)
    requires declared == |d.payload| + d.over
    ensures head + before + [d.tag, declared % 256, declared / 256 % 256] + d.payload == head + (before + DrawBytes(d))
  {
  }

  method GrammarPacket(c: Choices) returns (pkt: seq<byte>)
    requires Drawn(c)
    ensures pkt == Packet(c)
  {
    pkt := [MAGIC_LO, MAGIC_HI, c.version, |c.draws|];
    ghost var head := pkt;
    for index := 0 to |c.draws|
      invariant pkt == head + DrawsBytes(c.draws[..index])
    {
      var d := c.draws[index];
      DrawsSnoc(c.draws, index);
      var declared := |d.payload|;
      if index == |c.draws| - 1 { declared := declared + d.over; }
      assert declared == |d.payload| + d.over;
      AppendDraw(head, DrawsBytes(c.draws[..index]), d, declared);
      pkt := pkt + [d.tag, declared % 256, declared / 256 % 256];
      pkt := pkt + d.payload;
    }
    assert c.draws[..|c.draws|] == c.draws;
    if c.magicBad {
      FlipHead(head, DrawsBytes(c.draws), FlipByte(pkt[0]));
      pkt := pkt[0 := FlipByte(pkt[0])];
    }
  }

  lemma FlipHead(head: seq<byte>, rest: seq<byte>, b: byte)
    requires |head| == 4
    ensures (head + rest)[0 := b] == [b, head[1], head[2], head[3]] + rest
  {
  }

  function DrawnRecords(ds: seq<Draw>): (rs: seq<Record>)
    ensures |rs| == |ds|
    ensures forall i :: 0 <= i < |ds| ==> rs[i] == Record(ds[i].tag, ds[i].payload)
  {
    if ds == [] then []
    else
      var last := ds[|ds| - 1];
      DrawnRecords(ds[..|ds| - 1]) + [Record(last.tag, last.payload)]
  }

  ghost predicate Overclaims(c: Choices) {
    c.draws != [] && c.draws[|c.draws| - 1].over > 0
  }

  lemma {:induction false} EncodeSnoc(rs: seq<Record>, r: Record)
    requires Fits(rs) && |r.payload| <= MAX_LEN
    ensures Fits(rs + [r]) && EncodeAll(rs + [r]) == EncodeAll(rs) + Encode(r)
  {
    if rs == [] {
      assert rs + [r] == [r] + [];
      EncodeCons(r, []);
    } else {
      var head, rest := rs[0], rs[1..];
      EncodeSnoc(rest, r);
      EncodeCons(head, rest + [r]);
      assert rs + [r] == [head] + (rest + [r]);
      calc {
        EncodeAll(rs + [r]);
        Encode(head) + (EncodeAll(rest) + Encode(r));
        (Encode(head) + EncodeAll(rest)) + Encode(r);
      }
    }
  }

  /** Draws that claim their own length are an encoding of their records. */
  lemma {:induction false} HonestDraws(ds: seq<Draw>)
    requires forall i :: 0 <= i < |ds| ==> ds[i].over == 0 && |ds[i].payload| <= MAX_LEN
    ensures Fits(DrawnRecords(ds)) && DrawsBytes(ds) == EncodeAll(DrawnRecords(ds))
  {
    if ds != [] {
      var n := |ds| - 1;
      var r := Record(ds[n].tag, ds[n].payload);
      HonestDraws(ds[..n]);
      EncodeSnoc(DrawnRecords(ds[..n]), r);
      assert DrawBytes(ds[n]) == Encode(r);
    }
  }

  /** A last record that claims more than is left never parses, whatever comes before it. */
  lemma {:induction false} OverclaimFails(rs: seq<Record>, last: seq<byte>)
    requires Fits(rs) && 3 <= |last| && Length(last[1], last[2]) > |last| - 3
    ensures Parse(EncodeAll(rs) + last, |rs| + 1).None?
  {
    var b := EncodeAll(rs) + last;
    if rs == [] {
      assert b == last;
    } else {
      OverclaimFails(rs[1..], last);
      assert b == Encode(rs[0]) + (EncodeAll(rs[1..]) + last);
      ParseHead(rs[0], EncodeAll(rs[1..]) + last, |rs| + 1);
    }
  }

  /** The records that end up in the packet. */
  ghost function Intended(c: Choices): (rs: seq<Record>) { DrawnRecords(c.draws) }

  /**
   Every generated packet gets the report its choices call for: bad magic iff
   the magic was flipped, else bad version iff the version is 5, else truncate
   iff the last record overclaims, else a summary of the generated records.
   */
  lemma GeneratorMeetsParser(c: Choices)
    requires Drawn(c)
    ensures Fits(Intended(c))
    ensures Reported(Packet(c)) ==
            if c.magicBad then BadMagic
            else if c.version == 5 then BadVersion
            else if Overclaims(c) then Truncate
            else Summary(16 * c.version, FoldRecords(0, Intended(c), TAG_SUM),
                         Xor(FoldRecords(0xA0A0A0A0, Intended(c), TAG_XOR), 0xA0A0A0A0), Fnv(DrawsBytes(c.draws)))
  {
    var pkt := Packet(c);
    assert pkt[4..] == DrawsBytes(c.draws);
    ShortDraws(c.draws);
    HonestFits(c);
    if c.magicBad || c.version == 5 {
    } else if Overclaims(c) {
      OverclaimedPacket(c);
      UnparsedTruncates(pkt);
    } else {
      HonestDraws(c.draws);
      assert Packs(pkt, Intended(c));
      ReportIff(pkt);
    }
  }

  lemma HonestFits(c: Choices)
    requires Drawn(c)
    ensures Fits(Intended(c))
  {
  }

  lemma UnparsedTruncates(pkt: seq<byte>)
    requires SizeOk(|pkt|) && pkt[0] == MAGIC_LO && pkt[1] == MAGIC_HI && MIN_VER <= pkt[2] <= MAX_VER
    requires Parse(pkt[4..], pkt[3]).None?
    ensures Reported(pkt) == Truncate
  {
  }

  lemma {:induction false} ShortDraws(ds: seq<Draw>)
    requires forall i :: 0 <= i < |ds| ==> |ds[i].payload| <= 6
    ensures |DrawsBytes(ds)| <= 9 * |ds|
  {
    if ds != [] {
      ShortDraws(ds[..|ds| - 1]);
    }
  }

  lemma OverclaimedPacket(c: Choices)
    requires Drawn(c) && Overclaims(c)
    ensures Parse(DrawsBytes(c.draws), |c.draws|).None?
  {
    var n := |c.draws| - 1;
    var last := c.draws[n];
    HonestDraws(c.draws[..n]);
    OverclaimFails(DrawnRecords(c.draws[..n]), DrawBytes(last));
  }
}
