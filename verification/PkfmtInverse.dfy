/**
 What the accumulators of pkfmt compute, said by undoing them: from the reported
 number and the bytes, walking backwards, one gets back exactly the value each
 accumulator started from.
 */
module PkfmtInverse {
  import opened Prelude
  import opened Pkfmt

  // ---------- arithmetic modulo 2^32 ----------

  lemma WrapUp(x: word, d: nat)
    ensures ((x + d) % 0x1_0000_0000 - d) % 0x1_0000_0000 == x
  {
    var q := (x + d) / 0x1_0000_0000;
    assert (x + d) % 0x1_0000_0000 - d == x - q * 0x1_0000_0000;
    Multiples(x, -q);
  }

  lemma Multiples(x: word, q: int)
    ensures (x + q * 0x1_0000_0000) % 0x1_0000_0000 == x
  {
  }

  /** Multiplying by the FNV prime and then by its inverse 899433627 is multiplying by one. */
  lemma PrimeInverse(x: word)
    ensures ((x * 16777619) % 0x1_0000_0000 * 899433627) % 0x1_0000_0000 == x
  {
    var u := x * 16777619;
    var q, r := u / 0x1_0000_0000, u % 0x1_0000_0000;
    assert r == u - q * 0x1_0000_0000;
    assert r * 899433627 == x + (x * 3513497 - q * 899433627) * 0x1_0000_0000 by {
      assert 16777619 * 899433627 == 1 + 3513497 * 0x1_0000_0000;
    }
    Multiples(x, x * 3513497 - q * 899433627);
  }

  lemma XorIsWord(a: word, b: byte)
    ensures Xor(a, b) < 0x1_0000_0000
  {
    Pow2Of32();
    XorFits(a, b, 32);
  }

  // ---------- one step back ----------

  /** Taking the length off and exclusive-oring the byte again gives the accumulator before the byte. */
  lemma MixInverse(acc: word, b: byte, len: nat)
    ensures Xor((Mix(acc, b, len) - len) % 0x1_0000_0000, b) == acc
  {
    XorIsWord(acc, b);
    WrapUp(Xor(acc, b), len);
    XorCancel(acc, b);
  }

  /** Multiplying by the inverse prime and exclusive-oring the byte again gives the hash before the byte. */
  lemma FnvInverse(h: word, b: byte)
    ensures Xor((FnvStep(h, b) * 899433627) % 0x1_0000_0000, b) == h
  {
    XorIsWord(h, b);
    PrimeInverse(Xor(h, b));
    XorCancel(h, b);
  }

  // ---------- all the way back ----------

  /** The accumulator before a payload, from the one after it. */
  function UnfoldBytes(w: int, p: seq<byte>, len: nat): (r: int)
    decreases |p|
  {
    if p == [] then w
    else UnfoldBytes(Xor((w - len) % 0x1_0000_0000, p[|p| - 1]), p[..|p| - 1], len)
  }

  lemma {:induction false} PayloadUnfolds(acc: word, p: seq<byte>, len: nat)
    ensures UnfoldBytes(FoldBytes(acc, p, len), p, len) == acc
  {
    if p != [] {
      MixInverse(FoldBytes(acc, p[..|p| - 1], len), p[|p| - 1], len);
      PayloadUnfolds(acc, p[..|p| - 1], len);
    }
  }

  /** The accumulator before the records, undoing the payloads of one tag and skipping the others. */
  function UnfoldRecords(w: int, rs: seq<Record>, tag: int): (r: int)
    decreases |rs|
  {
    if rs == [] then w
    else
      var last := rs[|rs| - 1];
      UnfoldRecords(if last.tag == tag then UnfoldBytes(w, last.payload, |last.payload|) else w, rs[..|rs| - 1], tag)
  }

  lemma {:induction false} RecordsUnfold(acc: word, rs: seq<Record>, tag: int)
    requires Fits(rs)
    ensures UnfoldRecords(FoldRecords(acc, rs, tag), rs, tag) == acc
  {
    if rs != [] {
      var before, last := FoldRecords(acc, rs[..|rs| - 1], tag), rs[|rs| - 1];
      PayloadUnfolds(before, last.payload, |last.payload|);
      RecordsUnfold(acc, rs[..|rs| - 1], tag);
    }
  }

  /** The hash before the bytes. */
  function Unhash(h: int, b: seq<byte>): (r: int)
    decreases |b|
  {
    if b == [] then h
    else Unhash(Xor((h * 899433627) % 0x1_0000_0000, b[|b| - 1]), b[..|b| - 1])
  }

  /** Every hash unwinds to the FNV-1a offset basis. */
  lemma {:induction false} HashUnwinds(b: seq<byte>)
    ensures Unhash(Fnv(b), b) == 2166136261
  {
    if b != [] {
      FnvInverse(Fnv(b[..|b| - 1]), b[|b| - 1]);
      HashUnwinds(b[..|b| - 1]);
    }
  }

  /**
   The three numbers of every summary, by where they unwind to: the sum to 0 over
   the payloads tagged 0x20, the literal exclusive or to itself over those tagged
   0x30, the hash to its basis over every byte after the header.
   */
  lemma SummaryUnwinds(input: seq<byte>, rs: seq<Record>)
    requires Packs(input, rs) && Reported(input).Summary?
    ensures var r := Reported(input);
            && r.version == 16 * input[2]
            && UnfoldRecords(r.sum, rs, 0x20) == 0
            && UnfoldRecords(Xor(r.xorLit, 0xA0A0A0A0), rs, 0x30) == 0xA0A0A0A0
            && Unhash(r.fnv, input[4..]) == 2166136261
  {
    ReportIff(input);
    RecordsUnfold(0, rs, 0x20);
    RecordsUnfold(0xA0A0A0A0, rs, 0x30);
    XorCancel(FoldRecords(0xA0A0A0A0, rs, 0x30), 0xA0A0A0A0);
    HashUnwinds(input[4..]);
  }

  // ---------- error numbers and reports, in plain numbers ----------

  /** A header of four bytes and exactly the announced records of at most 1024 bytes each, in at most 4096 bytes. */
  ghost predicate WellPacked(buf: seq<byte>) {
    && 4 <= |buf| <= 4096
    && exists rs: seq<Record> ::
         (forall i :: 0 <= i < |rs| ==> |rs[i].payload| <= 1024) && |rs| == buf[3] && buf[4..] == EncodeAll(rs)
  }

  lemma WellPackedIff(buf: seq<byte>)
    ensures WellPacked(buf) <==> exists rs :: Packs(buf, rs)
  {
    if WellPacked(buf) {
      var rs: seq<Record> :| (forall i :: 0 <= i < |rs| ==> |rs[i].payload| <= 1024) && |rs| == buf[3] && buf[4..] == EncodeAll(rs);
      assert Packs(buf, rs);
    }
    if rs :| Packs(buf, rs) {
      assert WellPacked(buf);
    }
  }

  /** The error number of an extraction, and a zero result whenever there is one. */
  lemma ErrnoIs(buf: seq<byte>, tag: int)
    ensures var r := Extraction(buf, |buf|, tag);
            && (r.1 == 4 <==> tag != 0x20 && tag != 0x30)
            && (r.1 == 1 <==> (tag == 0x20 || tag == 0x30) && !(4 <= |buf| <= 4096))
            && (r.1 == 2 <==> (tag == 0x20 || tag == 0x30) && 4 <= |buf| <= 4096 && !WellPacked(buf))
            && (r.1 == 0 <==> (tag == 0x20 || tag == 0x30) && WellPacked(buf))
            && (r.1 != 0 ==> r.0 == 0)
  {
    WellPackedIff(buf);
    if KnownTag(tag) {
      ExtractIsExact(buf, tag);
    }
  }

  /** Every report, and exactly the inputs that get it. */
  lemma ReportsAre(input: seq<byte>)
    ensures var magic := 4 <= |input| && input[0] == 0xB1 && input[1] == 0x5A;
            var version := magic && 2 <= input[2] <= 4;
            && (Reported(input) == BadMagic <==> !magic)
            && (Reported(input) == BadVersion <==> magic && !version)
            && (Reported(input) == Truncate <==> version && !WellPacked(input))
            && (Reported(input).Summary? <==> version && WellPacked(input))
  {
    WellPackedIff(input);
    ReportIff(input);
  }
}
