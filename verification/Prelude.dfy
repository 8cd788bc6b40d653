/**
 Shared vocabulary: JSON values as the host sees them after parsing, the
 first-sighting tables behind every ordinal, and decimal and hex text.
 */
module Prelude {

  datatype Option<+T> = None | Some(value: T)

  /** A parsed JSON value. Objects are maps: a later duplicate key has already won. */
  datatype Json =
    | JNull
    | JBool(b: bool)
    | JInt(i: int)
    | JReal(r: real)
    | JStr(s: string)
    | JArr(items: seq<Json>)
    | JObj(fields: map<string, Json>)

  type byte = x: int | 0 <= x < 256

  lemma DropDrop<T>(s: seq<T>, k: nat, n: nat)
    requires k + n <= |s|
    ensures s[k..][n..] == s[k + n..]
  {
  }

  // ---------- bits ----------

  /** Bitwise exclusive or, bit by bit. */
  function Xor(a: nat, b: nat): (r: nat)
    decreases a + b
  {
    if a == 0 && b == 0 then 0 else (a + b) % 2 + 2 * Xor(a / 2, b / 2)
  }

  /** Bit `k` of a number, the least significant first. */
  predicate Bit(n: nat, k: nat) { if k == 0 then n % 2 == 1 else Bit(n / 2, k - 1) }

  function Pow2(k: nat): (r: nat)
    ensures 0 < r
  {
    if k == 0 then 1 else 2 * Pow2(k - 1)
  }

  lemma XorHalves(a: nat, b: nat)
    ensures Xor(a, b) % 2 == (a + b) % 2 && Xor(a, b) / 2 == Xor(a / 2, b / 2)
  {
    if a != 0 || b != 0 {
      Halves((a + b) % 2, Xor(a / 2, b / 2));
    } else {
      assert Xor(0, 0) == 0;
    }
  }

  lemma Halves(r: nat, y: nat)
    requires r < 2
    ensures (r + 2 * y) % 2 == r && (r + 2 * y) / 2 == y
  {
  }

  /** A bit of an exclusive or is set exactly when it is set in one operand and not in the other. */
  lemma {:induction false} XorBits(a: nat, b: nat, k: nat)
    ensures Bit(Xor(a, b), k) <==> Bit(a, k) != Bit(b, k)
  {
    XorHalves(a, b);
    if k != 0 {
      XorBits(a / 2, b / 2, k - 1);
    }
  }

  /** Numbers with the same bits are the same number. */
  lemma {:induction false} BitsDecide(a: nat, b: nat)
    requires forall k: nat :: Bit(a, k) <==> Bit(b, k)
    ensures a == b
    decreases a + b
  {
    if a != 0 || b != 0 {
      assert Bit(a, 0) <==> Bit(b, 0);
      forall k: nat
        ensures Bit(a / 2, k) <==> Bit(b / 2, k)
      {
        assert Bit(a, k + 1) <==> Bit(b, k + 1);
      }
      BitsDecide(a / 2, b / 2);
    }
  }

  /** Applying the same exclusive or twice changes nothing. */
  lemma XorCancel(a: nat, b: nat)
    ensures Xor(Xor(a, b), b) == a
  {
    forall k: nat
      ensures Bit(Xor(Xor(a, b), b), k) <==> Bit(a, k)
    {
      XorBits(a, b, k);
      XorBits(Xor(a, b), b, k);
    }
    BitsDecide(Xor(Xor(a, b), b), a);
  }

  lemma {:induction false} XorFits(a: nat, b: nat, k: nat)
    requires a < Pow2(k) && b < Pow2(k)
    ensures Xor(a, b) < Pow2(k)
  {
    if k != 0 {
      XorHalves(a, b);
      XorFits(a / 2, b / 2, k - 1);
    }
  }

  lemma Pow2Of32()
    ensures Pow2(32) == 0x1_0000_0000
  {
    assert Pow2(4) == 16 && Pow2(8) == 256 && Pow2(12) == 4096 && Pow2(16) == 0x1_0000;
    assert Pow2(20) == 0x10_0000 && Pow2(24) == 0x100_0000 && Pow2(28) == 0x1000_0000;
  }

  // ---------- first-sighting tables ----------

  ghost predicate Distinct<T>(s: seq<T>) {
    forall i, j :: 0 <= i < j < |s| ==> s[i] != s[j]
  }

  /** The table after one sighting: unchanged when `x` is known, else `x` takes the next ordinal. */
  function Sight<T(==, !new)>(known: seq<T>, x: T): (r: seq<T>)
    ensures known <= r && x in r
    ensures forall y :: y in r <==> y in known || y == x
    ensures Distinct(known) ==> Distinct(r)
  {
    if x in known then known else known + [x]
  }

  /** The ordinal of a sighted key. */
  function Ord<T(==, !new)>(known: seq<T>, x: T): (r: nat)
    requires x in known
    ensures r < |known| && known[r] == x
    ensures forall j :: 0 <= j < r ==> known[j] != x
  {
    if known[0] == x then 0 else 1 + Ord(known[1..], x)
  }

  /** All keys in order of first sighting. */
  function FirstSeen<T(==, !new)>(s: seq<T>): (r: seq<T>)
    ensures Distinct(r)
    ensures forall x :: x in r <==> x in s
  {
    if s == [] then [] else Sight(FirstSeen(s[..|s| - 1]), s[|s| - 1])
  }

  lemma FirstSeenSnoc<T(!new)>(s: seq<T>, x: T)
    ensures FirstSeen(s + [x]) == Sight(FirstSeen(s), x)
  {
    assert (s + [x])[..|s|] == s;
  }

  /** An ordinal never changes once given. */
  lemma OrdStable<T(!new)>(known: seq<T>, later: seq<T>, x: T)
    requires known <= later && x in known
    ensures Ord(later, x) == Ord(known, x)
  {
    assert later[Ord(known, x)] == x;
  }

  lemma OrdAt<T(!new)>(known: seq<T>, i: nat)
    requires Distinct(known) && i < |known|
    ensures Ord(known, known[i]) == i
  {
  }

  ghost predicate Injective<K, V>(m: map<K, V>) {
    forall x, y :: x in m && y in m && m[x] == m[y] ==> x == y
  }

  // ---------- decimal text ----------

  predicate IsDigit(c: char) { '0' <= c <= '9' }

  function Digit(n: nat): (c: char)
    requires n < 10
    ensures IsDigit(c)
    ensures c as int == '0' as int + n
  {
    (('0' as int) + n) as char
  }

  /** Python's str() of a natural number. */
  function Dec(n: nat): (s: string)
    ensures s != []
    ensures forall i :: 0 <= i < |s| ==> IsDigit(s[i])
  {
    if n < 10 then [Digit(n)] else Dec(n / 10) + [Digit(n % 10)]
  }

  lemma {:induction false} DecInjective(m: nat, n: nat)
    requires Dec(m) == Dec(n)
    ensures m == n
  {
    var s := Dec(m);
    assert Digit(m % 10) == s[|s| - 1] == Digit(n % 10);
    if m >= 10 && n >= 10 {
      assert Dec(m / 10) == s[..|s| - 1] == Dec(n / 10);
      DecInjective(m / 10, n / 10);
    }
  }

  /** The number decimal digits stand for. */
  function DecValue(s: string): (n: int) {
    if s == "" then 0 else 10 * DecValue(s[..|s| - 1]) + (s[|s| - 1] as int - '0' as int)
  }

  lemma {:induction false} DecIsDecimal(n: nat)
    ensures DecValue(Dec(n)) == n
  {
    if n >= 10 {
      DecIsDecimal(n / 10);
      assert Dec(n)[..|Dec(n)| - 1] == Dec(n / 10);
    } else {
      assert [Digit(n)][..0] == "";
    }
  }

  ghost predicate NoLeadingDigit(s: string) { s != [] ==> !IsDigit(s[0]) }

  /** A number printed before text that does not continue it can be read back. */
  lemma DecReadBack(m: nat, n: nat, s: string, t: string)
    requires Dec(m) + s == Dec(n) + t
    requires NoLeadingDigit(s) && NoLeadingDigit(t)
    ensures m == n && s == t
  {
    var whole := Dec(m) + s;
    assert |Dec(m)| < |whole| ==> whole[|Dec(m)|] == s[0];
    assert |Dec(n)| < |whole| ==> whole[|Dec(n)|] == t[0];
    assert forall i :: 0 <= i < |Dec(m)| ==> IsDigit(whole[i]);
    assert forall i :: 0 <= i < |Dec(n)| ==> IsDigit(whole[i]);
    assert Dec(m) == whole[..|Dec(m)|] == Dec(n);
    DecInjective(m, n);
    assert s == whole[|Dec(m)|..] == t;
  }

  // ---------- hex text ----------

  function HexDigitValue(c: char): (r: Option<nat>)
    ensures r.Some? ==> r.value < 16
  {
    if '0' <= c <= '9' then Some(c as int - '0' as int)
    else if 'a' <= c <= 'f' then Some(c as int - 'a' as int + 10)
    else if 'A' <= c <= 'F' then Some(c as int - 'A' as int + 10)
    else None
  }

  function HexDigit(n: nat): (c: char)
    requires n < 16
    ensures HexDigitValue(c) == Some(n) && ('0' <= c <= '9' || 'a' <= c <= 'f')
    ensures c !in " \t\n\r"
  {
    if n < 10 then Digit(n) else (('a' as int) + (n - 10)) as char
  }

  /** The hex digits of a number, as hex() prints them after 0x. */
  function HexDigits(n: nat): (s: string)
    ensures s != ""
    ensures forall i :: 0 <= i < |s| ==> HexDigitValue(s[i]).Some? && ('0' <= s[i] <= '9' || 'a' <= s[i] <= 'f')
  {
    if n < 16 then [HexDigit(n)] else HexDigits(n / 16) + [HexDigit(n % 16)]
  }

  /** The ASCII whitespace that bytes.fromhex skips between bytes. */
  predicate IsSpace(c: char) {
    c == ' ' || '\t' <= c <= '\r'
  }

  /** bytes.hex(). */
  function Hex(b: seq<byte>): (s: string)
    ensures |s| == 2 * |b|
  {
    if b == [] then "" else [HexDigit(b[0] / 16), HexDigit(b[0] % 16)] + Hex(b[1..])
  }

  /** bytes.fromhex(): pairs of hex digits of either case, whitespace allowed between pairs. */
  function FromHex(s: string): (r: Option<seq<byte>>) {
    if s == "" then Some([])
    else if IsSpace(s[0]) then FromHex(s[1..])
    else if |s| < 2 || HexDigitValue(s[0]).None? || HexDigitValue(s[1]).None? then None
    else
      match FromHex(s[2..])
      case None => None
      case Some(rest) =>
        var b: byte := 16 * HexDigitValue(s[0]).value + HexDigitValue(s[1]).value;
        Some([b] + rest)
  }

  lemma {:induction false} HexRoundTrip(b: seq<byte>)
    ensures FromHex(Hex(b)) == Some(b)
  {
    if b != [] {
      HexRoundTrip(b[1..]);
      FromHexPair(b[0], Hex(b[1..]), b[1..]);
      assert b == [b[0]] + b[1..];
    }
  }

  lemma FromHexPair(b: byte, rest: string, bytes: seq<byte>)
    requires FromHex(rest) == Some(bytes)
    ensures FromHex([HexDigit(b / 16), HexDigit(b % 16)] + rest) == Some([b] + bytes)
  {
    var s := [HexDigit(b / 16), HexDigit(b % 16)] + rest;
    assert s[2..] == rest;
  }
}
