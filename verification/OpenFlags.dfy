/**
 Which opens count as opens for writing, said of the flags themselves: the
 number the flags text spells and three of its bits.
 */
module OpenFlags {
  import opened Prelude
  import opened Canonical
  import opened AlphaEquivalence
  import opened FdWalks

  // ---------- the number a flags text spells ----------

  function HexText(n: nat): (s: string) { "0x" + HexDigits(n) }

  lemma {:induction false} DigitsSpell(n: nat)
    ensures HexValue(HexDigits(n)) == Some(n)
  {
    var s := HexDigits(n);
    if n >= 16 {
      DigitsSpell(n / 16);
      assert s[..|s| - 1] == HexDigits(n / 16) && s[|s| - 1] == HexDigit(n % 16);
      assert s[|s| - 2] == HexDigits(n / 16)[|s| - 2];
    }
  }

  lemma NothingToStrip(s: string)
    requires s != "" && !IsSpace(s[0]) && !IsSpace(s[|s| - 1])
    ensures StripRight(StripLeft(s)) == s
  {
  }

  /** The text hex() prints for a number reads as that number. */
  lemma HexTextParses(n: nat)
    ensures ParseHexInt(HexText(n)) == Some(n)
  {
    var s, d := HexText(n), HexDigits(n);
    assert s[0] == '0' && s[1] == 'x' && s[2..] == d && s[2] == d[0] && s[|s| - 1] == d[|d| - 1];
    NothingToStrip(s);
    assert Unprefix(s) == d;
    DigitsSpell(n);
  }

  // ---------- the bits that mean to write ----------

  /** Access mode other than read-only, or create: bit 0, bit 1 or bit 6. */
  predicate MeansToWrite(n: nat) { Bit(n, 0) || Bit(n, 1) || Bit(n, 6) }

  lemma SixHalves(n: nat)
    ensures Bit(n, 6) <==> (n / 64) % 2 == 1
  {
    var a, b, c := n / 2, n / 4, n / 8;
    assert a / 2 == b && b / 2 == c && c / 2 == n / 16 && n / 16 / 2 == n / 32 && n / 32 / 2 == n / 64;
    assert Bit(n, 6) == Bit(a, 5) == Bit(b, 4) == Bit(c, 3) == Bit(n / 16, 2) == Bit(n / 32, 1) == Bit(n / 64, 0);
  }

  lemma FlagBits(n: nat)
    ensures WriteFlags(n) <==> MeansToWrite(n)
  {
    SixHalves(n);
    assert Bit(n, 1) == Bit(n / 2, 0);
    assert n % 4 == n % 2 + 2 * (n / 2 % 2);
  }

  // ---------- what a use of the descriptor shows ----------

  predicate Carries(sc: string) { sc == "read" || sc == "write" || sc == "writev" || sc == "close" }

  predicate PlainFd(fd: string) { StartsWith(fd, "0x") && !IsAddr(fd) && '/' !in fd }

  /** An open enters, returns `fd`, and `fd` is then the first argument of some other call. */
  ghost predicate OpenThenUse(enter: Event, exit: Event, use: Event, fd: string) {
    && OpenEnter(enter) && OpenExit(exit) && ResultText(exit) == Some(fd)
    && !OpenFamily(use.sc) && use.args != [] && use.args[0] == fd
  }

  lemma TableAfter(enter: Event, exit: Event, use: Event, fd: string)
    requires OpenThenUse(enter, exit, use, fd) && StartsWith(fd, "0x")
    ensures FdWalk([enter, exit]) == (if WriteIntent(enter.sc, enter.args) then [fd] else [], false)
  {
    assert [enter, exit][..1] == [enter] && [enter][..0] == [];
    assert FdWalk([enter]) == ([], WriteIntent(enter.sc, enter.args));
    assert Sight([], fd) == [fd];
  }

  /** The first argument of an event, canonically: an ordinal when it is carried and tabled, itself otherwise. */
  lemma FirstArgument(use: Event, n: Names, fd: string)
    requires !OpenFamily(use.sc) && use.args != [] && use.args[0] == fd && PlainFd(fd)
    ensures CanonEvent(use, n).0.args != []
    ensures CanonEvent(use, n).0.args[0] == if Carries(use.sc) && fd in n.fds then FdName(Ord(n.fds, fd)) else fd
  {
    EventParts(use, n);
    assert Opened(use, n) == n;
    var xs := FdArgs(use, n.fds);
    assert CanonArgs(xs, n).0[0] == CanonArg(xs[0], n).0;
    if Carries(use.sc) && fd in n.fds {
      FdNamePlain(Ord(n.fds, fd), n);
    } else {
      SlashFree(fd, n.paths);
    }
  }

  lemma UseShows(enter: Event, exit: Event, use: Event, fd: string)
    requires OpenThenUse(enter, exit, use, fd) && PlainFd(fd)
    ensures Canon([enter, exit, use])[2].args != []
    ensures Canon([enter, exit, use])[2].args[0] ==
            if WriteIntent(enter.sc, enter.args) && Carries(use.sc) then "FD_0" else fd
  {
    var t := [enter, exit, use];
    assert t[..2] == [enter, exit];
    CanonSnoc(t);
    CanonTable(t[..2]);
    TableAfter(enter, exit, use, fd);
    FirstArgument(use, CanonEvents(t[..2], FRESH).1, fd);
    assert FdName(0) == "FD_0";
  }

  /**
   For every flags word, and for openat and open alike: after the open returns
   a descriptor, a read, write, writev or close of it shows FD_0 if and only if
   bit 0, bit 1 or bit 6 of the flags is set; any other use, and any use after a
   read-only open, shows the descriptor itself.
   */
  lemma FlagsDecide(enter: Event, exit: Event, use: Event, fd: string, n: nat)
    requires OpenThenUse(enter, exit, use, fd) && PlainFd(fd)
    requires (enter.sc == "openat" && 2 < |enter.args| && enter.args[2] == HexText(n)) ||
             (enter.sc == "open" && 1 < |enter.args| && enter.args[1] == HexText(n))
    ensures Canon([enter, exit, use])[2].args != []
    ensures Canon([enter, exit, use])[2].args[0] ==
            if (Bit(n, 0) || Bit(n, 1) || Bit(n, 6)) &&
               (use.sc == "read" || use.sc == "write" || use.sc == "writev" || use.sc == "close") then "FD_0" else fd
  {
    HexTextParses(n);
    FlagBits(n);
    UseShows(enter, exit, use, fd);
  }

  /** A file made by creat always counts; an openat or open without readable flags never does. */
  lemma FlaglessOpens(enter: Event, exit: Event, use: Event, fd: string)
    requires OpenThenUse(enter, exit, use, fd) && PlainFd(fd) && use.sc == "write"
    ensures Canon([enter, exit, use])[2].args != []
    ensures enter.sc == "creat" ==> Canon([enter, exit, use])[2].args[0] == "FD_0"
    ensures (enter.sc == "openat" && |enter.args| <= 2) || (enter.sc == "open" && |enter.args| <= 1) ==>
              Canon([enter, exit, use])[2].args[0] == fd
    ensures (enter.sc == "openat" && 2 < |enter.args| && 'R' in enter.args[2]) ||
            (enter.sc == "open" && 1 < |enter.args| && 'R' in enter.args[1]) ==>
              Canon([enter, exit, use])[2].args[0] == fd
  {
    UseShows(enter, exit, use, fd);
    if enter.sc == "openat" && 2 < |enter.args| && 'R' in enter.args[2] {
      NotNumeral(enter.args[2], 'R');
    }
    if enter.sc == "open" && 1 < |enter.args| && 'R' in enter.args[1] {
      NotNumeral(enter.args[1], 'R');
    }
  }

  // ---------- which numbers look like addresses ----------

  function Pow16(k: nat): (r: nat)
    ensures 0 < r
  {
    if k == 0 then 1 else 16 * Pow16(k - 1)
  }

  lemma {:induction false} DigitCount(n: nat, k: nat)
    requires 0 < k
    ensures k < |HexDigits(n)| <==> Pow16(k) <= n
    decreases k
  {
    if n >= 16 && k > 1 {
      DigitCount(n / 16, k - 1);
    } else if k > 1 {
      SixteenPow(k);
    } else {
      assert Pow16(1) == 16;
    }
  }

  lemma {:induction false} SixteenPow(k: nat)
    requires 0 < k
    ensures 16 <= Pow16(k)
  {
    if k > 1 {
      SixteenPow(k - 1);
    }
  }

  /** A printed number is taken for an address exactly from 0x100000 on. */
  lemma AddressIffLarge(n: nat)
    ensures IsAddr(HexText(n)) <==> 0x10_0000 <= n
  {
    var s, d := HexText(n), HexDigits(n);
    assert s[0] == '0' && s[1] == 'x' && forall i :: 2 <= i < |s| ==> s[i] == d[i - 2];
    DigitCount(n, 5);
    assert Pow16(2) == 0x100 && Pow16(4) == 0x1_0000 && Pow16(5) == 0x10_0000;
  }
}
