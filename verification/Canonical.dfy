/**
 Trace canonicalisation: one pass over a recorded event list that replaces
 address-shaped tokens, write-opened file descriptors and absolute host paths
 by ordinals of first sighting.
 */
module Canonical {
  import opened Prelude

  /** One recorded event; `rest` holds every key besides sc, phase and args ("result" among them). */
  datatype Event = Event(sc: string, phase: string, args: seq<string>, rest: map<string, Json>)

  /** One recorded run: what was fed in, what came out, and the syscall events. */
  datatype Trace = Trace(
    argv: seq<string>, stdinHex: string,
    stdout: string, stderr: string, exitCode: int, files: map<string, string>,
    events: seq<Event>)

  function ResultText(e: Event): (r: Option<string>) {
    if "result" in e.rest && e.rest["result"].JStr? then Some(e.rest["result"].s) else None
  }

  // ---------- token shapes ----------

  predicate StartsWith(s: string, prefix: string) {
    prefix <= s
  }

  predicate IsLowerHex(c: char) { '0' <= c <= '9' || 'a' <= c <= 'f' }

  /** A full match of 0x followed by six or more lower-case hex digits. */
  predicate IsAddr(s: string) {
    8 <= |s| && s[0] == '0' && s[1] == 'x' && forall i :: 2 <= i < |s| ==> IsLowerHex(s[i])
  }

  /** The characters of one path component. */
  predicate IsWord(c: char) {
    'a' <= c <= 'z' || 'A' <= c <= 'Z' || '0' <= c <= '9' || c == '_' || c == '.' || c == '-'
  }

  function WordLen(s: string): (n: nat)
    ensures n <= |s|
    ensures n < |s| ==> !IsWord(s[n])
  {
    if s == "" || !IsWord(s[0]) then 0 else 1 + WordLen(s[1..])
  }

  /** Length of a leading slash-and-component, 0 when there is none. */
  function SegLen(s: string): (n: nat)
    ensures n <= |s|
    ensures 0 < n ==> s[0] == '/' && 2 <= n
    ensures 0 < n < |s| ==> !IsWord(s[n])
  {
    if s != "" && s[0] == '/' && 0 < WordLen(s[1..]) then 1 + WordLen(s[1..]) else 0
  }

  /** Length of the longest leading run of slash-and-components. */
  function ChainLen(s: string): (n: nat)
    ensures n <= |s|
    ensures SegLen(s) <= n
    ensures 0 < n < |s| ==> !IsWord(s[n])
    ensures SegLen(s[n..]) == 0
    decreases |s|
  {
    var k := SegLen(s);
    if k == 0 then assert s[0..] == s; 0
    else
      var n := ChainLen(s[k..]);
      DropDrop(s, k, n);
      k + n
  }

  /** Length of the absolute path (two components or more) that starts here, 0 when none does. */
  function PathLen(s: string): (n: nat)
    ensures n <= |s|
    ensures 0 < n ==> s[0] == '/'
    ensures 0 < n < |s| ==> !IsWord(s[n])
  {
    if 0 < SegLen(s) && 0 < SegLen(s[SegLen(s)..]) then ChainLen(s) else 0
  }

  /** An argument as the path substitution sees it: ordinary characters and absolute paths. */
  datatype Piece = Ch(c: char) | AbsPath(p: string)

  function Lex(s: string): (r: seq<Piece>)
    ensures |r| <= |s|
    ensures s != "" ==> r != []
    decreases |s|
  {
    if s == "" then []
    else if 0 < PathLen(s) then [AbsPath(s[..PathLen(s)])] + Lex(s[PathLen(s)..])
    else [Ch(s[0])] + Lex(s[1..])
  }

  function PieceText(p: Piece): (s: string) {
    match p case Ch(c) => [c] case AbsPath(q) => q
  }

  function Unlex(ps: seq<Piece>): (s: string) {
    if ps == [] then "" else PieceText(ps[0]) + Unlex(ps[1..])
  }

  /** Where the first piece ends. */
  function HeadLen(s: string): (k: nat)
    requires s != ""
    ensures 0 < k <= |s|
  {
    if 0 < PathLen(s) then PathLen(s) else 1
  }

  lemma LexHead(s: string)
    requires s != ""
    ensures Lex(s)[1..] == Lex(s[HeadLen(s)..])
    ensures PieceText(Lex(s)[0]) == s[..HeadLen(s)]
    ensures Lex(s)[0].Ch? ==> HeadLen(s) == 1 && Lex(s)[0].c == s[0]
    ensures Lex(s)[0].AbsPath? ==> s[0] == '/'
    ensures Lex(s)[0].AbsPath? && HeadLen(s) < |s| ==> !IsWord(s[HeadLen(s)])
  {
  }

  lemma UnlexHead(ps: seq<Piece>, s: string, k: nat)
    requires ps != [] && k <= |s| && PieceText(ps[0]) == s[..k] && Unlex(ps[1..]) == s[k..]
    ensures Unlex(ps) == s
  {
    assert s == s[..k] + s[k..];
  }

  /** Splitting loses nothing, and two arguments with the same pieces are the same argument. */
  lemma {:induction false} LexRoundTrip(s: string)
    ensures Unlex(Lex(s)) == s
    decreases |s|
  {
    if s != "" {
      LexHead(s);
      LexRoundTrip(s[HeadLen(s)..]);
      UnlexHead(Lex(s), s, HeadLen(s));
    }
  }

  // ---------- Python's int(text, 16) on ASCII text ----------

  predicate IsNumeralChar(c: char) {
    HexDigitValue(c).Some? || IsSpace(c) || c == '+' || c == '-' || c == 'x' || c == 'X' || c == '_'
  }

  predicate NumeralText(s: string) {
    forall i :: 0 <= i < |s| ==> IsNumeralChar(s[i])
  }

  function StripLeft(s: string): (r: string)
    ensures NumeralText(r) ==> NumeralText(s)
  {
    if s != "" && IsSpace(s[0]) then
      assert forall i :: 1 <= i < |s| ==> s[i] == s[1..][i - 1];
      StripLeft(s[1..])
    else s
  }

  function StripRight(s: string): (r: string)
    ensures NumeralText(r) ==> NumeralText(s)
  {
    if s != "" && IsSpace(s[|s| - 1]) then
      assert forall i :: 0 <= i < |s| - 1 ==> s[i] == s[..|s| - 1][i];
      StripRight(s[..|s| - 1])
    else s
  }

  /** The text after a 0x prefix and the one underscore that may follow it. */
  function Unprefix(s: string): (r: string)
    ensures NumeralText(r) ==> NumeralText(s)
  {
    if 2 <= |s| && s[0] == '0' && (s[1] == 'x' || s[1] == 'X') then
      var k := if 3 <= |s| && s[2] == '_' then 3 else 2;
      assert forall i :: k <= i < |s| ==> s[i] == s[k..][i - k];
      s[k..]
    else s
  }

  /** Hex digits with single underscores allowed between two digits. */
  function HexValue(s: string): (r: Option<nat>)
    ensures r.Some? ==> s != "" && NumeralText(s)
  {
    if s == "" || HexDigitValue(s[|s| - 1]).None? then None
    else
      var d := HexDigitValue(s[|s| - 1]).value;
      if |s| == 1 then Some(d)
      else
        var cut := if s[|s| - 2] == '_' then |s| - 2 else |s| - 1;
        match HexValue(s[..cut])
        case None => None
        case Some(v) =>
          assert forall i :: 0 <= i < cut ==> s[i] == s[..cut][i];
          Some(16 * v + d)
  }

  function ParseHexInt(s: string): (r: Option<int>)
    ensures r.Some? ==> NumeralText(s)
  {
    var t := StripRight(StripLeft(s));
    var signed := t != "" && (t[0] == '-' || t[0] == '+');
    var body := if signed then t[1..] else t;
    assert signed ==> forall i :: 1 <= i < |t| ==> t[i] == body[i - 1];
    match HexValue(Unprefix(body))
    case None => None
    case Some(v) => Some(if signed && t[0] == '-' then 0 - v else v)
  }

  lemma NotNumeral(s: string, c: char)
    requires c in s && !IsNumeralChar(c)
    ensures ParseHexInt(s).None?
  {
    var i :| 0 <= i < |s| && s[i] == c;
  }

  // ---------- opens ----------

  predicate OpenFamily(sc: string) { sc == "openat" || sc == "open" || sc == "creat" }

  predicate FdCarrier(sc: string) { sc == "read" || sc == "write" || sc == "writev" || sc == "close" }

  function FlagsIndex(sc: string): (i: nat) { if sc == "openat" then 2 else 1 }

  /** flags & O_ACCMODE or flags & O_CREAT, on Python's unbounded two's-complement integers. */
  predicate WriteFlags(flags: int) {
    flags % 4 != 0 || (flags / 0x40) % 2 != 0
  }

  predicate WriteIntent(sc: string, args: seq<string>)
    requires OpenFamily(sc)
  {
    sc == "creat" ||
    (FlagsIndex(sc) < |args| &&
     ParseHexInt(args[FlagsIndex(sc)]).Some? &&
     WriteFlags(ParseHexInt(args[FlagsIndex(sc)]).value))
  }

  // ---------- the walk ----------

  /** What the pass remembers: three tables of first sightings and the pending-open flag. */
  datatype Names = Names(addrs: seq<string>, fds: seq<string>, paths: seq<string>, pending: bool)

  const FRESH := Names([], [], [], false)

  function AddrName(n: nat): (s: string) { "ADDR_" + Dec(n) }
  function FdName(n: nat): (s: string) { "FD_" + Dec(n) }
  function PathName(n: nat): (s: string) { "PATH_" + Dec(n) }

  /** The open bookkeeping on its own: (fd table, pending) after one event. */
  function OpenStep(e: Event, fds: seq<string>, pending: bool): (r: (seq<string>, bool))
    ensures fds <= r.0
    ensures Distinct(fds) ==> Distinct(r.0)
  {
    if OpenFamily(e.sc) && e.phase == "enter" then (fds, WriteIntent(e.sc, e.args))
    else if OpenFamily(e.sc) && e.phase == "exit" then
      var res := ResultText(e);
      if pending && res.Some? && StartsWith(res.value, "0x")
      then (Sight(fds, res.value), false)
      else (fds, false)
    else (fds, pending)
  }

  function FdArgs(e: Event, fds: seq<string>): (r: seq<string>)
    ensures |r| == |e.args|
  {
    if FdCarrier(e.sc) && e.args != [] && e.args[0] in fds
    then [FdName(Ord(fds, e.args[0]))] + e.args[1..]
    else e.args
  }

  function CanonPieces(ps: seq<Piece>, paths: seq<string>): (r: (string, seq<string>)) {
    if ps == [] then ("", paths)
    else
      match ps[0]
      case Ch(c) =>
        var rest := CanonPieces(ps[1..], paths);
        ([c] + rest.0, rest.1)
      case AbsPath(p) =>
        var known := Sight(paths, p);
        var rest := CanonPieces(ps[1..], known);
        (PathName(Ord(known, p)) + rest.0, rest.1)
  }

  function CanonArg(a: string, n: Names): (r: (string, Names)) {
    if IsAddr(a) then
      var known := Sight(n.addrs, a);
      (AddrName(Ord(known, a)), n.(addrs := known))
    else
      var t := CanonPieces(Lex(a), n.paths);
      (t.0, n.(paths := t.1))
  }

  function CanonArgs(args: seq<string>, n: Names): (r: (seq<string>, Names))
    ensures |r.0| == |args|
  {
    if args == [] then ([], n)
    else
      var one := CanonArg(args[0], n);
      var rest := CanonArgs(args[1..], one.1);
      ([one.0] + rest.0, rest.1)
  }

  function CanonResult(rest: map<string, Json>, n: Names): (r: (map<string, Json>, Names)) {
    if "result" in rest && rest["result"].JStr? && IsAddr(rest["result"].s) then
      var known := Sight(n.addrs, rest["result"].s);
      (rest["result" := JStr(AddrName(Ord(known, rest["result"].s)))], n.(addrs := known))
    else (rest, n)
  }

  function CanonEvent(e: Event, n: Names): (r: (Event, Names))
    ensures r.0.sc == e.sc && r.0.phase == e.phase && |r.0.args| == |e.args|
  {
    var open := OpenStep(e, n.fds, n.pending);
    var n1 := n.(fds := open.0, pending := open.1);
    var a := CanonArgs(FdArgs(e, n1.fds), n1);
    var res := CanonResult(e.rest, a.1);
    (Event(e.sc, e.phase, a.0, res.0), res.1)
  }

  function CanonEvents(evs: seq<Event>, n: Names): (r: (seq<Event>, Names))
    ensures |r.0| == |evs|
  {
    if evs == [] then ([], n)
    else
      var one := CanonEvent(evs[0], n);
      var rest := CanonEvents(evs[1..], one.1);
      ([one.0] + rest.0, rest.1)
  }

  /** The canonical event list of a recorded one. */
  function Canon(evs: seq<Event>): (r: seq<Event>)
    ensures |r| == |evs|
  {
    CanonEvents(evs, FRESH).0
  }
}
