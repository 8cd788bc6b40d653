/**
 The duplicate guard's source fingerprint: comments and whitespace go, string
 and character literals stay verbatim. One left-to-right scan, defined on any
 text whatsoever.
 */
module Fingerprint {

  // ---------- the scanner ----------

  datatype Token = Plain(c: char) | Lit(text: string) | Noise(text: string)

  predicate IsQuote(c: char) { c == '"' || c == '\'' }

  /** What a whitespace class matches in Unicode text. */
  predicate IsBlank(c: char) {
    '\t' <= c <= '\r' || '\U{1C}' <= c <= ' ' || c == '\U{85}' || c == '\U{A0}' || c == '\U{1680}' ||
    '\U{2000}' <= c <= '\U{200A}' || c == '\U{2028}' || c == '\U{2029}' || c == '\U{202F}' ||
    c == '\U{205F}' || c == '\U{3000}'
  }

  /** Length of a literal's body through its closing quote, or through the end of the text. */
  function BodyLen(t: string, q: char): (n: nat)
    ensures n <= |t|
  {
    if t == "" then 0
    else if t[0] == q then 1
    else if t[0] == '\\' then if |t| < 2 then 0 else 2 + BodyLen(t[2..], q)
    else 1 + BodyLen(t[1..], q)
  }

  function LineLen(t: string): (n: nat)
    ensures n <= |t|
  {
    if t == "" || t[0] == '\n' then 0 else 1 + LineLen(t[1..])
  }

  predicate ClosesHere(t: string) { 2 <= |t| && t[0] == '*' && t[1] == '/' }

  /** Length of a block comment's body through its terminator, or through the end of the text. */
  function BlockLen(t: string): (n: nat)
    ensures n <= |t|
  {
    if t == "" then 0 else if ClosesHere(t) then 2 else 1 + BlockLen(t[1..])
  }

  function BlankLen(t: string): (n: nat)
    ensures n <= |t|
  {
    if t == "" || !IsBlank(t[0]) then 0 else 1 + BlankLen(t[1..])
  }

  predicate OpensLine(s: string) { 2 <= |s| && s[0] == '/' && s[1] == '/' }
  predicate OpensBlock(s: string) { 2 <= |s| && s[0] == '/' && s[1] == '*' }

  function Text(t: Token): (s: string) {
    match t case Plain(c) => [c] case Lit(s) => s case Noise(s) => s
  }

  /** The alternatives in the order the pattern tries them. */
  function Head(s: string): (t: Token)
    requires s != ""
    ensures 0 < |Text(t)| <= |s| && Text(t) == s[..|Text(t)|]
  {
    if IsQuote(s[0]) then Lit(s[..1 + BodyLen(s[1..], s[0])])
    else if OpensLine(s) then Noise(s[..2 + LineLen(s[2..])])
    else if OpensBlock(s) then Noise(s[..2 + BlockLen(s[2..])])
    else if IsBlank(s[0]) then Noise(s[..1 + BlankLen(s[1..])])
    else Plain(s[0])
  }

  function Scan(s: string): (ts: seq<Token>)
    decreases |s|
  {
    if s == "" then [] else [Head(s)] + Scan(s[|Text(Head(s))|..])
  }

  function Flatten(ts: seq<Token>): (s: string) {
    if ts == [] then "" else Text(ts[0]) + Flatten(ts[1..])
  }

  function KeptText(t: Token): (s: string) { if t.Noise? then "" else Text(t) }

  function Keep(ts: seq<Token>): (s: string) {
    if ts == [] then "" else KeptText(ts[0]) + Keep(ts[1..])
  }

  /** norm_source: each match is replaced by its literal group, which noise does not have. */
  function Norm(s: string): (r: string) { Keep(Scan(s)) }

  lemma ScanStep(s: string)
    requires s != ""
    ensures Scan(s) != [] && Scan(s)[0] == Head(s) && Scan(s)[1..] == Scan(s[|Text(Head(s))|..])
  {
  }

  lemma {:induction false} ScanCovers(s: string)
    ensures Flatten(Scan(s)) == s
    decreases |s|
  {
    if s != "" {
      var h := Head(s);
      ScanStep(s);
      ScanCovers(s[|Text(h)|..]);
      assert s == s[..|Text(h)|] + s[|Text(h)|..];
    }
  }

  lemma NormHead(s: string)
    requires s != ""
    ensures Norm(s) == KeptText(Head(s)) + Norm(s[|Text(Head(s))|..])
  {
    ScanStep(s);
  }

  // ---------- where a token may stand ----------

  ghost predicate StartsWithAny(rest: string, a: char, b: char) { rest != "" && (rest[0] == a || rest[0] == b) }

  /** Reads to its own end, not beyond: the closing quote is the last character. */
  ghost predicate Closed(t: string, q: char) {
    if t == "" then false
    else if t[0] == q then |t| == 1
    else if t[0] == '\\' then 2 <= |t| && Closed(t[2..], q)
    else Closed(t[1..], q)
  }

  /** No closing quote; every backslash has its escaped character. */
  ghost predicate Unclosed(t: string, q: char) {
    t == "" ||
    (t[0] != q && if t[0] == '\\' then 2 <= |t| && Unclosed(t[2..], q) else Unclosed(t[1..], q))
  }

  ghost predicate NoNewline(t: string) { forall i :: 0 <= i < |t| ==> t[i] != '\n' }
  ghost predicate AllBlank(t: string) { forall i :: 0 <= i < |t| ==> IsBlank(t[i]) }

  ghost predicate ClosedBlock(t: string) {
    2 <= |t| && if ClosesHere(t) then |t| == 2 else ClosedBlock(t[1..])
  }

  ghost predicate UnclosedBlock(t: string) {
    t == "" || (!ClosesHere(t) && UnclosedBlock(t[1..]))
  }

  ghost predicate LineComment(t: string) { OpensLine(t) && NoNewline(t[2..]) }
  ghost predicate BlockComment(t: string) { OpensBlock(t) && ClosedBlock(t[2..]) }
  ghost predicate OpenComment(t: string) { OpensBlock(t) && UnclosedBlock(t[2..]) }
  ghost predicate Blanks(t: string) { t != "" && AllBlank(t) }

  /** A token that can stand before `rest` without either changing how the other is read. */
  ghost predicate Placed(t: Token, rest: string) {
    match t
    case Plain(c) => !IsQuote(c) && !IsBlank(c) && (c == '/' ==> !StartsWithAny(rest, '/', '*'))
    case Lit(s) =>
      s != "" && IsQuote(s[0]) &&
      (Closed(s[1..], s[0]) || (Unclosed(s[1..], s[0]) && (rest == "" || rest == "\\")))
    case Noise(s) =>
      || (LineComment(s) && (rest == "" || rest[0] == '\n'))
      || BlockComment(s)
      || (OpenComment(s) && rest == "")
      || Blanks(s)
  }

  ghost predicate Separated(ts: seq<Token>) {
    ts == [] || (Placed(ts[0], Flatten(ts[1..])) && Separated(ts[1..]))
  }

  // ---------- reading back a placed token ----------

  lemma {:induction false} ClosedLen(t: string, rest: string, q: char)
    requires Closed(t, q)
    ensures BodyLen(t + rest, q) == |t|
  {
    var s := t + rest;
    assert s[0] == t[0];
    if t[0] == q {
    } else if t[0] == '\\' {
      assert s[2..] == t[2..] + rest;
      ClosedLen(t[2..], rest, q);
    } else {
      assert s[1..] == t[1..] + rest;
      ClosedLen(t[1..], rest, q);
    }
  }

  lemma {:induction false} UnclosedLen(t: string, rest: string, q: char)
    requires Unclosed(t, q) && (rest == "" || rest == "\\") && q != '\\'
    ensures BodyLen(t + rest, q) == |t|
  {
    var s := t + rest;
    if t == "" {
      assert s == rest;
    } else {
      assert s[0] == t[0];
      if t[0] == '\\' {
        assert s[2..] == t[2..] + rest;
        UnclosedLen(t[2..], rest, q);
      } else {
        assert s[1..] == t[1..] + rest;
        UnclosedLen(t[1..], rest, q);
      }
    }
  }

  lemma {:induction false} LineLenIs(t: string, rest: string)
    requires NoNewline(t) && (rest == "" || rest[0] == '\n')
    ensures LineLen(t + rest) == |t|
  {
    if t == "" {
      assert t + rest == rest;
    } else {
      assert (t + rest)[0] == t[0] && (t + rest)[1..] == t[1..] + rest;
      LineLenIs(t[1..], rest);
    }
  }

  lemma {:induction false} BlockLenIs(t: string, rest: string)
    requires ClosedBlock(t) || (UnclosedBlock(t) && rest == "")
    ensures BlockLen(t + rest) == |t|
  {
    var s := t + rest;
    if t == "" {
      assert s == "";
    } else {
      assert s[0] == t[0] && s[1..] == t[1..] + rest;
      assert ClosesHere(s) == ClosesHere(t);
      if !ClosesHere(t) {
        BlockLenIs(t[1..], rest);
      }
    }
  }

  /** A placed token other than blanks is exactly what the scanner reads there. */
  lemma PlacedHead(t: Token, rest: string)
    requires Placed(t, rest) && !(t.Noise? && Blanks(t.text))
    ensures Text(t) + rest != "" && Head(Text(t) + rest) == t
  {
    var s := Text(t) + rest;
    match t
    case Plain(c) =>
    case Lit(l) =>
      assert s[0] == l[0] && s[1..] == l[1..] + rest;
      if Closed(l[1..], l[0]) { ClosedLen(l[1..], rest, l[0]); } else { UnclosedLen(l[1..], rest, l[0]); }
    case Noise(l) =>
      assert s[0] == l[0] && s[1] == l[1] && s[2..] == l[2..] + rest;
      if LineComment(l) { LineLenIs(l[2..], rest); } else { BlockLenIs(l[2..], rest); }
  }

  lemma BlankRun(s: string)
    requires s != "" && IsBlank(s[0])
    ensures Norm(s) == Norm(s[BlankLen(s)..])
  {
    BlankHead(s);
    NormHead(s);
    assert "" + Norm(s[BlankLen(s)..]) == Norm(s[BlankLen(s)..]);
  }

  lemma BlankHead(s: string)
    requires s != "" && IsBlank(s[0])
    ensures Head(s).Noise? && |Text(Head(s))| == BlankLen(s)
  {
  }

  /** Leading whitespace never matters. */
  lemma BlankDrops(s: string)
    requires s != "" && IsBlank(s[0])
    ensures Norm(s) == Norm(s[1..])
  {
    BlankRun(s);
    if s[1..] != "" && IsBlank(s[1..][0]) {
      BlankRun(s[1..]);
      assert s[1..][BlankLen(s[1..])..] == s[BlankLen(s)..];
    } else {
      assert BlankLen(s) == 1;
    }
  }

  lemma {:induction false} BlanksDrop(w: string, rest: string)
    requires AllBlank(w)
    ensures Norm(w + rest) == Norm(rest)
  {
    if w == "" {
      assert w + rest == rest;
    } else {
      BlankDrops(w + rest);
      assert (w + rest)[1..] == w[1..] + rest;
      BlanksDrop(w[1..], rest);
    }
  }

  /** A separated token list keeps exactly its plain characters and literals, in order. */
  lemma {:induction false} NormOfSeparated(ts: seq<Token>)
    requires Separated(ts)
    ensures Norm(Flatten(ts)) == Keep(ts)
  {
    if ts != [] {
      var rest := Flatten(ts[1..]);
      NormOfSeparated(ts[1..]);
      if ts[0].Noise? && Blanks(ts[0].text) {
        BlanksDrop(ts[0].text, rest);
      } else {
        PlacedHead(ts[0], rest);
        NormHead(Flatten(ts));
        assert (Text(ts[0]) + rest)[|Text(ts[0])|..] == rest;
      }
    }
  }

  // ---------- every scan is separated ----------

  lemma {:induction false} BodyIs(t: string, q: char)
    requires q != '\\'
    ensures var n := BodyLen(t, q);
            Closed(t[..n], q) || (Unclosed(t[..n], q) && (t[n..] == "" || t[n..] == "\\"))
  {
    var n := BodyLen(t, q);
    if t == "" || t[0] == q {
    } else if t[0] == '\\' {
      if 2 <= |t| {
        BodyIs(t[2..], q);
        assert t[..n][2..] == t[2..][..n - 2] && t[n..] == t[2..][n - 2..];
      }
    } else {
      BodyIs(t[1..], q);
      assert t[..n][1..] == t[1..][..n - 1] && t[n..] == t[1..][n - 1..];
    }
  }

  lemma {:induction false} LineIs(t: string)
    ensures var n := LineLen(t); NoNewline(t[..n]) && (t[n..] == "" || t[n] == '\n')
  {
    if t != "" && t[0] != '\n' {
      LineIs(t[1..]);
      var n := LineLen(t);
      assert forall i :: 1 <= i < n ==> t[i] == t[1..][i - 1];
    }
  }

  lemma {:induction false} BlockIs(t: string)
    ensures var n := BlockLen(t); ClosedBlock(t[..n]) || (UnclosedBlock(t[..n]) && t[n..] == "")
  {
    if t != "" && !ClosesHere(t) {
      BlockIs(t[1..]);
      var n := BlockLen(t);
      assert t[..n][1..] == t[1..][..n - 1] && t[n..] == t[1..][n - 1..];
      BlockGrows(t[..n]);
    }
  }

  lemma BlockGrows(t: string)
    requires t != "" && (ClosedBlock(t[1..]) || UnclosedBlock(t[1..])) && !ClosesHere(t)
    ensures ClosedBlock(t[1..]) ==> ClosedBlock(t)
    ensures UnclosedBlock(t[1..]) ==> UnclosedBlock(t)
  {
  }

  lemma {:induction false} BlankIs(t: string)
    ensures AllBlank(t[..BlankLen(t)])
  {
    if t != "" && IsBlank(t[0]) {
      BlankIs(t[1..]);
      assert forall i :: 1 <= i < BlankLen(t) ==> t[i] == t[1..][i - 1];
    }
  }

  lemma LitIsPlaced(s: string)
    requires s != "" && IsQuote(s[0])
    ensures var n := 1 + BodyLen(s[1..], s[0]); Placed(Lit(s[..n]), s[n..])
  {
    var n := 1 + BodyLen(s[1..], s[0]);
    BodyIs(s[1..], s[0]);
    assert s[..n][1..] == s[1..][..n - 1] && s[1..][n - 1..] == s[n..];
  }

  lemma LineIsPlaced(s: string)
    requires OpensLine(s)
    ensures var n := 2 + LineLen(s[2..]); Placed(Noise(s[..n]), s[n..])
  {
    var n := 2 + LineLen(s[2..]);
    LineIs(s[2..]);
    assert s[..n][2..] == s[2..][..n - 2] && s[2..][n - 2..] == s[n..];
    assert LineComment(s[..n]);
  }

  lemma BlockIsPlaced(s: string)
    requires OpensBlock(s)
    ensures var n := 2 + BlockLen(s[2..]); Placed(Noise(s[..n]), s[n..])
  {
    var n := 2 + BlockLen(s[2..]);
    BlockIs(s[2..]);
    assert s[..n][2..] == s[2..][..n - 2] && s[2..][n - 2..] == s[n..];
    assert OpensBlock(s[..n]);
  }

  lemma BlankIsPlaced(s: string)
    requires s != "" && IsBlank(s[0])
    ensures BlankLen(s) == 1 + BlankLen(s[1..]) && Placed(Noise(s[..BlankLen(s)]), s[BlankLen(s)..])
  {
    BlankIs(s);
    assert Blanks(s[..BlankLen(s)]);
  }

  lemma HeadIsPlaced(s: string)
    requires s != ""
    ensures Placed(Head(s), s[|Text(Head(s))|..])
  {
    if IsQuote(s[0]) {
      LitIsPlaced(s);
    } else if OpensLine(s) {
      LineIsPlaced(s);
    } else if OpensBlock(s) {
      BlockIsPlaced(s);
    } else if IsBlank(s[0]) {
      BlankIsPlaced(s);
    }
  }

  lemma {:induction false} ScanIsSeparated(s: string)
    ensures Separated(Scan(s))
    decreases |s|
  {
    if s != "" {
      var k := |Text(Head(s))|;
      HeadIsPlaced(s);
      ScanIsSeparated(s[k..]);
      ScanCovers(s[k..]);
      assert Scan(s)[1..] == Scan(s[k..]);
    }
  }

  // ---------- the laws ----------

  /** The tokens that survive, in order. */
  function Kept(ts: seq<Token>): (r: seq<Token>) {
    if ts == [] then [] else if ts[0].Noise? then Kept(ts[1..]) else [ts[0]] + Kept(ts[1..])
  }

  lemma {:induction false} KeepKept(ts: seq<Token>)
    ensures Keep(Kept(ts)) == Keep(ts) && Flatten(Kept(ts)) == Keep(ts)
  {
    if ts != [] {
      KeepKept(ts[1..]);
      assert !ts[0].Noise? ==> Kept(ts)[1..] == Kept(ts[1..]);
    }
  }

  /**
   Comments and whitespace may be changed, added or removed at will: any token
   list with the surviving tokens of `s`, none of them run together, has the
   fingerprint of `s`.
   */
  lemma FingerprintInvariance(s: string, edited: seq<Token>)
    requires Separated(edited) && Kept(edited) == Kept(Scan(s))
    ensures Norm(Flatten(edited)) == Norm(s)
  {
    NormOfSeparated(edited);
    KeepKept(edited);
    KeepKept(Scan(s));
  }

  /** A plain slash that ends up in front of a plain slash or star. */
  ghost predicate Joins(ks: seq<Token>) {
    2 <= |ks| && ((ks[0] == Plain('/') && (ks[1] == Plain('/') || ks[1] == Plain('*'))) || Joins(ks[1..]))
  }

  /** Surviving tokens, each placed but for slashes that joined. */
  ghost predicate Solid(ks: seq<Token>) {
    ks == [] ||
    (&& (match ks[0]
         case Plain(c) => !IsQuote(c) && !IsBlank(c)
         case Lit(s) => Placed(ks[0], Flatten(ks[1..]))
         case Noise(_) => false)
     && Solid(ks[1..]))
  }

  lemma {:induction false} KeptOfPlaced(ts: seq<Token>)
    requires Separated(ts)
    ensures Solid(Kept(ts))
    ensures Flatten(ts) == "" ==> Flatten(Kept(ts)) == ""
    ensures Flatten(ts) == "\\" ==> Flatten(Kept(ts)) == "\\"
  {
    if ts != [] {
      KeptOfPlaced(ts[1..]);
      assert Flatten(ts) == Text(ts[0]) + Flatten(ts[1..]);
      assert !ts[0].Noise? ==> Kept(ts)[1..] == Kept(ts[1..]);
      assert !ts[0].Noise? ==> Flatten(Kept(ts)) == Text(ts[0]) + Flatten(Kept(ts[1..]));
      assert Text(ts[0]) != "";
      if Flatten(ts) == "\\" {
        assert Flatten(ts)[0] == Text(ts[0])[0] == '\\';
        assert ts[0] == Plain('\\');
        assert Flatten(ts[1..]) == "";
      }
    }
  }

  lemma FirstChar(ks: seq<Token>)
    requires Solid(ks) && ks != []
    ensures Flatten(ks) != ""
    ensures ks[0].Plain? ==> Flatten(ks)[0] == ks[0].c
    ensures ks[0].Lit? ==> IsQuote(Flatten(ks)[0])
  {
  }

  lemma {:induction false} SolidSeparated(ks: seq<Token>)
    requires Solid(ks) && !Joins(ks)
    ensures Separated(ks)
  {
    if ks != [] {
      SolidSeparated(ks[1..]);
      if ks[1..] != [] {
        FirstChar(ks[1..]);
      }
    }
  }

  lemma {:induction false} NormShrinks(s: string)
    ensures |Norm(s)| <= |s|
    decreases |s|
  {
    if s != "" {
      NormHead(s);
      NormShrinks(s[|Text(Head(s))|..]);
    }
  }

  /** Joined slashes read as a comment, and a comment costs characters. */
  lemma {:induction false} JoinedShrinks(ks: seq<Token>)
    requires Solid(ks) && Joins(ks)
    ensures |Norm(Flatten(ks))| < |Flatten(ks)|
  {
    var s, rest := Flatten(ks), Flatten(ks[1..]);
    FirstChar(ks[1..]);
    assert s == Text(ks[0]) + rest;
    NormHead(s);
    if ks[0] == Plain('/') && (ks[1] == Plain('/') || ks[1] == Plain('*')) {
      assert s[0] == '/' && s[1] == rest[0];
      NormShrinks(s[|Text(Head(s))|..]);
    } else {
      assert Placed(ks[0], rest);
      PlacedHead(ks[0], rest);
      assert s[|Text(ks[0])|..] == rest;
      JoinedShrinks(ks[1..]);
    }
  }

  /** Fingerprinting twice changes nothing exactly when no surviving slash meets a slash or star. */
  lemma IdempotentIff(s: string)
    ensures Norm(Norm(s)) == Norm(s) <==> !Joins(Kept(Scan(s)))
  {
    var ks := Kept(Scan(s));
    ScanIsSeparated(s);
    KeptOfPlaced(Scan(s));
    KeepKept(Scan(s));
    if Joins(ks) {
      JoinedShrinks(ks);
    } else {
      SolidSeparated(ks);
      NormOfSeparated(ks);
    }
  }

  /** The smallest source that is not a fixed point: two slashes a space apart. */
  lemma SpacedSlashes()
    ensures Norm("/ /") == "//" && Norm("//") == ""
  {
    SpacedPair('/', "/");
    assert ['/'] + ([' '] + "/") == "/ /" && ['/'] + "/" == "//";
    CommentToEnd("");
    assert "//" + "" == "//";
  }

  /** A blank between a slash and one more character: both stay, and now stand together. */
  lemma SpacedPair(c: char, rest: string)
    requires c == '/' && rest == ['/']
    ensures Norm([c] + ([' '] + rest)) == [c] + rest
  {
    var tail := [' '] + rest;
    assert tail[0] == ' ';
    DropPlaced(Plain(c), tail);
    WhitespaceGone(' ', rest);
    PrintableKept('/');
  }

  /** A line comment without a newline takes the rest of the source. */
  lemma CommentToEnd(body: string)
    requires forall i :: 0 <= i < |body| ==> body[i] != '\n'
    ensures Norm("//" + body) == ""
  {
    var l := "//" + body;
    assert l[2..] == body && l[0] == '/' && l[1] == '/';
    DropPlaced(Noise(l), "");
    assert l + "" == l;
  }

  // ---------- the classes, character by character ----------

  /** Space, tab, newline, vertical tab, form feed and carriage return vanish wherever the scanner stands. */
  lemma WhitespaceGone(c: char, rest: string)
    requires c == ' ' || c == '\t' || c == '\n' || c == '\U{0B}' || c == '\U{0C}' || c == '\r'
    ensures Norm([c] + rest) == Norm(rest)
  {
    var s := [c] + rest;
    assert s[1..] == rest;
    BlankDrops(s);
  }

  /** A blank added between two tokens changes nothing as long as neither is read differently for it. */
  lemma WhitespaceBetween(s: string, ts: seq<Token>, us: seq<Token>, c: char)
    requires c == ' ' || c == '\t' || c == '\n' || c == '\r'
    requires Scan(s) == ts + us && Separated(ts + [Noise([c])] + us)
    ensures Norm(Flatten(ts + [Noise([c])] + us)) == Norm(s)
  {
    KeptOfParts(ts, [Noise([c])] + us);
    KeptOfParts(ts, us);
    assert ts + [Noise([c])] + us == ts + ([Noise([c])] + us);
    assert ([Noise([c])] + us)[1..] == us;
    FingerprintInvariance(s, ts + [Noise([c])] + us);
  }

  lemma {:induction false} KeptOfParts(ts: seq<Token>, us: seq<Token>)
    ensures Kept(ts + us) == Kept(ts) + Kept(us)
  {
    if ts == [] {
      assert ts + us == us;
    } else {
      assert (ts + us)[1..] == ts[1..] + us;
      KeptOfParts(ts[1..], us);
    }
  }

  /** Any other printable ASCII character but a quote stands for itself, alone. */
  lemma PrintableKept(c: char)
    requires '!' <= c <= '~' && c != '"' && c != '\''
    ensures Norm([c]) == [c]
  {
    var ts := [Plain(c)];
    assert ts[1..] == [];
    assert Flatten(ts) == [c] && Separated(ts);
    NormOfSeparated(ts);
    assert Keep(ts) == [c];
  }

  /** A line comment goes, its newline included. */
  lemma LineCommentGone(body: string, rest: string)
    requires forall i :: 0 <= i < |body| ==> body[i] != '\n'
    ensures Norm("//" + body + "\n" + rest) == Norm(rest)
  {
    var l := "//" + body;
    var tail := "\n" + rest;
    assert l[2..] == body && l[0] == '/' && l[1] == '/' && tail[0] == '\n';
    DropPlaced(Noise(l), tail);
    assert "//" + body + "\n" + rest == l + tail;
    WhitespaceGone('\n', rest);
  }

  /** A block comment goes, up to the first terminator. */
  lemma BlockCommentGone(body: string, rest: string)
    requires forall i :: 0 <= i < |body| - 1 ==> !(body[i] == '*' && body[i + 1] == '/')
    ensures Norm("/*" + body + "*/" + rest) == Norm(rest)
  {
    var l := "/*" + body + "*/";
    assert l[0] == '/' && l[1] == '*' && l[2..] == body + "*/";
    ClosesAtEnd(body);
    DropPlaced(Noise(l), rest);
  }

  lemma {:induction false} ClosesAtEnd(body: string)
    requires forall i :: 0 <= i < |body| - 1 ==> !(body[i] == '*' && body[i + 1] == '/')
    ensures ClosedBlock(body + "*/")
  {
    var t := body + "*/";
    if body == "" {
      assert t == "*/";
    } else {
      assert t[0] == body[0] && t[1] == (if |body| > 1 then body[1] else '*');
      assert t[1..] == body[1..] + "*/";
      assert forall i :: 0 <= i < |body| - 1 ==> body[1..][i] == body[i + 1];
      ClosesAtEnd(body[1..]);
    }
  }

  /** A token the scanner reads as it stands, in front of the rest. */
  lemma DropPlaced(t: Token, rest: string)
    requires Placed(t, rest) && !(t.Noise? && Blanks(t.text))
    ensures Norm(Text(t) + rest) == KeptText(t) + Norm(rest)
  {
    PlacedHead(t, rest);
    NormHead(Text(t) + rest);
    assert (Text(t) + rest)[|Text(t)|..] == rest;
  }

  /** A string or character literal without escapes stays verbatim, whatever it holds. */
  lemma LiteralKept(q: char, body: string, rest: string)
    requires q == '"' || q == '\''
    requires forall i :: 0 <= i < |body| ==> body[i] != q && body[i] != '\\'
    ensures Norm([q] + body + [q] + rest) == [q] + body + [q] + Norm(rest)
  {
    var l := [q] + body + [q];
    assert l[0] == q && l[1..] == body + [q];
    ClosesAtQuote(q, body);
    DropPlaced(Lit(l), rest);
    assert [q] + body + [q] + rest == l + rest;
  }

  lemma {:induction false} ClosesAtQuote(q: char, body: string)
    requires q != '\\' && forall i :: 0 <= i < |body| ==> body[i] != q && body[i] != '\\'
    ensures Closed(body + [q], q)
  {
    var t := body + [q];
    if body == "" {
      assert t == [q];
    } else {
      assert t[0] == body[0] && t[1..] == body[1..] + [q];
      ClosesAtQuote(q, body[1..]);
    }
  }

  /** An escaped quote does not end a literal. */
  lemma EscapeKept(q: char, c: char, rest: string)
    requires q == '"' || q == '\''
    ensures Norm([q, '\\', c, q] + rest) == [q, '\\', c, q] + Norm(rest)
  {
    var l := [q, '\\', c, q];
    assert l[1..][0] == '\\' && l[1..][2..] == [q];
    assert Closed([q], q);
    DropPlaced(Lit(l), rest);
  }
}
