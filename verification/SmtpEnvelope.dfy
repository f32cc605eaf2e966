/** The raw SMTP envelope: a path scanner that respects quoted strings, and the
    line parser over what the tee buffer captured. Text is ASCII. */
module SmtpEnvelope {
  import opened Prelude
  import opened Matcher
  import opened FrontEnds

  const MAIL_PREFIX := "MAIL FROM:"
  const RCPT_PREFIX := "RCPT TO:"

  // The grammar of paths (section 4.1.2 of RFC 5321)

  /** A character of a quoted string: plain, or behind a backslash. */
  datatype QChar = Quoted(c: char) | Escaped(c: char)

  /** A path is made of bare characters and quoted strings. */
  datatype Piece = Bare(c: char) | QuotedString(body: seq<QChar>)

  predicate WfBody(body: seq<QChar>) {
    forall i :: 0 <= i < |body| ==> (body[i].Quoted? ==> body[i].c != '"' && body[i].c != '\\')
  }

  predicate WfPiece(p: Piece) {
    match p case Bare(c) => c != '"' && c != '>' case QuotedString(body) => WfBody(body)
  }

  predicate WfPath(path: seq<Piece>) {
    forall i :: 0 <= i < |path| ==> WfPiece(path[i])
  }

  function RenderChar(q: QChar): Text {
    match q case Quoted(c) => [c] case Escaped(c) => ['\\', c]
  }

  function RenderBody(body: seq<QChar>): Text {
    if body == [] then [] else RenderChar(body[0]) + RenderBody(body[1..])
  }

  function RenderPiece(p: Piece): Text {
    match p case Bare(c) => [c] case QuotedString(body) => "\"" + RenderBody(body) + "\""
  }

  function RenderPath(path: seq<Piece>): Text {
    if path == [] then [] else RenderPiece(path[0]) + RenderPath(path[1..])
  }

  // extractRawPath

  /** Where the scan of `s` finds the closing bracket. */
  function Close(s: Text, inQuote: bool): (end: Option<nat>)
    ensures end.Some? ==> end.value < |s|
    decreases |s|
  {
    if s == [] then None
    else if s[0] == '\\' && inQuote then if |s| == 1 then None else Later(Close(s[2..], inQuote), 2)
    else if s[0] == '"' then Later(Close(s[1..], !inQuote), 1)
    else if s[0] == '>' && !inQuote then Some(0)
    else Later(Close(s[1..], inQuote), 1)
  }

  function Later(end: Option<nat>, n: nat): (r: Option<nat>)
    ensures end.Some? ==> r == Some(end.value + n)
    ensures end.None? ==> r == None
  {
    match end case Some(i) => Some(i + n) case None => None
  }

  predicate HasPrefix(s: Text, prefix: Text) {
    |prefix| <= |s| && s[..|prefix|] == prefix
  }

  function RawPath(param: Text): Text {
    ScanPath(TrimSpace(param))
  }

  function ScanPath(s: Text): Text {
    var start := IndexOf(s, '<');
    if HasPrefix(s, "<>") || start == |s| then ""
    else
      var inner := s[start + 1..];
      match Close(inner, false)
      case Some(end) => inner[..end]
      case None => ""
  }

  method ExtractRawPath(param: Text) returns (path: Text)
    ensures path == RawPath(param)
  {
    var s := TrimSpace(param);
    if HasPrefix(s, "<>") {
      return "";
    }
    var start := IndexOf(s, '<');
    if start == |s| {
      return "";
    }
    var inner := s[start + 1..];
    assert inner[0..] == inner;
    var inQuote := false;
    var i := 0;
    while i < |inner|
      invariant 0 <= i
      invariant CloseFrom(inner, i, inQuote) == Close(inner, false)
    {
      CloseStep(inner, i, inQuote);
      if inner[i] == '\\' && inQuote {
        i := i + 1;
      } else if inner[i] == '"' {
        inQuote := !inQuote;
      } else if inner[i] == '>' && !inQuote {
        return inner[..i];
      }
      i := i + 1;
    }
    path := "";
  }

  /** The scan of `s` from position `i` on. */
  function CloseFrom(s: Text, i: nat, inQuote: bool): Option<nat> {
    if i >= |s| then None else Later(Close(s[i..], inQuote), i)
  }

  lemma CloseStep(s: Text, i: nat, inQuote: bool)
    requires i < |s|
    ensures CloseFrom(s, i, inQuote) ==
            if s[i] == '\\' && inQuote then CloseFrom(s, i + 2, inQuote)
            else if s[i] == '"' then CloseFrom(s, i + 1, !inQuote)
            else if s[i] == '>' && !inQuote then Some(i)
            else CloseFrom(s, i + 1, inQuote)
  {
    assert s[i..][1..] == s[i + 1..];
    if i + 1 < |s| {
      assert s[i..][2..] == s[i + 2..];
    }
  }

  // What the scan accepts is exactly the grammar

  lemma CloseCons(c: char, t: Text, inQuote: bool)
    ensures c == '"' ==> Close([c] + t, inQuote) == Later(Close(t, !inQuote), 1)
    ensures c == '>' && !inQuote ==> Close([c] + t, inQuote) == Some(0)
    ensures c != '"' && (c != '>' || inQuote) && (c != '\\' || !inQuote) ==> Close([c] + t, inQuote) == Later(Close(t, inQuote), 1)
  {
    assert ([c] + t)[1..] == t;
  }

  lemma CloseChar(q: QChar, t: Text)
    requires WfBody([q])
    ensures Close(RenderChar(q) + t, true) == Later(Close(t, true), |RenderChar(q)|)
  {
    assert [q][0] == q;
    match q
    case Quoted(c) => CloseCons(c, t, true);
    case Escaped(c) => assert (['\\', c] + t)[2..] == t;
  }

  lemma {:induction false} CloseBody(body: seq<QChar>, t: Text)
    requires WfBody(body)
    ensures Close(RenderBody(body) + t, true) == Later(Close(t, true), |RenderBody(body)|)
    decreases |body|
  {
    if body == [] {
      assert RenderBody(body) + t == t;
    } else {
      var q, rest := RenderChar(body[0]), RenderBody(body[1..]);
      Associate(q, rest, t);
      CloseChar(body[0], rest + t);
      CloseBody(body[1..], t);
    }
  }

  lemma ClosePiece(p: Piece, t: Text)
    requires WfPiece(p)
    ensures Close(RenderPiece(p) + t, false) == Later(Close(t, false), |RenderPiece(p)|)
  {
    match p
    case Bare(c) => CloseCons(c, t, false);
    case QuotedString(body) =>
      var b := RenderBody(body);
      Associate(['"'] + b, ['"'], t);
      Associate(['"'], b, ['"'] + t);
      CloseCons('"', b + (['"'] + t), false);
      CloseBody(body, ['"'] + t);
      CloseCons('"', t, true);
  }

  lemma {:induction false} ClosePath(path: seq<Piece>, t: Text)
    requires WfPath(path)
    ensures Close(RenderPath(path) + t, false) == Later(Close(t, false), |RenderPath(path)|)
    decreases |path|
  {
    if path == [] {
      assert RenderPath(path) + t == t;
    } else {
      var p, rest := RenderPiece(path[0]), RenderPath(path[1..]);
      Associate(p, rest, t);
      ClosePiece(path[0], rest + t);
      ClosePath(path[1..], t);
    }
  }

  /** The pieces of the text a scan passed over before it closed. */
  lemma {:induction false} ScannedPath(s: Text) returns (path: seq<Piece>, rest: Text)
    requires Close(s, false).Some?
    ensures WfPath(path) && s == RenderPath(path) + (">" + rest) && Close(s, false) == Some(|RenderPath(path)|)
    decreases |s|
  {
    var c, t := s[0], s[1..];
    assert s == [c] + t;
    CloseCons(c, t, false);
    if c == '>' {
      path, rest := [], t;
    } else if c == '"' {
      var body, tail;
      body, tail, rest := ScannedBody(t);
      path := [QuotedString(body)] + tail;
      PathCons(QuotedString(body), tail);
      QuotedParts(RenderBody(body), RenderPath(tail), ">" + rest);
    } else {
      var tail;
      tail, rest := ScannedPath(t);
      path := [Bare(c)] + tail;
      PathCons(Bare(c), tail);
      Associate([c], RenderPath(tail), ">" + rest);
    }
  }

  lemma {:induction false} ScannedBody(s: Text) returns (body: seq<QChar>, path: seq<Piece>, rest: Text)
    requires Close(s, true).Some?
    ensures WfBody(body) && WfPath(path) && s == RenderBody(body) + ("\"" + (RenderPath(path) + (">" + rest)))
    ensures Close(s, true) == Some(|RenderBody(body)| + 1 + |RenderPath(path)|)
    decreases |s|
  {
    var c, t := s[0], s[1..];
    assert s == [c] + t;
    CloseCons(c, t, true);
    if c == '"' {
      body := [];
      path, rest := ScannedPath(t);
    } else {
      var q, u := ScannedChar(s);
      var more;
      more, path, rest := ScannedBody(u);
      body := [q] + more;
      BodyCons(q, more);
      Associate(RenderChar(q), RenderBody(more), "\"" + (RenderPath(path) + (">" + rest)));
    }
  }

  lemma ScannedChar(s: Text) returns (q: QChar, u: Text)
    requires Close(s, true).Some? && s[0] != '"'
    ensures |u| < |s| && WfBody([q]) && s == RenderChar(q) + u && Close(s, true) == Later(Close(u, true), |RenderChar(q)|)
  {
    if s[0] == '\\' {
      q, u := Escaped(s[1]), s[2..];
    } else {
      q, u := Quoted(s[0]), s[1..];
    }
  }

  lemma QuotedParts(body: Text, path: Text, rest: Text)
    ensures ("\"" + body + "\"" + path) + rest == "\"" + (body + ("\"" + (path + rest)))
  {
  }

  lemma BodyCons(q: QChar, rest: seq<QChar>)
    ensures RenderBody([q] + rest) == RenderChar(q) + RenderBody(rest)
    ensures WfBody([q]) && WfBody(rest) ==> WfBody([q] + rest)
  {
    assert ([q] + rest)[1..] == rest && [q][0] == q;
  }

  lemma PathCons(p: Piece, rest: seq<Piece>)
    ensures RenderPath([p] + rest) == RenderPiece(p) + RenderPath(rest)
    ensures WfPiece(p) && WfPath(rest) ==> WfPath([p] + rest)
  {
    assert ([p] + rest)[1..] == rest;
  }

  // Around the path: white space, a gap before it, parameters after it

  lemma {:induction false} TrimLeftKeeps(a: Text, b: Text) returns (x: Text)
    requires b != [] && !IsSpace(b[0])
    ensures TrimLeft(a + b) == x + b && forall c :: c in x ==> c in a
  {
    if a == [] {
      x := [];
      assert a + b == b;
    } else if IsSpace(a[0]) {
      assert (a + b)[1..] == a[1..] + b;
      x := TrimLeftKeeps(a[1..], b);
    } else {
      x := a;
    }
  }

  lemma {:induction false} TrimRightKeeps(b: Text, c: Text) returns (y: Text)
    requires b != [] && !IsSpace(b[|b| - 1])
    ensures TrimRight(b + c) == b + y
  {
    if c == [] {
      y := [];
      assert b + c == b;
    } else if IsSpace(c[|c| - 1]) {
      assert (b + c)[..|b + c| - 1] == b + c[..|c| - 1];
      y := TrimRightKeeps(b, c[..|c| - 1]);
    } else {
      y := c;
    }
  }

  lemma ConsSplit(s: Text, a: Text, b: Text)
    requires s != [] && s[1..] == a + b
    ensures s == [s[0]] + a + b
  {
  }

  lemma SnocSplit(s: Text, a: Text, b: Text)
    requires s != [] && s[..|s| - 1] == a + b
    ensures s == a + (b + [s[|s| - 1]])
  {
  }

  lemma {:induction false} TrimLeftSplit(s: Text) returns (l: Text)
    ensures s == l + TrimLeft(s) && '<' !in l
  {
    if s != [] && IsSpace(s[0]) {
      var rest := TrimLeftSplit(s[1..]);
      l := [s[0]] + rest;
      ConsSplit(s, rest, TrimLeft(s));
    } else {
      l := [];
    }
  }

  lemma {:induction false} TrimRightSplit(s: Text) returns (r: Text)
    ensures s == TrimRight(s) + r
  {
    if s != [] && IsSpace(s[|s| - 1]) {
      var rest := TrimRightSplit(s[..|s| - 1]);
      r := rest + [s[|s| - 1]];
      SnocSplit(s, TrimRight(s), rest);
    } else {
      r := [];
    }
  }

  /** `param` holds `path` in brackets, the first bracket opening it. */
  ghost predicate Bracketed(param: Text, gap: Text, path: seq<Piece>, rest: Text) {
    param == gap + ("<" + RenderPath(path) + ">") + rest && '<' !in gap && WfPath(path)
  }

  lemma RenderStart(path: seq<Piece>)
    requires WfPath(path) && RenderPath(path) != []
    ensures RenderPath(path)[0] != '>'
  {
    assert WfPiece(path[0]);
  }

  lemma FirstBracket(x: Text, t: Text)
    requires '<' !in x && |t| > 1 && t[0] == '<' && t[1] != '>'
    ensures IndexOf(x + t, '<') == |x| && (x + t)[|x| + 1..] == t[1..] && !HasPrefix(x + t, "<>")
  {
    var s := x + t;
    assert s[|x|] == '<' && s[|x| + 1] == t[1];
    assert forall k :: 0 <= k < |x| ==> s[k] == x[k];
    assert s[..2][0] == s[0] && s[..2][1] == s[1];
  }

  lemma CloseBracketed(path: seq<Piece>, y: Text)
    requires WfPath(path)
    ensures Close(RenderPath(path) + (">" + y), false) == Some(|RenderPath(path)|)
  {
    CloseCons('>', y, false);
    ClosePath(path, ">" + y);
  }

  lemma ScanBracketed(x: Text, path: seq<Piece>, y: Text)
    requires WfPath(path) && RenderPath(path) != [] && '<' !in x
    ensures ScanPath(x + ("<" + (RenderPath(path) + (">" + y)))) == RenderPath(path)
  {
    var inner := RenderPath(path) + (">" + y);
    RenderStart(path);
    assert ("<" + inner)[1..] == inner && ("<" + inner)[1] == inner[0] == RenderPath(path)[0];
    FirstBracket(x, "<" + inner);
    CloseBracketed(path, y);
  }

  lemma PathFound(param: Text, gap: Text, path: seq<Piece>, rest: Text)
    requires Bracketed(param, gap, path, rest) && RenderPath(path) != []
    ensures RawPath(param) == RenderPath(path)
  {
    var x, y := TrimBracketed(gap, RenderPath(path), rest);
    ScanBracketed(x, path, y);
  }

  lemma TrimBracketed(gap: Text, r: Text, rest: Text) returns (x: Text, y: Text)
    requires '<' !in gap
    ensures '<' !in x && TrimSpace(gap + ("<" + r + ">") + rest) == x + ("<" + (r + (">" + y)))
  {
    var core := "<" + r + ">";
    assert core[0] == '<' && core[|core| - 1] == '>';
    x := TrimLeftKeeps(gap, core + rest);
    assert gap + core + rest == gap + (core + rest);
    assert (x + core)[|x + core| - 1] == '>' && x + (core + rest) == (x + core) + rest;
    y := TrimRightKeeps(x + core, rest);
    assert (x + core) + y == x + ("<" + (r + (">" + y)));
  }

  lemma ScanGrammatical(s: Text) returns (gap: Text, path: seq<Piece>, rest: Text)
    requires ScanPath(s) != []
    ensures Bracketed(s, gap, path, rest) && RenderPath(path) == ScanPath(s)
  {
    var inner;
    gap, inner := Opening(s);
    path, rest := ScannedPath(inner);
    BracketParts(gap, RenderPath(path), rest);
  }

  lemma Opening(s: Text) returns (gap: Text, inner: Text)
    requires IndexOf(s, '<') < |s|
    ensures gap == s[..IndexOf(s, '<')] && inner == s[IndexOf(s, '<') + 1..]
    ensures s == gap + ("<" + inner) && '<' !in gap
  {
    var start := IndexOf(s, '<');
    gap, inner := s[..start], s[start + 1..];
  }

  lemma BracketParts(gap: Text, path: Text, rest: Text)
    ensures gap + ("<" + (path + (">" + rest))) == gap + ("<" + path + ">") + rest
    ensures (path + (">" + rest))[..|path|] == path
  {
  }

  lemma TrimSpaceSplit(param: Text) returns (l: Text, r: Text)
    ensures param == l + TrimSpace(param) + r && '<' !in l
  {
    l := TrimLeftSplit(param);
    r := TrimRightSplit(TrimLeft(param));
    assert l + (TrimSpace(param) + r) == l + TrimSpace(param) + r;
  }

  lemma PathGrammatical(param: Text)
    requires RawPath(param) != []
    ensures exists gap, path, rest :: Bracketed(param, gap, path, rest) && RenderPath(path) == RawPath(param)
  {
    var l, r := TrimSpaceSplit(param);
    var s := TrimSpace(param);
    var gap, path, rest := ScanGrammatical(s);
    WiderBracketed(s, l, r, gap, path, rest);
  }

  lemma WiderBracketed(s: Text, l: Text, r: Text, gap: Text, path: seq<Piece>, rest: Text)
    requires Bracketed(s, gap, path, rest) && '<' !in l
    ensures Bracketed(l + s + r, l + gap, path, rest + r)
  {
    var core := "<" + RenderPath(path) + ">";
    assert l + (gap + core + rest) + r == (l + gap) + core + (rest + r);
  }

  /** extractRawPath returns exactly the bracketed path of the grammar: any
      text before the first bracket and after the closing one is ignored, a
      '>' inside a quoted string does not close, escapes are kept verbatim. */
  lemma ExtractsExactlyThePath(param: Text, q: Text)
    requires q != []
    ensures RawPath(param) == q <==>
            exists gap, path, rest :: Bracketed(param, gap, path, rest) && RenderPath(path) == q
  {
    if RawPath(param) == q {
      PathGrammatical(param);
    }
    if gap, path, rest :| Bracketed(param, gap, path, rest) && RenderPath(path) == q {
      PathFound(param, gap, path, rest);
    }
  }
}
