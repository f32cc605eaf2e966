/** One SMTP connection: the capped tee buffer fed in arbitrary chunks, the
    line parser over it, and the session that prefers the raw envelope. */
module SmtpSessionModel {
  import opened Prelude
  import opened Matcher
  import opened SmtpEnvelope

  const TEE_MAX := 8192

  // teeConn

  function FirstBytes(s: Text, n: nat): Text {
    if |s| <= n then s else s[..n]
  }

  class TeeConn {
    var buf: Text
    var stopped: bool
    /** Everything read since the last reset and before capturing stopped. */
    ghost var since: Text

    constructor ()
      ensures Valid() && since == "" && !stopped
    {
      buf, stopped, since := "", false, "";
    }

    /** The buffer is the first TEE_MAX bytes of what was read. */
    ghost predicate Valid()
      reads this
    {
      buf == FirstBytes(since, TEE_MAX)
    }

    /** The connection delivered `p`, any number of bytes, none included. */
    method Read(p: Text)
      requires Valid()
      modifies this
      ensures Valid() && stopped == old(stopped)
      ensures since == if stopped then old(since) else old(since) + p
    {
      if |p| > 0 && !stopped && |buf| < TEE_MAX {
        var limit := TEE_MAX - |buf|;
        if |p| < limit {
          limit := |p|;
        }
        buf := buf + p[..limit];
      }
      if !stopped {
        since := since + p;
      }
    }

    method Reset()
      modifies this
      ensures Valid() && since == "" && !stopped
    {
      buf, stopped, since := "", false, "";
    }
  }

  /** However the bytes arrive, the buffer ends up the same. */
  method ReadAll(tee: TeeConn, chunks: seq<Text>)
    requires tee.Valid() && !tee.stopped && tee.since == ""
    modifies tee
    ensures tee.Valid() && !tee.stopped && tee.buf == FirstBytes(Flatten(chunks), TEE_MAX)
  {
    for i := 0 to |chunks|
      invariant tee.Valid() && !tee.stopped && tee.since == Flatten(chunks[..i])
    {
      assert chunks[..i + 1][..i] == chunks[..i];
      tee.Read(chunks[i]);
    }
    assert chunks[..|chunks|] == chunks;
  }

  // parseRawEnvelope

  function UpperChar(c: char): char {
    if 'a' <= c <= 'z' then ((c as int) - 32) as char else c
  }

  function ToUpper(s: Text): (r: Text)
    ensures |r| == |s| && forall i :: 0 <= i < |s| ==> r[i] == UpperChar(s[i])
  {
    seq(|s|, i requires 0 <= i < |s| => UpperChar(s[i]))
  }

  /** strings.Split on newlines: always one piece more than separators. */
  function Lines(s: Text): seq<Text> {
    var i := IndexOf(s, '\n');
    if i == |s| then [s] else [s[..i]] + Lines(s[i + 1..])
  }

  function TrimCR(s: Text): Text {
    if s != [] && s[|s| - 1] == '\r' then TrimCR(s[..|s| - 1]) else s
  }

  predicate IsMail(line: Text) { HasPrefix(ToUpper(line), MAIL_PREFIX) }

  predicate IsRcpt(line: Text) { !IsMail(line) && HasPrefix(ToUpper(line), RCPT_PREFIX) }

  /** The path a line contributes, "" if none. */
  function MailPath(line: Text): Text {
    var l := TrimCR(line);
    if IsMail(l) then RawPath(l[|MAIL_PREFIX|..]) else ""
  }

  function RcptPath(line: Text): Text {
    var l := TrimCR(line);
    if IsRcpt(l) then RawPath(l[|RCPT_PREFIX|..]) else ""
  }

  /** The sender after more lines: the last MAIL path, or the one before. */
  function From(lines: seq<Text>, before: Text): Text {
    if lines == [] then before
    else From(lines[1..], if MailPath(lines[0]) != "" then MailPath(lines[0]) else before)
  }

  function Recipients(lines: seq<Text>): seq<Text> {
    if lines == [] then []
    else (if RcptPath(lines[0]) != "" then [RcptPath(lines[0])] else []) + Recipients(lines[1..])
  }

  lemma FirstLine(l: Text, ls: seq<Text>, before: Text)
    ensures From([l] + ls, before) == From(ls, if MailPath(l) != "" then MailPath(l) else before)
    ensures Recipients([l] + ls) == (if RcptPath(l) != "" then [RcptPath(l)] else []) + Recipients(ls)
  {
    assert ([l] + ls)[1..] == ls;
  }

  /** What one round of the parser's loop leaves to do. */
  lemma LineStep(lines: seq<Text>, i: nat, from: Text, recipients: seq<Text>)
    requires i < |lines|
    ensures From(lines[i..], from) == From(lines[i + 1..], if MailPath(lines[i]) != "" then MailPath(lines[i]) else from)
    ensures recipients + Recipients(lines[i..]) ==
            (recipients + if RcptPath(lines[i]) != "" then [RcptPath(lines[i])] else []) + Recipients(lines[i + 1..])
  {
    var rest := lines[i + 1..];
    assert lines[i..] == [lines[i]] + rest;
    FirstLine(lines[i], rest, from);
    Associate(recipients, if RcptPath(lines[i]) != "" then [RcptPath(lines[i])] else [], Recipients(rest));
  }

  method ParseRawEnvelope(raw: Text) returns (from: Text, recipients: seq<Text>)
    ensures from == From(Lines(raw), "") && recipients == Recipients(Lines(raw))
  {
    from, recipients := "", [];
    var lines := Lines(raw);
    assert lines[0..] == lines;
    for i := 0 to |lines|
      invariant From(lines[i..], from) == From(lines, "")
      invariant recipients + Recipients(lines[i..]) == Recipients(lines)
    {
      LineStep(lines, i, from, recipients);
      from, recipients := ParseLine(lines[i], from, recipients);
    }
  }

  method ParseLine(raw: Text, from0: Text, recipients0: seq<Text>) returns (from: Text, recipients: seq<Text>)
    ensures from == if MailPath(raw) != "" then MailPath(raw) else from0
    ensures recipients == recipients0 + if RcptPath(raw) != "" then [RcptPath(raw)] else []
  {
    from, recipients := from0, recipients0;
    var line := TrimCR(raw);
    if HasPrefix(ToUpper(line), MAIL_PREFIX) {
      var path := ExtractRawPath(line[|MAIL_PREFIX|..]);
      if path != "" {
        from := path;
      }
    } else if HasPrefix(ToUpper(line), RCPT_PREFIX) {
      var path := ExtractRawPath(line[|RCPT_PREFIX|..]);
      if path != "" {
        recipients := recipients + [path];
      }
    }
  }

  // What a client sends

  /** A command line: MAIL or RCPT with the verb in any case, anything that is
      not a bracket before the path and anything after it; or another line. */
  datatype Command =
    | Mail(verb: Text, gap: Text, path: seq<Piece>, params: Text)
    | Rcpt(verb: Text, gap: Text, path: seq<Piece>, params: Text)
    | Other(line: Text)

  function Line(c: Command): Text {
    match c
    case Mail(verb, gap, path, params) => verb + (gap + ("<" + RenderPath(path) + ">") + params)
    case Rcpt(verb, gap, path, params) => verb + (gap + ("<" + RenderPath(path) + ">") + params)
    case Other(line) => line
  }

  predicate WfCommand(c: Command) {
    && '\n' !in Line(c)
    && match c
       case Mail(verb, gap, path, _) => ToUpper(verb) == MAIL_PREFIX && '<' !in gap && WfPath(path) && RenderPath(path) != ""
       case Rcpt(verb, gap, path, _) => ToUpper(verb) == RCPT_PREFIX && '<' !in gap && WfPath(path) && RenderPath(path) != ""
       case Other(line) => !HasPrefix(ToUpper(line), MAIL_PREFIX) && !HasPrefix(ToUpper(line), RCPT_PREFIX)
  }

  function Transcript(cs: seq<Command>): Text {
    if cs == [] then "" else Line(cs[0]) + "\r\n" + Transcript(cs[1..])
  }

  predicate WfCommands(cs: seq<Command>) {
    cs == [] || (WfCommand(cs[0]) && WfCommands(cs[1..]))
  }

  /** The path of the last MAIL, or `before` if there is none. */
  function SentFrom(cs: seq<Command>, before: Text): Text {
    if cs == [] then before else SentFrom(cs[1..], if cs[0].Mail? then RenderPath(cs[0].path) else before)
  }

  function SentTo(cs: seq<Command>): seq<Text> {
    if cs == [] then [] else (if cs[0].Rcpt? then [RenderPath(cs[0].path)] else []) + SentTo(cs[1..])
  }

  /** The pieces strings.Split makes of a transcript, but for the one after its
      last line. */
  function Ended(cs: seq<Command>): seq<Text> {
    if cs == [] then [] else [Line(cs[0]) + "\r"] + Ended(cs[1..])
  }

  // Lines of the transcript

  lemma LinesCons(a: Text, rest: Text)
    requires '\n' !in a
    ensures Lines(a + ("\n" + rest)) == [a] + Lines(rest)
  {
    var s := a + ("\n" + rest);
    assert s[|a|] == '\n' && forall k :: 0 <= k < |a| ==> s[k] == a[k];
    assert IndexOf(s, '\n') == |a|;
    assert s[..|a|] == a && s[|a| + 1..] == rest;
  }

  lemma {:induction false} LinesAhead(cs: seq<Command>, ahead: Text)
    requires WfCommands(cs)
    ensures Lines(Transcript(cs) + ahead) == Ended(cs) + Lines(ahead)
  {
    if cs == [] {
      assert "" + ahead == ahead && [] + Lines(ahead) == Lines(ahead);
    } else {
      var line, rest := Line(cs[0]) + "\r", Transcript(cs[1..]) + ahead;
      assert Transcript(cs) + ahead == line + ("\n" + rest);
      LinesCons(line, rest);
      LinesAhead(cs[1..], ahead);
    }
  }

  // The path of one line

  lemma {:induction false} TrimCRKeeps(b: Text, c: Text) returns (y: Text)
    requires b != [] && b[|b| - 1] != '\r'
    ensures TrimCR(b + c) == b + y
  {
    if c == [] {
      y := [];
      assert b + c == b;
    } else if c[|c| - 1] == '\r' {
      assert (b + c)[..|b + c| - 1] == b + c[..|c| - 1];
      y := TrimCRKeeps(b, c[..|c| - 1]);
    } else {
      y := c;
    }
  }

  lemma {:induction false} TrimCRPrefix(s: Text)
    ensures |TrimCR(s)| <= |s| && TrimCR(s) == s[..|TrimCR(s)|]
  {
    if s != [] && s[|s| - 1] == '\r' {
      TrimCRPrefix(s[..|s| - 1]);
    }
  }

  lemma UpperPrefix(verb: Text, rest: Text)
    ensures ToUpper(verb + rest)[..|verb|] == ToUpper(verb)
  {
  }

  /** What a MAIL or RCPT line looks like when its line ending is gone. */
  lemma TrimmedCommand(verb: Text, gap: Text, path: seq<Piece>, params: Text) returns (rest: Text)
    ensures TrimCR(verb + (gap + ("<" + RenderPath(path) + ">") + params) + "\r")
         == verb + (gap + ("<" + RenderPath(path) + ">") + rest)
  {
    var core := "<" + RenderPath(path) + ">";
    var b := verb + gap + core;
    assert core[|core| - 1] == '>' && b[|b| - 1] == '>';
    Regroup(verb, gap, core, params, "\r");
    rest := TrimCRKeeps(b, params + "\r");
    Regroup(verb, gap, core, rest, "");
  }

  lemma Regroup(a: Text, b: Text, c: Text, d: Text, e: Text)
    ensures a + (b + c + d) + e == a + b + c + (d + e) && d + "" == d && a + (b + c + d) + "" == a + (b + c + d)
  {
  }

  lemma PathOfVerb(verb: Text, gap: Text, path: seq<Piece>, params: Text)
    requires '<' !in gap && WfPath(path) && RenderPath(path) != ""
    ensures var l := TrimCR(verb + (gap + ("<" + RenderPath(path) + ">") + params) + "\r");
            && |l| >= |verb| && ToUpper(l)[..|verb|] == ToUpper(verb) && RawPath(l[|verb|..]) == RenderPath(path)
  {
    var rest := TrimmedCommand(verb, gap, path, params);
    var param := gap + ("<" + RenderPath(path) + ">") + rest;
    UpperPrefix(verb, param);
    assert (verb + param)[|verb|..] == param;
    assert Bracketed(param, gap, path, rest);
    PathFound(param, gap, path, rest);
  }

  lemma MailLine(c: Command)
    requires WfCommand(c) && c.Mail?
    ensures MailPath(Line(c) + "\r") == RenderPath(c.path) && RcptPath(Line(c) + "\r") == ""
  {
    PathOfVerb(c.verb, c.gap, c.path, c.params);
  }

  lemma RcptLine(c: Command)
    requires WfCommand(c) && c.Rcpt?
    ensures MailPath(Line(c) + "\r") == "" && RcptPath(Line(c) + "\r") == RenderPath(c.path)
  {
    PathOfVerb(c.verb, c.gap, c.path, c.params);
    NotMail(TrimCR(Line(c) + "\r"));
  }

  lemma NotMail(l: Text)
    requires HasPrefix(ToUpper(l), RCPT_PREFIX)
    ensures !IsMail(l)
  {
    assert ToUpper(l)[..|RCPT_PREFIX|][0] == ToUpper(l)[0] == 'R';
    if |l| >= |MAIL_PREFIX| {
      assert ToUpper(l)[..|MAIL_PREFIX|][0] == 'R';
    }
  }

  lemma PrefixShorter(s: Text, n: nat, prefix: Text)
    requires n <= |s| && HasPrefix(ToUpper(s[..n]), prefix)
    ensures HasPrefix(ToUpper(s), prefix)
  {
    assert s == s[..n] + s[n..];
    UpperPrefix(s[..n], s[n..]);
    assert ToUpper(s)[..n][..|prefix|] == ToUpper(s)[..|prefix|];
  }

  lemma OtherLine(c: Command)
    requires WfCommand(c) && c.Other?
    ensures MailPath(Line(c) + "\r") == "" && RcptPath(Line(c) + "\r") == ""
  {
    var s := c.line + "\r";
    assert s[..|s| - 1] == c.line;
    assert TrimCR(s) == TrimCR(c.line);
    TrimCRPrefix(c.line);
    var n := |TrimCR(c.line)|;
    if HasPrefix(ToUpper(c.line[..n]), MAIL_PREFIX) {
      PrefixShorter(c.line, n, MAIL_PREFIX);
    } else if HasPrefix(ToUpper(c.line[..n]), RCPT_PREFIX) {
      PrefixShorter(c.line, n, RCPT_PREFIX);
    }
  }

  lemma CommandLine(c: Command)
    requires WfCommand(c)
    ensures MailPath(Line(c) + "\r") == if c.Mail? then RenderPath(c.path) else ""
    ensures RcptPath(Line(c) + "\r") == if c.Rcpt? then RenderPath(c.path) else ""
  {
    match c
    case Mail(_, _, _, _) => MailLine(c);
    case Rcpt(_, _, _, _) => RcptLine(c);
    case Other(_) => OtherLine(c);
  }

  /** One command in front of any lines. */
  lemma CommandAhead(c: Command, lines: seq<Text>, before: Text)
    requires WfCommand(c)
    ensures From([Line(c) + "\r"] + lines, before) == From(lines, if c.Mail? then RenderPath(c.path) else before)
    ensures Recipients([Line(c) + "\r"] + lines) == (if c.Rcpt? then [RenderPath(c.path)] else []) + Recipients(lines)
  {
    CommandLine(c);
    FirstLine(Line(c) + "\r", lines, before);
  }

  lemma {:induction false} SenderAhead(cs: seq<Command>, lines: seq<Text>, before: Text)
    requires WfCommands(cs)
    ensures From(Ended(cs) + lines, before) == From(lines, SentFrom(cs, before))
    decreases cs
  {
    if cs == [] {
      assert [] + lines == lines;
    } else {
      Associate([Line(cs[0]) + "\r"], Ended(cs[1..]), lines);
      CommandAhead(cs[0], Ended(cs[1..]) + lines, before);
      SenderAhead(cs[1..], lines, if cs[0].Mail? then RenderPath(cs[0].path) else before);
    }
  }

  lemma {:induction false} RecipientsAhead(cs: seq<Command>, lines: seq<Text>)
    requires WfCommands(cs)
    ensures Recipients(Ended(cs) + lines) == SentTo(cs) + Recipients(lines)
    decreases cs
  {
    if cs == [] {
      assert [] + lines == lines && [] + Recipients(lines) == Recipients(lines);
    } else {
      Associate([Line(cs[0]) + "\r"], Ended(cs[1..]), lines);
      CommandAhead(cs[0], Ended(cs[1..]) + lines, "");
      RecipientsAhead(cs[1..], lines);
      Associate(if cs[0].Rcpt? then [RenderPath(cs[0].path)] else [], SentTo(cs[1..]), Recipients(lines));
    }
  }

  /** A MAIL that no later one follows names the sender. */
  lemma {:induction false} LastMail(cs: seq<Command>, i: nat, before: Text)
    requires i < |cs| && cs[i].Mail? && forall j :: i < j < |cs| ==> !cs[j].Mail?
    ensures SentFrom(cs, before) == RenderPath(cs[i].path)
    decreases cs
  {
    var next := if cs[0].Mail? then RenderPath(cs[0].path) else before;
    if i == 0 {
      NoMail(cs[1..], next);
    } else {
      LastMail(cs[1..], i - 1, next);
    }
  }

  lemma {:induction false} NoMail(cs: seq<Command>, before: Text)
    requires forall j :: 0 <= j < |cs| ==> !cs[j].Mail?
    ensures SentFrom(cs, before) == before
    decreases cs
  {
    if cs != [] {
      NoMail(cs[1..], before);
    }
  }

  /** What came in the same read as the DATA command is captured too: lines of
      it that look like MAIL or RCPT are taken for the envelope's, after those
      the client sent. */
  lemma ReadAhead(cs: seq<Command>, ahead: Text, chunks: seq<Text>)
    requires WfCommands(cs) && Flatten(chunks) == Transcript(cs) + ahead && |Transcript(cs) + ahead| <= TEE_MAX
    ensures var captured := FirstBytes(Flatten(chunks), TEE_MAX);
            && From(Lines(captured), "") == From(Lines(ahead), SentFrom(cs, ""))
            && Recipients(Lines(captured)) == SentTo(cs) + Recipients(Lines(ahead))
  {
    LinesAhead(cs, ahead);
    SenderAhead(cs, Lines(ahead), "");
    RecipientsAhead(cs, Lines(ahead));
  }

  /** Round trip: a transcript of MAIL and RCPT lines with quote-balanced paths
      among any other lines, delivered in any chunks and within the cap, gives
      back the path of the last MAIL and every RCPT path, in order. */
  lemma EnvelopeRoundTrip(cs: seq<Command>, chunks: seq<Text>)
    requires WfCommands(cs) && Flatten(chunks) == Transcript(cs) && |Transcript(cs)| <= TEE_MAX
    ensures var captured := FirstBytes(Flatten(chunks), TEE_MAX);
            From(Lines(captured), "") == SentFrom(cs, "") && Recipients(Lines(captured)) == SentTo(cs)
  {
    assert Transcript(cs) + "" == Transcript(cs) && Lines("") == [""];
    ReadAhead(cs, "", chunks);
    FirstLine("", [], SentFrom(cs, ""));
    assert MailPath("") == "" && RcptPath("") == "" && [""] + [] == [""] && SentTo(cs) + [] == SentTo(cs);
  }

  // smtpSession

  class SmtpSession {
    var from: Text
    var recipients: seq<Text>
    const tee: TeeConn?

    constructor (tee: TeeConn?)
      ensures this.tee == tee && from == "" && recipients == []
    {
      this.tee, from, recipients := tee, "", [];
    }

    /** go-smtp's parsed MAIL and RCPT arguments, the fallback. */
    method Mail(path: Text)
      modifies `from
      ensures from == path
    {
      from := path;
    }

    method Rcpt(path: Text)
      modifies `recipients
      ensures recipients == old(recipients) + [path]
    {
      recipients := recipients + [path];
    }

    /** The envelope a DATA command is stored under: the raw one as far as it
        was found. Capturing stops here, before the body is read. */
    method Envelope() returns (sender: Text, to: seq<Text>)
      requires tee != null ==> tee.Valid()
      modifies tee
      ensures tee != null ==> tee.Valid() && tee.stopped && tee.buf == old(tee.buf)
      ensures tee == null ==> sender == from && to == recipients
      ensures tee != null ==>
                && sender == (if From(Lines(old(tee.buf)), "") != "" then From(Lines(old(tee.buf)), "") else from)
                && to == if Recipients(Lines(old(tee.buf))) != [] then Recipients(Lines(old(tee.buf))) else recipients
    {
      sender, to := from, recipients;
      if tee != null {
        var rawFrom, rawRecipients := ParseRawEnvelope(tee.buf);
        tee.stopped := true;
        if rawFrom != "" {
          sender := rawFrom;
        }
        if |rawRecipients| > 0 {
          to := rawRecipients;
        }
      }
    }

    method Reset()
      modifies this, tee
      ensures from == "" && recipients == []
      ensures tee != null ==> tee.Valid() && tee.since == "" && !tee.stopped
    {
      from, recipients := "", [];
      if tee != null {
        tee.Reset();
      }
    }
  }
}
