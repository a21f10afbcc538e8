// Printing a content as a session description and parsing it into a fresh content:
// what comes back, and exactly which contents come back unchanged.

module SdpRoundTrip {
  import opened Wrappers
  import opened Text
  import opened Hex
  import opened JingleCandidates
  import opened SdpParameters
  import opened Sdp
  import opened SdpReading

  // ------------------------------------------------------------------- conditions

  predicate SafeParams(ps: seq<Param>) {
    forall q :: q in ps ==> Lacks(q.key, '\n') && Lacks(q.value, '\n')
  }

  predicate SafePayload(p: Payload) {
    Lacks(p.name, '\n') && Lacks(p.name, ' ') && Lacks(p.name, '/') && SafeParams(p.parameters)
  }

  predicate SafeCandidate(c: Candidate) { Printable(c) && CandidateLacksNewline(c) }

  predicate SafePayloads(ps: seq<Payload>) { forall p :: p in ps ==> SafePayload(p) }

  predicate SafeTransport(c: Content) {
    && Lacks(c.user, '\n') && Lacks(c.password, '\n') && Lacks(c.fingerprintSetup, '\n')
    && Lacks(c.fingerprintHash, '\n') && Lacks(c.fingerprintHash, ' ')
    && (forall candidate :: candidate in c.candidates ==> SafeCandidate(candidate))
  }

  /** No field holds a character that ends it early in the text. */
  predicate LineSafe(c: Content) {
    && Lacks(c.media, '\n') && Lacks(c.media, ' ')
    && SafePayloads(c.payloads)
    && SafeTransport(c)
  }

  /** Payloads that repeat an identifier repeat everything. */
  predicate SameIdsAgree(ps: seq<Payload>) {
    forall i, j :: 0 <= i < j < |ps| && ps[i].id == ps[j].id ==> ps[i] == ps[j]
  }

  predicate RestorablePayload(p: Payload) {
    && 1 <= p.channels <= 127
    && if p.name == TELEPHONE_EVENT
       then p.parameters == [] || (|p.parameters| == 1 && p.parameters[0].key == "events")
       else CleanParams(p.parameters)
  }

  /** The contents a session description carries in full. */
  predicate Restorable(c: Content) {
    && LineSafe(c)
    && SameIdsAgree(c.payloads) && (forall p :: p in c.payloads ==> RestorablePayload(p))
    && c.ssrc == 0
    && c.transportType == (if c.candidates == [] then "" else NS_JINGLE_ICE_UDP)
    && (c.fingerprint == [] <==> c.fingerprintHash == "")
  }

  // ------------------------------------------------------------- what comes back

  function ReadBackParams(p: Payload): seq<Param> {
    if PayloadParams(p) == [] then [] else SetFmtp(p, Join(PayloadParams(p), "; ")).parameters
  }

  function ReadBack(p: Payload): Payload {
    p.(channels := if p.channels > 1 then UInt8OrZero(Number(p.channels)) else 1, parameters := ReadBackParams(p))
  }

  /** What the lines of payload q make of a payload p read before: they apply to every payload of that identifier. */
  function Update(p: Payload, q: Payload): Payload {
    if p.id != q.id then p
    else
      p.(name := q.name, clockrate := q.clockrate,
         channels := if q.channels > 1 then UInt8OrZero(Number(q.channels)) else p.channels,
         parameters := if PayloadParams(q) == [] then p.parameters else ReadBackParams(q))
  }

  /** A payload of this identifier after the lines of all these payloads. */
  function Combined(id: UInt8, ps: seq<Payload>): Payload {
    if ps == [] then FreshPayload(id) else Update(Combined(id, ps[..|ps| - 1]), ps[|ps| - 1])
  }

  function ReadBackAll(ps: seq<Payload>): seq<Payload> { Partly(ps, |ps|) }

  /** The payload list after the lines of the first k payloads. */
  function Partly(ps: seq<Payload>, k: nat): seq<Payload>
    requires k <= |ps|
  {
    seq(|ps|, i requires 0 <= i < |ps| => Combined(ps[i].id, ps[..k]))
  }

  function FreshAll(ps: seq<Payload>): seq<Payload> {
    seq(|ps|, k requires 0 <= k < |ps| => FreshPayload(ps[k].id))
  }

  function ReadBackContent(c: Content): Content {
    var both := c.fingerprint != [] && c.fingerprintHash != "";
    c.(payloads := ReadBackAll(c.payloads), ssrc := 0,
       transportType := if c.candidates == [] then "" else NS_JINGLE_ICE_UDP,
       fingerprint := if both then c.fingerprint else [],
       fingerprintHash := if both then c.fingerprintHash else "")
  }

  // ---------------------------------------------------------- from text to lines

  function ParseClean(p: Parser, lines: seq<string>): Option<Parser>
    decreases |lines|
  {
    if lines == [] then Some(p)
    else match ParseLine(p, lines[0])
      case None => None
      case Some(p') => ParseClean(p', lines[1..])
  }

  lemma {:induction false} ParseCleanConcat(p: Parser, a: seq<string>, b: seq<string>)
    ensures ParseClean(p, a + b) == match ParseClean(p, a) case None => None case Some(q) => ParseClean(q, b)
    decreases |a|
  {
    if a == [] {
      assert a + b == b;
    } else {
      assert (a + b)[1..] == a[1..] + b;
      match ParseLine(p, a[0])
      case None =>
      case Some(q) => ParseCleanConcat(q, a[1..], b);
    }
  }

  function Terminated(lines: seq<string>): string {
    if lines == [] then "" else lines[0] + "\r\n" + Terminated(lines[1..])
  }

  lemma {:induction false} JoinIsTerminated(lines: seq<string>)
    requires lines != []
    ensures Join(lines, "\r\n") + "\r\n" == Terminated(lines)
  {
    if |lines| == 1 {
      assert Terminated(lines[1..]) == "";
      assert Terminated(lines) == lines[0] + "\r\n";
    } else {
      JoinIsTerminated(lines[1..]);
      assert Join(lines, "\r\n") == lines[0] + "\r\n" + Join(lines[1..], "\r\n");
    }
  }

  lemma EmptyLineIsSkipped(p: Parser)
    ensures ParseLine(p, "") == Some(p)
  {}

  /** Splitting the text at line feeds and stripping carriage returns recovers the lines. */
  lemma {:induction false} ParseTerminated(p: Parser, lines: seq<string>)
    requires forall line :: line in lines ==> Lacks(line, '\n')
    ensures ParseLines(p, Split(Terminated(lines), '\n')).0 <==> ParseClean(p, lines).Some?
    ensures ParseClean(p, lines).Some? ==> ParseLines(p, Split(Terminated(lines), '\n')).1 == ParseClean(p, lines).value
    decreases |lines|
  {
    hide ParseLine;
    if lines == [] {
      EmptyLineIsSkipped(p);
      assert Split("", '\n') == [""] && StripCr("") == "";
      assert [""][1..] == [];
    } else {
      var line := lines[0];
      assert line in lines && Lacks(line + "\r", '\n');
      assert Terminated(lines) == (line + "\r") + ['\n'] + Terminated(lines[1..]);
      SplitPrefix(line + "\r", '\n', Terminated(lines[1..]));
      var split := Split(Terminated(lines), '\n');
      assert split[0] == line + "\r" && split[1..] == Split(Terminated(lines[1..]), '\n');
      assert StripCr(line + "\r") == line;
      match ParseLine(p, line)
      case None =>
      case Some(q) => ParseTerminated(q, lines[1..]);
    }
  }

  // ------------------------------------------------------------- attribute lines

  lemma MediaLineWords(c: Content, port: UInt16)
    requires Lacks(c.media, ' ')
    ensures StartsWith(MediaLine(c, port), "m=") && !StartsWith(MediaLine(c, port), "a=")
    ensures Split(MediaLine(c, port)[2..], ' ') == [c.media, Number(port), "RTP/AVP"] + NumbersOf(c.payloads)
  {
    hide Split, Number, IdList, NumbersOf;
    var head := c.media + " " + Number(port) + " RTP/AVP";
    var line := MediaLine(c, port);
    assert line == "m=" + (head + IdList(c.payloads));
    assert line[..2] == "m=" && line[2..] == head + IdList(c.payloads);
    SplitHead(c.media, Number(port), port);
    SplitIds(head, c.payloads);
  }

  lemma MediaStage(c: Content, port: UInt16)
    requires Lacks(c.media, ' ')
    ensures ParseLine(Parser(FreshContent(), []), MediaLine(c, port))
         == Some(Parser(FreshContent().(media := c.media), FreshAll(c.payloads)))
  {
    var line := MediaLine(c, port);
    MediaLineWords(c, port);
    var words := Split(line[2..], ' ');
    assert words[0] == c.media && words[3..] == NumbersOf(c.payloads);
    WordsGivePayloads(c.payloads);
    assert [] + FreshAll(c.payloads) == FreshAll(c.payloads);
  }

  lemma SplitHead(media: string, number: string, port: UInt16)
    requires Lacks(media, ' ') && number == Number(port)
    ensures Split(media + " " + number + " RTP/AVP", ' ') == [media, number, "RTP/AVP"]
  {
    hide Split, Number;
    NumberHasNoBlanks(port);
    assert media + " " + number + " RTP/AVP" == media + [' '] + (number + " RTP/AVP");
    SplitPrefix(media, ' ', number + " RTP/AVP");
    assert number + " RTP/AVP" == number + [' '] + "RTP/AVP";
    SplitPrefix(number, ' ', "RTP/AVP");
    SplitNothing("RTP/AVP", ' ');
  }

  lemma ByteRoundTrip(id: UInt8)
    ensures ToInt32(Number(id)) == Some(id)
  {
    NumberRoundTrip(id);
  }

  lemma PayloadOfNumber(id: UInt8)
    ensures PayloadsOfWord(Number(id)) == [FreshPayload(id)]
  {
    hide ToInt32, Number;
    ByteRoundTrip(id);
    assert id % 0x100 == id;
  }

  lemma {:induction false} WordsGivePayloads(ps: seq<Payload>)
    ensures PayloadsOfWords(NumbersOf(ps)) == FreshAll(ps)
  {
    hide PayloadsOfWord, Number;
    if ps != [] {
      var front, id := ps[..|ps| - 1], ps[|ps| - 1].id;
      WordsGivePayloads(front);
      PayloadOfNumber(id);
      assert NumbersOf(ps) == NumbersOf(front) + [Number(id)];
      assert FreshAll(ps) == FreshAll(front) + [FreshPayload(id)];
    }
  }

  // ---------------------------------------------------------------- payload lines

  function RtpmapValue(p: Payload): string {
    Number(p.id) + " " + (p.name + "/" + Number(p.clockrate) + (if p.channels > 1 then "/" + Number(p.channels) else ""))
  }

  function RtpmapArgs(p: Payload): seq<string> {
    [p.name, Number(p.clockrate)] + (if p.channels > 1 then [Number(p.channels)] else [])
  }

  lemma SplitRtpmapArgs(p: Payload)
    requires Lacks(p.name, '/')
    ensures Split(p.name + "/" + Number(p.clockrate) + (if p.channels > 1 then "/" + Number(p.channels) else ""), '/') == RtpmapArgs(p)
  {
    hide Split, Number;
    var clock, channels := Number(p.clockrate), Number(p.channels);
    NumberHasNoBlanks(p.clockrate);
    NumberHasNoBlanks(p.channels);
    SplitPrefix(p.name, '/', clock);
    SplitNothing(clock, '/');
    SplitNothing(channels, '/');
    if p.channels > 1 {
      assert p.name + "/" + clock + ("/" + channels) == (p.name + "/" + clock) + ['/'] + channels;
      SplitAppend(p.name + "/" + clock, '/', channels);
    } else {
      assert p.name + "/" + clock + "" == p.name + "/" + clock;
    }
  }

  lemma RtpmapArgsLackBlanks(p: Payload)
    requires Lacks(p.name, ' ')
    ensures Lacks(p.name + "/" + Number(p.clockrate) + (if p.channels > 1 then "/" + Number(p.channels) else ""), ' ')
  {
    NumberHasNoBlanks(p.clockrate);
    NumberHasNoBlanks(p.channels);
  }

  lemma RtpmapLineParses(q: Parser, p: Payload)
    requires SafePayload(p)
    ensures ParseLine(q, RtpmapLine(p)) == Some(q.(payloads := ApplyRtpmap(q.payloads, p.id, RtpmapArgs(p))))
  {
    hide ParseLine, Split, Number;
    var args := p.name + "/" + Number(p.clockrate) + (if p.channels > 1 then "/" + Number(p.channels) else "");
    assert RtpmapLine(p) == "a=" + "rtpmap" + ":" + RtpmapValue(p);
    AttributeParts(q, "rtpmap", RtpmapValue(p), RtpmapLine(p));
    NumberHasNoBlanks(p.id);
    RtpmapArgsLackBlanks(p);
    SplitPrefix(Number(p.id), ' ', args);
    SplitNothing(args, ' ');
    ByteRoundTrip(p.id);
    SplitRtpmapArgs(p);
    assert Split(RtpmapValue(p), ' ') == [Number(p.id), args];
  }

  lemma FmtpLineParses(q: Parser, p: Payload)
    ensures ParseLine(q, FmtpLine(p)) == Some(q.(payloads := ApplyFmtp(q.payloads, p.id, Join(PayloadParams(p), "; "))))
  {
    hide ParseLine;
    var text := Join(PayloadParams(p), "; ");
    var value := Number(p.id) + [' '] + text;
    assert FmtpLine(p) == "a=" + "fmtp" + ":" + value;
    AttributeParts(q, "fmtp", value, FmtpLine(p));
    NumberHasNoBlanks(p.id);
    IndexOfPrefix(Number(p.id), ' ', text);
    ByteRoundTrip(p.id);
    assert value[..|Number(p.id)|] == Number(p.id) && value[|Number(p.id)| + 1..] == text;
  }

  lemma ClockrateRoundTrip(n: UInt32)
    ensures UIntOrZero(Number(n)) == n
  {
    NumberRoundTrip(n);
  }

  lemma {:induction false} CombinedKeepsId(id: UInt8, ps: seq<Payload>)
    ensures Combined(id, ps).id == id
  {
    if ps != [] { CombinedKeepsId(id, ps[..|ps| - 1]); }
  }

  /** The first line of q, if it concerns p. */
  function UpdateRtpmap(p: Payload, q: Payload): Payload {
    if p.id == q.id then SetRtpmap(p, RtpmapArgs(q)) else p
  }

  lemma LinesUpdate(p: Payload, q: Payload)
    ensures PayloadParams(q) == [] ==> UpdateRtpmap(p, q) == Update(p, q)
    ensures PayloadParams(q) != [] && p.id == q.id ==>
              SetFmtp(UpdateRtpmap(p, q), Join(PayloadParams(q), "; ")) == Update(p, q)
    ensures UpdateRtpmap(p, q).id == p.id
  {
    hide Join, PayloadParams;
    ClockrateRoundTrip(q.clockrate);
    var args := RtpmapArgs(q);
    assert args[0] == q.name && args[1] == Number(q.clockrate);
  }

  /** The payload list between the two lines of payload number k. */
  function BetweenLines(ps: seq<Payload>, k: nat): seq<Payload>
    requires k < |ps|
  {
    seq(|ps|, i requires 0 <= i < |ps| => UpdateRtpmap(Partly(ps, k)[i], ps[k]))
  }

  lemma PartlyAdvances(ps: seq<Payload>, k: nat)
    requires k < |ps|
    ensures ApplyRtpmap(Partly(ps, k), ps[k].id, RtpmapArgs(ps[k])) == BetweenLines(ps, k)
    ensures PayloadParams(ps[k]) == [] ==> BetweenLines(ps, k) == Partly(ps, k + 1)
    ensures PayloadParams(ps[k]) != [] ==>
              ApplyFmtp(BetweenLines(ps, k), ps[k].id, Join(PayloadParams(ps[k]), "; ")) == Partly(ps, k + 1)
  {
    hide SetRtpmap, SetFmtp, RtpmapArgs, Join, PayloadParams, Update;
    forall i | 0 <= i < |ps|
      ensures Partly(ps, k + 1)[i] == Update(Partly(ps, k)[i], ps[k]) && Partly(ps, k)[i].id == ps[i].id
    {
      assert ps[..k + 1][..k] == ps[..k];
      CombinedKeepsId(ps[i].id, ps[..k]);
    }
    forall i | 0 <= i < |ps|
      ensures PayloadParams(ps[k]) == [] ==> UpdateRtpmap(Partly(ps, k)[i], ps[k]) == Update(Partly(ps, k)[i], ps[k])
      ensures PayloadParams(ps[k]) != [] && ps[i].id == ps[k].id ==>
                SetFmtp(UpdateRtpmap(Partly(ps, k)[i], ps[k]), Join(PayloadParams(ps[k]), "; ")) == Update(Partly(ps, k)[i], ps[k])
      ensures ps[i].id != ps[k].id ==> Update(Partly(ps, k)[i], ps[k]) == Partly(ps, k)[i]
      ensures UpdateRtpmap(Partly(ps, k)[i], ps[k]).id == ps[i].id
    {
      LinesUpdate(Partly(ps, k)[i], ps[k]);
      OtherIdsAreKept(Partly(ps, k)[i], ps[k]);
    }
  }

  lemma PayloadStage(content: Content, ps: seq<Payload>, k: nat)
    requires SafePayloads(ps) && k < |ps|
    ensures ParseClean(Parser(content, Partly(ps, k)), PayloadLines(ps[k])) == Some(Parser(content, Partly(ps, k + 1)))
  {
    hide ParseLine, ApplyRtpmap, ApplyFmtp, Partly, BetweenLines, PayloadParams, RtpmapArgs, Join, RtpmapLine, FmtpLine, SafePayload;
    var p, start := ps[k], Parser(content, Partly(ps, k));
    assert p in ps;
    RtpmapLineParses(start, p);
    PartlyAdvances(ps, k);
    var middle, last := Parser(content, BetweenLines(ps, k)), Parser(content, Partly(ps, k + 1));
    if PayloadParams(p) == [] {
      assert PayloadLines(p) == [RtpmapLine(p)];
      ParseCleanOne(start, RtpmapLine(p));
    } else {
      FmtpLineParses(middle, p);
      assert PayloadLines(p) == [RtpmapLine(p)] + [FmtpLine(p)];
      ParseCleanStep(start, RtpmapLine(p), [FmtpLine(p)], middle);
      ParseCleanOne(middle, FmtpLine(p));
    }
  }

  lemma {:induction false} PayloadsStage(content: Content, ps: seq<Payload>, k: nat)
    requires SafePayloads(ps) && k <= |ps|
    ensures ParseClean(Parser(content, FreshAll(ps)), AllPayloadLines(ps[..k])) == Some(Parser(content, Partly(ps, k)))
  {
    hide ParseLine;
    if k == 0 {
      assert Partly(ps, 0) == FreshAll(ps) && ps[..0] == [];
    } else {
      hide Partly, PayloadLines;
      PayloadsStage(content, ps, k - 1);
      assert ps[..k][..k - 1] == ps[..k - 1];
      PayloadStage(content, ps, k - 1);
      ParseCleanConcat(Parser(content, FreshAll(ps)), AllPayloadLines(ps[..k - 1]), PayloadLines(ps[k - 1]));
    }
  }

  // -------------------------------------------------------------- transport lines

  function AddCandidates(q: Parser, cs: seq<Candidate>): Parser {
    if cs == [] then q
    else q.(content := q.content.(transportType := NS_JINGLE_ICE_UDP, candidates := q.content.candidates + cs))
  }

  lemma AddCandidatesStep(q: Parser, c: Candidate, cs: seq<Candidate>)
    ensures AddCandidates(AddCandidates(q, [c]), cs) == AddCandidates(q, [c] + cs)
  {
    assert q.content.candidates + [c] + cs == q.content.candidates + ([c] + cs);
  }

  lemma CandidateLineParses(q: Parser, c: Candidate)
    requires Printable(c)
    ensures ParseLine(q, CandidateLine(c)) == Some(AddCandidates(q, [c]))
  {
    hide ParseLine;
    var words := Join(CandidateWords(c), " ");
    var line := CandidateLine(c);
    assert line == "a=" + "candidate" + ":" + words;
    AttributeParts(q, "candidate", words, line);
    assert line[2..] == CandidateToSdp(c);
    CandidateRoundTrip(c);
  }

  lemma ParseCleanStep(q: Parser, line: string, rest: seq<string>, next: Parser)
    requires ParseLine(q, line) == Some(next)
    ensures ParseClean(q, [line] + rest) == ParseClean(next, rest)
  {
    assert ([line] + rest)[1..] == rest;
  }

  lemma {:induction false} CandidatesStage(q: Parser, cs: seq<Candidate>)
    requires forall c :: c in cs ==> Printable(c)
    ensures ParseClean(q, CandidateLines(cs)) == Some(AddCandidates(q, cs))
    decreases |cs|
  {
    hide ParseLine, CandidateLine;
    if cs == [] {
      assert CandidateLines(cs) == [];
    } else {
      var c, rest := cs[0], cs[1..];
      CandidateLineParses(q, c);
      ParseCleanStep(q, CandidateLine(c), CandidateLines(rest), AddCandidates(q, [c]));
      CandidatesStage(AddCandidates(q, [c]), rest);
      AddCandidatesStep(q, c, rest);
      assert CandidateLines(cs) == [CandidateLine(c)] + CandidateLines(rest);
      assert cs == [c] + rest;
    }
  }

  lemma ParseCleanOne(q: Parser, line: string)
    ensures ParseClean(q, [line]) == ParseLine(q, line) && ParseClean(q, []) == Some(q)
  {
    assert [line][1..] == [];
    match ParseLine(q, line)
    case None =>
    case Some(r) => assert ParseClean(r, []) == Some(r);
  }

  lemma UserStage(q: Parser, c: Content)
    requires q.content.user == ""
    ensures ParseClean(q, UserLines(c)) == Some(q.(content := q.content.(user := c.user)))
  {
    hide ParseLine;
    var line := "a=ice-ufrag:" + c.user;
    assert line == "a=" + "ice-ufrag" + ":" + c.user;
    AttributeParts(q, "ice-ufrag", c.user, line);
    ParseCleanOne(q, line);
  }

  lemma PasswordStage(q: Parser, c: Content)
    requires q.content.password == ""
    ensures ParseClean(q, PasswordLines(c)) == Some(q.(content := q.content.(password := c.password)))
  {
    hide ParseLine;
    var line := "a=ice-pwd:" + c.password;
    assert line == "a=" + "ice-pwd" + ":" + c.password;
    AttributeParts(q, "ice-pwd", c.password, line);
    ParseCleanOne(q, line);
  }

  lemma SetupStage(q: Parser, c: Content)
    requires q.content.fingerprintSetup == ""
    ensures ParseClean(q, SetupLines(c)) == Some(q.(content := q.content.(fingerprintSetup := c.fingerprintSetup)))
  {
    hide ParseLine;
    var line := "a=setup:" + c.fingerprintSetup;
    assert line == "a=" + "setup" + ":" + c.fingerprintSetup;
    AttributeParts(q, "setup", c.fingerprintSetup, line);
    ParseCleanOne(q, line);
  }

  lemma FingerprintStage(q: Parser, c: Content)
    requires q.content.fingerprint == [] && q.content.fingerprintHash == "" && Lacks(c.fingerprintHash, ' ')
    ensures ParseClean(q, FingerprintLines(c)) ==
      Some(q.(content := q.content.(fingerprint := ReadBackContent(c).fingerprint,
                                    fingerprintHash := ReadBackContent(c).fingerprintHash)))
  {
    hide ParseLine;
    if c.fingerprint == [] || c.fingerprintHash == "" {
      ParseCleanOne(q, "");
    } else {
      var text := Fingerprint(c.fingerprint);
      var value := c.fingerprintHash + [' '] + text;
      var line := "a=fingerprint:" + c.fingerprintHash + " " + text;
      assert line == "a=" + "fingerprint" + ":" + value;
      AttributeParts(q, "fingerprint", value, line);
      FingerprintCharacters(c.fingerprint);
      SplitPrefix(c.fingerprintHash, ' ', text);
      SplitNothing(text, ' ');
      FingerprintRoundTrip(c.fingerprint);
      ParseCleanOne(q, line);
    }
  }

  /** A parser that has not read any transport attribute yet. */
  predicate FreshTransport(q: Parser) {
    && q.content.user == "" && q.content.password == "" && q.content.fingerprintSetup == ""
    && q.content.fingerprint == [] && q.content.fingerprintHash == ""
    && q.content.transportType == "" && q.content.candidates == []
  }

  function AddTransport(q: Parser, c: Content): Parser {
    var r := ReadBackContent(c);
    q.(content := q.content.(transportType := r.transportType, candidates := c.candidates, user := c.user,
                             password := c.password, fingerprint := r.fingerprint,
                             fingerprintHash := r.fingerprintHash, fingerprintSetup := c.fingerprintSetup))
  }

  lemma TransportStage(q: Parser, c: Content)
    requires FreshTransport(q) && SafeTransport(c)
    ensures ParseClean(q, TransportLines(c)) == Some(AddTransport(q, c))
  {
    hide ParseLine;
    assert q.content.candidates + c.candidates == c.candidates;
    var q1 := AddCandidates(q, c.candidates);
    CandidatesStage(q, c.candidates);
    UserStage(q1, c);
    var q2 := q1.(content := q1.content.(user := c.user));
    PasswordStage(q2, c);
    var q3 := q2.(content := q2.content.(password := c.password));
    FingerprintStage(q3, c);
    var r := ReadBackContent(c);
    var q4 := q3.(content := q3.content.(fingerprint := r.fingerprint, fingerprintHash := r.fingerprintHash));
    SetupStage(q4, c);
    ParseCleanConcat(q, CandidateLines(c.candidates), UserLines(c));
    ParseCleanConcat(q, CandidateLines(c.candidates) + UserLines(c), PasswordLines(c));
    ParseCleanConcat(q, CandidateLines(c.candidates) + UserLines(c) + PasswordLines(c), FingerprintLines(c));
    ParseCleanConcat(q, CandidateLines(c.candidates) + UserLines(c) + PasswordLines(c) + FingerprintLines(c), SetupLines(c));
  }

  lemma HeadStage(c: Content, address: string, port: UInt16)
    requires Lacks(c.media, ' ')
    ensures ParseClean(Parser(FreshContent(), []), [MediaLine(c, port), ConnectionLine(address)])
         == Some(Parser(FreshContent().(media := c.media), FreshAll(c.payloads)))
  {
    MediaStage(c, port);
    hide ParseLine;
    var q := Parser(FreshContent().(media := c.media), FreshAll(c.payloads));
    ParseCleanStep(Parser(FreshContent(), []), MediaLine(c, port), [ConnectionLine(address)], q);
    ConnectionLineIsSkipped(q, address);
    ParseCleanOne(q, ConnectionLine(address));
    assert [MediaLine(c, port)] + [ConnectionLine(address)] == [MediaLine(c, port), ConnectionLine(address)];
  }

  lemma ConnectionLineIsSkipped(q: Parser, address: string)
    ensures ParseLine(q, ConnectionLine(address)) == Some(q)
  {
    hide ParseAttributeLine, ParseMediaLine;
    assert ConnectionLine(address)[0] == 'c';
  }

  lemma LinesParse(c: Content, address: string, port: UInt16)
    requires LineSafe(c)
    ensures ParseClean(Parser(FreshContent(), []), SdpLines(c, address, port))
         == Some(AddTransport(Parser(FreshContent().(media := c.media), ReadBackAll(c.payloads)), c))
  {
    var start := Parser(FreshContent(), []);
    var content := FreshContent().(media := c.media);
    HeadStage(c, address, port);
    PayloadsStage(content, c.payloads, |c.payloads|);
    assert c.payloads[..|c.payloads|] == c.payloads;
    TransportStage(Parser(content, ReadBackAll(c.payloads)), c);
    var head := [MediaLine(c, port), ConnectionLine(address)];
    ParseCleanConcat(start, head, AllPayloadLines(c.payloads));
    ParseCleanConcat(start, head + AllPayloadLines(c.payloads), TransportLines(c));
  }

  // ---------------------------------------------------- no line is broken in two

  lemma {:induction false} LookupLacks(ps: seq<Param>, k: string)
    requires SafeParams(ps)
    ensures Lookup(ps, k).Some? ==> Lacks(Lookup(ps, k).value, '\n')
  {
    if ps != [] {
      LookupLacks(ps[1..], k);
    }
  }

  lemma PayloadLinesAreWhole(p: Payload)
    requires SafePayload(p)
    ensures forall line :: line in PayloadLines(p) ==> Lacks(line, '\n')
  {
    hide Number, Join;
    NumberHasNoBlanks(p.id);
    NumberHasNoBlanks(p.clockrate);
    NumberHasNoBlanks(p.channels);
    assert Lacks(RtpmapLine(p), '\n');
    LookupLacks(p.parameters, "events");
    forall part | part in PayloadParams(p) ensures Lacks(part, '\n') {
      if p.name != TELEPHONE_EVENT {
        var k :| 0 <= k < |p.parameters| && part == PrintParam(p.parameters[k]);
        assert p.parameters[k] in p.parameters;
      }
    }
    JoinLacks(PayloadParams(p), "; ", '\n');
    assert Lacks(FmtpLine(p), '\n');
  }

  lemma {:induction false} AllPayloadLinesAreWhole(ps: seq<Payload>)
    requires SafePayloads(ps)
    ensures forall line :: line in AllPayloadLines(ps) ==> Lacks(line, '\n')
  {
    if ps != [] {
      AllPayloadLinesAreWhole(ps[..|ps| - 1]);
      PayloadLinesAreWhole(ps[|ps| - 1]);
    }
  }

  lemma CandidateLineIsWhole(c: Candidate)
    requires CandidateLacksNewline(c)
    ensures Lacks(CandidateLine(c), '\n')
  {
    IntRoundTrip(c.component);
    IntRoundTrip(c.priority);
    IntRoundTrip(c.port);
    IntRoundTrip(c.generation);
    FixedWords(c.ctype);
    JoinLacks(CandidateWords(c), " ", '\n');
  }

  lemma TransportLinesAreWhole(c: Content)
    requires SafeTransport(c)
    ensures forall line :: line in TransportLines(c) ==> Lacks(line, '\n')
  {
    hide Fingerprint, CandidateLine;
    forall line | line in CandidateLines(c.candidates) ensures Lacks(line, '\n') {
      var k :| 0 <= k < |c.candidates| && line == CandidateLine(c.candidates[k]);
      assert c.candidates[k] in c.candidates;
      CandidateLineIsWhole(c.candidates[k]);
    }
    FingerprintCharacters(c.fingerprint);
    assert forall line :: line in UserLines(c) + PasswordLines(c) ==> Lacks(line, '\n');
    assert forall line :: line in FingerprintLines(c) + SetupLines(c) ==> Lacks(line, '\n');
  }

  lemma LinesAreWhole(c: Content, address: string, port: UInt16)
    requires LineSafe(c) && Lacks(address, '\n')
    ensures forall line :: line in SdpLines(c, address, port) ==> Lacks(line, '\n')
  {
    NumberHasNoBlanks(port);
    IdListIsWhole(c.payloads);
    assert Lacks(MediaLine(c, port), '\n') && Lacks(ConnectionLine(address), '\n');
    AllPayloadLinesAreWhole(c.payloads);
    TransportLinesAreWhole(c);
  }

  /** What parsing a printed content into a fresh one yields. */
  lemma Reparse(c: Content, address: string, port: UInt16)
    requires LineSafe(c) && Lacks(address, '\n')
    ensures ParseSpec(FreshContent(), PrintSpec(c, address, port)) == (true, ReadBackContent(c))
  {
    var lines := SdpLines(c, address, port);
    var start := Parser(FreshContent(), []);
    LinesAreWhole(c, address, port);
    LinesParse(c, address, port);
    JoinIsTerminated(lines);
    ParseTerminated(start, lines);
    var p := ParseClean(start, lines).value;
    assert p.content.(payloads := p.payloads) == ReadBackContent(c);
  }

  // ----------------------------------------------- what the parser can ever produce

  predicate SafeState(p: Parser) { LineSafe(p.content) && SafePayloads(p.payloads) }

  lemma AttributeValueLacks(line: string, c: char)
    requires StartsWith(line, "a=") && Lacks(line, c)
    ensures Lacks(AttributeValue(line), c)
  {}

  lemma RtpmapIsSafe(p: Parser, value: string)
    requires SafeState(p) && Lacks(value, '\n')
    ensures SafeState(ParseRtpmapLine(p, value))
  {
    var bits := Split(value, ' ');
    if |bits| == 2 && ToInt32(bits[0]).Some? {
      var args := Split(bits[1], '/');
      SplitPartsLackSeparator(value, ' ');
      SplitPartsComeFrom(value, ' ');
      SplitPartsLackSeparator(bits[1], '/');
      SplitPartsComeFrom(bits[1], '/');
      assert bits[1] in bits && args[0] in args;
      var name := args[0];
      assert Lacks(name, '\n') && Lacks(name, ' ') && Lacks(name, '/');
      var q := ParseRtpmapLine(p, value);
      forall r | r in q.payloads ensures SafePayload(r) {
        var k :| 0 <= k < |q.payloads| && q.payloads[k] == r;
        assert p.payloads[k] in p.payloads;
      }
    }
  }

  lemma FmtpIsSafe(p: Parser, value: string)
    requires SafeState(p) && Lacks(value, '\n')
    ensures ParseFmtpLine(p, value).Some? ==> SafeState(ParseFmtpLine(p, value).value)
  {
    hide ParseParams, IntOrZero;
    var i := IndexOf(value, ' ');
    if i >= 0 {
      var text := value[i + 1..];
      ParsedParamsComeFrom(text, '\n');
      assert Lacks("events", '\n');
      var q := ParseFmtpLine(p, value).value;
      forall r | r in q.payloads ensures SafePayload(r) {
        var k :| 0 <= k < |q.payloads| && q.payloads[k] == r;
        assert p.payloads[k] in p.payloads;
      }
    }
  }

  lemma FingerprintLineIsSafe(p: Parser, value: string)
    requires SafeState(p) && Lacks(value, '\n')
    ensures SafeState(ParseFingerprintLine(p, value))
  {
    var bits := Split(value, ' ');
    SplitPartsLackSeparator(value, ' ');
    SplitPartsComeFrom(value, ' ');
    assert bits[0] in bits;
  }

  lemma CandidateLineIsSafe(p: Parser, line: string)
    requires SafeState(p) && Lacks(line, '\n') && |line| >= 2
    ensures ParseCandidateLine(p, line).Some? ==> SafeState(ParseCandidateLine(p, line).value)
  {
    ParsedIsPrintable(line[2..]);
  }

  lemma {:induction false} WordPayloadsAreSafe(words: seq<string>)
    ensures SafePayloads(PayloadsOfWords(words))
  {
    if words != [] {
      WordPayloadsAreSafe(words[..|words| - 1]);
    }
  }

  lemma MediaLineIsSafe(p: Parser, line: string)
    requires SafeState(p) && Lacks(line, '\n') && |line| >= 2
    ensures ParseMediaLine(p, line).Some? ==> SafeState(ParseMediaLine(p, line).value)
  {
    var bits := Split(line[2..], ' ');
    SplitPartsLackSeparator(line[2..], ' ');
    SplitPartsComeFrom(line[2..], ' ');
    assert bits[0] in bits;
    if |bits| >= 3 {
      WordPayloadsAreSafe(bits[3..]);
    }
  }

  lemma LineIsSafe(p: Parser, line: string)
    requires SafeState(p) && Lacks(line, '\n')
    ensures ParseLine(p, line).Some? ==> SafeState(ParseLine(p, line).value)
  {
    hide AttributeName, AttributeValue, ParseCandidateLine, ParseFingerprintLine, ParseFmtpLine, ParseRtpmapLine, ParseMediaLine, ParseSsrc;
    if StartsWith(line, "a=") {
      var value := AttributeValue(line);
      AttributeValueLacks(line, '\n');
      CandidateLineIsSafe(p, line);
      FingerprintLineIsSafe(p, value);
      FmtpIsSafe(p, value);
      RtpmapIsSafe(p, value);
    } else if StartsWith(line, "m=") {
      MediaLineIsSafe(p, line);
    }
  }

  lemma {:induction false} LinesAreSafe(p: Parser, lines: seq<string>)
    requires SafeState(p) && forall line :: line in lines ==> Lacks(line, '\n')
    ensures SafeState(ParseLines(p, lines).1)
    decreases |lines|
  {
    if lines != [] {
      var line := StripCr(lines[0]);
      assert lines[0] in lines && Lacks(line, '\n');
      LineIsSafe(p, line);
      match ParseLine(p, line)
      case None =>
      case Some(q) => LinesAreSafe(q, lines[1..]);
    }
  }

  /** Whatever text is parsed, no field of the result holds a character that could end it early. */
  lemma ParsedIsLineSafe(sdp: string)
    ensures LineSafe(ParseSpec(FreshContent(), sdp).1)
  {
    SplitPartsLackSeparator(sdp, '\n');
    LinesAreSafe(Parser(FreshContent(), []), Split(sdp, '\n'));
  }

  // ------------------------------------------------------------------- main result

  lemma ChannelsRoundTrip(channels: UInt8)
    ensures (if channels > 1 then UInt8OrZero(Number(channels)) else 1) == channels <==> 1 <= channels <= 127
  {
    NumberRoundTrip(channels);
  }

  lemma ParamsReadBack(p: Payload)
    requires IsMap(p.parameters)
    ensures ReadBackParams(p) == p.parameters <==>
      if p.name == TELEPHONE_EVENT
      then p.parameters == [] || (|p.parameters| == 1 && p.parameters[0].key == "events")
      else CleanParams(p.parameters)
  {
    if p.name == TELEPHONE_EVENT {
      match Lookup(p.parameters, "events")
      case None =>
      case Some(v) => assert Join([v], "; ") == v;
    } else if p.parameters != [] {
      assert |PayloadParams(p)| == |p.parameters|;
      ParamsRoundTrip(p.parameters);
    }
  }

  lemma PayloadRoundTrip(p: Payload)
    requires IsMap(p.parameters)
    ensures ReadBack(p) == p <==> RestorablePayload(p)
  {
    ChannelsRoundTrip(p.channels);
    ParamsReadBack(p);
  }

  lemma UpdateReadsBack(p: Payload)
    ensures Update(FreshPayload(p.id), p) == ReadBack(p) && Update(ReadBack(p), p) == ReadBack(p)
  {
    hide PayloadParams, Join, ParseParams;
  }

  /** Where repeated identifiers agree, reading a payload's lines again changes nothing. */
  lemma {:induction false} CombinedReadsBack(ps: seq<Payload>, p: Payload, k: nat)
    requires SameIdsAgree(ps) && p in ps && k <= |ps|
    ensures Combined(p.id, ps[..k]) == if p in ps[..k] then ReadBack(p) else FreshPayload(p.id)
  {
    if k == 0 {
      assert ps[..k] == [];
    } else {
      hide ReadBack, Update, Combined;
      var q, before := ps[k - 1], ps[..k - 1];
      CombinedReadsBack(ps, p, k - 1);
      CombinedStep(p.id, ps, k);
      assert ps[..k] == before + [q] && q in ps;
      if p.id == q.id {
        SameIdsAreEqual(ps, p, q);
        UpdateReadsBack(p);
      } else {
        OtherIdsAreKept(Combined(p.id, before), q);
        CombinedKeepsId(p.id, before);
      }
    }
  }

  lemma CombinedStep(id: UInt8, ps: seq<Payload>, k: nat)
    requires 0 < k <= |ps|
    ensures Combined(id, ps[..k]) == Update(Combined(id, ps[..k - 1]), ps[k - 1])
  {
    hide Update;
    assert ps[..k][..k - 1] == ps[..k - 1];
  }

  lemma SameIdsAreEqual(ps: seq<Payload>, p: Payload, q: Payload)
    requires SameIdsAgree(ps) && p in ps && q in ps && p.id == q.id
    ensures p == q
  {
    var i :| 0 <= i < |ps| && ps[i] == p;
    var j :| 0 <= j < |ps| && ps[j] == q;
    assert i == j || ps[i] == ps[j];
  }

  lemma OtherIdsAreKept(p: Payload, q: Payload)
    ensures p.id != q.id ==> Update(p, q) == p
  {}

  lemma PayloadsReadBack(ps: seq<Payload>)
    requires forall p :: p in ps ==> IsMap(p.parameters)
    ensures ReadBackAll(ps) == ps <==> SameIdsAgree(ps) && forall p :: p in ps ==> RestorablePayload(p)
  {
    hide RestorablePayload, ReadBack;
    var all := ReadBackAll(ps);
    assert ps[..|ps|] == ps;
    forall p | p in ps ensures ReadBack(p) == p <==> RestorablePayload(p) { PayloadRoundTrip(p); }
    if all == ps {
      forall i, j | 0 <= i < j < |ps| && ps[i].id == ps[j].id ensures ps[i] == ps[j] {
        assert all[i] == Combined(ps[i].id, ps) == all[j];
      }
    }
    if SameIdsAgree(ps) {
      forall k | 0 <= k < |ps| ensures all[k] == ReadBack(ps[k]) {
        assert ps[k] in ps;
        CombinedReadsBack(ps, ps[k], |ps|);
      }
      if all == ps {
        forall p | p in ps ensures RestorablePayload(p) {
          var k :| 0 <= k < |ps| && ps[k] == p;
          assert all[k] == ps[k];
        }
      } else {
        var k :| 0 <= k < |ps| && all[k] != ps[k];
        assert ps[k] in ps;
      }
    }
  }

  lemma ContentReadBack(c: Content)
    requires LineSafe(c) && forall p :: p in c.payloads ==> IsMap(p.parameters)
    ensures ReadBackContent(c) == c <==> Restorable(c)
  {
    hide ReadBackAll;
    PayloadsReadBack(c.payloads);
  }

  /**
   * Main result.  Printing and parsing into a fresh content succeeds and restores the content if and only if the
   * content is restorable.
   */
  lemma SdpRoundTripIff(c: Content, address: string, port: UInt16)
    requires (forall p :: p in c.payloads ==> IsMap(p.parameters)) && Lacks(address, '\n')
    ensures ParseSpec(FreshContent(), PrintSpec(c, address, port)) == (true, c) <==> Restorable(c)
  {
    hide ParseSpec, PrintSpec, ReadBackContent;
    if LineSafe(c) {
      Reparse(c, address, port);
      ContentReadBack(c);
    } else {
      ParsedIsLineSafe(PrintSpec(c, address, port));
    }
  }
}
