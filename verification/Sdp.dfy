// Session descriptions (RFC 4566) of a media content: the line-based parser and the
// printer, as specification functions and as the methods that work in place.

module Sdp {
  import opened Wrappers
  import opened Text
  import opened Hex
  import opened JingleCandidates
  import opened SdpParameters

  const NS_JINGLE_ICE_UDP := "urn:xmpp:jingle:transports:ice-udp:1"
  const TELEPHONE_EVENT := "telephone-event"

  datatype Payload = Payload(id: UInt8, name: string, clockrate: UInt32, channels: UInt8, parameters: seq<Param>)

  datatype Content = Content(
    media: string, payloads: seq<Payload>, ssrc: UInt32,
    transportType: string, candidates: seq<Candidate>, user: string, password: string,
    fingerprint: seq<Byte>, fingerprintHash: string, fingerprintSetup: string)

  function FreshContent(): Content { Content("", [], 0, "", [], "", "", [], "", "") }

  function FreshPayload(id: UInt8): Payload { Payload(id, "", 0, 1, []) }

  /** The parser's state: the content under construction and the payload list kept beside it. */
  datatype Parser = Parser(content: Content, payloads: seq<Payload>)

  // ------------------------------------------------------------- parser, line by line

  function StripCr(line: string): string {
    if line != "" && line[|line| - 1] == '\r' then line[..|line| - 1] else line
  }

  function AttributeName(line: string): string
    requires StartsWith(line, "a=")
  {
    var i := IndexOf(line, ':');
    if i >= 2 then line[2..i] else line[2..]
  }

  function AttributeValue(line: string): string
    requires StartsWith(line, "a=")
  {
    var i := IndexOf(line, ':');
    if i >= 2 then line[i + 1..] else ""
  }

  function SetRtpmap(p: Payload, args: seq<string>): Payload
    requires args != []
  {
    var p := p.(name := args[0]);
    var p := if |args| > 1 then p.(clockrate := UIntOrZero(args[1])) else p;
    if |args| > 2 then p.(channels := UInt8OrZero(args[2])) else p
  }

  function SetFmtp(p: Payload, text: string): Payload {
    p.(parameters := if p.name == TELEPHONE_EVENT then [Param("events", text)] else ParseParams(text))
  }

  function ApplyRtpmap(payloads: seq<Payload>, id: int, args: seq<string>): seq<Payload>
    requires args != []
  {
    seq(|payloads|, k requires 0 <= k < |payloads| =>
      if payloads[k].id == id then SetRtpmap(payloads[k], args) else payloads[k])
  }

  function ApplyFmtp(payloads: seq<Payload>, id: int, text: string): seq<Payload> {
    seq(|payloads|, k requires 0 <= k < |payloads| =>
      if payloads[k].id == id then SetFmtp(payloads[k], text) else payloads[k])
  }

  function ParseCandidateLine(p: Parser, line: string): Option<Parser>
    requires |line| >= 2
  {
    match ParseCandidateSpec(line[2..])
    case None => None
    case Some(c) =>
      Some(p.(content := p.content.(transportType := NS_JINGLE_ICE_UDP, candidates := p.content.candidates + [c])))
  }

  function ParseFingerprintLine(p: Parser, value: string): Parser {
    var bits := Split(value, ' ');
    if |bits| > 1
    then p.(content := p.content.(fingerprintHash := bits[0], fingerprint := ParseFingerprint(bits[1])))
    else p
  }

  function ParseFmtpLine(p: Parser, value: string): Option<Parser> {
    var i := IndexOf(value, ' ');
    if i < 0 then None else Some(p.(payloads := ApplyFmtp(p.payloads, IntOrZero(value[..i]), value[i + 1..])))
  }

  function ParseRtpmapLine(p: Parser, value: string): Parser {
    var bits := Split(value, ' ');
    if |bits| != 2 || ToInt32(bits[0]).None? then p
    else p.(payloads := ApplyRtpmap(p.payloads, ToInt32(bits[0]).value, Split(bits[1], '/')))
  }

  /** The conversion to a 64-bit number, cut to the 32 bits of the field. */
  function ParseSsrc(text: string): UInt32 {
    var n := ParseInRange(text, 0, 0xffff_ffff_ffff_ffff);
    if n.Some? then n.value % 0x1_0000_0000 else 0
  }

  function ParseAttributeLine(p: Parser, line: string): Option<Parser>
    requires StartsWith(line, "a=")
  {
    ParseAttribute(p, line, AttributeName(line), AttributeValue(line))
  }

  function ParseAttribute(p: Parser, line: string, name: string, value: string): Option<Parser>
    requires |line| >= 2
  {
    if name == "candidate" then ParseCandidateLine(p, line)
    else if name == "fingerprint" then Some(ParseFingerprintLine(p, value))
    else if name == "fmtp" then ParseFmtpLine(p, value)
    else if name == "rtpmap" then Some(ParseRtpmapLine(p, value))
    else if name == "ice-ufrag" then Some(p.(content := p.content.(user := value)))
    else if name == "ice-pwd" then Some(p.(content := p.content.(password := value)))
    else if name == "setup" then Some(p.(content := p.content.(fingerprintSetup := value)))
    else if name == "ssrc" then Some(p.(content := p.content.(ssrc := ParseSsrc(Split(value, ' ')[0]))))
    else Some(p)
  }

  /** The payload types named by the words of a media line from the fourth on; words that are no number are skipped. */
  function PayloadsOfWords(words: seq<string>): seq<Payload> {
    if words == [] then [] else PayloadsOfWords(words[..|words| - 1]) + PayloadsOfWord(words[|words| - 1])
  }

  function PayloadsOfWord(word: string): seq<Payload> {
    match ToInt32(word) case Some(id) => [FreshPayload(id % 0x100)] case None => []
  }

  function ParseMediaLine(p: Parser, line: string): Option<Parser>
    requires |line| >= 2
  {
    var bits := Split(line[2..], ' ');
    if |bits| < 3 then None
    else Some(Parser(p.content.(media := bits[0]), p.payloads + PayloadsOfWords(bits[3..])))
  }

  function ParseLine(p: Parser, line: string): Option<Parser> {
    if StartsWith(line, "a=") then ParseAttributeLine(p, line)
    else if StartsWith(line, "m=") then ParseMediaLine(p, line)
    else Some(p)
  }

  /** Parses lines until one is refused; the result says whether all were accepted. */
  function ParseLines(p: Parser, lines: seq<string>): (bool, Parser)
    decreases |lines|
  {
    if lines == [] then (true, p)
    else match ParseLine(p, StripCr(lines[0]))
      case None => (false, p)
      case Some(p') => ParseLines(p', lines[1..])
  }

  /** A refused description leaves what was parsed before, except for the payload types. */
  function ParseSpec(content: Content, sdp: string): (bool, Content) {
    var (ok, p) := ParseLines(Parser(content, []), Split(sdp, '\n'));
    (ok, if ok then p.content.(payloads := p.payloads) else p.content)
  }

  // ------------------------------------------------------------------------- printer

  function PayloadParams(p: Payload): seq<string> {
    if p.name == TELEPHONE_EVENT then
      match Lookup(p.parameters, "events") case Some(v) => [v] case None => []
    else PrintParams(p.parameters)
  }

  function RtpmapLine(p: Payload): string {
    "a=rtpmap:" + Number(p.id) + " " + p.name + "/" + Number(p.clockrate) +
    (if p.channels > 1 then "/" + Number(p.channels) else "")
  }

  function FmtpLine(p: Payload): string {
    "a=fmtp:" + Number(p.id) + " " + Join(PayloadParams(p), "; ")
  }

  function PayloadLines(p: Payload): seq<string> {
    [RtpmapLine(p)] + (if PayloadParams(p) == [] then [] else [FmtpLine(p)])
  }

  function AllPayloadLines(ps: seq<Payload>): seq<string> {
    if ps == [] then [] else AllPayloadLines(ps[..|ps| - 1]) + PayloadLines(ps[|ps| - 1])
  }

  function IdList(ps: seq<Payload>): string {
    if ps == [] then "" else IdList(ps[..|ps| - 1]) + " " + Number(ps[|ps| - 1].id)
  }

  function MediaLine(c: Content, port: UInt16): string {
    "m=" + c.media + " " + Number(port) + " RTP/AVP" + IdList(c.payloads)
  }

  /** Canonical IPv6 text has colons, IPv4 text has none. */
  function ConnectionLine(address: string): string {
    "c=IN " + (if ':' in address then "IP6" else "IP4") + " " + address
  }

  function CandidateLine(c: Candidate): string { "a=" + CandidateToSdp(c) }

  function CandidateLines(cs: seq<Candidate>): seq<string> {
    seq(|cs|, k requires 0 <= k < |cs| => CandidateLine(cs[k]))
  }

  function UserLines(c: Content): seq<string> { if c.user != "" then ["a=ice-ufrag:" + c.user] else [] }

  function PasswordLines(c: Content): seq<string> { if c.password != "" then ["a=ice-pwd:" + c.password] else [] }

  function FingerprintLines(c: Content): seq<string> {
    if c.fingerprint != [] && c.fingerprintHash != ""
    then ["a=fingerprint:" + c.fingerprintHash + " " + Fingerprint(c.fingerprint)] else []
  }

  function SetupLines(c: Content): seq<string> {
    if c.fingerprintSetup != "" then ["a=setup:" + c.fingerprintSetup] else []
  }

  function TransportLines(c: Content): seq<string> {
    CandidateLines(c.candidates) + UserLines(c) + PasswordLines(c) + FingerprintLines(c) + SetupLines(c)
  }

  function SdpLines(c: Content, address: string, port: UInt16): seq<string> {
    [MediaLine(c, port), ConnectionLine(address)] + AllPayloadLines(c.payloads) + TransportLines(c)
  }

  /** The description of a content whose default candidate has the given address and port. */
  function PrintSpec(c: Content, address: string, port: UInt16): string {
    Join(SdpLines(c, address, port), "\r\n") + "\r\n"
  }

  /** The address and port of a default candidate; the any-address and port 0 if there is no RTP candidate. */
  ghost predicate IsDefaultAddress(candidates: seq<Candidate>, address: string, port: UInt16) {
    if forall c :: c in candidates ==> c.component != 1 then address == "0.0.0.0" && port == 0
    else exists d :: IsDefaultCandidate(d, candidates) && address == d.host && port == d.port
  }

  // ------------------------------------------------------- what a reader finds in the text

  /** The words of line number k, its line end aside. */
  function WordsOfLine(text: string, k: nat): seq<string>
    requires k < |Split(text, '\n')|
  {
    Split(StripCr(Split(text, '\n')[k]), ' ')
  }

  /** The first line names the media, the port and the payloads, the second line the address and its kind. */
  predicate NamesAddress(text: string, c: Content, address: string, port: UInt16) {
    && |Split(text, '\n')| > 2
    && WordsOfLine(text, 0) == ["m=" + c.media, Number(port), "RTP/AVP"] + NumbersOf(c.payloads)
    && WordsOfLine(text, 1) == ["c=IN", if ':' in address then "IP6" else "IP4", address]
  }

  lemma ConnectionWords(address: string)
    requires Lacks(address, ' ')
    ensures Split(ConnectionLine(address), ' ') == ["c=IN", if ':' in address then "IP6" else "IP4", address]
  {
    var kind := if ':' in address then "IP6" else "IP4";
    assert ConnectionLine(address) == "c=IN" + [' '] + (kind + [' '] + address);
    SplitPrefix("c=IN", ' ', kind + [' '] + address);
    SplitPrefix(kind, ' ', address);
    SplitNothing(address, ' ');
  }

  function NumbersOf(ps: seq<Payload>): seq<string> {
    seq(|ps|, k requires 0 <= k < |ps| => Number(ps[k].id))
  }

  lemma {:induction false} SplitIds(head: string, ps: seq<Payload>)
    ensures Split(head + IdList(ps), ' ') == Split(head, ' ') + NumbersOf(ps)
  {
    hide Split, Number;
    if ps == [] {
      assert head + "" == head;
    } else {
      var front, id := ps[..|ps| - 1], Number(ps[|ps| - 1].id);
      SplitIds(head, front);
      NumberHasNoBlanks(ps[|ps| - 1].id);
      assert head + IdList(ps) == (head + IdList(front)) + [' '] + id;
      SplitAppend(head + IdList(front), ' ', id);
      SplitNothing(id, ' ');
      assert NumbersOf(ps) == NumbersOf(front) + [id];
    }
  }

  lemma MediaWords(c: Content, port: UInt16)
    requires Lacks(c.media, ' ')
    ensures Split(MediaLine(c, port), ' ') == ["m=" + c.media, Number(port), "RTP/AVP"] + NumbersOf(c.payloads)
  {
    hide Split, Number, IdList, NumbersOf;
    NumberHasNoBlanks(port);
    var media, number := "m=" + c.media, Number(port);
    var head := media + [' '] + (number + [' '] + "RTP/AVP");
    assert MediaLine(c, port) == head + IdList(c.payloads);
    SplitPrefix(media, ' ', number + [' '] + "RTP/AVP");
    SplitPrefix(number, ' ', "RTP/AVP");
    SplitNothing("RTP/AVP", ' ');
    SplitIds(head, c.payloads);
  }

  lemma {:induction false} IdListIsWhole(ps: seq<Payload>)
    ensures Lacks(IdList(ps), '\n') && Lacks(IdList(ps), '\r')
  {
    if ps != [] {
      IdListIsWhole(ps[..|ps| - 1]);
      NumberHasNoBlanks(ps[|ps| - 1].id);
    }
  }

  /** The text begins with two lines, each ended by a carriage return and a line feed. */
  lemma TwoLinesFirst(first: string, second: string, rest: seq<string>)
    requires Lacks(first, '\n') && Lacks(second, '\n')
    ensures var lines := Split(Join([first, second] + rest, "\r\n") + "\r\n", '\n');
            |lines| > 2 && lines[0] == first + "\r" && lines[1] == second + "\r"
  {
    hide Split;
    var all := [first, second] + rest;
    assert all[1..] == [second] + rest && all[1..][1..] == rest;
    var tail := if rest == [] then "" else Join(rest, "\r\n") + "\r\n";
    assert Join([second] + rest, "\r\n") + "\r\n" == second + "\r\n" + tail;
    var text := Join(all, "\r\n") + "\r\n";
    assert text == (first + "\r") + ['\n'] + ((second + "\r") + ['\n'] + tail);
    SplitPrefix(first + "\r", '\n', (second + "\r") + ['\n'] + tail);
    SplitPrefix(second + "\r", '\n', tail);
  }

  /** A printed description names the address and the port it was printed for. */
  lemma AddressIsNamed(c: Content, address: string, port: UInt16)
    requires Lacks(c.media, ' ') && Lacks(c.media, '\n') && Lacks(address, ' ') && Lacks(address, '\n')
    ensures NamesAddress(PrintSpec(c, address, port), c, address, port)
  {
    hide Split, Number, IdList, Join;
    IdListIsWhole(c.payloads);
    NumberHasNoBlanks(port);
    var rest := AllPayloadLines(c.payloads) + TransportLines(c);
    assert SdpLines(c, address, port) == [MediaLine(c, port), ConnectionLine(address)] + rest;
    TwoLinesFirst(MediaLine(c, port), ConnectionLine(address), rest);
    MediaWords(c, port);
    ConnectionWords(address);
    var lines := Split(PrintSpec(c, address, port), '\n');
    assert StripCr(lines[0]) == MediaLine(c, port) && StripCr(lines[1]) == ConnectionLine(address);
  }

  // ------------------------------------------------------------------ the object

  class JingleContent {
    var media: string
    var payloadTypes: seq<Payload>
    var ssrc: UInt32
    var transportType: string
    var transportCandidates: seq<Candidate>
    var transportUser: string
    var transportPassword: string
    var transportFingerprint: seq<Byte>
    var transportFingerprintHash: string
    var transportFingerprintSetup: string

    function Model(): Content
      reads this
    {
      Content(media, payloadTypes, ssrc, transportType, transportCandidates, transportUser, transportPassword,
              transportFingerprint, transportFingerprintHash, transportFingerprintSetup)
    }

    constructor ()
      ensures Model() == FreshContent()
    {
      media, payloadTypes, ssrc, transportType := "", [], 0, "";
      transportCandidates, transportUser, transportPassword := [], "", "";
      transportFingerprint, transportFingerprintHash, transportFingerprintSetup := [], "", "";
    }

    method AddTransportCandidate(candidate: Candidate)
      modifies this`transportType, this`transportCandidates
      ensures Model() == old(Model()).(transportType := NS_JINGLE_ICE_UDP,
                                       candidates := old(transportCandidates) + [candidate])
    {
      transportType := NS_JINGLE_ICE_UDP;
      transportCandidates := transportCandidates + [candidate];
    }

    static method UpdateRtpmap(payloads: seq<Payload>, id: int, args: seq<string>) returns (r: seq<Payload>)
      requires args != []
      ensures r == ApplyRtpmap(payloads, id, args)
    {
      r := payloads;
      for k := 0 to |r|
        invariant |r| == |payloads|
        invariant forall i :: 0 <= i < |r| ==> r[i] == if i < k then ApplyRtpmap(payloads, id, args)[i] else payloads[i]
      {
        if r[k].id == id {
          var payload := r[k].(name := args[0]);
          if |args| > 1 {
            payload := payload.(clockrate := UIntOrZero(args[1]));
          }
          if |args| > 2 {
            payload := payload.(channels := UInt8OrZero(args[2]));
          }
          r := r[k := payload];
        }
      }
    }

    static method UpdateFmtp(payloads: seq<Payload>, id: int, text: string) returns (r: seq<Payload>)
      ensures r == ApplyFmtp(payloads, id, text)
    {
      r := payloads;
      for k := 0 to |r|
        invariant |r| == |payloads|
        invariant forall i :: 0 <= i < |r| ==> r[i] == if i < k then ApplyFmtp(payloads, id, text)[i] else payloads[i]
      {
        if r[k].id == id {
          var params: seq<Param> := [];
          if r[k].name == TELEPHONE_EVENT {
            params := Insert(params, "events", text);
          } else {
            var parts := SplitParameters(text);
            for j := 0 to |parts|
              invariant params == AddPieces(parts[..j])
            {
              assert parts[..j + 1][..j] == parts[..j];
              var bits := Split(parts[j], '=');
              if |bits| == 2 {
                params := Insert(params, bits[0], bits[1]);
              }
            }
            assert parts[..|parts|] == parts;
          }
          r := r[k := r[k].(parameters := params)];
        }
      }
    }

    static method MediaPayloads(bits: seq<string>) returns (r: seq<Payload>)
      requires |bits| >= 3
      ensures r == PayloadsOfWords(bits[3..])
    {
      r := [];
      for i := 3 to |bits|
        invariant r == PayloadsOfWords(bits[3..i])
      {
        assert bits[3..i + 1][..i - 3] == bits[3..i];
        var id := ToInt32(bits[i]);
        if id.Some? {
          r := r + [FreshPayload(id.value % 0x100)];
        }
      }
      assert bits[3..|bits|] == bits[3..];
    }

    method ParseAttribute(line: string, payloads: seq<Payload>) returns (ok: bool, payloads': seq<Payload>)
      requires StartsWith(line, "a=")
      modifies this
      ensures ok <==> ParseAttributeLine(Parser(old(Model()), payloads), line).Some?
      ensures ok ==> Parser(Model(), payloads') == ParseAttributeLine(Parser(old(Model()), payloads), line).value
      ensures !ok ==> Model() == old(Model())
    {
      var attrName, attrValue := AttributeName(line), AttributeValue(line);
      ok, payloads' := true, payloads;
      if attrName == "candidate" {
        var parsed, candidate := CandidateParseSdp(line[2..]);
        if !parsed {
          return false, payloads;
        }
        AddTransportCandidate(candidate);
      } else if attrName == "fingerprint" {
        var bits := Split(attrValue, ' ');
        if |bits| > 1 {
          transportFingerprintHash := bits[0];
          transportFingerprint := ParseFingerprint(bits[1]);
        }
      } else if attrName == "fmtp" {
        var spIdx := IndexOf(attrValue, ' ');
        if spIdx < 0 {
          return false, payloads;
        }
        payloads' := UpdateFmtp(payloads, IntOrZero(attrValue[..spIdx]), attrValue[spIdx + 1..]);
      } else if attrName == "rtpmap" {
        var bits := Split(attrValue, ' ');
        if |bits| == 2 && ToInt32(bits[0]).Some? {
          payloads' := UpdateRtpmap(payloads, ToInt32(bits[0]).value, Split(bits[1], '/'));
        }
      } else if attrName == "ice-ufrag" {
        transportUser := attrValue;
      } else if attrName == "ice-pwd" {
        transportPassword := attrValue;
      } else if attrName == "setup" {
        transportFingerprintSetup := attrValue;
      } else if attrName == "ssrc" {
        ssrc := ParseSsrc(Split(attrValue, ' ')[0]);
      }
    }

    method ParseSdp(sdp: string) returns (ok: bool)
      modifies this
      ensures (ok, Model()) == ParseSpec(old(Model()), sdp)
    {
      var payloads: seq<Payload> := [];
      var lines := Split(sdp, '\n');
      ghost var goal := ParseLines(Parser(Model(), []), lines);
      for k := 0 to |lines|
        invariant ParseLines(Parser(Model(), payloads), lines[k..]) == goal
      {
        var line := StripCr(lines[k]);
        assert lines[k..][1..] == lines[k + 1..];
        if StartsWith(line, "a=") {
          var accepted;
          accepted, payloads := ParseAttribute(line, payloads);
          if !accepted {
            return false;
          }
        } else if StartsWith(line, "m=") {
          var bits := Split(line[2..], ' ');
          if |bits| < 3 {
            return false;
          }
          media := bits[0];
          var added := MediaPayloads(bits);
          payloads := payloads + added;
        }
      }
      payloadTypes := payloads;
      ok := true;
    }

    static method PrintPayload(payload: Payload) returns (attrs: seq<string>)
      ensures attrs == PayloadLines(payload)
    {
      var rtpmap := "a=rtpmap:" + Number(payload.id) + " " + payload.name + "/" + Number(payload.clockrate);
      if payload.channels > 1 {
        rtpmap := rtpmap + ("/" + Number(payload.channels));
      } else {
        assert rtpmap + "" == rtpmap;
      }
      assert rtpmap == RtpmapLine(payload);
      attrs := [rtpmap];
      var paramList: seq<string> := [];
      if payload.name == TELEPHONE_EVENT {
        var events := Lookup(payload.parameters, "events");
        if events.Some? {
          paramList := paramList + [events.value];
        }
      } else {
        var params := payload.parameters;
        for i := 0 to |params|
          invariant paramList == PrintParams(params)[..i]
        {
          paramList := paramList + [params[i].key + "=" + params[i].value];
        }
      }
      assert paramList == PayloadParams(payload);
      if paramList != [] {
        attrs := attrs + ["a=fmtp:" + Number(payload.id) + " " + Join(paramList, "; ")];
      }
    }

    method PrintPayloads() returns (ids: string, attrs: seq<string>)
      ensures ids == IdList(payloadTypes) && attrs == AllPayloadLines(payloadTypes)
    {
      ids, attrs := "", [];
      for k := 0 to |payloadTypes|
        invariant ids == IdList(payloadTypes[..k]) && attrs == AllPayloadLines(payloadTypes[..k])
      {
        assert payloadTypes[..k + 1][..k] == payloadTypes[..k];
        ids := ids + " " + Number(payloadTypes[k].id);
        var lines := PrintPayload(payloadTypes[k]);
        attrs := attrs + lines;
      }
      assert payloadTypes[..|payloadTypes|] == payloadTypes;
    }

    method PrintCandidates() returns (lines: seq<string>)
      ensures lines == CandidateLines(transportCandidates)
    {
      lines := [];
      for k := 0 to |transportCandidates|
        invariant lines == CandidateLines(transportCandidates)[..k]
      {
        lines := lines + ["a=" + CandidateToSdp(transportCandidates[k])];
      }
    }

    method PrintTransport() returns (lines: seq<string>)
      ensures lines == TransportLines(Model())
    {
      lines := PrintCandidates();
      if transportUser != "" {
        lines := lines + ["a=ice-ufrag:" + transportUser];
      }
      assert lines == CandidateLines(transportCandidates) + UserLines(Model());
      if transportPassword != "" {
        lines := lines + ["a=ice-pwd:" + transportPassword];
      }
      assert lines == CandidateLines(transportCandidates) + UserLines(Model()) + PasswordLines(Model());
      ghost var before := lines;
      if transportFingerprint != [] && transportFingerprintHash != "" {
        var fingerprint := FormatFingerprint(transportFingerprint);
        lines := lines + ["a=fingerprint:" + transportFingerprintHash + " " + fingerprint];
      }
      assert lines == before + FingerprintLines(Model());
      before := lines;
      if transportFingerprintSetup != "" {
        lines := lines + ["a=setup:" + transportFingerprintSetup];
      }
      assert lines == before + SetupLines(Model());
    }

    method ChooseDefault() returns (address: string, port: UInt16)
      requires !Unsortable(transportCandidates)
      ensures IsDefaultAddress(transportCandidates, address, port)
    {
      address, port := "0.0.0.0", 0;
      var default := DefaultCandidate(transportCandidates);
      if default.Some? {
        address, port := default.value.host, default.value.port;
      }
    }

    /** Prints the description that names the address and port of a default candidate. */
    method ToSdp() returns (sdp: string)
      requires !Unsortable(transportCandidates)
      ensures exists address, port ::
                && IsDefaultAddress(transportCandidates, address, port) && sdp == PrintSpec(Model(), address, port)
                && (Lacks(media, ' ') && Lacks(media, '\n') && Lacks(address, ' ') && Lacks(address, '\n') ==>
                      NamesAddress(sdp, Model(), address, port))
    {
      var localRtpAddress, localRtpPort := ChooseDefault();
      var ids, attrs := PrintPayloads();
      var lines := ["m=" + media + " " + Number(localRtpPort) + " RTP/AVP" + ids];
      lines := lines + [ConnectionLine(localRtpAddress)];
      assert lines == [MediaLine(Model(), localRtpPort), ConnectionLine(localRtpAddress)];
      var transport := PrintTransport();
      lines := lines + attrs + transport;
      sdp := Join(lines, "\r\n") + "\r\n";
      assert sdp == PrintSpec(Model(), localRtpAddress, localRtpPort);
      if Lacks(media, ' ') && Lacks(media, '\n') && Lacks(localRtpAddress, ' ') && Lacks(localRtpAddress, '\n') {
        AddressIsNamed(Model(), localRtpAddress, localRtpPort);
      }
    }
  }
}
