// What each line of a session description says, stated on the text of the line: the
// parser is pinned also where no printed description reaches it.

module SdpReading {
  import opened Wrappers
  import opened Text
  import opened Hex
  import opened JingleCandidates
  import opened SdpParameters
  import opened Sdp

  // ------------------------------------------------------------- names and values

  /** An attribute line is taken apart at its first colon. */
  lemma AttributeIsSplit(key: string, value: string)
    requires Lacks(key, ':')
    ensures AttributeName("a=" + key + ":" + value) == key && AttributeValue("a=" + key + ":" + value) == value
    ensures AttributeName("a=" + key) == key && AttributeValue("a=" + key) == ""
  {
    var line := "a=" + key + ":" + value;
    assert line == ("a=" + key) + [':'] + value;
    IndexOfPrefix("a=" + key, ':', value);
    assert line[2..2 + |key|] == key && line[3 + |key|..] == value;
    assert ("a=" + key)[2..] == key;
    assert IndexOf("a=" + key, ':') < 0;
  }

  lemma AttributeParts(q: Parser, name: string, value: string, line: string)
    requires Lacks(name, ':') && line == "a=" + name + ":" + value
    ensures ParseLine(q, line) == ParseAttribute(q, line, name, value)
  {
    hide ParseAttribute;
    IndexOfPrefix("a=" + name, ':', value);
    assert line == ("a=" + name) + [':'] + value;
    assert line[..2] == "a=" && line[2..2 + |name|] == name;
  }

  lemma BareAttribute(q: Parser, name: string)
    requires Lacks(name, ':')
    ensures ParseLine(q, "a=" + name) == ParseAttribute(q, "a=" + name, name, "")
  {
    hide ParseAttribute, AttributeName, AttributeValue;
    AttributeIsSplit(name, "");
  }

  /** The three attributes that carry one text. */
  lemma TextsAreRead(p: Parser, value: string)
    ensures ParseLine(p, "a=ice-ufrag:" + value) == Some(p.(content := p.content.(user := value)))
    ensures ParseLine(p, "a=ice-pwd:" + value) == Some(p.(content := p.content.(password := value)))
    ensures ParseLine(p, "a=setup:" + value) == Some(p.(content := p.content.(fingerprintSetup := value)))
  {
    hide ParseLine;
    assert "a=ice-ufrag:" + value == "a=" + "ice-ufrag" + ":" + value;
    assert "a=ice-pwd:" + value == "a=" + "ice-pwd" + ":" + value;
    assert "a=setup:" + value == "a=" + "setup" + ":" + value;
    AttributeParts(p, "ice-ufrag", value, "a=ice-ufrag:" + value);
    AttributeParts(p, "ice-pwd", value, "a=ice-pwd:" + value);
    AttributeParts(p, "setup", value, "a=setup:" + value);
  }

  const KEYWORDS := {"candidate", "fingerprint", "fmtp", "rtpmap", "ice-ufrag", "ice-pwd", "setup", "ssrc"}

  lemma UnknownAttribute(p: Parser, line: string, key: string, value: string)
    requires |line| >= 2 && key !in KEYWORDS
    ensures ParseAttribute(p, line, key, value) == Some(p)
  {
    hide ParseCandidateLine, ParseFingerprintLine, ParseFmtpLine, ParseRtpmapLine, ParseSsrc, Split;
  }

  /** Other attributes and other kinds of lines say nothing. */
  lemma OthersSayNothing(p: Parser, line: string, key: string, value: string)
    requires Lacks(key, ':') && key !in KEYWORDS
    ensures ParseLine(p, "a=" + key + ":" + value) == Some(p) && ParseLine(p, "a=" + key) == Some(p)
    ensures !StartsWith(line, "a=") && !StartsWith(line, "m=") ==> ParseLine(p, line) == Some(p)
  {
    hide ParseAttribute, ParseAttributeLine, ParseMediaLine, KEYWORDS;
    UnknownAttribute(p, "a=" + key + ":" + value, key, value);
    UnknownAttribute(p, "a=" + key, key, "");
    AttributeParts(p, key, value, "a=" + key + ":" + value);
    BareAttribute(p, key);
  }

  // ------------------------------------------------------------------- attributes

  /** A text up to its first blank. */
  lemma FirstWord(word: string, more: string)
    requires Lacks(word, ' ') && (more == "" || more[0] == ' ')
    ensures Split(word + more, ' ')[0] == word
    ensures more != "" ==> Split(word + more, ' ') == [word] + Split(more[1..], ' ')
  {
    hide Split;
    if more == "" {
      assert word + more == word;
      SplitNothing(word, ' ');
    } else {
      assert word + more == word + [' '] + more[1..];
      SplitPrefix(word, ' ', more[1..]);
    }
  }

  lemma FingerprintIsRead(p: Parser, hash: string, text: string, more: string)
    requires Lacks(hash, ' ') && Lacks(text, ' ') && (more == "" || more[0] == ' ')
    ensures ParseLine(p, "a=fingerprint:" + hash + " " + text + more)
            == Some(p.(content := p.content.(fingerprintHash := hash, fingerprint := FromHex(text))))
    ensures ParseLine(p, "a=fingerprint:" + hash) == Some(p)
  {
    hide ParseLine, Split, FromHex, ParseFingerprint;
    var value := hash + (" " + text + more);
    assert "a=fingerprint:" + hash + " " + text + more == "a=" + "fingerprint" + ":" + value;
    assert "a=fingerprint:" + hash == "a=" + "fingerprint" + ":" + hash;
    AttributeParts(p, "fingerprint", value, "a=fingerprint:" + hash + " " + text + more);
    AttributeParts(p, "fingerprint", hash, "a=fingerprint:" + hash);
    FirstWord(hash, " " + text + more);
    assert (" " + text + more)[1..] == text + more;
    FirstWord(text, more);
    SplitNothing(hash, ' ');
    FingerprintIsHex(text);
  }

  /** The source's number is the first word as a 64-bit number, cut to 32 bits; anything else is 0. */
  lemma SsrcIsRead(p: Parser, word: string, more: string)
    requires Lacks(word, ' ') && (more == "" || more[0] == ' ')
    ensures var n := ParseInteger(word);
            ParseLine(p, "a=ssrc:" + word + more)
            == Some(p.(content := p.content.(ssrc := if n.Some? && 0 <= n.value < 0x1_0000_0000_0000_0000 then n.value % 0x1_0000_0000 else 0)))
  {
    hide ParseLine, Split, ParseInteger;
    assert "a=ssrc:" + word + more == "a=" + "ssrc" + ":" + (word + more);
    AttributeParts(p, "ssrc", word + more, "a=ssrc:" + word + more);
    FirstWord(word, more);
  }

  /** A candidate line adds its candidate and chooses the ICE transport, or is refused. */
  lemma CandidateLineIsRead(p: Parser, words: string)
    ensures var c := ParseCandidateSpec("candidate:" + words); var r := ParseLine(p, "a=candidate:" + words);
            if c.None? then r == None
            else r == Some(p.(content := p.content.(transportType := "urn:xmpp:jingle:transports:ice-udp:1",
                                                    candidates := p.content.candidates + [c.value])))
  {
    hide ParseLine, ParseCandidateSpec;
    assert "a=candidate:" + words == "a=" + "candidate" + ":" + words;
    AttributeParts(p, "candidate", words, "a=candidate:" + words);
    assert ("a=candidate:" + words)[2..] == "candidate:" + words;
  }

  /** b is a with new names, rates and channels where the id is the given one. */
  predicate Renamed(a: seq<Payload>, b: seq<Payload>, id: int, args: seq<string>) {
    |a| == |b| && args != [] &&
    forall k :: 0 <= k < |a| ==>
      if a[k].id != id then b[k] == a[k]
      else b[k] == Payload(a[k].id, args[0], if |args| > 1 then UIntOrZero(args[1]) else a[k].clockrate,
                           if |args| > 2 then UInt8OrZero(args[2]) else a[k].channels, a[k].parameters)
  }

  /** An rtpmap line names its payload type; without a number, or with another count of blanks, it says nothing. */
  lemma RtpmapIsRead(p: Parser, id: string, args: seq<string>)
    requires args != [] && Lacks(id, ' ') && forall arg :: arg in args ==> Lacks(arg, '/') && Lacks(arg, ' ')
    ensures var n, r := ParseInteger(id), ParseLine(p, "a=rtpmap:" + id + " " + Join(args, "/"));
            && r.Some? && r.value.content == p.content
            && if n.Some? && -0x8000_0000 <= n.value < 0x8000_0000 then Renamed(p.payloads, r.value.payloads, n.value, args)
               else r == Some(p)
  {
    hide ParseLine, Split, Join, ParseInteger, UIntOrZero, UInt8OrZero;
    var text := Join(args, "/");
    assert "a=rtpmap:" + id + " " + text == "a=" + "rtpmap" + ":" + (id + [' '] + text);
    AttributeParts(p, "rtpmap", id + [' '] + text, "a=rtpmap:" + id + " " + text);
    SplitPrefix(id, ' ', text);
    JoinLacks(args, "/", ' ');
    SplitNothing(text, ' ');
    SplitJoin(args, '/');
  }

  lemma OtherRtpmapsSayNothing(p: Parser, value: string)
    requires |Split(value, ' ')| != 2
    ensures ParseLine(p, "a=rtpmap:" + value) == Some(p)
  {
    hide ParseLine, Split;
    assert "a=rtpmap:" + value == "a=" + "rtpmap" + ":" + value;
    AttributeParts(p, "rtpmap", value, "a=rtpmap:" + value);
  }

  /** An fmtp line replaces the parameters of its payload type; without a blank it is refused. */
  lemma FmtpIsRead(p: Parser, id: string, text: string)
    requires Lacks(id, ' ')
    ensures var r := ParseLine(p, "a=fmtp:" + id + " " + text);
            && r.Some? && r.value.content == p.content && |r.value.payloads| == |p.payloads|
            && forall k :: 0 <= k < |p.payloads| ==>
                 var a := p.payloads[k];
                 r.value.payloads[k] == if a.id != IntOrZero(id) then a
                                        else Payload(a.id, a.name, a.clockrate, a.channels,
                                                     if a.name == "telephone-event" then [Param("events", text)] else ParseParams(text))
    ensures ParseLine(p, "a=fmtp:" + id) == None
  {
    hide ParseLine, IntOrZero, ParseParams;
    var value := id + [' '] + text;
    assert "a=fmtp:" + id + " " + text == "a=" + "fmtp" + ":" + value;
    assert "a=fmtp:" + id == "a=" + "fmtp" + ":" + id;
    AttributeParts(p, "fmtp", value, "a=fmtp:" + id + " " + text);
    AttributeParts(p, "fmtp", id, "a=fmtp:" + id);
    IndexOfPrefix(id, ' ', text);
    assert value[..|id|] == id && value[|id| + 1..] == text;
  }

  // -------------------------------------------------------------------- media lines

  /** The 32-bit numbers among some words. */
  function NumbersAmong(words: seq<string>): seq<Int32> {
    if words == [] then []
    else
      var n := ParseInteger(words[0]);
      (if n.Some? && -0x8000_0000 <= n.value < 0x8000_0000 then [n.value] else []) + NumbersAmong(words[1..])
  }

  /** Payload types with one channel and nothing else known. */
  function Unnamed(ids: seq<Int32>): seq<Payload> {
    seq(|ids|, k requires 0 <= k < |ids| => Payload(ids[k] % 256, "", 0, 1, []))
  }

  lemma {:induction false} WordsAreNumbers(words: seq<string>)
    ensures PayloadsOfWords(words) == Unnamed(NumbersAmong(words))
  {
    hide ParseInteger;
    if words != [] {
      var front, last := words[..|words| - 1], words[|words| - 1];
      WordsAreNumbers(front);
      NumbersAppend(front, last);
      assert words == front + [last];
    }
  }

  lemma {:induction false} NumbersAppend(words: seq<string>, word: string)
    ensures NumbersAmong(words + [word]) == NumbersAmong(words) + NumbersAmong([word])
  {
    hide ParseInteger;
    if words == [] {
      assert words + [word] == [word];
    } else {
      assert (words + [word])[1..] == words[1..] + [word];
      NumbersAppend(words[1..], word);
    }
  }

  lemma MediaLineIsTaken(p: Parser, line: string)
    requires StartsWith(line, "m=")
    ensures ParseLine(p, line) == ParseMediaLine(p, line)
  {
    hide ParseMediaLine, ParseAttributeLine;
    assert line[..2][0] == line[0];
  }

  /** A media line names the medium and, from its fourth word on, payload types; shorter ones are refused. */
  lemma MediaLineIsRead(p: Parser, words: seq<string>)
    requires words != [] && forall word :: word in words ==> Lacks(word, ' ')
    ensures ParseLine(p, "m=" + Join(words, " "))
            == if |words| < 3 then None
               else Some(Parser(p.content.(media := words[0]), p.payloads + Unnamed(NumbersAmong(words[3..]))))
  {
    hide Split, Join, PayloadsOfWords, NumbersAmong, Unnamed, ParseLine;
    var line := "m=" + Join(words, " ");
    assert line[..2] == "m=" && line[2..] == Join(words, " ");
    SplitJoin(words, ' ');
    MediaLineIsTaken(p, line);
    if |words| >= 3 { WordsAreNumbers(words[3..]); }
  }

  // ---------------------------------------------------------------------- whole texts

  /** Lines may end in a line feed with or without a carriage return. */
  lemma {:induction false} LineEndsDoNotMatter(p: Parser, lines: seq<string>, ended: seq<string>)
    requires |lines| == |ended|
    requires forall k :: 0 <= k < |lines| ==> (lines[k] == "" || lines[k][|lines[k]| - 1] != '\r') && (ended[k] == lines[k] || ended[k] == lines[k] + "\r")
    ensures ParseLines(p, ended) == ParseLines(p, lines)
    decreases |lines|
  {
    hide ParseLine;
    if lines != [] {
      assert StripCr(ended[0]) == lines[0] == StripCr(lines[0]);
      var r := ParseLine(p, lines[0]);
      if r.Some? { LineEndsDoNotMatter(r.value, lines[1..], ended[1..]); }
    }
  }

  /** The first refused line ends the parse, and the result holds what the lines before it said. */
  lemma {:induction false} RefusedLineEndsTheParse(p: Parser, before: seq<string>, line: string, rest: seq<string>)
    requires ParseLines(p, before).0 && ParseLine(ParseLines(p, before).1, StripCr(line)) == None
    ensures ParseLines(p, before + [line] + rest) == (false, ParseLines(p, before).1)
    decreases |before|
  {
    hide ParseLine;
    var all := before + [line] + rest;
    if before != [] {
      assert all[1..] == before[1..] + [line] + rest;
      RefusedLineEndsTheParse(ParseLine(p, StripCr(before[0])).value, before[1..], line, rest);
    }
  }

  /** A refused description changes no payload type; an accepted one replaces them all. */
  lemma PayloadsAreReplacedOnSuccess(content: Content, sdp: string)
    ensures var (ok, r) := ParseSpec(content, sdp);
            if ok then r.payloads == ParseLines(Parser(content, []), Split(sdp, '\n')).1.payloads else r.payloads == content.payloads
  {
    LinesKeepPayloads(Parser(content, []), Split(sdp, '\n'));
  }

  lemma {:induction false} LinesKeepPayloads(p: Parser, lines: seq<string>)
    ensures ParseLines(p, lines).1.content.payloads == p.content.payloads
    decreases |lines|
  {
    if lines != [] {
      var r := ParseLine(p, StripCr(lines[0]));
      hide ParseLine;
      if r.Some? {
        LineKeepsPayloads(p, StripCr(lines[0]));
        LinesKeepPayloads(r.value, lines[1..]);
      }
    }
  }

  lemma LineKeepsPayloads(p: Parser, line: string)
    ensures ParseLine(p, line).Some? ==> ParseLine(p, line).value.content.payloads == p.content.payloads
  {
    hide Split, ParseCandidateSpec, ParseFingerprint, ParseSsrc;
  }

  // ------------------------------------------------------------------ what is printed

  /** The names of some attribute lines. */
  function Keys(lines: seq<string>): seq<string> {
    seq(|lines|, k requires 0 <= k < |lines| => if StartsWith(lines[k], "a=") then AttributeName(lines[k]) else "")
  }

  function Repeated(key: string, n: nat): seq<string> { seq(n, _ => key) }

  lemma KeysOfConcat(a: seq<string>, b: seq<string>)
    ensures Keys(a + b) == Keys(a) + Keys(b)
  {
    hide AttributeName;
  }

  lemma OptionalKey(present: bool, key: string, value: string, line: string)
    requires Lacks(key, ':') && line == "a=" + key + ":" + value
    ensures Keys(if present then [line] else []) == if present then [key] else []
  {
    hide Keys;
    KeyOf(key, value, line);
    assert Keys([]) == [] by { NoKeys(); }
  }

  lemma NoKeys()
    ensures Keys([]) == []
  {}

  lemma CandidateKeys(cs: seq<Candidate>)
    ensures Keys(CandidateLines(cs)) == Repeated("candidate", |cs|)
  {
    hide AttributeName, CandidateLine;
    forall k | 0 <= k < |cs| ensures Keys(CandidateLines(cs))[k] == "candidate" {
      CandidateKey(cs[k]);
    }
  }

  /** One line per candidate, and the optional lines exactly where they have something to say. */
  lemma TransportKeys(c: Content)
    ensures Keys(TransportLines(c))
            == Repeated("candidate", |c.candidates|) + (if c.user != "" then ["ice-ufrag"] else [])
               + (if c.password != "" then ["ice-pwd"] else [])
               + (if c.fingerprint != [] && c.fingerprintHash != "" then ["fingerprint"] else [])
               + (if c.fingerprintSetup != "" then ["setup"] else [])
  {
    hide Keys, Repeated, CandidateLines, Fingerprint;
    var hash := c.fingerprintHash + " " + Fingerprint(c.fingerprint);
    CandidateKeys(c.candidates);
    OptionalKey(c.user != "", "ice-ufrag", c.user, "a=ice-ufrag:" + c.user);
    OptionalKey(c.password != "", "ice-pwd", c.password, "a=ice-pwd:" + c.password);
    OptionalKey(c.fingerprint != [] && c.fingerprintHash != "", "fingerprint", hash,
                "a=fingerprint:" + c.fingerprintHash + " " + Fingerprint(c.fingerprint));
    OptionalKey(c.fingerprintSetup != "", "setup", c.fingerprintSetup, "a=setup:" + c.fingerprintSetup);
    FiveParts(CandidateLines(c.candidates), UserLines(c), PasswordLines(c), FingerprintLines(c), SetupLines(c));
  }

  lemma FiveParts(a: seq<string>, b: seq<string>, c: seq<string>, d: seq<string>, e: seq<string>)
    ensures Keys(a + b + c + d + e) == Keys(a) + Keys(b) + Keys(c) + Keys(d) + Keys(e)
  {
    hide Keys;
    KeysOfConcat(a + b + c + d, e);
    KeysOfConcat(a + b + c, d);
    KeysOfConcat(a + b, c);
    KeysOfConcat(a, b);
  }

  lemma KeyOf(key: string, value: string, line: string)
    requires Lacks(key, ':') && line == "a=" + key + ":" + value
    ensures StartsWith(line, "a=") && AttributeName(line) == key && Keys([line]) == [key]
  {
    hide AttributeName;
    AttributeIsSplit(key, value);
  }

  lemma CandidateKey(c: Candidate)
    ensures StartsWith(CandidateLine(c), "a=") && AttributeName(CandidateLine(c)) == "candidate"
  {
    hide AttributeName, Join;
    var words := Join(CandidateWords(c), " ");
    assert CandidateLine(c) == "a=" + "candidate" + ":" + words;
    KeyOf("candidate", words, CandidateLine(c));
  }

  /** An rtpmap line for every payload type, with channels only if there are several, and an fmtp line exactly where
      there are parameters, of which telephone events print one. */
  lemma PayloadKeys(p: Payload)
    ensures Keys(PayloadLines(p))
            == if (if p.name == "telephone-event" then Lookup(p.parameters, "events").Some? else p.parameters != [])
               then ["rtpmap", "fmtp"] else ["rtpmap"]
    ensures AttributeValue(PayloadLines(p)[0])
            == Number(p.id) + " " + p.name + "/" + Number(p.clockrate) + (if p.channels <= 1 then "" else "/" + Number(p.channels))
  {
    hide AttributeName, AttributeValue, Number, Join;
    var value := Number(p.id) + " " + p.name + "/" + Number(p.clockrate) + (if p.channels > 1 then "/" + Number(p.channels) else "");
    assert RtpmapLine(p) == "a=" + "rtpmap" + ":" + value;
    KeyOf("rtpmap", value, RtpmapLine(p));
    AttributeIsSplit("rtpmap", value);
    var parameters := Number(p.id) + " " + Join(PayloadParams(p), "; ");
    assert FmtpLine(p) == "a=" + "fmtp" + ":" + parameters;
    KeyOf("fmtp", parameters, FmtpLine(p));
  }
}
