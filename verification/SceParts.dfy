// Whole messages: written and read at once, or as a public part and a sensitive part.

module SceParts {
  import opened Wrappers
  import opened SceMessage
  import opened SceRoundTrip

  function Fresh(): Message { FreshMessage("") }

  predicate BaseNs(base: Ns) { base.NoNs? || base.OtherNs? }

  // ------------------------------------------------------------- the sensitive part

  function HeadText(t: TextPart): TextPart { ReadText(t).(isSpoiler := false, spoilerHint := "") }

  function HeadLinks(l: LinkPart): LinkPart {
    Fresh().links.(outOfBandUrls := l.outOfBandUrls, mucInvitationJid := l.mucInvitationJid,
                   mucInvitationPassword := ReadLinks(l).mucInvitationPassword, mucInvitationReason := ReadLinks(l).mucInvitationReason,
                   bitsOfBinaryData := l.bitsOfBinaryData, replaceId := l.replaceId)
  }

  lemma ReadStatusEls(m: Message, w: Message, els: seq<Xml>, mode: SceMode, clock: Clock)
    requires ReadsSensitive(mode) && KeepsTime(w, clock) && m.status == Fresh().status
    requires els == StateEls(w.status) + DelayEls(w.status, clock) + ReceiptEls(w.status)
                    + When(w.status.attentionRequested, Leaf(AttentionTag, Attention))
    ensures ParseChildren(m, els, mode, clock)
            == m.(status := ReadStatus(w.status).(markable := false, marker := None, markedId := "", markedThread := ""))
  {
    hide ParseChildren, StateEls, DelayEls, ReceiptEls, When, KeepsTime;
    var s := w.status;
    var a, b, c, d := StateEls(s), DelayEls(s, clock), ReceiptEls(s), When(s.attentionRequested, Leaf(AttentionTag, Attention));
    ReadConcat(m, a + b + c, d, mode, clock);
    ReadConcat(m, a + b, c, mode, clock);
    ReadConcat(m, a, b, mode, clock);
    ReadState(m, s, mode, clock);
    var m1 := ParseChildren(m, a, mode, clock);
    ReadDelay(m1, w, mode, clock);
    var m2 := ParseChildren(m1, b, mode, clock);
    ReadReceipt(m2, s, mode, clock);
    ReadAttention(ParseChildren(m2, c, mode, clock), s, mode, clock);
  }

  lemma ReadHead(m: Message, w: Message, base: Ns, mode: SceMode, clock: Clock)
    requires ReadsSensitive(mode) && BaseNs(base) && KeepsTime(w, clock)
    requires m.text == Fresh().text && m.status == Fresh().status && m.links == Fresh().links
    ensures ParseChildren(m, SensitiveHead(w, base, clock), mode, clock)
            == m.(text := HeadText(w.text), status := ReadStatus(w.status), links := HeadLinks(w.links))
  {
    hide ParseChildren, CoreEls, ContentEls, XhtmlEls, StateEls, DelayEls, ReceiptEls, When, MucEls, IdEls, MarkerEls, KeepsTime;
    var s, l := w.status, w.links;
    var a, b, c := CoreEls(w.text, base), ContentEls(XTag, Oob, l.outOfBandUrls), XhtmlEls(w.text);
    var d := StateEls(s) + DelayEls(s, clock) + ReceiptEls(s) + When(s.attentionRequested, Leaf(AttentionTag, Attention));
    var e, f, g := MucEls(l), ContentEls(DataTag, Bob, l.bitsOfBinaryData), IdEls(ReplaceTag, MessageCorrect, l.replaceId);
    assert SensitiveHead(w, base, clock) == a + b + c + d + e + f + g + MarkerEls(s);
    ReadConcat(m, a + b + c + d + e + f + g, MarkerEls(s), mode, clock);
    ReadConcat(m, a + b + c + d + e + f, g, mode, clock);
    ReadConcat(m, a + b + c + d + e, f, mode, clock);
    ReadConcat(m, a + b + c + d, e, mode, clock);
    ReadConcat(m, a + b + c, d, mode, clock);
    ReadConcat(m, a + b, c, mode, clock);
    ReadConcat(m, a, b, mode, clock);
    ReadCore(m, w.text, base, mode, clock);
    var m1 := ParseChildren(m, a, mode, clock);
    ReadList(m1, OutOfBandUrls, l.outOfBandUrls, mode, clock);
    var m2 := ParseChildren(m1, b, mode, clock);
    ReadXhtml(m2, w.text, mode, clock);
    var m3 := ParseChildren(m2, c, mode, clock);
    ReadStatusEls(m3, w, d, mode, clock);
    var m4 := ParseChildren(m3, d, mode, clock);
    ReadMuc(m4, l, mode, clock);
    var m5 := ParseChildren(m4, e, mode, clock);
    ReadList(m5, BitsOfBinary, l.bitsOfBinaryData, mode, clock);
    var m6 := ParseChildren(m5, f, mode, clock);
    ReadReplace(m6, l, mode, clock);
    ReadMarkers(ParseChildren(m6, g, mode, clock), s, mode, clock);
  }

  lemma ReadTail(m: Message, w: Message, mode: SceMode, clock: Clock)
    requires ReadsSensitive(mode) && m.text == HeadText(w.text) && m.links == HeadLinks(w.links)
    ensures ParseChildren(m, SensitiveTail(w), mode, clock) == m.(text := ReadText(w.text), links := ReadLinks(w.links))
  {
    hide ParseChildren, ContentEls, OptionalEls, When, IdEls, ReplyEls;
    var t, l := w.text, w.links;
    var a, b := IdEls(AttachToTag, Attaching, l.attachId), When(t.isSpoiler, WithText(SpoilerTag, SpoilerNs, t.spoilerHint));
    var c, d, e := OptionalEls(InvitationTag, MixMisc, l.mixInvitation),
                   OptionalEls(TrustMessageTag, TrustMessages, l.trustMessageElement), OptionalEls(ReactionsTag, Reactions, l.reaction);
    var f, g := ContentEls(FileSharingTag, Sfs, l.sharedFiles), ContentEls(SourcesTag, Sfs, l.fileSourcesAttachments);
    ReadConcat(m, a + b + c + d + e + f + g, ReplyEls(l), mode, clock);
    ReadConcat(m, a + b + c + d + e + f, g, mode, clock);
    ReadConcat(m, a + b + c + d + e, f, mode, clock);
    ReadConcat(m, a + b + c + d, e, mode, clock);
    ReadConcat(m, a + b + c, d, mode, clock);
    ReadConcat(m, a + b, c, mode, clock);
    ReadConcat(m, a, b, mode, clock);
    ReadAttach(m, l, mode, clock);
    var m1 := ParseChildren(m, a, mode, clock);
    ReadSpoiler(m1, t, mode, clock);
    var m2 := ParseChildren(m1, b, mode, clock);
    ReadInvitation(m2, l, mode, clock);
    var m3 := ParseChildren(m2, c, mode, clock);
    ReadTrustMessage(m3, l, mode, clock);
    var m4 := ParseChildren(m3, d, mode, clock);
    ReadReaction(m4, l, mode, clock);
    var m5 := ParseChildren(m4, e, mode, clock);
    ReadList(m5, SharedFiles, l.sharedFiles, mode, clock);
    var m6 := ParseChildren(m5, f, mode, clock);
    ReadList(m6, FileSources, l.fileSourcesAttachments, mode, clock);
    ReadReply(ParseChildren(m6, g, mode, clock), l, mode, clock);
  }

  /** The two elements that are written here but known to the public checks only. */
  lemma ReadCalls(m: Message, c: CallPart, mode: SceMode, clock: Clock)
    requires ReadsSensitive(mode)
    ensures m.calls.jingleMessageInitiation == None ==>
              ParseChildren(m, JingleEls(c), mode, clock)
              == if mode == SceAll then m.(calls := m.calls.(jingleMessageInitiation := c.jingleMessageInitiation))
                 else m.(extensions := m.extensions + JingleEls(c))
    ensures m.calls.callInvite == None ==>
              ParseChildren(m, CallInviteEls(c), mode, clock)
              == if mode == SceAll then m.(calls := m.calls.(callInvite := c.callInvite))
                 else m.(extensions := m.extensions + CallInviteEls(c))
  {
    hide ParseTextAndStatus, ParseLinks, ParsePublic;
    if c.jingleMessageInitiation.Some? {
      ReadCall(m, JingleEls(c)[0], clock);
      ReadOne(m, JingleEls(c)[0], mode, clock);
    }
    if c.callInvite.Some? {
      ReadCall(m, CallInviteEls(c)[0], clock);
      ReadOne(m, CallInviteEls(c)[0], mode, clock);
    }
  }

  lemma ReadCall(m: Message, el: Xml, clock: Clock)
    requires el.tag == CallTag
    ensures el.ns == JingleMessage ==>
              ParsePublic(m, el, SceAll) == Some(m.(calls := m.calls.(jingleMessageInitiation := Some(el.content))))
    ensures el.ns == CallInvites ==> ParsePublic(m, el, SceAll) == Some(m.(calls := m.calls.(callInvite := Some(el.content))))
    ensures el.ns == JingleMessage || el.ns == CallInvites ==> ParseTextAndStatus(m, el, clock) == None && ParseLinks(m, el) == None
  {}

  function AfterSensitive(m: Message, w: Message, mode: SceMode): Message {
    var r := m.(text := ReadText(w.text), status := ReadStatus(w.status), links := ReadLinks(w.links));
    if mode == SceAll then r.(calls := w.calls)
    else r.(extensions := m.extensions + JingleEls(w.calls) + CallInviteEls(w.calls))
  }

  lemma ReadSensitiveEls(m: Message, w: Message, base: Ns, mode: SceMode, clock: Clock)
    requires ReadsSensitive(mode) && BaseNs(base) && KeepsTime(w, clock)
    requires m.text == Fresh().text && m.status == Fresh().status && m.links == Fresh().links && m.calls == Fresh().calls
    ensures ParseChildren(m, SensitiveEls(w, base, clock), mode, clock) == AfterSensitive(m, w, mode)
  {
    hide ParseChildren, SensitiveHead, SensitiveTail, JingleEls, CallInviteEls, KeepsTime;
    var a, b, c, d := SensitiveHead(w, base, clock), JingleEls(w.calls), SensitiveTail(w), CallInviteEls(w.calls);
    ReadConcat(m, a + b + c, d, mode, clock);
    ReadConcat(m, a + b, c, mode, clock);
    ReadConcat(m, a, b, mode, clock);
    ReadHead(m, w, base, mode, clock);
    var m1 := ParseChildren(m, a, mode, clock);
    ReadCalls(m1, w.calls, mode, clock);
    var m2 := ParseChildren(m1, b, mode, clock);
    ReadTail(m2, w, mode, clock);
    ReadCalls(ParseChildren(m2, c, mode, clock), w.calls, mode, clock);
  }

  // -------------------------------------------------- fallback markers and fallback body

  lemma ReadFallback(m: Message, content: string, mode: SceMode, clock: Clock)
    ensures ParseChild(m, WithContent(FallbackTag, FallbackIndication, content), mode, clock)
            == m.(fallbackMarkers := m.fallbackMarkers + [content])
  {
    hide ParsePublic, ParseSensitive;
    NoPartReads(m, WithContent(FallbackTag, FallbackIndication, content), mode, clock);
  }

  lemma NoPartReads(m: Message, el: Xml, mode: SceMode, clock: Clock)
    requires el.tag == FallbackTag && el.ns == FallbackIndication
    ensures ParsePublic(m, el, mode) == None && ParseSensitive(m, el, clock) == None
  {}

  lemma {:induction false} ReadFallbacks(m: Message, contents: seq<string>, mode: SceMode, clock: Clock)
    ensures ParseChildren(m, ContentEls(FallbackTag, FallbackIndication, contents), mode, clock)
            == m.(fallbackMarkers := m.fallbackMarkers + contents)
  {
    if contents != [] {
      hide ParseChild;
      var n := |contents| - 1;
      assert ContentEls(FallbackTag, FallbackIndication, contents)[..n] == ContentEls(FallbackTag, FallbackIndication, contents[..n]);
      ReadFallbacks(m, contents[..n], mode, clock);
      ReadFallback(m.(fallbackMarkers := m.fallbackMarkers + contents[..n]), contents[n], mode, clock);
      assert m.fallbackMarkers + contents == m.fallbackMarkers + contents[..n] + [contents[n]];
    }
  }

  lemma ReadFallbackBody(m: Message, w: Message, clock: Clock)
    requires m.e2eeFallbackBody == ""
    ensures ParseChildren(m, FallbackBodyEls(w), ScePublic, clock) == m.(e2eeFallbackBody := w.e2eeFallbackBody)
  {
    hide ParseSensitive, ParseFallback, ParseChildren;
    ReadWhen(m, w.e2eeFallbackBody != "", WithText(BodyTag, NoNs, w.e2eeFallbackBody), ScePublic, clock);
  }

  // ------------------------------------------------------------------- main theorems

  /** A message written whole is read back up to what Restored leaves out. */
  lemma WholeRoundTrip(w: Message, base: Ns, clock: Clock)
    requires BaseNs(base) && KeepsTime(w, clock)
    ensures ParseExtensions(FreshMessage(w.id), Serialize(w, SceAll, base, clock), SceAll, clock) == Restored(w)
  {
    hide ParseChildren, PublicEls, SensitiveEls, MarkersEls, KeepsTime;
    var m := FreshMessage(w.id);
    var a, b, c := PublicEls(w.public), SensitiveEls(w, base, clock), MarkersEls(w);
    assert Serialize(w, SceAll, base, clock) == a + b + c;
    ReadConcat(m, a + b, c, SceAll, clock);
    ReadConcat(m, a, b, SceAll, clock);
    ReadPublicEls(m, w.public, SceAll, clock);
    var m1 := ParseChildren(m, a, SceAll, clock);
    ReadSensitiveEls(m1, w, base, SceAll, clock);
    ReadMarkersEls(ParseChildren(m1, b, SceAll, clock), w, SceAll, clock);
  }

  lemma ReadMarkersEls(m: Message, w: Message, mode: SceMode, clock: Clock)
    ensures ParseChildren(m, MarkersEls(w), mode, clock) == m.(fallbackMarkers := m.fallbackMarkers + w.fallbackMarkers)
  {
    ReadFallbacks(m, w.fallbackMarkers, mode, clock);
  }

  /** Reading the public part fills the public fields and nothing else. */
  lemma PublicPartRoundTrip(w: Message, base: Ns, clock: Clock)
    ensures ParseExtensions(FreshMessage(w.id), Serialize(w, ScePublic, base, clock), ScePublic, clock)
            == FreshMessage(w.id).(e2eeFallbackBody := w.e2eeFallbackBody, public := ReadPublic(w.public), fallbackMarkers := w.fallbackMarkers)
  {
    hide ParseChildren, PublicEls, SensitiveEls, MarkersEls, FallbackBodyEls;
    var m := FreshMessage(w.id);
    var a, b, c := FallbackBodyEls(w), PublicEls(w.public), MarkersEls(w);
    assert Serialize(w, ScePublic, base, clock) == a + b + c;
    ReadConcat(m, a + b, c, ScePublic, clock);
    ReadConcat(m, a, b, ScePublic, clock);
    ReadFallbackBody(m, w, clock);
    var m1 := ParseChildren(m, a, ScePublic, clock);
    ReadPublicEls(m1, w.public, ScePublic, clock);
    ReadMarkersEls(ParseChildren(m1, b, ScePublic, clock), w, ScePublic, clock);
  }

  /** The sensitive part completes an object that holds no sensitive field yet. */
  lemma SensitivePartRoundTrip(m: Message, w: Message, base: Ns, clock: Clock)
    requires BaseNs(base) && KeepsTime(w, clock)
    requires m.text == Fresh().text && m.status == Fresh().status && m.links == Fresh().links && m.calls == Fresh().calls
    ensures ParseExtensions(m, Serialize(w, SceSensitive, base, clock), SceSensitive, clock)
            == AfterSensitive(m.(extensions := []), w, SceSensitive).(fallbackMarkers := m.fallbackMarkers + w.fallbackMarkers)
  {
    hide ParseChildren, SensitiveEls, MarkersEls, KeepsTime;
    var m0 := m.(extensions := []);
    var b, c := SensitiveEls(w, base, clock), MarkersEls(w);
    assert Serialize(w, SceSensitive, base, clock) == b + c;
    ReadConcat(m0, b, c, SceSensitive, clock);
    ReadSensitiveEls(m0, w, base, SceSensitive, clock);
    ReadMarkersEls(ParseChildren(m0, b, SceSensitive, clock), w, SceSensitive, clock);
  }

  /** One object that reads the public part and then the sensitive part. */
  function ReadInTwoParts(w: Message, base: Ns, clock: Clock): Message {
    var m := ParseExtensions(FreshMessage(w.id), Serialize(w, ScePublic, base, clock), ScePublic, clock);
    ParseExtensions(m, Serialize(w, SceSensitive, base, clock), SceSensitive, clock)
  }

  /** As ReadInTwoParts, but dropping the public markers before the decrypted content is read. */
  function ReadInTwoPartsOnce(w: Message, base: Ns, clock: Clock): Message {
    var m := ParseExtensions(FreshMessage(w.id), Serialize(w, ScePublic, base, clock), ScePublic, clock);
    ParseExtensions(m.(fallbackMarkers := []), Serialize(w, SceSensitive, base, clock), SceSensitive, clock)
  }

  function ReadWhole(w: Message, base: Ns, clock: Clock): Message {
    ParseExtensions(FreshMessage(w.id), Serialize(w, SceAll, base, clock), SceAll, clock)
  }

  /** The two parts give what the whole gives, except that the end-to-end-encryption fallback body is kept, the
      markers are read twice, and the call elements end up unknown. */
  lemma TwoPartsGive(w: Message, base: Ns, clock: Clock)
    requires BaseNs(base) && KeepsTime(w, clock)
    ensures ReadInTwoParts(w, base, clock)
            == ReadWhole(w, base, clock).(e2eeFallbackBody := w.e2eeFallbackBody, fallbackMarkers := w.fallbackMarkers + w.fallbackMarkers,
                                          calls := CallPart(None, None), extensions := JingleEls(w.calls) + CallInviteEls(w.calls))
    ensures ReadInTwoPartsOnce(w, base, clock) == ReadInTwoParts(w, base, clock).(fallbackMarkers := w.fallbackMarkers)
  {
    hide ParseExtensions, Serialize, JingleEls, CallInviteEls, KeepsTime, ReadText, ReadStatus, ReadLinks;
    WholeRoundTrip(w, base, clock);
    PublicPartRoundTrip(w, base, clock);
    var m := ParseExtensions(FreshMessage(w.id), Serialize(w, ScePublic, base, clock), ScePublic, clock);
    SensitivePartRoundTrip(m, w, base, clock);
    SensitivePartRoundTrip(m.(fallbackMarkers := []), w, base, clock);
    assert [] + JingleEls(w.calls) == JingleEls(w.calls);
  }

  /** Splitting loses nothing exactly when there is neither a Jingle message initiation nor a call invite. */
  lemma SplittingIsLosslessIff(w: Message, base: Ns, clock: Clock)
    requires BaseNs(base) && KeepsTime(w, clock)
    ensures ReadInTwoPartsOnce(w, base, clock).(e2eeFallbackBody := "") == ReadWhole(w, base, clock)
            <==> w.calls.jingleMessageInitiation == None && w.calls.callInvite == None
  {
    hide ReadInTwoParts, ReadInTwoPartsOnce, ReadWhole, KeepsTime;
    TwoPartsGive(w, base, clock);
    assert ReadWhole(w, base, clock) == Restored(w) by { WholeRoundTripShort(w, base, clock); }
  }

  lemma WholeRoundTripShort(w: Message, base: Ns, clock: Clock)
    requires BaseNs(base) && KeepsTime(w, clock)
    ensures ReadWhole(w, base, clock) == Restored(w)
  {
    hide ParseExtensions, Serialize, Restored, KeepsTime;
    WholeRoundTrip(w, base, clock);
  }

  /** The whole output is the public output without its fallback body and markers, then the sensitive output. */
  lemma WholeIsPublicThenSensitive(w: Message, base: Ns, clock: Clock)
    ensures exists known ::
              && Serialize(w, ScePublic, base, clock) == FallbackBodyEls(w) + known + MarkersEls(w)
              && Serialize(w, SceAll, base, clock) == known + Serialize(w, SceSensitive, base, clock)
  {
    hide PublicEls, SensitiveEls, MarkersEls, FallbackBodyEls;
    var known := PublicEls(w.public);
    assert Serialize(w, ScePublic, base, clock) == FallbackBodyEls(w) + known + MarkersEls(w);
    assert Serialize(w, SceAll, base, clock) == known + Serialize(w, SceSensitive, base, clock);
  }

  /** What is sent in the clear does not depend on any sensitive field. */
  lemma PublicPartHidesTheRest(v: Message, w: Message, base: Ns, other: Ns, clock: Clock)
    requires v.public == w.public && v.e2eeFallbackBody == w.e2eeFallbackBody && v.fallbackMarkers == w.fallbackMarkers
    ensures Serialize(v, ScePublic, base, clock) == Serialize(w, ScePublic, other, clock)
  {}
}
