// The message object: it reads its child elements one by one and writes them section by section.

module SceStanza {
  import opened Wrappers
  import opened SceMessage
  import opened SceReading

  class QXmppMessage {
    var d: Message

    constructor (id: string)
      ensures d == FreshMessage(id)
    {
      d := FreshMessage(id);
    }

    method ParseAll(elements: seq<Xml>, mode: SceMode, clock: Clock)
      modifies this
      ensures d == ParseExtensions(old(d), elements, mode, clock)
      ensures IsReading(old(d), elements, mode, clock, d)
    {
      var unknownExtensions: seq<Xml> := [];
      ghost var start := d.(extensions := []);
      for k := 0 to |elements|
        invariant d.(extensions := unknownExtensions) == ParseChildren(start, elements[..k], mode, clock)
        invariant d.extensions == old(d).extensions
      {
        var el := elements[k];
        assert elements[..k + 1][..k] == elements[..k];
        hide ParseExtension;
        ExtensionsAreIgnored(d, unknownExtensions, el, mode, clock);
        if !IsSkipped(el) {
          var parsed := ParseExtension(d, el, mode, clock);
          if parsed.Some? {
            d := parsed.value;
          } else {
            unknownExtensions := unknownExtensions + [el];
          }
        }
      }
      assert elements[..|elements|] == elements;
      d := d.(extensions := unknownExtensions);
      ParsingIsReading(old(d), elements, mode, clock);
    }

    method SerializeExtensions(mode: SceMode, base: Ns, clock: Clock) returns (out: seq<Xml>)
      ensures out == Serialize(d, mode, base, clock)
    {
      hide PublicEls, SensitiveEls, ContentEls;
      out := [];
      if Includes(mode, ScePublic) {
        if mode == ScePublic && d.e2eeFallbackBody != "" {
          out := out + [WithText(BodyTag, NoNs, d.e2eeFallbackBody)];
        }
        var els := WritePublic();
        out := out + els;
      }
      if Includes(mode, SceSensitive) {
        var els := WriteSensitive(base, clock);
        out := out + els;
      }
      var markers := WriteContents(FallbackTag, FallbackIndication, d.fallbackMarkers);
      out := out + markers;
    }

    method WritePublic() returns (out: seq<Xml>)
      ensures out == PublicEls(d.public)
    {
      hide HintEls, StanzaIdEls, OriginIdEls, MixEls, EncryptionEls, OptionalEls;
      var p := d.public;
      out := [];
      if p.privatemsg { out := out + [Leaf(PrivateTag, Carbons)]; }
      assert out == When(p.privatemsg, Leaf(PrivateTag, Carbons));
      var hints := WriteHints(p);
      var ids := WriteStanzaIds(p.stanzaIds);
      out := out + hints + ids;
      var origin, mix := WriteOriginAndMix(p);
      out := out + origin + mix;
      var encryption, omemo := WriteEncryption(p);
      out := out + encryption + omemo;
    }

    method WriteSensitive(base: Ns, clock: Clock) returns (out: seq<Xml>)
      ensures out == SensitiveEls(d, base, clock)
    {
      hide SensitiveHead, SensitiveTail, OptionalEls;
      out := WriteHead(base, clock);
      var els := WriteOptional(CallTag, JingleMessage, d.calls.jingleMessageInitiation);
      out := out + els;
      els := WriteTail();
      out := out + els;
      els := WriteOptional(CallTag, CallInvites, d.calls.callInvite);
      out := out + els;
    }

    method WriteHead(base: Ns, clock: Clock) returns (out: seq<Xml>)
      ensures out == SensitiveHead(d, base, clock)
    {
      hide CoreEls, ContentEls, XhtmlEls, StateEls, DelayEls, ReceiptEls, MucEls, IdEls, MarkerEls;
      out := WriteCore(d.text, base);
      var els := WriteContents(XTag, Oob, d.links.outOfBandUrls);
      out := out + els;
      els := WriteXhtml(d.text);
      out := out + els;
      els := WriteState(d.status);
      out := out + els;
      els := WriteDelay(d.status, clock);
      out := out + els;
      els := WriteReceipt(d.status);
      out := out + els + (if d.status.attentionRequested then [Leaf(AttentionTag, Attention)] else []);
      els := WriteMuc(d.links);
      out := out + els;
      els := WriteContents(DataTag, Bob, d.links.bitsOfBinaryData);
      out := out + els;
      els := WriteId(ReplaceTag, MessageCorrect, d.links.replaceId);
      out := out + els;
      els := WriteMarkers(d.status);
      out := out + els;
    }

    method WriteTail() returns (out: seq<Xml>)
      ensures out == SensitiveTail(d)
    {
      hide ContentEls, OptionalEls, IdEls, ReplyEls;
      var l := d.links;
      out := WriteId(AttachToTag, Attaching, l.attachId);
      out := out + (if d.text.isSpoiler then [WithText(SpoilerTag, SpoilerNs, d.text.spoilerHint)] else []);
      var els := WriteOptional(InvitationTag, MixMisc, l.mixInvitation);
      out := out + els;
      els := WriteOptional(TrustMessageTag, TrustMessages, l.trustMessageElement);
      out := out + els;
      els := WriteOptional(ReactionsTag, Reactions, l.reaction);
      out := out + els;
      els := WriteContents(FileSharingTag, Sfs, l.sharedFiles);
      out := out + els;
      els := WriteContents(SourcesTag, Sfs, l.fileSourcesAttachments);
      out := out + els;
      els := WriteReply(l);
      out := out + els;
    }
  }

  // ------------------------------------------------------------- sections, step by step

  method WriteHints(p: PublicPart) returns (out: seq<Xml>)
    ensures out == HintEls(p)
  {
    out := [];
    if NoPermanentStore in p.hints { out := out + [Leaf(HintTag(NoPermanentStore), ProcessingHints)]; }
    if NoStore in p.hints { out := out + [Leaf(HintTag(NoStore), ProcessingHints)]; }
    if NoCopy in p.hints { out := out + [Leaf(HintTag(NoCopy), ProcessingHints)]; }
    if Store in p.hints { out := out + [Leaf(HintTag(Store), ProcessingHints)]; }
  }

  method WriteStanzaIds(ids: seq<StanzaId>) returns (out: seq<Xml>)
    ensures out == StanzaIdEls(ids)
  {
    out := [];
    for k := 0 to |ids|
      invariant out == StanzaIdEls(ids)[..k]
    {
      var attributes := map["id" := ids[k].id];
      if ids[k].issuer != "" { attributes := attributes["by" := ids[k].issuer]; }
      out := out + [Leaf(StanzaIdTag, Sid).(attributes := attributes)];
    }
  }

  method WriteOriginAndMix(p: PublicPart) returns (origin: seq<Xml>, mix: seq<Xml>)
    ensures origin == OriginIdEls(p) && mix == MixEls(p)
  {
    origin, mix := [], [];
    if p.originId.Some? { origin := [Leaf(OriginIdTag, Sid).(attributes := map["id" := p.originId.value])]; }
    if p.mixUserJid != "" || p.mixUserNick != "" {
      var children: seq<Xml> := [];
      if p.mixUserJid != "" { children := children + [WithText(JidTag, NoNs, p.mixUserJid)]; }
      if p.mixUserNick != "" { children := children + [WithText(NickTag, NoNs, p.mixUserNick)]; }
      assert children == When(p.mixUserJid != "", WithText(JidTag, NoNs, p.mixUserJid))
                         + When(p.mixUserNick != "", WithText(NickTag, NoNs, p.mixUserNick));
      mix := [Leaf(MixTag, Mix).(children := children)];
    }
  }

  method WriteEncryption(p: PublicPart) returns (encryption: seq<Xml>, omemo: seq<Xml>)
    ensures encryption == EncryptionEls(p) && omemo == OptionalEls(EncryptedTag, Omemo2, p.omemoElement)
  {
    encryption := [];
    if p.encryptionMethod != "" {
      var attributes := map["namespace" := p.encryptionMethod];
      if p.encryptionName != "" { attributes := attributes["name" := p.encryptionName]; }
      encryption := [Leaf(EncryptionTag, Eme).(attributes := attributes)];
    }
    omemo := WriteOptional(EncryptedTag, Omemo2, p.omemoElement);
  }

  method WriteOptional(tag: Tag, ns: Ns, content: Option<string>) returns (out: seq<Xml>)
    ensures out == OptionalEls(tag, ns, content)
  {
    out := [];
    if content.Some? { out := [WithContent(tag, ns, content.value)]; }
  }

  method WriteContents(tag: Tag, ns: Ns, contents: seq<string>) returns (out: seq<Xml>)
    ensures out == ContentEls(tag, ns, contents)
  {
    out := [];
    for k := 0 to |contents|
      invariant out == ContentEls(tag, ns, contents)[..k]
    {
      out := out + [WithContent(tag, ns, contents[k])];
    }
  }

  method WriteId(tag: Tag, ns: Ns, id: string) returns (out: seq<Xml>)
    ensures out == IdEls(tag, ns, id)
  {
    out := [];
    if id != "" { out := [Leaf(tag, ns).(attributes := map["id" := id])]; }
  }

  method WriteCore(t: TextPart, base: Ns) returns (out: seq<Xml>)
    ensures out == CoreEls(t, base)
  {
    out := [];
    if t.subject != "" { out := out + [WithText(SubjectTag, base, t.subject)]; }
    if t.body != "" { out := out + [WithText(BodyTag, base, t.body)]; }
    if t.thread != "" {
      var attributes: map<string, string> := map[];
      if t.parentThread != "" { attributes := attributes["parent" := t.parentThread]; }
      out := out + [WithText(ThreadTag, base, t.thread).(attributes := attributes)];
    }
  }

  method WriteXhtml(t: TextPart) returns (out: seq<Xml>)
    ensures out == XhtmlEls(t)
  {
    out := [];
    if t.xhtml != "" { out := [Leaf(HtmlTag, XhtmlIm).(children := [WithContent(BodyTag, Xhtml, t.xhtml)])]; }
  }

  method WriteState(s: StatusPart) returns (out: seq<Xml>)
    ensures out == StateEls(s)
  {
    out := [];
    if s.state.Some? { out := [Leaf(StateTag(s.state.value), ChatStates)]; }
  }

  method WriteDelay(s: StatusPart, clock: Clock) returns (out: seq<Xml>)
    ensures out == DelayEls(s, clock)
  {
    out := [];
    if s.stamp.Some? {
      if s.legacyStamp {
        out := [Leaf(XTag, LegacyDelay).(attributes := map["stamp" := clock.write(true, s.stamp.value)])];
      } else {
        out := [Leaf(DelayTag, Delay).(attributes := map["stamp" := clock.write(false, s.stamp.value)])];
      }
    }
  }

  method WriteReceipt(s: StatusPart) returns (out: seq<Xml>)
    ensures out == ReceiptEls(s)
  {
    out := [];
    if s.receiptId != "" {
      out := [Leaf(ReceivedTag, Receipts).(attributes := map["id" := s.receiptId])];
    } else if s.receiptRequested {
      out := [Leaf(RequestTag, Receipts)];
    }
  }

  method WriteMarkers(s: StatusPart) returns (out: seq<Xml>)
    ensures out == MarkerEls(s)
  {
    out := [];
    if s.markable { out := out + [Leaf(MarkableTag, ChatMarkers)]; }
    if s.marker.Some? {
      var attributes := map["id" := s.markedId];
      if s.markedThread != "" { attributes := attributes["thread" := s.markedThread]; }
      out := out + [Leaf(MarkerTag(s.marker.value), ChatMarkers).(attributes := attributes)];
    }
  }

  method WriteMuc(l: LinkPart) returns (out: seq<Xml>)
    ensures out == MucEls(l)
  {
    out := [];
    if l.mucInvitationJid != "" {
      var attributes := map["jid" := l.mucInvitationJid];
      if l.mucInvitationPassword != "" { attributes := attributes["password" := l.mucInvitationPassword]; }
      if l.mucInvitationReason != "" { attributes := attributes["reason" := l.mucInvitationReason]; }
      out := [Leaf(XTag, Conference).(attributes := attributes)];
    }
  }

  method WriteReply(l: LinkPart) returns (out: seq<Xml>)
    ensures out == ReplyEls(l)
  {
    out := [];
    if l.reply.Some? {
      var attributes := map["id" := l.reply.value.id];
      if l.reply.value.to != "" { attributes := attributes["to" := l.reply.value.to]; }
      out := [Leaf(ReplyTag, ReplyNs).(attributes := attributes)];
    }
  }
}
