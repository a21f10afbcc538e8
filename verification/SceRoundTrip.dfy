// Reading back a message that was written whole, or as a public and a sensitive part.

module SceRoundTrip {
  import opened Wrappers
  import opened SceMessage

  // ------------------------------------------------------------- reading sequences

  lemma {:induction false} ReadConcat(m: Message, a: seq<Xml>, b: seq<Xml>, mode: SceMode, clock: Clock)
    ensures ParseChildren(m, a + b, mode, clock) == ParseChildren(ParseChildren(m, a, mode, clock), b, mode, clock)
    decreases |b|
  {
    if b == [] {
      assert a + b == a;
    } else {
      hide ParseChild;
      var n := |a + b| - 1;
      assert (a + b)[..n] == a + b[..|b| - 1];
      ReadConcat(m, a, b[..|b| - 1], mode, clock);
    }
  }

  lemma ReadWhen(m: Message, condition: bool, el: Xml, mode: SceMode, clock: Clock)
    ensures ParseChildren(m, When(condition, el), mode, clock) == if condition then ParseChild(m, el, mode, clock) else m
  {
    hide ParseChild;
    assert [el][..0] == [];
    assert ParseChildren(m, [], mode, clock) == m;
  }

  lemma ReadOne(m: Message, el: Xml, mode: SceMode, clock: Clock)
    ensures ParseChildren(m, [el], mode, clock) == ParseChild(m, el, mode, clock)
  {
    ReadWhen(m, true, el, mode, clock);
  }

  // ---------------------------------------------------------------- what is restored

  function ReadPublic(p: PublicPart): PublicPart {
    if p.encryptionMethod == "" then p.(encryptionName := "") else p
  }

  function ReadText(t: TextPart): TextPart {
    t.(parentThread := if t.thread == "" then "" else t.parentThread, spoilerHint := if t.isSpoiler then t.spoilerHint else "")
  }

  function ReadStatus(s: StatusPart): StatusPart {
    s.(legacyStamp := s.legacyStamp && s.stamp.Some?, receiptRequested := s.receiptRequested && s.receiptId == "",
       markedId := if s.marker.Some? then s.markedId else "", markedThread := if s.marker.Some? then s.markedThread else "")
  }

  function ReadLinks(l: LinkPart): LinkPart {
    if l.mucInvitationJid == "" then l.(mucInvitationPassword := "", mucInvitationReason := "") else l
  }

  /** What of a message is restored from its public and sensitive elements: fields that only qualify an absent
      element, and a receipt request beside a receipt, are not written. */
  function Restored(m: Message): Message {
    m.(e2eeFallbackBody := "", public := ReadPublic(m.public), text := ReadText(m.text), status := ReadStatus(m.status),
       links := ReadLinks(m.links), extensions := [])
  }

  predicate KeepsTime(m: Message, clock: Clock) {
    m.status.stamp.Some? ==>
      var t := m.status.stamp.value;
      clock.read(m.status.legacyStamp, clock.write(m.status.legacyStamp, t)) == Some(t)
  }

  // ------------------------------------------------------------------- public stages

  lemma ReadHints(m: Message, p: PublicPart, mode: SceMode, clock: Clock)
    requires mode != SceSensitive && m.public.hints == {}
    ensures ParseChildren(m, HintEls(p), mode, clock) == m.(public := m.public.(hints := p.hints))
  {
    hide ParseChildren, ParseSensitive, ParseFallback;
    var a, b := When(NoPermanentStore in p.hints, Leaf(HintTag(NoPermanentStore), ProcessingHints)),
                When(NoStore in p.hints, Leaf(HintTag(NoStore), ProcessingHints));
    var c, e := When(NoCopy in p.hints, Leaf(HintTag(NoCopy), ProcessingHints)),
                When(Store in p.hints, Leaf(HintTag(Store), ProcessingHints));
    ReadConcat(m, a + b + c, e, mode, clock);
    ReadConcat(m, a + b, c, mode, clock);
    ReadConcat(m, a, b, mode, clock);
    var m1 := HintStep(m, p, NoPermanentStore, mode, clock);
    var m2 := HintStep(m1, p, NoStore, mode, clock);
    var m3 := HintStep(m2, p, NoCopy, mode, clock);
    var m4 := HintStep(m3, p, Store, mode, clock);
    assert m4.public.hints == p.hints by {
      forall h ensures h in m4.public.hints <==> h in p.hints {
        if h == NoPermanentStore {} else if h == NoStore {} else if h == NoCopy {} else { assert h == Store; }
      }
    }
  }

  function AddHint(m: Message, p: PublicPart, h: Hint): Message {
    if h in p.hints then m.(public := m.public.(hints := m.public.hints + {h})) else m
  }

  lemma HintStep(m: Message, p: PublicPart, h: Hint, mode: SceMode, clock: Clock) returns (r: Message)
    requires mode != SceSensitive
    ensures r == AddHint(m, p, h)
    ensures ParseChildren(m, When(h in p.hints, Leaf(HintTag(h), ProcessingHints)), mode, clock) == r
  {
    hide ParseSensitive, ParseFallback;
    ReadWhen(m, h in p.hints, Leaf(HintTag(h), ProcessingHints), mode, clock);
    r := AddHint(m, p, h);
  }

  lemma ReadStanzaId(m: Message, s: StanzaId, mode: SceMode, clock: Clock)
    requires mode != SceSensitive
    ensures ParseChild(m, StanzaIdEl(s), mode, clock) == m.(public := m.public.(stanzaIds := m.public.stanzaIds + [s]))
  {
    hide ParseSensitive, ParseFallback;
  }

  lemma {:induction false} ReadStanzaIds(m: Message, ids: seq<StanzaId>, mode: SceMode, clock: Clock)
    requires mode != SceSensitive
    ensures ParseChildren(m, StanzaIdEls(ids), mode, clock) == m.(public := m.public.(stanzaIds := m.public.stanzaIds + ids))
  {
    if ids != [] {
      hide ParseChild, StanzaIdEl;
      var n := |ids| - 1;
      assert StanzaIdEls(ids)[..n] == StanzaIdEls(ids[..n]);
      ReadStanzaIds(m, ids[..n], mode, clock);
      ReadStanzaId(m.(public := m.public.(stanzaIds := m.public.stanzaIds + ids[..n])), ids[n], mode, clock);
      assert m.public.stanzaIds + ids == m.public.stanzaIds + ids[..n] + [ids[n]];
    }
  }

  lemma ReadOriginId(m: Message, p: PublicPart, mode: SceMode, clock: Clock)
    requires mode != SceSensitive && m.public.originId == None
    ensures ParseChildren(m, OriginIdEls(p), mode, clock) == m.(public := m.public.(originId := p.originId))
  {
    hide ParseSensitive, ParseFallback;
    if p.originId.Some? { ReadOne(m, OriginIdEls(p)[0], mode, clock); }
  }

  lemma FirstOf(a: Xml, rest: seq<Xml>, tag: Tag)
    ensures FirstChild([a] + rest, tag) == if a.tag == tag then Some(a) else FirstChild(rest, tag)
  {
    assert ([a] + rest)[1..] == rest;
  }

  lemma MixTexts(p: PublicPart, el: Xml)
    requires MixEls(p) == [el]
    ensures ChildText(el, JidTag) == p.mixUserJid && ChildText(el, NickTag) == p.mixUserNick
  {
    var a, b := WithText(JidTag, NoNs, p.mixUserJid), WithText(NickTag, NoNs, p.mixUserNick);
    var nick := When(p.mixUserNick != "", b);
    assert MixEls(p)[0] == el;
    assert el.children == When(p.mixUserJid != "", a) + nick;
    assert forall tag :: FirstChild([], tag) == None;
    if p.mixUserNick != "" {
      FirstOf(b, [], JidTag);
      FirstOf(b, [], NickTag);
      assert nick == [b] + [];
    }
    if p.mixUserJid == "" {
      assert el.children == nick;
    } else {
      assert el.children == [a] + nick;
      FirstOf(a, nick, JidTag);
      FirstOf(a, nick, NickTag);
    }
  }

  lemma ReadMixEl(m: Message, el: Xml, mode: SceMode, clock: Clock)
    requires mode != SceSensitive && el.tag == MixTag && el.ns == Mix
    ensures ParseChild(m, el, mode, clock)
            == m.(public := m.public.(mixUserJid := ChildText(el, JidTag), mixUserNick := ChildText(el, NickTag)))
  {
    hide ParseSensitive, ParseFallback, ChildText;
  }

  lemma ReadMix(m: Message, p: PublicPart, mode: SceMode, clock: Clock)
    requires mode != SceSensitive && m.public.mixUserJid == "" && m.public.mixUserNick == ""
    ensures ParseChildren(m, MixEls(p), mode, clock)
            == m.(public := m.public.(mixUserJid := p.mixUserJid, mixUserNick := p.mixUserNick))
  {
    if p.mixUserJid != "" || p.mixUserNick != "" {
      hide ParseChild, ChildText;
      var el := MixEls(p)[0];
      MixTexts(p, el);
      ReadMixEl(m, el, mode, clock);
      ReadOne(m, el, mode, clock);
    }
  }

  lemma ReadEncryption(m: Message, p: PublicPart, mode: SceMode, clock: Clock)
    requires mode != SceSensitive && m.public.encryptionMethod == "" && m.public.encryptionName == ""
    ensures ParseChildren(m, EncryptionEls(p), mode, clock)
            == m.(public := m.public.(encryptionMethod := p.encryptionMethod, encryptionName := ReadPublic(p).encryptionName))
  {
    hide ParseSensitive, ParseFallback, ChildText;
    if p.encryptionMethod != "" { ReadOne(m, EncryptionEls(p)[0], mode, clock); }
  }

  lemma ReadPrivate(m: Message, p: PublicPart, mode: SceMode, clock: Clock)
    requires mode != SceSensitive && !m.public.privatemsg
    ensures ParseChildren(m, When(p.privatemsg, Leaf(PrivateTag, Carbons)), mode, clock)
            == m.(public := m.public.(privatemsg := p.privatemsg))
  {
    hide ParseSensitive, ParseFallback, ParseChildren;
    ReadWhen(m, p.privatemsg, Leaf(PrivateTag, Carbons), mode, clock);
  }

  lemma ReadOmemo(m: Message, p: PublicPart, mode: SceMode, clock: Clock)
    requires mode != SceSensitive && m.public.omemoElement == None
    ensures ParseChildren(m, OptionalEls(EncryptedTag, Omemo2, p.omemoElement), mode, clock)
            == m.(public := m.public.(omemoElement := p.omemoElement))
  {
    hide ParseSensitive, ParseFallback;
    if p.omemoElement.Some? { ReadOne(m, WithContent(EncryptedTag, Omemo2, p.omemoElement.value), mode, clock); }
  }

  lemma ReadPublicEls(m: Message, p: PublicPart, mode: SceMode, clock: Clock)
    requires mode != SceSensitive && m.public == FreshMessage("").public
    ensures ParseChildren(m, PublicEls(p), mode, clock) == m.(public := ReadPublic(p))
  {
    hide ParseChildren, HintEls, StanzaIdEls, OriginIdEls, MixEls, EncryptionEls, OptionalEls, When;
    var a, b, c, d := When(p.privatemsg, Leaf(PrivateTag, Carbons)), HintEls(p), StanzaIdEls(p.stanzaIds), OriginIdEls(p);
    var e, f, g := MixEls(p), EncryptionEls(p), OptionalEls(EncryptedTag, Omemo2, p.omemoElement);
    ReadConcat(m, a + b + c + d + e + f, g, mode, clock);
    ReadConcat(m, a + b + c + d + e, f, mode, clock);
    ReadConcat(m, a + b + c + d, e, mode, clock);
    ReadConcat(m, a + b + c, d, mode, clock);
    ReadConcat(m, a + b, c, mode, clock);
    ReadConcat(m, a, b, mode, clock);
    ReadPrivate(m, p, mode, clock);
    var m1 := ParseChildren(m, a, mode, clock);
    ReadHints(m1, p, mode, clock);
    var m2 := ParseChildren(m1, b, mode, clock);
    ReadStanzaIds(m2, p.stanzaIds, mode, clock);
    var m3 := ParseChildren(m2, c, mode, clock);
    ReadOriginId(m3, p, mode, clock);
    var m4 := ParseChildren(m3, d, mode, clock);
    ReadMix(m4, p, mode, clock);
    var m5 := ParseChildren(m4, e, mode, clock);
    ReadEncryption(m5, p, mode, clock);
    ReadOmemo(ParseChildren(m5, f, mode, clock), p, mode, clock);
  }

  // ---------------------------------------------------------------- sensitive stages

  predicate ReadsSensitive(mode: SceMode) { mode != ScePublic }

  /** An element that no public check claims is read the same in both modes. */
  lemma ReadSensitive(m: Message, el: Xml, mode: SceMode, clock: Clock)
    requires ReadsSensitive(mode) && !IsSkipped(el)
    requires ParsePublic(m, el, SceAll) == None && ParseSensitive(m, el, clock).Some?
    ensures ParseChildren(m, [el], mode, clock) == ParseSensitive(m, el, clock).value
  {
    hide ParsePublic, ParseSensitive;
    ReadOne(m, el, mode, clock);
  }

  lemma ReadCore(m: Message, t: TextPart, base: Ns, mode: SceMode, clock: Clock)
    requires ReadsSensitive(mode) && (base.NoNs? || base.OtherNs?)
    requires m.text.subject == m.text.body == m.text.thread == m.text.parentThread == ""
    ensures ParseChildren(m, CoreEls(t, base), mode, clock)
            == m.(text := m.text.(subject := t.subject, body := t.body, thread := t.thread, parentThread := ReadText(t).parentThread))
  {
    hide ParseChildren, ThreadEls, ParseChild;
    var a, b, c := WithText(SubjectTag, base, t.subject), WithText(BodyTag, base, t.body), ThreadEls(t, base);
    ReadConcat(m, When(t.subject != "", a) + When(t.body != "", b), c, mode, clock);
    ReadConcat(m, When(t.subject != "", a), When(t.body != "", b), mode, clock);
    ReadSubject(m, t, base, mode, clock);
    var m1 := ParseChildren(m, When(t.subject != "", a), mode, clock);
    ReadBody(m1, t, base, mode, clock);
    var m2 := ParseChildren(m1, When(t.body != "", b), mode, clock);
    ReadThread(m2, t, base, mode, clock);
  }

  lemma ReadSubject(m: Message, t: TextPart, base: Ns, mode: SceMode, clock: Clock)
    requires ReadsSensitive(mode) && (base.NoNs? || base.OtherNs?) && m.text.subject == ""
    ensures ParseChildren(m, When(t.subject != "", WithText(SubjectTag, base, t.subject)), mode, clock)
            == m.(text := m.text.(subject := t.subject))
  {
    hide ParseChild, ParseLinks;
    ReadWhen(m, t.subject != "", WithText(SubjectTag, base, t.subject), mode, clock);
    ReadOne(m, WithText(SubjectTag, base, t.subject), mode, clock);
    ReadSensitive(m, WithText(SubjectTag, base, t.subject), mode, clock);
  }

  lemma ReadBody(m: Message, t: TextPart, base: Ns, mode: SceMode, clock: Clock)
    requires ReadsSensitive(mode) && (base.NoNs? || base.OtherNs?) && m.text.body == ""
    ensures ParseChildren(m, When(t.body != "", WithText(BodyTag, base, t.body)), mode, clock)
            == m.(text := m.text.(body := t.body))
  {
    hide ParseChild, ParseLinks;
    ReadWhen(m, t.body != "", WithText(BodyTag, base, t.body), mode, clock);
    ReadOne(m, WithText(BodyTag, base, t.body), mode, clock);
    ReadSensitive(m, WithText(BodyTag, base, t.body), mode, clock);
  }

  lemma ReadThread(m: Message, t: TextPart, base: Ns, mode: SceMode, clock: Clock)
    requires ReadsSensitive(mode) && (base.NoNs? || base.OtherNs?) && m.text.thread == m.text.parentThread == ""
    ensures ParseChildren(m, ThreadEls(t, base), mode, clock)
            == m.(text := m.text.(thread := t.thread, parentThread := ReadText(t).parentThread))
  {
    hide ParseChild, ParseLinks;
    if t.thread != "" { ReadSensitive(m, ThreadEls(t, base)[0], mode, clock); }
  }

  lemma ReadXhtml(m: Message, t: TextPart, mode: SceMode, clock: Clock)
    requires ReadsSensitive(mode) && m.text.xhtml == ""
    ensures ParseChildren(m, XhtmlEls(t), mode, clock) == m.(text := m.text.(xhtml := t.xhtml))
  {
    hide ParseChild, ParseLinks;
    if t.xhtml != "" { ReadSensitive(m, XhtmlEls(t)[0], mode, clock); }
  }

  lemma ReadState(m: Message, s: StatusPart, mode: SceMode, clock: Clock)
    requires ReadsSensitive(mode) && m.status.state == None
    ensures ParseChildren(m, StateEls(s), mode, clock) == m.(status := m.status.(state := s.state))
  {
    hide ParseChild, ParseLinks;
    if s.state.Some? { ReadSensitive(m, StateEls(s)[0], mode, clock); }
  }

  lemma ReadDelay(m: Message, whole: Message, mode: SceMode, clock: Clock)
    requires ReadsSensitive(mode) && m.status.stamp == None && !m.status.legacyStamp && KeepsTime(whole, clock)
    ensures ParseChildren(m, DelayEls(whole.status, clock), mode, clock)
            == m.(status := m.status.(stamp := whole.status.stamp, legacyStamp := ReadStatus(whole.status).legacyStamp))
  {
    hide ParseChild, ParseChildren, ParseSensitive, ParsePublic;
    if whole.status.stamp.Some? {
      IsTime(m, DelayEls(whole.status, clock)[0], clock);
      ReadSensitive(m, DelayEls(whole.status, clock)[0], mode, clock);
    } else {
      ReadNothing(m, mode, clock);
    }
  }

  lemma IsTime(m: Message, el: Xml, clock: Clock)
    requires (el.ns == LegacyDelay && el.tag == XTag && m.status.stamp == None) || (el.ns == Delay && el.tag == DelayTag)
    ensures ParsePublic(m, el, SceAll) == None
    ensures ParseSensitive(m, el, clock)
            == Some(m.(status := m.status.(stamp := clock.read(el.tag == XTag, Attribute(el, "stamp")), legacyStamp := el.tag == XTag)))
  {
    hide ParseLinks, Attribute;
  }

  lemma ReadReceipt(m: Message, s: StatusPart, mode: SceMode, clock: Clock)
    requires ReadsSensitive(mode) && m.status.receiptId == "" && !m.status.receiptRequested
    ensures ParseChildren(m, ReceiptEls(s), mode, clock)
            == m.(status := m.status.(receiptId := s.receiptId, receiptRequested := ReadStatus(s).receiptRequested))
  {
    hide ParseChild, ParseChildren, ParseSensitive, ParsePublic;
    if ReceiptEls(s) != [] {
      IsReceipt(m, ReceiptEls(s)[0], clock);
      ReadSensitive(m, ReceiptEls(s)[0], mode, clock);
    } else {
      assert ParseChildren(m, [], mode, clock) == m by { ReadNothing(m, mode, clock); }
    }
  }

  lemma ReadNothing(m: Message, mode: SceMode, clock: Clock)
    ensures ParseChildren(m, [], mode, clock) == m
  {}

  lemma IsReceipt(m: Message, el: Xml, clock: Clock)
    requires el.ns == Receipts && (el.tag == ReceivedTag || el.tag == RequestTag)
    ensures ParsePublic(m, el, SceAll) == None
    ensures ParseSensitive(m, el, clock)
            == Some(m.(status := if el.tag == RequestTag then m.status.(receiptRequested := true)
                                 else m.status.(receiptId := if Attribute(el, "id") == "" then m.id else Attribute(el, "id"))))
  {
    hide ParseLinks, Attribute;
  }

  lemma ReadAttention(m: Message, s: StatusPart, mode: SceMode, clock: Clock)
    requires ReadsSensitive(mode) && !m.status.attentionRequested
    ensures ParseChildren(m, When(s.attentionRequested, Leaf(AttentionTag, Attention)), mode, clock)
            == m.(status := m.status.(attentionRequested := s.attentionRequested))
  {
    hide ParseChild, ParseLinks;
    if s.attentionRequested { ReadSensitive(m, Leaf(AttentionTag, Attention), mode, clock); }
  }

  lemma ReadMarkers(m: Message, s: StatusPart, mode: SceMode, clock: Clock)
    requires ReadsSensitive(mode) && !m.status.markable && m.status.marker == None && m.status.markedId == m.status.markedThread == ""
    ensures ParseChildren(m, MarkerEls(s), mode, clock)
            == m.(status := m.status.(markable := s.markable, marker := s.marker,
                                      markedId := ReadStatus(s).markedId, markedThread := ReadStatus(s).markedThread))
  {
    hide ParseChild, ParseChildren, ParseTextAndStatus;
    var a := When(s.markable, Leaf(MarkableTag, ChatMarkers));
    var b := if s.marker.Some? then [MarkerEls(s)[|a|]] else [];
    assert MarkerEls(s) == a + b;
    ReadConcat(m, a, b, mode, clock);
    ReadMarkable(m, s, mode, clock);
    ReadMarker(m.(status := m.status.(markable := s.markable)), s, b, mode, clock);
  }

  lemma ReadMarkable(m: Message, s: StatusPart, mode: SceMode, clock: Clock)
    requires ReadsSensitive(mode) && !m.status.markable
    ensures ParseChildren(m, When(s.markable, Leaf(MarkableTag, ChatMarkers)), mode, clock)
            == m.(status := m.status.(markable := s.markable))
  {
    hide ParseChild;
    if s.markable { ReadSensitive(m, Leaf(MarkableTag, ChatMarkers), mode, clock); }
  }

  lemma ReadMarker(m: Message, s: StatusPart, els: seq<Xml>, mode: SceMode, clock: Clock)
    requires ReadsSensitive(mode) && m.status.marker == None && m.status.markedId == m.status.markedThread == ""
    requires els == match s.marker
                    case Some(k) => [Leaf(MarkerTag(k), ChatMarkers).(attributes := OptionalAttribute(map["id" := s.markedId], "thread", s.markedThread))]
                    case None => []
    ensures ParseChildren(m, els, mode, clock)
            == m.(status := m.status.(marker := s.marker, markedId := ReadStatus(s).markedId, markedThread := ReadStatus(s).markedThread))
  {
    hide ParseChild;
    if s.marker.Some? { ReadSensitive(m, els[0], mode, clock); }
  }

  lemma ReadMuc(m: Message, l: LinkPart, mode: SceMode, clock: Clock)
    requires ReadsSensitive(mode) && m.links.mucInvitationJid == m.links.mucInvitationPassword == m.links.mucInvitationReason == ""
    ensures ParseChildren(m, MucEls(l), mode, clock)
            == m.(links := m.links.(mucInvitationJid := l.mucInvitationJid,
                                    mucInvitationPassword := ReadLinks(l).mucInvitationPassword,
                                    mucInvitationReason := ReadLinks(l).mucInvitationReason))
  {
    hide ParseChild, ParseLinks;
    if l.mucInvitationJid != "" { ReadSensitive(m, MucEls(l)[0], mode, clock); }
  }

  lemma ReadReplace(m: Message, l: LinkPart, mode: SceMode, clock: Clock)
    requires ReadsSensitive(mode) && m.links.replaceId == ""
    ensures ParseChildren(m, IdEls(ReplaceTag, MessageCorrect, l.replaceId), mode, clock)
            == m.(links := m.links.(replaceId := l.replaceId))
  {
    hide ParseChild;
    if l.replaceId != "" { ReadSensitive(m, IdEls(ReplaceTag, MessageCorrect, l.replaceId)[0], mode, clock); }
  }

  lemma ReadAttach(m: Message, l: LinkPart, mode: SceMode, clock: Clock)
    requires ReadsSensitive(mode) && m.links.attachId == ""
    ensures ParseChildren(m, IdEls(AttachToTag, Attaching, l.attachId), mode, clock)
            == m.(links := m.links.(attachId := l.attachId))
  {
    hide ParseChild;
    if l.attachId != "" { ReadSensitive(m, IdEls(AttachToTag, Attaching, l.attachId)[0], mode, clock); }
  }

  lemma ReadSpoiler(m: Message, t: TextPart, mode: SceMode, clock: Clock)
    requires ReadsSensitive(mode) && !m.text.isSpoiler && m.text.spoilerHint == ""
    ensures ParseChildren(m, When(t.isSpoiler, WithText(SpoilerTag, SpoilerNs, t.spoilerHint)), mode, clock)
            == m.(text := m.text.(isSpoiler := t.isSpoiler, spoilerHint := ReadText(t).spoilerHint))
  {
    hide ParseChild;
    if t.isSpoiler { ReadSensitive(m, WithText(SpoilerTag, SpoilerNs, t.spoilerHint), mode, clock); }
  }

  lemma ReadReply(m: Message, l: LinkPart, mode: SceMode, clock: Clock)
    requires ReadsSensitive(mode) && m.links.reply == None
    ensures ParseChildren(m, ReplyEls(l), mode, clock) == m.(links := m.links.(reply := l.reply))
  {
    hide ParseChild;
    if l.reply.Some? { ReadSensitive(m, ReplyEls(l)[0], mode, clock); }
  }

  lemma ReadInvitation(m: Message, l: LinkPart, mode: SceMode, clock: Clock)
    requires ReadsSensitive(mode) && m.links.mixInvitation == None
    ensures ParseChildren(m, OptionalEls(InvitationTag, MixMisc, l.mixInvitation), mode, clock)
            == m.(links := m.links.(mixInvitation := l.mixInvitation))
  {
    hide ParseChild;
    if l.mixInvitation.Some? { ReadSensitive(m, WithContent(InvitationTag, MixMisc, l.mixInvitation.value), mode, clock); }
  }

  lemma ReadTrustMessage(m: Message, l: LinkPart, mode: SceMode, clock: Clock)
    requires ReadsSensitive(mode) && m.links.trustMessageElement == None
    ensures ParseChildren(m, OptionalEls(TrustMessageTag, TrustMessages, l.trustMessageElement), mode, clock)
            == m.(links := m.links.(trustMessageElement := l.trustMessageElement))
  {
    hide ParseChild;
    if l.trustMessageElement.Some? { ReadSensitive(m, WithContent(TrustMessageTag, TrustMessages, l.trustMessageElement.value), mode, clock); }
  }

  lemma ReadReaction(m: Message, l: LinkPart, mode: SceMode, clock: Clock)
    requires ReadsSensitive(mode) && m.links.reaction == None
    ensures ParseChildren(m, OptionalEls(ReactionsTag, Reactions, l.reaction), mode, clock)
            == m.(links := m.links.(reaction := l.reaction))
  {
    hide ParseChild;
    if l.reaction.Some? { ReadSensitive(m, WithContent(ReactionsTag, Reactions, l.reaction.value), mode, clock); }
  }

  datatype ListField = OutOfBandUrls | BitsOfBinary | SharedFiles | FileSources

  function FieldEls(f: ListField, contents: seq<string>): seq<Xml> {
    match f
    case OutOfBandUrls => ContentEls(XTag, Oob, contents)
    case BitsOfBinary => ContentEls(DataTag, Bob, contents)
    case SharedFiles => ContentEls(FileSharingTag, Sfs, contents)
    case FileSources => ContentEls(SourcesTag, Sfs, contents)
  }

  function WithMore(m: Message, f: ListField, more: seq<string>): Message {
    var l := m.links;
    m.(links := match f
       case OutOfBandUrls => l.(outOfBandUrls := l.outOfBandUrls + more)
       case BitsOfBinary => l.(bitsOfBinaryData := l.bitsOfBinaryData + more)
       case SharedFiles => l.(sharedFiles := l.sharedFiles + more)
       case FileSources => l.(fileSourcesAttachments := l.fileSourcesAttachments + more))
  }

  lemma ReadListEl(m: Message, f: ListField, item: string, el: Xml, clock: Clock)
    requires FieldEls(f, [item]) == [el]
    ensures ParsePublic(m, el, SceAll) == None && !IsSkipped(el)
    ensures ParseSensitive(m, el, clock) == Some(WithMore(m, f, [item]))
  {
    assert FieldEls(f, [item])[0] == el;
  }

  lemma ReadListItem(m: Message, f: ListField, item: string, mode: SceMode, clock: Clock)
    requires ReadsSensitive(mode)
    ensures ParseChildren(m, FieldEls(f, [item]), mode, clock) == WithMore(m, f, [item])
  {
    hide ParseChildren, ParsePublic, ParseSensitive, WithMore, IsSkipped;
    var el := FieldEls(f, [item])[0];
    assert FieldEls(f, [item]) == [el];
    ReadListEl(m, f, item, el, clock);
    ReadSensitive(m, el, mode, clock);
  }

  lemma {:induction false} ReadList(m: Message, f: ListField, contents: seq<string>, mode: SceMode, clock: Clock)
    requires ReadsSensitive(mode)
    ensures ParseChildren(m, FieldEls(f, contents), mode, clock) == WithMore(m, f, contents)
  {
    hide ParseChildren, WithMore;
    if contents == [] {
      assert FieldEls(f, contents) == [];
      ReadNothing(m, mode, clock);
      NoMore(m, f);
    } else {
      var n := |contents| - 1;
      assert FieldEls(f, contents) == FieldEls(f, contents[..n]) + FieldEls(f, [contents[n]]);
      ReadConcat(m, FieldEls(f, contents[..n]), FieldEls(f, [contents[n]]), mode, clock);
      ReadList(m, f, contents[..n], mode, clock);
      ReadListItem(WithMore(m, f, contents[..n]), f, contents[n], mode, clock);
      assert contents == contents[..n] + [contents[n]];
      MoreInSteps(m, f, contents[..n], [contents[n]]);
    }
  }

  lemma NoMore(m: Message, f: ListField)
    ensures WithMore(m, f, []) == m
  {
    var l := m.links;
    assert l.outOfBandUrls + [] == l.outOfBandUrls && l.bitsOfBinaryData + [] == l.bitsOfBinaryData;
    assert l.sharedFiles + [] == l.sharedFiles && l.fileSourcesAttachments + [] == l.fileSourcesAttachments;
  }

  lemma MoreInSteps(m: Message, f: ListField, a: seq<string>, b: seq<string>)
    ensures WithMore(WithMore(m, f, a), f, b) == WithMore(m, f, a + b)
  {
    var l := m.links;
    assert l.outOfBandUrls + a + b == l.outOfBandUrls + (a + b);
    assert l.bitsOfBinaryData + a + b == l.bitsOfBinaryData + (a + b);
    assert l.sharedFiles + a + b == l.sharedFiles + (a + b);
    assert l.fileSourcesAttachments + a + b == l.fileSourcesAttachments + (a + b);
  }
}
