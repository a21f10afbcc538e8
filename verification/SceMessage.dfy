// Message extensions in two parts: the public part for routing and the sensitive part
// that end-to-end encryption hides (XEP-0420), what is written and how it is read.

module SceMessage {
  import opened Wrappers

  // ------------------------------------------------------------------------- XML

  datatype Ns =
    | NoNs | Carbons | ProcessingHints | JingleMessage | Sid | Mix | Eme | Omemo2 | CallInvites
    | LegacyDelay | Conference | Oob | XhtmlIm | Xhtml | ChatStates | Receipts | Delay | Attention | Bob
    | MessageCorrect | ChatMarkers | Attaching | SpoilerNs | MixMisc | TrustMessages | Reactions | Sfs | ReplyNs
    | FallbackIndication | ExtendedAddressing | OtherNs(uri: string)

  /** A name that two formats share has a constructor for each of them. */
  datatype Tag =
    | BodyTag | SubjectTag | ThreadTag | XTag | HtmlTag | ErrorTag | AddressesTag
    | PrivateTag | HintTag(hint: Hint) | CallTag | StanzaIdTag | OriginIdTag | MixTag | JidTag | NickTag
    | EncryptionTag | EncryptedTag | StateTag(state: ChatState) | ReceivedTag | RequestTag | DelayTag | AttentionTag
    | DataTag | ReplaceTag | MarkableTag | MarkerTag(marker: ChatMarker) | AttachToTag | SpoilerTag | InvitationTag
    | TrustMessageTag | ReactionsTag | FileSharingTag | SourcesTag | ReplyTag | FallbackTag | OtherTag(name: string)

  datatype Hint = NoPermanentStore | NoStore | NoCopy | Store

  datatype ChatState = Active | Inactive | Gone | Composing | Paused

  datatype ChatMarker = Received | Displayed | Acknowledged

  /** content stands for everything inside an element whose own format is not modelled. */
  datatype Xml = Xml(tag: Tag, ns: Ns, attributes: map<string, string>, text: string, children: seq<Xml>, content: string)

  function Leaf(tag: Tag, ns: Ns): Xml { Xml(tag, ns, map[], "", [], "") }

  function WithText(tag: Tag, ns: Ns, text: string): Xml { Leaf(tag, ns).(text := text) }

  function WithContent(tag: Tag, ns: Ns, content: string): Xml { Leaf(tag, ns).(content := content) }

  function OptionalAttribute(attributes: map<string, string>, name: string, value: string): map<string, string> {
    if value == "" then attributes else attributes[name := value]
  }

  function Attribute(el: Xml, name: string): string { if name in el.attributes then el.attributes[name] else "" }

  function FirstChild(children: seq<Xml>, tag: Tag): Option<Xml> {
    if children == [] then None
    else if children[0].tag == tag then Some(children[0])
    else FirstChild(children[1..], tag)
  }

  lemma {:induction false} FirstChildIsFirst(children: seq<Xml>, tag: Tag)
    ensures match FirstChild(children, tag)
            case Some(child) => exists k :: 0 <= k < |children| && children[k] == child && child.tag == tag
                                             && forall j :: 0 <= j < k ==> children[j].tag != tag
            case None => forall j :: 0 <= j < |children| ==> children[j].tag != tag
  {
    if children != [] && children[0].tag != tag {
      FirstChildIsFirst(children[1..], tag);
      var rest := FirstChild(children[1..], tag);
      if rest.Some? {
        var k :| 0 <= k < |children| - 1 && children[1..][k] == rest.value && forall j :: 0 <= j < k ==> children[1..][j].tag != tag;
        assert children[k + 1] == rest.value;
        forall j | 0 <= j < k + 1 ensures children[j].tag != tag { if j > 0 { assert children[j] == children[1..][j - 1]; } }
      } else {
        forall j | 0 <= j < |children| ensures children[j].tag != tag { if j > 0 { assert children[j] == children[1..][j - 1]; } }
      }
    }
  }

  function ChildText(el: Xml, tag: Tag): string {
    match FirstChild(el.children, tag) case Some(child) => child.text case None => ""
  }

  // --------------------------------------------------------------------- message

  datatype SceMode = SceAll | ScePublic | SceSensitive

  predicate Includes(mode: SceMode, part: SceMode) { mode == SceAll || mode == part }

  datatype StanzaId = StanzaId(id: string, issuer: string)

  datatype Reply = Reply(to: string, id: string)

  datatype PublicPart = PublicPart(
    privatemsg: bool, hints: set<Hint>, stanzaIds: seq<StanzaId>, originId: Option<string>,
    mixUserJid: string, mixUserNick: string, encryptionMethod: string, encryptionName: string, omemoElement: Option<string>)

  datatype TextPart = TextPart(subject: string, body: string, thread: string, parentThread: string, xhtml: string,
                               isSpoiler: bool, spoilerHint: string)

  datatype StatusPart = StatusPart(
    state: Option<ChatState>, stamp: Option<int>, legacyStamp: bool, receiptId: string, receiptRequested: bool,
    attentionRequested: bool, markable: bool, marker: Option<ChatMarker>, markedId: string, markedThread: string)

  datatype LinkPart = LinkPart(
    outOfBandUrls: seq<string>, mucInvitationJid: string, mucInvitationPassword: string, mucInvitationReason: string,
    bitsOfBinaryData: seq<string>, replaceId: string, attachId: string, mixInvitation: Option<string>,
    trustMessageElement: Option<string>, reaction: Option<string>, sharedFiles: seq<string>,
    fileSourcesAttachments: seq<string>, reply: Option<Reply>)

  /** The elements that are written with the sensitive part but read with the public part. */
  datatype CallPart = CallPart(jingleMessageInitiation: Option<string>, callInvite: Option<string>)

  datatype Message = Message(
    id: string, e2eeFallbackBody: string, public: PublicPart, text: TextPart, status: StatusPart, links: LinkPart, calls: CallPart,
    fallbackMarkers: seq<string>, extensions: seq<Xml>)

  /** How a time is written and read back, in the legacy format or in the current one; None is an unreadable time. */
  datatype Clock = Clock(write: (bool, int) -> string, read: (bool, string) -> Option<int>)

  function FreshMessage(id: string): Message {
    Message(id, "", PublicPart(false, {}, [], None, "", "", "", "", None), TextPart("", "", "", "", "", false, ""),
            StatusPart(None, None, false, "", false, false, false, None, "", ""),
            LinkPart([], "", "", "", [], "", "", None, None, None, [], [], None), CallPart(None, None), [], [])
  }

  // ------------------------------------------------------------------ serializing

  function When(condition: bool, el: Xml): seq<Xml> { if condition then [el] else [] }

  function HintEls(p: PublicPart): seq<Xml> {
    When(NoPermanentStore in p.hints, Leaf(HintTag(NoPermanentStore), ProcessingHints))
    + When(NoStore in p.hints, Leaf(HintTag(NoStore), ProcessingHints))
    + When(NoCopy in p.hints, Leaf(HintTag(NoCopy), ProcessingHints))
    + When(Store in p.hints, Leaf(HintTag(Store), ProcessingHints))
  }

  function StanzaIdEl(s: StanzaId): Xml {
    Leaf(StanzaIdTag, Sid).(attributes := OptionalAttribute(map["id" := s.id], "by", s.issuer))
  }

  function StanzaIdEls(ids: seq<StanzaId>): seq<Xml> { seq(|ids|, k requires 0 <= k < |ids| => StanzaIdEl(ids[k])) }

  function OriginIdEls(p: PublicPart): seq<Xml> {
    match p.originId
    case Some(id) => [Leaf(OriginIdTag, Sid).(attributes := map["id" := id])]
    case None => []
  }

  function MixEls(p: PublicPart): seq<Xml> {
    When(p.mixUserJid != "" || p.mixUserNick != "",
         Leaf(MixTag, Mix).(children := When(p.mixUserJid != "", WithText(JidTag, NoNs, p.mixUserJid))
                                        + When(p.mixUserNick != "", WithText(NickTag, NoNs, p.mixUserNick))))
  }

  function EncryptionEls(p: PublicPart): seq<Xml> {
    When(p.encryptionMethod != "",
         Leaf(EncryptionTag, Eme).(attributes := OptionalAttribute(map["namespace" := p.encryptionMethod], "name", p.encryptionName)))
  }

  function OptionalEls(tag: Tag, ns: Ns, content: Option<string>): seq<Xml> {
    match content case Some(c) => [WithContent(tag, ns, c)] case None => []
  }

  function ContentEls(tag: Tag, ns: Ns, contents: seq<string>): seq<Xml> {
    seq(|contents|, k requires 0 <= k < |contents| => WithContent(tag, ns, contents[k]))
  }

  function PublicEls(p: PublicPart): seq<Xml> {
    When(p.privatemsg, Leaf(PrivateTag, Carbons)) + HintEls(p) + StanzaIdEls(p.stanzaIds) + OriginIdEls(p)
    + MixEls(p) + EncryptionEls(p) + OptionalEls(EncryptedTag, Omemo2, p.omemoElement)
  }

  function ThreadEls(t: TextPart, base: Ns): seq<Xml> {
    When(t.thread != "", WithText(ThreadTag, base, t.thread).(attributes := OptionalAttribute(map[], "parent", t.parentThread)))
  }

  function XhtmlEls(t: TextPart): seq<Xml> {
    When(t.xhtml != "", Leaf(HtmlTag, XhtmlIm).(children := [WithContent(BodyTag, Xhtml, t.xhtml)]))
  }

  function CoreEls(t: TextPart, base: Ns): seq<Xml> {
    When(t.subject != "", WithText(SubjectTag, base, t.subject)) + When(t.body != "", WithText(BodyTag, base, t.body))
    + ThreadEls(t, base)
  }

  function StateEls(s: StatusPart): seq<Xml> {
    match s.state case Some(state) => [Leaf(StateTag(state), ChatStates)] case None => []
  }

  function DelayEls(s: StatusPart, clock: Clock): seq<Xml> {
    match s.stamp
    case None => []
    case Some(t) =>
      [(if s.legacyStamp then Leaf(XTag, LegacyDelay) else Leaf(DelayTag, Delay)).(attributes := map["stamp" := clock.write(s.legacyStamp, t)])]
  }

  function ReceiptEls(s: StatusPart): seq<Xml> {
    if s.receiptId != "" then [Leaf(ReceivedTag, Receipts).(attributes := map["id" := s.receiptId])]
    else When(s.receiptRequested, Leaf(RequestTag, Receipts))
  }

  function MarkerEls(s: StatusPart): seq<Xml> {
    When(s.markable, Leaf(MarkableTag, ChatMarkers)) +
    (match s.marker
     case Some(m) => [Leaf(MarkerTag(m), ChatMarkers).(attributes := OptionalAttribute(map["id" := s.markedId], "thread", s.markedThread))]
     case None => [])
  }

  function MucEls(l: LinkPart): seq<Xml> {
    When(l.mucInvitationJid != "",
         Leaf(XTag, Conference).(attributes :=
           OptionalAttribute(OptionalAttribute(map["jid" := l.mucInvitationJid], "password", l.mucInvitationPassword),
                             "reason", l.mucInvitationReason)))
  }

  function IdEls(tag: Tag, ns: Ns, id: string): seq<Xml> { When(id != "", Leaf(tag, ns).(attributes := map["id" := id])) }

  function ReplyEls(l: LinkPart): seq<Xml> {
    match l.reply
    case Some(r) => [Leaf(ReplyTag, ReplyNs).(attributes := OptionalAttribute(map["id" := r.id], "to", r.to))]
    case None => []
  }

  function JingleEls(c: CallPart): seq<Xml> { OptionalEls(CallTag, JingleMessage, c.jingleMessageInitiation) }

  function CallInviteEls(c: CallPart): seq<Xml> { OptionalEls(CallTag, CallInvites, c.callInvite) }

  function SensitiveHead(m: Message, base: Ns, clock: Clock): seq<Xml> {
    CoreEls(m.text, base) + ContentEls(XTag, Oob, m.links.outOfBandUrls) + XhtmlEls(m.text) + StateEls(m.status)
    + DelayEls(m.status, clock) + ReceiptEls(m.status) + When(m.status.attentionRequested, Leaf(AttentionTag, Attention))
    + MucEls(m.links) + ContentEls(DataTag, Bob, m.links.bitsOfBinaryData) + IdEls(ReplaceTag, MessageCorrect, m.links.replaceId)
    + MarkerEls(m.status)
  }

  function SensitiveTail(m: Message): seq<Xml> {
    IdEls(AttachToTag, Attaching, m.links.attachId)
    + When(m.text.isSpoiler, WithText(SpoilerTag, SpoilerNs, m.text.spoilerHint))
    + OptionalEls(InvitationTag, MixMisc, m.links.mixInvitation)
    + OptionalEls(TrustMessageTag, TrustMessages, m.links.trustMessageElement)
    + OptionalEls(ReactionsTag, Reactions, m.links.reaction)
    + ContentEls(FileSharingTag, Sfs, m.links.sharedFiles)
    + ContentEls(SourcesTag, Sfs, m.links.fileSourcesAttachments)
    + ReplyEls(m.links)
  }

  function SensitiveEls(m: Message, base: Ns, clock: Clock): seq<Xml> {
    SensitiveHead(m, base, clock) + JingleEls(m.calls) + SensitiveTail(m) + CallInviteEls(m.calls)
  }

  function FallbackBodyEls(m: Message): seq<Xml> { When(m.e2eeFallbackBody != "", WithText(BodyTag, NoNs, m.e2eeFallbackBody)) }

  function MarkersEls(m: Message): seq<Xml> { ContentEls(FallbackTag, FallbackIndication, m.fallbackMarkers) }

  function Serialize(m: Message, mode: SceMode, base: Ns, clock: Clock): seq<Xml> {
    (if mode == ScePublic then FallbackBodyEls(m) else [])
    + (if Includes(mode, ScePublic) then PublicEls(m.public) else [])
    + (if Includes(mode, SceSensitive) then SensitiveEls(m, base, clock) else [])
    + MarkersEls(m)
  }

  /** Nothing is written for what is not set: a fresh message has no elements, in any mode. */
  lemma FreshIsWrittenAsNothing(id: string, mode: SceMode, base: Ns, clock: Clock)
    ensures Serialize(FreshMessage(id), mode, base, clock) == []
  {}

  /** An optional attribute is there exactly when it has a value. */
  lemma OptionalAttributeIff(attributes: map<string, string>, name: string, value: string)
    requires name !in attributes
    ensures var r := OptionalAttribute(attributes, name, value);
            && (name in r <==> value != "") && (name in r ==> r[name] == value)
            && forall other :: other != name ==> (other in r <==> other in attributes) && (other in r ==> r[other] == attributes[other])
  {}

  /** Body, subject and thread are written in the namespace of the stanza, the fallback body in none. */
  lemma CoreNamespace(m: Message, base: Ns, el: Xml)
    requires base.NoNs? || base.OtherNs?
    ensures el in CoreEls(m.text, base) ==> el.ns == base && el.tag in {SubjectTag, BodyTag, ThreadTag}
    ensures el in FallbackBodyEls(m) ==> el.ns == NoNs && el.tag == BodyTag
  {}

  // ---------------------------------------------------------------------- parsing

  function ParseRouting(m: Message, el: Xml, mode: SceMode): Option<Message> {
    var p := m.public;
    if mode == ScePublic && el.tag == BodyTag then Some(m.(e2eeFallbackBody := el.text))
    else if el.tag == PrivateTag && el.ns == Carbons then Some(m.(public := p.(privatemsg := true)))
    else if el.ns == ProcessingHints then
      Some(if el.tag.HintTag? then m.(public := p.(hints := p.hints + {el.tag.hint})) else m)
    else if el.tag == CallTag && el.ns == JingleMessage then Some(m.(calls := m.calls.(jingleMessageInitiation := Some(el.content))))
    else if el.tag == StanzaIdTag && el.ns == Sid then
      Some(m.(public := p.(stanzaIds := p.stanzaIds + [StanzaId(Attribute(el, "id"), Attribute(el, "by"))])))
    else if el.tag == OriginIdTag && el.ns == Sid then
      Some(m.(public := p.(originId := if "id" in el.attributes then Some(el.attributes["id"]) else None)))
    else None
  }

  function ParseWrapping(m: Message, el: Xml): Option<Message> {
    var p := m.public;
    if el.tag == MixTag && el.ns == Mix then
      Some(m.(public := p.(mixUserJid := ChildText(el, JidTag), mixUserNick := ChildText(el, NickTag))))
    else if el.tag == EncryptionTag && el.ns == Eme then
      Some(m.(public := p.(encryptionMethod := Attribute(el, "namespace"), encryptionName := Attribute(el, "name"))))
    else if el.tag == EncryptedTag && el.ns == Omemo2 then Some(m.(public := p.(omemoElement := Some(el.content))))
    else if el.tag == CallTag && el.ns == CallInvites then Some(m.(calls := m.calls.(callInvite := Some(el.content))))
    else None
  }

  /** The checks of the public part, in order; None if no check applies. */
  function ParsePublic(m: Message, el: Xml, mode: SceMode): Option<Message> {
    var routing := ParseRouting(m, el, mode);
    if routing.Some? then routing else ParseWrapping(m, el)
  }

  function ParseHtml(m: Message, el: Xml): Message {
    match FirstChild(el.children, BodyTag)
    case Some(body) => if body.ns == Xhtml then m.(text := m.text.(xhtml := body.content)) else m
    case None => m
  }

  function ParseCore(m: Message, el: Xml): Option<Message> {
    var t := m.text;
    if el.tag == BodyTag then Some(m.(text := t.(body := el.text)))
    else if el.tag == SubjectTag then Some(m.(text := t.(subject := el.text)))
    else if el.tag == ThreadTag then Some(m.(text := t.(thread := el.text, parentThread := Attribute(el, "parent"))))
    else None
  }

  function ParseX(m: Message, el: Xml, clock: Clock): Option<Message> {
    var s, l := m.status, m.links;
    if el.tag != XTag then None
    else if el.ns == LegacyDelay then
      Some(if s.stamp == None then m.(status := s.(stamp := clock.read(true, Attribute(el, "stamp")), legacyStamp := true)) else m)
    else if el.ns == Conference then
      Some(m.(links := l.(mucInvitationJid := Attribute(el, "jid"), mucInvitationPassword := Attribute(el, "password"),
                          mucInvitationReason := Attribute(el, "reason"))))
    else if el.ns == Oob then Some(m.(links := l.(outOfBandUrls := l.outOfBandUrls + [el.content])))
    else None
  }

  function ParseNotice(m: Message, el: Xml, clock: Clock): Option<Message> {
    var s := m.status;
    if el.tag == HtmlTag && el.ns == XhtmlIm then Some(ParseHtml(m, el))
    else if el.ns == ChatStates then
      Some(m.(status := s.(state := if el.tag.StateTag? then Some(el.tag.state) else None)))
    else if el.tag == ReceivedTag && el.ns == Receipts then
      Some(m.(status := s.(receiptId := if Attribute(el, "id") == "" then m.id else Attribute(el, "id"))))
    else if el.tag == RequestTag && el.ns == Receipts then Some(m.(status := s.(receiptRequested := true)))
    else if el.tag == DelayTag && el.ns == Delay then
      Some(m.(status := s.(stamp := clock.read(false, Attribute(el, "stamp")), legacyStamp := false)))
    else if el.tag == AttentionTag && el.ns == Attention then Some(m.(status := s.(attentionRequested := true)))
    else None
  }

  /** The checks on text and status elements of the sensitive part. */
  function ParseTextAndStatus(m: Message, el: Xml, clock: Clock): Option<Message> {
    var core := ParseCore(m, el);
    if core.Some? then core
    else
      var x := ParseX(m, el, clock);
      if x.Some? then x else ParseNotice(m, el, clock)
  }

  function ParseMarker(m: Message, el: Xml): Message {
    var s := m.status;
    if el.tag == MarkableTag then m.(status := s.(markable := true))
    else if el.tag.MarkerTag? then
      m.(status := s.(marker := Some(el.tag.marker), markedId := Attribute(el, "id"), markedThread := Attribute(el, "thread")))
    else m
  }

  function ParseNote(m: Message, el: Xml): Option<Message> {
    var l := m.links;
    if el.tag == DataTag && el.ns == Bob then Some(m.(links := l.(bitsOfBinaryData := l.bitsOfBinaryData + [el.content])))
    else if el.tag == ReplaceTag && el.ns == MessageCorrect then Some(m.(links := l.(replaceId := Attribute(el, "id"))))
    else if el.ns == ChatMarkers then Some(ParseMarker(m, el))
    else if el.tag == AttachToTag && el.ns == Attaching then Some(m.(links := l.(attachId := Attribute(el, "id"))))
    else if el.tag == SpoilerTag && el.ns == SpoilerNs then Some(m.(text := m.text.(isSpoiler := true, spoilerHint := el.text)))
    else None
  }

  function ParsePayload(m: Message, el: Xml): Option<Message> {
    var l := m.links;
    if el.tag == InvitationTag && el.ns == MixMisc then Some(m.(links := l.(mixInvitation := Some(el.content))))
    else if el.tag == TrustMessageTag && el.ns == TrustMessages then Some(m.(links := l.(trustMessageElement := Some(el.content))))
    else if el.tag == ReactionsTag && el.ns == Reactions then Some(m.(links := l.(reaction := Some(el.content))))
    else if el.tag == FileSharingTag && el.ns == Sfs then Some(m.(links := l.(sharedFiles := l.sharedFiles + [el.content])))
    else if el.tag == ReplyTag && el.ns == ReplyNs then Some(m.(links := l.(reply := Some(Reply(Attribute(el, "to"), Attribute(el, "id"))))))
    else if el.tag == SourcesTag && el.ns == Sfs then Some(m.(links := l.(fileSourcesAttachments := l.fileSourcesAttachments + [el.content])))
    else None
  }

  /** The checks on the remaining elements of the sensitive part. */
  function ParseLinks(m: Message, el: Xml): Option<Message> {
    var note := ParseNote(m, el);
    if note.Some? then note else ParsePayload(m, el)
  }

  function ParseSensitive(m: Message, el: Xml, clock: Clock): Option<Message> {
    match ParseTextAndStatus(m, el, clock)
    case Some(r) => Some(r)
    case None => ParseLinks(m, el)
  }

  function ParseFallback(m: Message, el: Xml): Option<Message> {
    if el.tag == FallbackTag && el.ns == FallbackIndication
    then Some(m.(fallbackMarkers := m.fallbackMarkers + [el.content])) else None
  }

  /** One child element: read in the first part of the mode that knows it, else None. */
  function ParseExtension(m: Message, el: Xml, mode: SceMode, clock: Clock): Option<Message> {
    var p := if Includes(mode, ScePublic) then ParsePublic(m, el, mode) else None;
    if p.Some? then p
    else
      var s := if Includes(mode, SceSensitive) then ParseSensitive(m, el, clock) else None;
      if s.Some? then s else ParseFallback(m, el)
  }

  predicate IsSkipped(el: Xml) { (el.tag == AddressesTag && el.ns == ExtendedAddressing) || el.tag == ErrorTag }

  function ParseChild(m: Message, el: Xml, mode: SceMode, clock: Clock): Message {
    if IsSkipped(el) then m
    else match ParseExtension(m, el, mode, clock)
      case Some(r) => r
      case None => m.(extensions := m.extensions + [el])
  }

  function ParseChildren(m: Message, els: seq<Xml>, mode: SceMode, clock: Clock): Message {
    if els == [] then m
    else ParseChild(ParseChildren(m, els[..|els| - 1], mode, clock), els[|els| - 1], mode, clock)
  }

  /** Elements no one reads replace the previously unknown extensions. */
  function ParseExtensions(m: Message, els: seq<Xml>, mode: SceMode, clock: Clock): Message {
    ParseChildren(m.(extensions := []), els, mode, clock)
  }

  // ------------------------------------------------- reading is local to one element

  function Over(r: Option<Message>, extensions: seq<Xml>): Option<Message> {
    match r case Some(m) => Some(m.(extensions := extensions)) case None => None
  }

  predicate Keeps(r: Option<Message>, m: Message) { r.Some? ==> r.value.extensions == m.extensions }

  lemma PublicIgnoresExtensions(m: Message, extensions: seq<Xml>, el: Xml, mode: SceMode)
    ensures ParsePublic(m.(extensions := extensions), el, mode) == Over(ParsePublic(m, el, mode), extensions)
    ensures Keeps(ParsePublic(m, el, mode), m)
  {}

  lemma TextIgnoresExtensions(m: Message, extensions: seq<Xml>, el: Xml, clock: Clock)
    ensures ParseTextAndStatus(m.(extensions := extensions), el, clock) == Over(ParseTextAndStatus(m, el, clock), extensions)
    ensures Keeps(ParseTextAndStatus(m, el, clock), m)
  {}

  lemma LinksIgnoreExtensions(m: Message, extensions: seq<Xml>, el: Xml)
    ensures ParseLinks(m.(extensions := extensions), el) == Over(ParseLinks(m, el), extensions)
    ensures Keeps(ParseLinks(m, el), m)
  {}

  /** Reading an element neither looks at nor changes the list of unknown elements. */
  lemma ExtensionsAreIgnored(m: Message, extensions: seq<Xml>, el: Xml, mode: SceMode, clock: Clock)
    ensures ParseExtension(m.(extensions := extensions), el, mode, clock) == Over(ParseExtension(m, el, mode, clock), extensions)
    ensures Keeps(ParseExtension(m, el, mode, clock), m)
  {
    hide ParsePublic, ParseTextAndStatus, ParseLinks;
    PublicIgnoresExtensions(m, extensions, el, mode);
    TextIgnoresExtensions(m, extensions, el, clock);
    LinksIgnoreExtensions(m, extensions, el);
  }
}
