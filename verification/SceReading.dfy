// What a message holds after reading a list of child elements, said about the list alone:
// each element is of one kind, and each field is told by the elements of its kind.

module SceReading {
  import opened Wrappers
  import opened SceMessage

  // ---------------------------------------------------------------------- kinds

  datatype Kind =
    | SkippedKind | UnknownKind | IgnoredKind | FallbackMarkKind
    | FallbackBodyKind | PrivateKind | HintKind | JingleKind | StanzaIdKind | OriginIdKind | MixKind | EncryptionKind
    | OmemoKind | CallInviteKind
    | BodyKind | SubjectKind | ThreadKind | LegacyDelayKind | ConferenceKind | OobKind | XhtmlKind | StateKind | ReceiptKind
    | RequestKind | DelayKind | AttentionKind | BobKind | ReplaceKind | MarkableKind | MarkerKind | AttachKind | SpoilerKind
    | InvitationKind | TrustKind | ReactionKind | FileKind | SourcesKind | ReplyKind

  /** Elements for routing; hints are whatever bears their namespace. */
  function RoutingKind(el: Xml): Kind {
    if el.ns == ProcessingHints then if el.tag.HintTag? then HintKind else IgnoredKind
    else if el.ns == Sid then if el.tag == StanzaIdTag then StanzaIdKind else if el.tag == OriginIdTag then OriginIdKind else UnknownKind
    else if el.ns == JingleMessage && el.tag == CallTag then JingleKind
    else if el.ns == Carbons && el.tag == PrivateTag then PrivateKind
    else UnknownKind
  }

  function WrappingKind(el: Xml): Kind {
    if el.ns == CallInvites && el.tag == CallTag then CallInviteKind
    else if el.ns == Omemo2 && el.tag == EncryptedTag then OmemoKind
    else if el.ns == Eme && el.tag == EncryptionTag then EncryptionKind
    else if el.ns == Mix && el.tag == MixTag then MixKind
    else UnknownKind
  }

  function Either(first: Kind, second: Kind): Kind { if first != UnknownKind then first else second }

  /** Elements that servers may see; without a sensitive part, a body stands in for the encrypted one. */
  function PublicKind(el: Xml, mode: SceMode): Kind {
    if mode == ScePublic && el.tag == BodyTag then FallbackBodyKind else Either(RoutingKind(el), WrappingKind(el))
  }

  predicate HoldsXhtml(el: Xml) {
    var body := FirstChild(el.children, BodyTag);
    body.Some? && body.value.ns == Xhtml
  }

  /** Texts and status: three elements by name in any namespace, the others by namespace and name. */
  function CoreKind(el: Xml): Kind {
    if el.tag == ThreadTag then ThreadKind
    else if el.tag == SubjectTag then SubjectKind
    else if el.tag == BodyTag then BodyKind
    else UnknownKind
  }

  function XKind(el: Xml): Kind {
    if el.ns == Oob && el.tag == XTag then OobKind
    else if el.ns == Conference && el.tag == XTag then ConferenceKind
    else if el.ns == LegacyDelay && el.tag == XTag then LegacyDelayKind
    else UnknownKind
  }

  function NoticeKind(el: Xml): Kind {
    if el.ns == ChatStates then StateKind
    else if el.ns == Receipts then if el.tag == RequestTag then RequestKind else if el.tag == ReceivedTag then ReceiptKind else UnknownKind
    else if el.ns == Attention && el.tag == AttentionTag then AttentionKind
    else if el.ns == Delay && el.tag == DelayTag then DelayKind
    else if el.ns == XhtmlIm && el.tag == HtmlTag then if HoldsXhtml(el) then XhtmlKind else IgnoredKind
    else UnknownKind
  }

  /** References to other messages, files and groups, by namespace and name. */
  function NoteKind(el: Xml): Kind {
    if el.ns == ChatMarkers then if el.tag.MarkerTag? then MarkerKind else if el.tag == MarkableTag then MarkableKind else IgnoredKind
    else if el.ns == SpoilerNs && el.tag == SpoilerTag then SpoilerKind
    else if el.ns == Attaching && el.tag == AttachToTag then AttachKind
    else if el.ns == MessageCorrect && el.tag == ReplaceTag then ReplaceKind
    else if el.ns == Bob && el.tag == DataTag then BobKind
    else UnknownKind
  }

  function PayloadKind(el: Xml): Kind {
    if el.ns == Sfs then if el.tag == SourcesTag then SourcesKind else if el.tag == FileSharingTag then FileKind else UnknownKind
    else if el.ns == ReplyNs && el.tag == ReplyTag then ReplyKind
    else if el.ns == Reactions && el.tag == ReactionsTag then ReactionKind
    else if el.ns == TrustMessages && el.tag == TrustMessageTag then TrustKind
    else if el.ns == MixMisc && el.tag == InvitationTag then InvitationKind
    else UnknownKind
  }

  /** Elements for the recipient only; a name that is read in any namespace comes first. */
  function SensitiveKind(el: Xml): Kind {
    Either(CoreKind(el), Either(XKind(el), Either(NoticeKind(el), Either(NoteKind(el), PayloadKind(el)))))
  }

  /** The part of the mode that knows an element decides; errors and addresses belong to other readers. */
  function KindOf(el: Xml, mode: SceMode): Kind {
    if el.tag == ErrorTag || (el.tag, el.ns) == (AddressesTag, ExtendedAddressing) then SkippedKind
    else if mode != SceSensitive && PublicKind(el, mode) != UnknownKind then PublicKind(el, mode)
    else if mode != ScePublic && SensitiveKind(el) != UnknownKind then SensitiveKind(el)
    else if (el.tag, el.ns) == (FallbackTag, FallbackIndication) then FallbackMarkKind
    else UnknownKind
  }

  // ---------------------------------------------------------- elements of one kind

  function LastIndex(els: seq<Xml>, kind: Kind, mode: SceMode): (k: int)
    ensures -1 <= k < |els|
  {
    if els == [] then -1
    else if KindOf(els[|els| - 1], mode) == kind then |els| - 1
    else LastIndex(els[..|els| - 1], kind, mode)
  }

  lemma {:induction false} LastIndexIsLast(els: seq<Xml>, kind: Kind, mode: SceMode)
    ensures var k := LastIndex(els, kind, mode);
            && (k >= 0 ==> KindOf(els[k], mode) == kind)
            && (forall j :: k < j < |els| ==> KindOf(els[j], mode) != kind)
  {
    hide KindOf;
    if els != [] { LastIndexIsLast(els[..|els| - 1], kind, mode); }
  }

  predicate Has(els: seq<Xml>, kind: Kind, mode: SceMode) { LastIndex(els, kind, mode) >= 0 }

  /** The last element of a kind. */
  function Last(els: seq<Xml>, kind: Kind, mode: SceMode): Option<Xml> {
    var k := LastIndex(els, kind, mode);
    if k >= 0 then Some(els[k]) else None
  }

  /** All elements of a kind, in order. */
  function All(els: seq<Xml>, kind: Kind, mode: SceMode): seq<Xml> {
    if els == [] then []
    else
      var before := All(els[..|els| - 1], kind, mode);
      if KindOf(els[|els| - 1], mode) == kind then before + [els[|els| - 1]] else before
  }

  function LastText(els: seq<Xml>, kind: Kind, mode: SceMode, otherwise: string): string {
    match Last(els, kind, mode) case Some(el) => el.text case None => otherwise
  }

  function LastAttribute(els: seq<Xml>, kind: Kind, mode: SceMode, name: string, otherwise: string): string {
    match Last(els, kind, mode) case Some(el) => Attribute(el, name) case None => otherwise
  }

  function LastContent(els: seq<Xml>, kind: Kind, mode: SceMode, otherwise: Option<string>): Option<string> {
    match Last(els, kind, mode) case Some(el) => Some(el.content) case None => otherwise
  }

  function LastChildText(els: seq<Xml>, kind: Kind, mode: SceMode, tag: Tag, otherwise: string): string {
    match Last(els, kind, mode) case Some(el) => ChildText(el, tag) case None => otherwise
  }

  function Contents(els: seq<Xml>): seq<string> { seq(|els|, k requires 0 <= k < |els| => els[k].content) }

  /** The time of the first element that carries a readable legacy time. */
  function FirstReadable(els: seq<Xml>, clock: Clock): Option<int> {
    if els == [] then None
    else
      var before := FirstReadable(els[..|els| - 1], clock);
      if before.Some? then before else clock.read(true, Attribute(els[|els| - 1], "stamp"))
  }

  function HintsOf(els: seq<Xml>, mode: SceMode): set<Hint> {
    set el | el in els && KindOf(el, mode) == HintKind && el.tag.HintTag? :: el.tag.hint
  }

  function OriginIdOf(el: Xml): Option<string> { if "id" in el.attributes then Some(el.attributes["id"]) else None }

  /** A state of another name is no state. */
  function StateOf(el: Xml): Option<ChatState> { if el.tag.StateTag? then Some(el.tag.state) else None }

  function MarkerOf(el: Xml): Option<ChatMarker> { if el.tag.MarkerTag? then Some(el.tag.marker) else None }

  /** A receipt without an id is one for the message that carries it. */
  function ReceiptIdOf(el: Xml, messageId: string): string {
    if "id" in el.attributes && el.attributes["id"] != "" then el.attributes["id"] else messageId
  }

  function StanzaIdsOf(els: seq<Xml>): seq<StanzaId> {
    seq(|els|, k requires 0 <= k < |els| => StanzaId(Attribute(els[k], "id"), Attribute(els[k], "by")))
  }

  function XhtmlOf(el: Xml): string {
    match FirstChild(el.children, BodyTag) case Some(body) => body.content case None => ""
  }

  // ---------------------------------------------------------- what the object holds

  predicate PublicIs(was: PublicPart, els: seq<Xml>, mode: SceMode, p: PublicPart) {
    && p.privatemsg == (was.privatemsg || Has(els, PrivateKind, mode))
    && p.hints == was.hints + HintsOf(els, mode)
    && p.stanzaIds == was.stanzaIds + StanzaIdsOf(All(els, StanzaIdKind, mode))
    && p.originId == (match Last(els, OriginIdKind, mode) case Some(el) => OriginIdOf(el) case None => was.originId)
    && p.mixUserJid == LastChildText(els, MixKind, mode, JidTag, was.mixUserJid)
    && p.mixUserNick == LastChildText(els, MixKind, mode, NickTag, was.mixUserNick)
    && p.encryptionMethod == LastAttribute(els, EncryptionKind, mode, "namespace", was.encryptionMethod)
    && p.encryptionName == LastAttribute(els, EncryptionKind, mode, "name", was.encryptionName)
    && p.omemoElement == LastContent(els, OmemoKind, mode, was.omemoElement)
  }

  predicate TextIs(was: TextPart, els: seq<Xml>, mode: SceMode, t: TextPart) {
    && t.subject == LastText(els, SubjectKind, mode, was.subject)
    && t.body == LastText(els, BodyKind, mode, was.body)
    && t.thread == LastText(els, ThreadKind, mode, was.thread)
    && t.parentThread == LastAttribute(els, ThreadKind, mode, "parent", was.parentThread)
    && t.xhtml == (match Last(els, XhtmlKind, mode) case Some(el) => XhtmlOf(el) case None => was.xhtml)
    && t.isSpoiler == (was.isSpoiler || Has(els, SpoilerKind, mode))
    && t.spoilerHint == LastText(els, SpoilerKind, mode, was.spoilerHint)
  }

  /** The time of the last delay element, or the earlier time where there is none. */
  function DelayOf(was: StatusPart, els: seq<Xml>, mode: SceMode, clock: Clock): (Option<int>, bool) {
    match Last(els, DelayKind, mode)
    case Some(el) => (clock.read(false, Attribute(el, "stamp")), false)
    case None => (was.stamp, was.legacyStamp)
  }

  function LegacyAfterDelay(els: seq<Xml>, mode: SceMode): seq<Xml> {
    All(els[LastIndex(els, DelayKind, mode) + 1..], LegacyDelayKind, mode)
  }

  /** The time is that of the last delay element, before or after any legacy one. Only where that leaves no time,
      the legacy elements after it are looked at, and the first readable one is taken. */
  predicate StampIs(was: StatusPart, els: seq<Xml>, mode: SceMode, clock: Clock, s: StatusPart) {
    (s.stamp, s.legacyStamp) == StampOf(DelayOf(was, els, mode, clock), LegacyAfterDelay(els, mode), clock)
  }

  function StampOf(stamp: (Option<int>, bool), later: seq<Xml>, clock: Clock): (Option<int>, bool) {
    if stamp.0.Some? || later == [] then stamp else (FirstReadable(later, clock), true)
  }

  predicate StatusIs(was: StatusPart, id: string, els: seq<Xml>, mode: SceMode, s: StatusPart) {
    && s.state == (match Last(els, StateKind, mode) case Some(el) => StateOf(el) case None => was.state)
    && s.receiptId == (match Last(els, ReceiptKind, mode)
                       case Some(el) => ReceiptIdOf(el, id)
                       case None => was.receiptId)
    && s.receiptRequested == (was.receiptRequested || Has(els, RequestKind, mode))
    && s.attentionRequested == (was.attentionRequested || Has(els, AttentionKind, mode))
    && s.markable == (was.markable || Has(els, MarkableKind, mode))
    && s.marker == (match Last(els, MarkerKind, mode) case Some(el) => MarkerOf(el) case None => was.marker)
    && s.markedId == LastAttribute(els, MarkerKind, mode, "id", was.markedId)
    && s.markedThread == LastAttribute(els, MarkerKind, mode, "thread", was.markedThread)
  }

  predicate NotesAre(was: LinkPart, els: seq<Xml>, mode: SceMode, l: LinkPart) {
    && l.outOfBandUrls == was.outOfBandUrls + Contents(All(els, OobKind, mode))
    && l.mucInvitationJid == LastAttribute(els, ConferenceKind, mode, "jid", was.mucInvitationJid)
    && l.mucInvitationPassword == LastAttribute(els, ConferenceKind, mode, "password", was.mucInvitationPassword)
    && l.mucInvitationReason == LastAttribute(els, ConferenceKind, mode, "reason", was.mucInvitationReason)
    && l.bitsOfBinaryData == was.bitsOfBinaryData + Contents(All(els, BobKind, mode))
    && l.replaceId == LastAttribute(els, ReplaceKind, mode, "id", was.replaceId)
    && l.attachId == LastAttribute(els, AttachKind, mode, "id", was.attachId)
  }

  predicate PayloadIs(was: LinkPart, els: seq<Xml>, mode: SceMode, l: LinkPart) {
    && l.mixInvitation == LastContent(els, InvitationKind, mode, was.mixInvitation)
    && l.trustMessageElement == LastContent(els, TrustKind, mode, was.trustMessageElement)
    && l.reaction == LastContent(els, ReactionKind, mode, was.reaction)
    && l.sharedFiles == was.sharedFiles + Contents(All(els, FileKind, mode))
    && l.fileSourcesAttachments == was.fileSourcesAttachments + Contents(All(els, SourcesKind, mode))
    && l.reply == (match Last(els, ReplyKind, mode)
                   case Some(el) => Some(Reply(Attribute(el, "to"), Attribute(el, "id")))
                   case None => was.reply)
  }

  predicate OthersAre(m: Message, els: seq<Xml>, mode: SceMode, r: Message) {
    && r.id == m.id
    && r.e2eeFallbackBody == LastText(els, FallbackBodyKind, mode, m.e2eeFallbackBody)
    && r.calls.jingleMessageInitiation == LastContent(els, JingleKind, mode, m.calls.jingleMessageInitiation)
    && r.calls.callInvite == LastContent(els, CallInviteKind, mode, m.calls.callInvite)
    && r.fallbackMarkers == m.fallbackMarkers + Contents(All(els, FallbackMarkKind, mode))
  }

  /** Every field of a message that has read the elements; the unknown ones replace its earlier extensions. */
  predicate IsReading(m: Message, els: seq<Xml>, mode: SceMode, clock: Clock, r: Message) {
    && PublicIs(m.public, els, mode, r.public) && TextIs(m.text, els, mode, r.text)
    && StampIs(m.status, els, mode, clock, r.status) && StatusIs(m.status, m.id, els, mode, r.status)
    && NotesAre(m.links, els, mode, r.links) && PayloadIs(m.links, els, mode, r.links) && OthersAre(m, els, mode, r)
    && r.extensions == All(els, UnknownKind, mode)
  }

  // ------------------------------------------------------------------ one element

  predicate PublicSteps(p: PublicPart, el: Xml, kind: Kind, r: PublicPart) {
    && r.privatemsg == (p.privatemsg || kind == PrivateKind)
    && r.hints == (if kind == HintKind && el.tag.HintTag? then p.hints + {el.tag.hint} else p.hints)
    && r.stanzaIds == (if kind == StanzaIdKind then p.stanzaIds + StanzaIdsOf([el]) else p.stanzaIds)
    && r.originId == (if kind == OriginIdKind then OriginIdOf(el) else p.originId)
    && r.mixUserJid == (if kind == MixKind then ChildText(el, JidTag) else p.mixUserJid)
    && r.mixUserNick == (if kind == MixKind then ChildText(el, NickTag) else p.mixUserNick)
    && r.encryptionMethod == (if kind == EncryptionKind then Attribute(el, "namespace") else p.encryptionMethod)
    && r.encryptionName == (if kind == EncryptionKind then Attribute(el, "name") else p.encryptionName)
    && r.omemoElement == (if kind == OmemoKind then Some(el.content) else p.omemoElement)
  }

  predicate TextSteps(t: TextPart, el: Xml, kind: Kind, r: TextPart) {
    && r.subject == (if kind == SubjectKind then el.text else t.subject)
    && r.body == (if kind == BodyKind then el.text else t.body)
    && r.thread == (if kind == ThreadKind then el.text else t.thread)
    && r.parentThread == (if kind == ThreadKind then Attribute(el, "parent") else t.parentThread)
    && r.xhtml == (if kind == XhtmlKind then XhtmlOf(el) else t.xhtml)
    && r.isSpoiler == (t.isSpoiler || kind == SpoilerKind)
    && r.spoilerHint == (if kind == SpoilerKind then el.text else t.spoilerHint)
  }

  predicate StampSteps(s: StatusPart, el: Xml, kind: Kind, clock: Clock, r: StatusPart) {
    (r.stamp, r.legacyStamp)
    == (if kind == DelayKind then (clock.read(false, Attribute(el, "stamp")), false)
        else if kind == LegacyDelayKind && s.stamp == None then (clock.read(true, Attribute(el, "stamp")), true)
        else (s.stamp, s.legacyStamp))
  }

  predicate StatusSteps(s: StatusPart, el: Xml, kind: Kind, id: string, clock: Clock, r: StatusPart) {
    && StampSteps(s, el, kind, clock, r)
    && r.state == (if kind == StateKind then StateOf(el) else s.state)
    && r.receiptId == (if kind == ReceiptKind then ReceiptIdOf(el, id) else s.receiptId)
    && r.receiptRequested == (s.receiptRequested || kind == RequestKind)
    && r.attentionRequested == (s.attentionRequested || kind == AttentionKind)
    && r.markable == (s.markable || kind == MarkableKind)
    && r.marker == (if kind == MarkerKind then MarkerOf(el) else s.marker)
    && r.markedId == (if kind == MarkerKind then Attribute(el, "id") else s.markedId)
    && r.markedThread == (if kind == MarkerKind then Attribute(el, "thread") else s.markedThread)
  }

  predicate NoteSteps(l: LinkPart, el: Xml, kind: Kind, r: LinkPart) {
    && r.outOfBandUrls == (if kind == OobKind then l.outOfBandUrls + [el.content] else l.outOfBandUrls)
    && r.mucInvitationJid == (if kind == ConferenceKind then Attribute(el, "jid") else l.mucInvitationJid)
    && r.mucInvitationPassword == (if kind == ConferenceKind then Attribute(el, "password") else l.mucInvitationPassword)
    && r.mucInvitationReason == (if kind == ConferenceKind then Attribute(el, "reason") else l.mucInvitationReason)
    && r.bitsOfBinaryData == (if kind == BobKind then l.bitsOfBinaryData + [el.content] else l.bitsOfBinaryData)
    && r.replaceId == (if kind == ReplaceKind then Attribute(el, "id") else l.replaceId)
    && r.attachId == (if kind == AttachKind then Attribute(el, "id") else l.attachId)
  }

  predicate PayloadSteps(l: LinkPart, el: Xml, kind: Kind, r: LinkPart) {
    && r.mixInvitation == (if kind == InvitationKind then Some(el.content) else l.mixInvitation)
    && r.trustMessageElement == (if kind == TrustKind then Some(el.content) else l.trustMessageElement)
    && r.reaction == (if kind == ReactionKind then Some(el.content) else l.reaction)
    && r.sharedFiles == (if kind == FileKind then l.sharedFiles + [el.content] else l.sharedFiles)
    && r.fileSourcesAttachments == (if kind == SourcesKind then l.fileSourcesAttachments + [el.content] else l.fileSourcesAttachments)
    && r.reply == (if kind == ReplyKind then Some(Reply(Attribute(el, "to"), Attribute(el, "id"))) else l.reply)
  }

  predicate LinkSteps(l: LinkPart, el: Xml, kind: Kind, r: LinkPart) { NoteSteps(l, el, kind, r) && PayloadSteps(l, el, kind, r) }

  predicate OtherSteps(m: Message, el: Xml, kind: Kind, r: Message) {
    && r.id == m.id
    && r.e2eeFallbackBody == (if kind == FallbackBodyKind then el.text else m.e2eeFallbackBody)
    && r.calls.jingleMessageInitiation == (if kind == JingleKind then Some(el.content) else m.calls.jingleMessageInitiation)
    && r.calls.callInvite == (if kind == CallInviteKind then Some(el.content) else m.calls.callInvite)
    && r.fallbackMarkers == (if kind == FallbackMarkKind then m.fallbackMarkers + [el.content] else m.fallbackMarkers)
    && r.extensions == (if kind == UnknownKind then m.extensions + [el] else m.extensions)
  }

  predicate Steps(m: Message, el: Xml, kind: Kind, clock: Clock, r: Message) {
    && PublicSteps(m.public, el, kind, r.public) && TextSteps(m.text, el, kind, r.text)
    && StatusSteps(m.status, el, kind, m.id, clock, r.status) && LinkSteps(m.links, el, kind, r.links) && OtherSteps(m, el, kind, r)
  }

  // Which group of fields a kind may change.

  predicate TellsPublic(kind: Kind) {
    kind.PrivateKind? || kind.HintKind? || kind.StanzaIdKind? || kind.OriginIdKind? || kind.MixKind? || kind.EncryptionKind? || kind.OmemoKind?
  }

  predicate TellsText(kind: Kind) { kind.BodyKind? || kind.SubjectKind? || kind.ThreadKind? || kind.XhtmlKind? || kind.SpoilerKind? }

  predicate TellsStatus(kind: Kind) {
    kind.LegacyDelayKind? || kind.StateKind? || kind.ReceiptKind? || kind.RequestKind? || kind.DelayKind? || kind.AttentionKind?
    || kind.MarkableKind? || kind.MarkerKind?
  }

  predicate TellsNotes(kind: Kind) {
    kind.ConferenceKind? || kind.OobKind? || kind.BobKind? || kind.ReplaceKind? || kind.AttachKind?
  }

  predicate TellsPayload(kind: Kind) {
    kind.InvitationKind? || kind.TrustKind? || kind.ReactionKind? || kind.FileKind? || kind.SourcesKind? || kind.ReplyKind?
  }

  predicate TellsOthers(kind: Kind) {
    kind.FallbackBodyKind? || kind.JingleKind? || kind.CallInviteKind? || kind.FallbackMarkKind? || kind.UnknownKind?
  }

  lemma PublicUntold(p: PublicPart, el: Xml, kind: Kind)
    requires !TellsPublic(kind)
    ensures PublicSteps(p, el, kind, p)
  {
    hide Attribute, ChildText, OriginIdOf, StanzaIdsOf;
  }

  lemma TextUntold(t: TextPart, el: Xml, kind: Kind)
    requires !TellsText(kind)
    ensures TextSteps(t, el, kind, t)
  {
    hide Attribute, XhtmlOf;
  }

  lemma StatusUntold(s: StatusPart, el: Xml, kind: Kind, id: string, clock: Clock)
    requires !TellsStatus(kind)
    ensures StatusSteps(s, el, kind, id, clock, s)
  {
    hide Attribute, StateOf, MarkerOf, ReceiptIdOf;
  }

  lemma NotesUntold(l: LinkPart, el: Xml, kind: Kind, r: LinkPart)
    requires !TellsNotes(kind)
    requires (r.outOfBandUrls, r.mucInvitationJid, r.mucInvitationPassword) == (l.outOfBandUrls, l.mucInvitationJid, l.mucInvitationPassword)
    requires (r.mucInvitationReason, r.bitsOfBinaryData, r.replaceId, r.attachId)
             == (l.mucInvitationReason, l.bitsOfBinaryData, l.replaceId, l.attachId)
    ensures NoteSteps(l, el, kind, r)
  {
    hide Attribute;
  }

  lemma PayloadUntold(l: LinkPart, el: Xml, kind: Kind, r: LinkPart)
    requires !TellsPayload(kind)
    requires (r.mixInvitation, r.trustMessageElement, r.reaction) == (l.mixInvitation, l.trustMessageElement, l.reaction)
    requires (r.sharedFiles, r.fileSourcesAttachments, r.reply) == (l.sharedFiles, l.fileSourcesAttachments, l.reply)
    ensures PayloadSteps(l, el, kind, r)
  {
    hide Attribute;
  }

  lemma LinksUntold(l: LinkPart, el: Xml, kind: Kind)
    requires !TellsNotes(kind) && !TellsPayload(kind)
    ensures LinkSteps(l, el, kind, l)
  {
    hide NoteSteps, PayloadSteps;
    NotesUntold(l, el, kind, l);
    PayloadUntold(l, el, kind, l);
  }

  lemma OthersUntold(m: Message, el: Xml, kind: Kind, r: Message)
    requires !TellsOthers(kind)
    requires (r.id, r.e2eeFallbackBody, r.calls, r.fallbackMarkers, r.extensions) == (m.id, m.e2eeFallbackBody, m.calls, m.fallbackMarkers, m.extensions)
    ensures OtherSteps(m, el, kind, r)
  {}

  // What each group of checks does.

  function BodyOr(el: Xml, mode: SceMode, kind: Kind): Kind { if mode == ScePublic && el.tag == BodyTag then FallbackBodyKind else kind }

  lemma RoutingFields(m: Message, el: Xml, mode: SceMode)
    ensures var r := ParseRouting(m, el, mode); var kind := BodyOr(el, mode, RoutingKind(el));
            if r.Some? then kind != UnknownKind && PublicSteps(m.public, el, kind, r.value.public) else kind == UnknownKind
  {
    hide Attribute, ChildText, FirstChild;
  }

  lemma RoutingCalls(m: Message, el: Xml, mode: SceMode)
    ensures var r := ParseRouting(m, el, mode); var kind := BodyOr(el, mode, RoutingKind(el));
            r.Some? ==> OtherSteps(m, el, kind, r.value)
  {
    hide Attribute;
  }

  lemma RoutingElement(m: Message, el: Xml, mode: SceMode, clock: Clock)
    ensures var r := ParseRouting(m, el, mode); var kind := BodyOr(el, mode, RoutingKind(el));
            if r.Some? then kind != UnknownKind && Steps(m, el, kind, clock, r.value) else kind == UnknownKind
  {
    hide PublicSteps, TextSteps, StatusSteps, LinkSteps, OtherSteps, Attribute;
    var kind := BodyOr(el, mode, RoutingKind(el));
    RoutingFields(m, el, mode);
    RoutingCalls(m, el, mode);
    TextUntold(m.text, el, kind);
    StatusUntold(m.status, el, kind, m.id, clock);
    LinksUntold(m.links, el, kind);
  }

  lemma WrappingFields(m: Message, el: Xml)
    ensures var r := ParseWrapping(m, el); var kind := WrappingKind(el);
            if r.Some? then kind != UnknownKind && PublicSteps(m.public, el, kind, r.value.public) else kind == UnknownKind
  {
    hide Attribute, ChildText, FirstChild;
  }

  lemma WrappingCalls(m: Message, el: Xml)
    ensures var r := ParseWrapping(m, el); var kind := WrappingKind(el);
            r.Some? ==> OtherSteps(m, el, kind, r.value)
  {
    hide Attribute, ChildText;
  }

  lemma WrappingElement(m: Message, el: Xml, clock: Clock)
    ensures var r := ParseWrapping(m, el); var kind := WrappingKind(el);
            if r.Some? then kind != UnknownKind && Steps(m, el, kind, clock, r.value) else kind == UnknownKind
  {
    hide PublicSteps, TextSteps, StatusSteps, LinkSteps, OtherSteps, Attribute, ChildText;
    var kind := WrappingKind(el);
    WrappingFields(m, el);
    WrappingCalls(m, el);
    TextUntold(m.text, el, kind);
    StatusUntold(m.status, el, kind, m.id, clock);
    LinksUntold(m.links, el, kind);
  }

  lemma PublicElement(m: Message, el: Xml, mode: SceMode, clock: Clock)
    ensures var r := ParsePublic(m, el, mode); var kind := PublicKind(el, mode);
            if r.Some? then kind != UnknownKind && Steps(m, el, kind, clock, r.value) else kind == UnknownKind
  {
    hide Steps, RoutingKind, WrappingKind, ParseRouting, ParseWrapping;
    RoutingElement(m, el, mode, clock);
    WrappingElement(m, el, clock);
  }

  lemma CoreElement(m: Message, el: Xml, clock: Clock)
    ensures var r := ParseCore(m, el); var kind := CoreKind(el);
            if r.Some? then kind != UnknownKind && Steps(m, el, kind, clock, r.value) else kind == UnknownKind
  {
    hide PublicSteps, StatusSteps, LinkSteps, OtherSteps, Attribute;
    var kind := CoreKind(el);
    if kind != UnknownKind {
      PublicUntold(m.public, el, kind);
      StatusUntold(m.status, el, kind, m.id, clock);
      LinksUntold(m.links, el, kind);
      OthersUntold(m, el, kind, ParseCore(m, el).value);
    }
  }

  lemma XFields(m: Message, el: Xml, clock: Clock)
    ensures var r := ParseX(m, el, clock); var kind := XKind(el);
            if r.Some? then kind != UnknownKind && StatusSteps(m.status, el, kind, m.id, clock, r.value.status)
                            && NoteSteps(m.links, el, kind, r.value.links) else kind == UnknownKind
  {
    hide Attribute;
  }

  lemma XElement(m: Message, el: Xml, clock: Clock)
    ensures var r := ParseX(m, el, clock); var kind := XKind(el);
            if r.Some? then kind != UnknownKind && Steps(m, el, kind, clock, r.value) else kind == UnknownKind
  {
    hide PublicSteps, TextSteps, StatusSteps, NoteSteps, PayloadSteps, OtherSteps, Attribute;
    var kind := XKind(el);
    XFields(m, el, clock);
    if kind != UnknownKind {
      PublicUntold(m.public, el, kind);
      TextUntold(m.text, el, kind);
      PayloadUntold(m.links, el, kind, ParseX(m, el, clock).value.links);
      OthersUntold(m, el, kind, ParseX(m, el, clock).value);
    }
  }

  lemma ReceiptIdIs(el: Xml, id: string)
    ensures ReceiptIdOf(el, id) == if Attribute(el, "id") == "" then id else Attribute(el, "id")
  {}

  lemma NoticeFields(m: Message, el: Xml, clock: Clock)
    ensures var r := ParseNotice(m, el, clock); var kind := NoticeKind(el);
            if r.Some? then kind != UnknownKind && StatusSteps(m.status, el, kind, m.id, clock, r.value.status) else kind == UnknownKind
  {
    hide FirstChild, Attribute, ReceiptIdOf;
    ReceiptIdIs(el, m.id);
  }

  lemma NoticeText(m: Message, el: Xml, clock: Clock)
    ensures var r := ParseNotice(m, el, clock); var kind := NoticeKind(el);
            r.Some? ==> TextSteps(m.text, el, kind, r.value.text)
  {
    hide FirstChild, Attribute;
  }

  lemma NoticeElement(m: Message, el: Xml, clock: Clock)
    ensures var r := ParseNotice(m, el, clock); var kind := NoticeKind(el);
            if r.Some? then kind != UnknownKind && Steps(m, el, kind, clock, r.value) else kind == UnknownKind
  {
    hide PublicSteps, TextSteps, StatusSteps, LinkSteps, OtherSteps, Attribute;
    var kind := NoticeKind(el);
    NoticeFields(m, el, clock);
    NoticeText(m, el, clock);
    if kind != UnknownKind {
      PublicUntold(m.public, el, kind);
      LinksUntold(m.links, el, kind);
      OthersUntold(m, el, kind, ParseNotice(m, el, clock).value);
    }
  }

  function NoteTold(l: LinkPart, el: Xml, kind: Kind): LinkPart {
    match kind
    case BobKind => l.(bitsOfBinaryData := l.bitsOfBinaryData + [el.content])
    case ReplaceKind => l.(replaceId := Attribute(el, "id"))
    case AttachKind => l.(attachId := Attribute(el, "id"))
    case _ => l
  }

  lemma NoteIsTold(m: Message, el: Xml)
    ensures var r := ParseNote(m, el);
            if NoteKind(el) == UnknownKind then r == None else r.Some? && r.value.links == NoteTold(m.links, el, NoteKind(el))
  {
    hide Attribute;
  }

  lemma NoteToldIsStep(l: LinkPart, el: Xml, kind: Kind)
    requires !kind.OobKind? && !kind.ConferenceKind?
    ensures NoteSteps(l, el, kind, NoteTold(l, el, kind))
  {
    hide Attribute;
  }

  lemma NoteFields(m: Message, el: Xml)
    ensures var r := ParseNote(m, el); var kind := NoteKind(el);
            if r.Some? then kind != UnknownKind && NoteSteps(m.links, el, kind, r.value.links) else kind == UnknownKind
  {
    hide ParseNote, NoteSteps, NoteTold;
    NoteIsTold(m, el);
    NoteToldIsStep(m.links, el, NoteKind(el));
  }

  lemma NoteStatus(m: Message, el: Xml, clock: Clock)
    ensures var r := ParseNote(m, el); var kind := NoteKind(el);
            r.Some? ==> StatusSteps(m.status, el, kind, m.id, clock, r.value.status)
  {
    hide Attribute;
  }

  lemma NoteText(m: Message, el: Xml)
    ensures var r := ParseNote(m, el); var kind := NoteKind(el);
            r.Some? ==> TextSteps(m.text, el, kind, r.value.text)
  {
    hide Attribute, FirstChild;
  }

  lemma NoteElement(m: Message, el: Xml, clock: Clock)
    ensures var r := ParseNote(m, el); var kind := NoteKind(el);
            if r.Some? then kind != UnknownKind && Steps(m, el, kind, clock, r.value) else kind == UnknownKind
  {
    hide PublicSteps, TextSteps, StatusSteps, NoteSteps, PayloadSteps, OtherSteps, Attribute;
    var kind := NoteKind(el);
    NoteFields(m, el);
    NoteText(m, el);
    NoteStatus(m, el, clock);
    if kind != UnknownKind {
      var r := ParseNote(m, el).value;
      PublicUntold(m.public, el, kind);
      PayloadUntold(m.links, el, kind, r.links);
      OthersUntold(m, el, kind, r);
    }
  }

  function PayloadTold(l: LinkPart, el: Xml, kind: Kind): LinkPart {
    match kind
    case InvitationKind => l.(mixInvitation := Some(el.content))
    case TrustKind => l.(trustMessageElement := Some(el.content))
    case ReactionKind => l.(reaction := Some(el.content))
    case FileKind => l.(sharedFiles := l.sharedFiles + [el.content])
    case SourcesKind => l.(fileSourcesAttachments := l.fileSourcesAttachments + [el.content])
    case ReplyKind => l.(reply := Some(Reply(Attribute(el, "to"), Attribute(el, "id"))))
    case _ => l
  }

  lemma PayloadIsTold(m: Message, el: Xml)
    ensures ParsePayload(m, el)
            == if PayloadKind(el) == UnknownKind then None else Some(m.(links := PayloadTold(m.links, el, PayloadKind(el))))
  {
    hide Attribute;
  }

  lemma ToldIsStep(l: LinkPart, el: Xml, kind: Kind)
    ensures PayloadSteps(l, el, kind, PayloadTold(l, el, kind))
  {
    hide Attribute;
  }

  lemma PayloadFields(m: Message, el: Xml)
    ensures var r := ParsePayload(m, el); var kind := PayloadKind(el);
            if r.Some? then kind != UnknownKind && PayloadSteps(m.links, el, kind, r.value.links) else kind == UnknownKind
  {
    hide ParsePayload, PayloadKind, PayloadSteps, PayloadTold;
    PayloadIsTold(m, el);
    ToldIsStep(m.links, el, PayloadKind(el));
  }

  lemma PayloadKeeps(m: Message, el: Xml)
    ensures var r := ParsePayload(m, el);
            r.Some? ==> r.value == m.(links := r.value.links)
  {
    hide Attribute;
  }

  lemma PayloadNotes(m: Message, el: Xml)
    ensures var r := ParsePayload(m, el); var l := m.links;
            r.Some? ==> var k := r.value.links;
              && (k.outOfBandUrls, k.mucInvitationJid, k.mucInvitationPassword) == (l.outOfBandUrls, l.mucInvitationJid, l.mucInvitationPassword)
              && (k.mucInvitationReason, k.bitsOfBinaryData, k.replaceId, k.attachId)
                 == (l.mucInvitationReason, l.bitsOfBinaryData, l.replaceId, l.attachId)
  {
    hide Attribute;
  }

  lemma PayloadKindsAreTold(el: Xml)
    ensures var kind := PayloadKind(el);
            kind == UnknownKind || (!TellsPublic(kind) && !TellsText(kind) && !TellsStatus(kind) && !TellsNotes(kind) && !TellsOthers(kind))
  {}

  lemma PayloadElement(m: Message, el: Xml, clock: Clock)
    ensures var r := ParsePayload(m, el); var kind := PayloadKind(el);
            if r.Some? then kind != UnknownKind && Steps(m, el, kind, clock, r.value) else kind == UnknownKind
  {
    hide PublicSteps, TextSteps, StatusSteps, NoteSteps, PayloadSteps, OtherSteps, Attribute, ParsePayload, PayloadKind;
    var kind := PayloadKind(el);
    PayloadFields(m, el);
    PayloadKeeps(m, el);
    PayloadNotes(m, el);
    PayloadKindsAreTold(el);
    if kind != UnknownKind {
      PublicUntold(m.public, el, kind);
      TextUntold(m.text, el, kind);
      StatusUntold(m.status, el, kind, m.id, clock);
      NotesUntold(m.links, el, kind, ParsePayload(m, el).value.links);
      OthersUntold(m, el, kind, ParsePayload(m, el).value);
    }
  }

  lemma MarkElement(m: Message, el: Xml, kind: Kind, clock: Clock, r: Message)
    requires || (kind == FallbackMarkKind && r == m.(fallbackMarkers := m.fallbackMarkers + [el.content]))
             || (kind == SkippedKind && r == m)
             || (kind == UnknownKind && r == m.(extensions := m.extensions + [el]))
    ensures Steps(m, el, kind, clock, r)
  {
    hide PublicSteps, TextSteps, StatusSteps, LinkSteps;
    PublicUntold(m.public, el, kind);
    TextUntold(m.text, el, kind);
    StatusUntold(m.status, el, kind, m.id, clock);
    LinksUntold(m.links, el, kind);
  }

  lemma SensitiveElement(m: Message, el: Xml, clock: Clock)
    ensures var r := ParseSensitive(m, el, clock); var kind := SensitiveKind(el);
            if r.Some? then kind != UnknownKind && Steps(m, el, kind, clock, r.value) else kind == UnknownKind
  {
    hide Steps, CoreKind, XKind, NoticeKind, NoteKind, PayloadKind, ParseCore, ParseX, ParseNotice, ParseNote, ParsePayload;
    CoreElement(m, el, clock);
    XElement(m, el, clock);
    NoticeElement(m, el, clock);
    NoteElement(m, el, clock);
    PayloadElement(m, el, clock);
  }

  /** One element changes the fields of its kind and no other. */
  lemma OneElement(m: Message, el: Xml, mode: SceMode, clock: Clock)
    ensures Steps(m, el, KindOf(el, mode), clock, ParseChild(m, el, mode, clock))
  {
    hide Steps, PublicKind, SensitiveKind, ParsePublic, ParseSensitive;
    PublicElement(m, el, mode, clock);
    SensitiveElement(m, el, clock);
    var kind, r := KindOf(el, mode), ParseChild(m, el, mode, clock);
    if IsSkipped(el) {
      MarkElement(m, el, SkippedKind, clock, r);
    } else if Includes(mode, ScePublic) && ParsePublic(m, el, mode).Some? {
    } else if Includes(mode, SceSensitive) && ParseSensitive(m, el, clock).Some? {
    } else {
      MarkElement(m, el, kind, clock, r);
    }
  }

  // ------------------------------------------------------------------ all elements

  lemma LastGrows(els: seq<Xml>, kind: Kind, mode: SceMode)
    requires els != []
    ensures var n := |els| - 1;
            && Last(els, kind, mode) == (if KindOf(els[n], mode) == kind then Some(els[n]) else Last(els[..n], kind, mode))
            && Has(els, kind, mode) == (KindOf(els[n], mode) == kind || Has(els[..n], kind, mode))
  {
    hide KindOf;
  }

  lemma ContentsGrow(els: seq<Xml>, kind: Kind, mode: SceMode)
    requires els != []
    ensures var n := |els| - 1;
            var before := Contents(All(els[..n], kind, mode));
            Contents(All(els, kind, mode)) == if KindOf(els[n], mode) == kind then before + [els[n].content] else before
  {
    hide KindOf;
  }

  lemma HintsGrow(els: seq<Xml>, mode: SceMode)
    requires els != []
    ensures var n := |els| - 1; var before := HintsOf(els[..n], mode);
            HintsOf(els, mode) == if KindOf(els[n], mode) == HintKind && els[n].tag.HintTag? then before + {els[n].tag.hint} else before
  {
    hide KindOf;
    assert els == els[..|els| - 1] + [els[|els| - 1]];
  }

  lemma PublicGrows(m: Message, els: seq<Xml>, mode: SceMode, p: PublicPart, r: PublicPart)
    requires els != [] && PublicIs(m.public, els[..|els| - 1], mode, p) && PublicSteps(p, els[|els| - 1], KindOf(els[|els| - 1], mode), r)
    ensures PublicIs(m.public, els, mode, r)
  {
    hide KindOf, Last, Has, Attribute, ChildText, OriginIdOf, HintsOf, StanzaIdsOf;
    LastGrows(els, PrivateKind, mode);
    LastGrows(els, OriginIdKind, mode);
    LastGrows(els, MixKind, mode);
    LastGrows(els, EncryptionKind, mode);
    LastGrows(els, OmemoKind, mode);
    HintsGrow(els, mode);
    StanzaIdsGrow(All(els[..|els| - 1], StanzaIdKind, mode), els[|els| - 1]);
  }

  lemma StanzaIdsGrow(els: seq<Xml>, el: Xml)
    ensures StanzaIdsOf(els + [el]) == StanzaIdsOf(els) + StanzaIdsOf([el])
  {}

  lemma TextGrows(m: Message, els: seq<Xml>, mode: SceMode, p: TextPart, r: TextPart)
    requires els != [] && TextIs(m.text, els[..|els| - 1], mode, p) && TextSteps(p, els[|els| - 1], KindOf(els[|els| - 1], mode), r)
    ensures TextIs(m.text, els, mode, r)
  {
    hide KindOf, Last, Has, Attribute, XhtmlOf;
    LastGrows(els, SubjectKind, mode);
    LastGrows(els, BodyKind, mode);
    LastGrows(els, ThreadKind, mode);
    LastGrows(els, XhtmlKind, mode);
    LastGrows(els, SpoilerKind, mode);
  }

  lemma StatusGrows(m: Message, els: seq<Xml>, mode: SceMode, clock: Clock, p: StatusPart, r: StatusPart)
    requires els != [] && StatusIs(m.status, m.id, els[..|els| - 1], mode, p)
    requires StatusSteps(p, els[|els| - 1], KindOf(els[|els| - 1], mode), m.id, clock, r)
    ensures StatusIs(m.status, m.id, els, mode, r)
  {
    hide KindOf, Last, Has, Attribute, StateOf, MarkerOf, ReceiptIdOf;
    LastGrows(els, StateKind, mode);
    LastGrows(els, ReceiptKind, mode);
    LastGrows(els, RequestKind, mode);
    LastGrows(els, AttentionKind, mode);
    LastGrows(els, MarkableKind, mode);
    LastGrows(els, MarkerKind, mode);
  }

  lemma TailGrows(els: seq<Xml>, k: nat, kind: Kind, mode: SceMode)
    requires k < |els|
    ensures var n := |els| - 1; var before := All(els[..n][k..], kind, mode);
            All(els[k..], kind, mode) == if KindOf(els[n], mode) == kind then before + [els[n]] else before
  {
    hide KindOf;
    var tail := els[k..];
    assert tail[..|tail| - 1] == els[..|els| - 1][k..] && tail[|tail| - 1] == els[|els| - 1];
  }

  lemma StampOfMore(stamp: (Option<int>, bool), later: seq<Xml>, el: Xml, clock: Clock)
    ensures var before := StampOf(stamp, later, clock);
            StampOf(stamp, later + [el], clock) == if before.0.Some? then before else (clock.read(true, Attribute(el, "stamp")), true)
  {
    hide Attribute;
    var all := later + [el];
    assert all[..|all| - 1] == later && all[|all| - 1] == el;
    assert FirstReadable(all, clock)
           == if FirstReadable(later, clock).Some? then FirstReadable(later, clock) else clock.read(true, Attribute(el, "stamp"));
    assert FirstReadable([], clock) == None;
  }

  lemma IndexGrows(els: seq<Xml>, kind: Kind, mode: SceMode)
    requires els != []
    ensures var n := |els| - 1;
            LastIndex(els, kind, mode) == if KindOf(els[n], mode) == kind then n else LastIndex(els[..n], kind, mode)
  {
    hide KindOf;
  }

  lemma LegacyGrows(els: seq<Xml>, mode: SceMode)
    requires els != []
    ensures var n := |els| - 1; var kind := KindOf(els[n], mode); var before := LegacyAfterDelay(els[..n], mode);
            LegacyAfterDelay(els, mode)
            == if kind == DelayKind then [] else if kind == LegacyDelayKind then before + [els[n]] else before
  {
    hide KindOf, All, LastIndex;
    var n := |els| - 1;
    var k := LastIndex(els, DelayKind, mode);
    IndexGrows(els, DelayKind, mode);
    if KindOf(els[n], mode) == DelayKind {
      assert k == n && els[k + 1..] == [];
      AllOfNothing(LegacyDelayKind, mode);
      assert LegacyAfterDelay(els, mode) == [];
    } else {
      assert k == LastIndex(els[..n], DelayKind, mode) < n;
      TailGrows(els, k + 1, LegacyDelayKind, mode);
    }
  }

  lemma StampGrows(m: Message, els: seq<Xml>, mode: SceMode, clock: Clock, p: StatusPart, r: StatusPart)
    requires els != [] && StampIs(m.status, els[..|els| - 1], mode, clock, p)
    requires StampSteps(p, els[|els| - 1], KindOf(els[|els| - 1], mode), clock, r)
    ensures StampIs(m.status, els, mode, clock, r)
  {
    hide KindOf, Attribute, LegacyAfterDelay, StampOf, Last;
    var n := |els| - 1;
    LastGrows(els, DelayKind, mode);
    LegacyGrows(els, mode);
    StampOfMore(DelayOf(m.status, els, mode, clock), LegacyAfterDelay(els[..n], mode), els[n], clock);
    NoneLater(DelayOf(m.status, els, mode, clock), clock);
  }

  lemma StampIsStatus(s: StatusPart, el: Xml, kind: Kind, id: string, clock: Clock, r: StatusPart)
    requires StatusSteps(s, el, kind, id, clock, r)
    ensures StampSteps(s, el, kind, clock, r)
  {}

  lemma NoneLater(stamp: (Option<int>, bool), clock: Clock)
    ensures StampOf(stamp, [], clock) == stamp
  {}

  lemma AllOfNothing(kind: Kind, mode: SceMode)
    ensures All([], kind, mode) == [] && Contents(All([], kind, mode)) == []
  {}

  lemma NotesGrow(m: Message, els: seq<Xml>, mode: SceMode, p: LinkPart, r: LinkPart)
    requires els != [] && NotesAre(m.links, els[..|els| - 1], mode, p) && NoteSteps(p, els[|els| - 1], KindOf(els[|els| - 1], mode), r)
    ensures NotesAre(m.links, els, mode, r)
  {
    hide KindOf, Last, Has, Attribute, All, Contents;
    LastGrows(els, ConferenceKind, mode);
    LastGrows(els, ReplaceKind, mode);
    LastGrows(els, AttachKind, mode);
    ContentsGrow(els, OobKind, mode);
    ContentsGrow(els, BobKind, mode);
  }

  lemma PayloadGrows(m: Message, els: seq<Xml>, mode: SceMode, p: LinkPart, r: LinkPart)
    requires els != [] && PayloadIs(m.links, els[..|els| - 1], mode, p) && PayloadSteps(p, els[|els| - 1], KindOf(els[|els| - 1], mode), r)
    ensures PayloadIs(m.links, els, mode, r)
  {
    hide KindOf, Last, Has, Attribute, All, Contents;
    LastGrows(els, InvitationKind, mode);
    LastGrows(els, TrustKind, mode);
    LastGrows(els, ReactionKind, mode);
    LastGrows(els, ReplyKind, mode);
    ContentsGrow(els, FileKind, mode);
    ContentsGrow(els, SourcesKind, mode);
  }

  lemma OthersGrow(m: Message, els: seq<Xml>, mode: SceMode, p: Message, r: Message)
    requires els != [] && OthersAre(m, els[..|els| - 1], mode, p) && OtherSteps(p, els[|els| - 1], KindOf(els[|els| - 1], mode), r)
    ensures OthersAre(m, els, mode, r)
  {
    hide KindOf, Last, Has, All, Contents;
    LastGrows(els, FallbackBodyKind, mode);
    LastGrows(els, JingleKind, mode);
    LastGrows(els, CallInviteKind, mode);
    ContentsGrow(els, FallbackMarkKind, mode);
  }

  lemma NothingIsLast(mode: SceMode)
    ensures forall kind :: Last([], kind, mode) == None && !Has([], kind, mode)
    ensures forall kind :: All([], kind, mode) == []
  {
    hide KindOf;
  }

  lemma NothingIsStamp(m: Message, mode: SceMode, clock: Clock)
    ensures StampIs(m.status, [], mode, clock, m.status)
  {
    hide KindOf;
    var none: seq<Xml> := [];
    assert none[0..] == [];
  }

  lemma NothingIsPublic(m: Message, mode: SceMode)
    ensures PublicIs(m.public, [], mode, m.public)
  {
    hide KindOf, Last, Has, All;
    NothingIsLast(mode);
    assert m.public.stanzaIds + StanzaIdsOf([]) == m.public.stanzaIds && HintsOf([], mode) == {};
  }

  lemma NothingIsLinks(m: Message, mode: SceMode)
    ensures NotesAre(m.links, [], mode, m.links) && PayloadIs(m.links, [], mode, m.links)
  {
    hide KindOf, Last, Has, All;
    NothingIsLast(mode);
    var l := m.links;
    assert l.outOfBandUrls + Contents([]) == l.outOfBandUrls && l.bitsOfBinaryData + Contents([]) == l.bitsOfBinaryData;
    assert l.sharedFiles + Contents([]) == l.sharedFiles && l.fileSourcesAttachments + Contents([]) == l.fileSourcesAttachments;
  }

  lemma NothingIsReading(m: Message, mode: SceMode, clock: Clock)
    requires m.extensions == []
    ensures IsReading(m, [], mode, clock, m)
  {
    hide KindOf, Last, Has, All, PublicIs, StampIs, NotesAre, PayloadIs;
    NothingIsLast(mode);
    NothingIsPublic(m, mode);
    NothingIsStamp(m, mode, clock);
    NothingIsLinks(m, mode);
    assert m.fallbackMarkers + Contents([]) == m.fallbackMarkers;
  }

  lemma {:induction false} ChildrenAreReading(m: Message, els: seq<Xml>, mode: SceMode, clock: Clock)
    requires m.extensions == []
    ensures IsReading(m, els, mode, clock, ParseChildren(m, els, mode, clock))
  {
    if els == [] {
      NothingIsReading(m, mode, clock);
    } else {
      hide KindOf, ParseChild, PublicIs, TextIs, StampIs, StatusIs, NotesAre, PayloadIs, PublicSteps, TextSteps, StatusSteps, NoteSteps, PayloadSteps;
      var n := |els| - 1;
      var p, r := ParseChildren(m, els[..n], mode, clock), ParseChildren(m, els, mode, clock);
      ChildrenAreReading(m, els[..n], mode, clock);
      OneElement(p, els[n], mode, clock);
      PublicGrows(m, els, mode, p.public, r.public);
      TextGrows(m, els, mode, p.text, r.text);
      StatusGrows(m, els, mode, clock, p.status, r.status);
      assert StampSteps(p.status, els[n], KindOf(els[n], mode), clock, r.status) by { StampIsStatus(p.status, els[n], KindOf(els[n], mode), p.id, clock, r.status); }
      StampGrows(m, els, mode, clock, p.status, r.status);
      NotesGrow(m, els, mode, p.links, r.links);
      PayloadGrows(m, els, mode, p.links, r.links);
      OthersGrow(m, els, mode, p, r);
    }
  }

  lemma OnlyExtensionsAreReplaced(m: Message, els: seq<Xml>, mode: SceMode, clock: Clock, r: Message)
    requires IsReading(m.(extensions := []), els, mode, clock, r)
    ensures IsReading(m, els, mode, clock, r)
  {
    hide KindOf, Last, Has, All, PublicIs, TextIs, StampIs, StatusIs, NotesAre, PayloadIs;
  }

  /** What is read is a function of the elements of each kind, whatever stands between them. */
  lemma ParsingIsReading(m: Message, els: seq<Xml>, mode: SceMode, clock: Clock)
    ensures IsReading(m, els, mode, clock, ParseExtensions(m, els, mode, clock))
  {
    hide IsReading, ParseChildren;
    ChildrenAreReading(m.(extensions := []), els, mode, clock);
    OnlyExtensionsAreReplaced(m, els, mode, clock, ParseExtensions(m, els, mode, clock));
  }

  /** The kinds leave no field open: the message read is the only one that the elements describe. */
  lemma ReadingIsParsing(m: Message, els: seq<Xml>, mode: SceMode, clock: Clock, r: Message)
    ensures IsReading(m, els, mode, clock, r) <==> r == ParseExtensions(m, els, mode, clock)
  {
    hide ParseExtensions, KindOf, Last, Has, All, HintsOf, StanzaIdsOf, Contents, DelayOf, LegacyAfterDelay, StampOf;
    ParsingIsReading(m, els, mode, clock);
  }

  /** A readable delay element decides the time against any number of legacy elements, before or after it. */
  lemma DelayBeatsLegacy(m: Message, els: seq<Xml>, k: nat, mode: SceMode, clock: Clock)
    requires mode != ScePublic && k < |els| && IsDelay(els[k])
    requires forall j :: k < j < |els| ==> !IsDelay(els[j])
    requires clock.read(false, Attribute(els[k], "stamp")).Some?
    ensures var s := ParseExtensions(m, els, mode, clock).status;
            s.stamp == clock.read(false, Attribute(els[k], "stamp")) && !s.legacyStamp
  {
    hide ParseExtensions, PublicIs, TextIs, StatusIs, NotesAre, PayloadIs, OthersAre;
    ParsingIsReading(m, els, mode, clock);
    assert LastIndex(els, DelayKind, mode) == k by { DelayIsLast(els, k, mode); }
  }

  lemma {:induction false} DelayIsLast(els: seq<Xml>, k: nat, mode: SceMode)
    requires mode != ScePublic && k < |els| && IsDelay(els[k])
    requires forall j :: k < j < |els| ==> !IsDelay(els[j])
    ensures LastIndex(els, DelayKind, mode) == k
  {
    hide KindOf;
    LastIndexIsLast(els, DelayKind, mode);
    forall j | 0 <= j < |els| ensures KindOf(els[j], mode) == DelayKind <==> IsDelay(els[j]) {
      DelayIsDelay(els[j], mode);
    }
  }

  predicate IsDelay(el: Xml) { (el.tag, el.ns) == (DelayTag, Delay) }

  predicate IsLegacyDelay(el: Xml) { (el.tag, el.ns) == (XTag, LegacyDelay) }

  lemma PublicIsNoTime(el: Xml, mode: SceMode)
    ensures !PublicKind(el, mode).DelayKind? && !PublicKind(el, mode).LegacyDelayKind?
    ensures IsDelay(el) || IsLegacyDelay(el) ==> PublicKind(el, mode) == UnknownKind
  {}

  lemma NoteIsNoTime(el: Xml)
    ensures !NoteKind(el).DelayKind? && !NoteKind(el).LegacyDelayKind? && !PayloadKind(el).DelayKind? && !PayloadKind(el).LegacyDelayKind?
  {}

  lemma SensitiveIsTime(el: Xml)
    ensures SensitiveKind(el) == DelayKind <==> IsDelay(el)
    ensures SensitiveKind(el) == LegacyDelayKind <==> IsLegacyDelay(el)
  {
    hide NoteKind, PayloadKind;
    NoteIsNoTime(el);
  }

  lemma DelayIsDelay(el: Xml, mode: SceMode)
    requires mode != ScePublic
    ensures KindOf(el, mode) == DelayKind <==> IsDelay(el)
    ensures KindOf(el, mode) == LegacyDelayKind <==> IsLegacyDelay(el)
  {
    hide PublicKind, SensitiveKind;
    PublicIsNoTime(el, mode);
    SensitiveIsTime(el);
  }

  /** Without a delay element and without an earlier time, the first legacy element counts if it is readable. */
  lemma FirstLegacyCounts(m: Message, els: seq<Xml>, k: nat, mode: SceMode, clock: Clock)
    requires mode != ScePublic && m.status.stamp == None
    requires forall j :: 0 <= j < |els| ==> !IsDelay(els[j])
    requires k < |els| && IsLegacyDelay(els[k]) && clock.read(true, Attribute(els[k], "stamp")).Some?
    requires forall j :: 0 <= j < k ==> !IsLegacyDelay(els[j])
    ensures var s := ParseExtensions(m, els, mode, clock).status;
            s.stamp == clock.read(true, Attribute(els[k], "stamp")) && s.legacyStamp
  {
    hide ParseExtensions, PublicIs, TextIs, StatusIs, NotesAre, PayloadIs, OthersAre, KindOf, Attribute;
    ParsingIsReading(m, els, mode, clock);
    LastIndexIsLast(els, DelayKind, mode);
    forall j | 0 <= j < |els|
      ensures KindOf(els[j], mode) != DelayKind && (KindOf(els[j], mode) == LegacyDelayKind <==> IsLegacyDelay(els[j]))
    {
      DelayIsDelay(els[j], mode);
    }
    assert els[0..] == els;
    FirstLegacyIsRead(els, k, mode, clock);
  }

  lemma {:induction false} FirstLegacyIsRead(els: seq<Xml>, k: nat, mode: SceMode, clock: Clock)
    requires k < |els| && KindOf(els[k], mode) == LegacyDelayKind && clock.read(true, Attribute(els[k], "stamp")).Some?
    requires forall j :: 0 <= j < k ==> KindOf(els[j], mode) != LegacyDelayKind
    ensures All(els, LegacyDelayKind, mode) != []
    ensures FirstReadable(All(els, LegacyDelayKind, mode), clock) == clock.read(true, Attribute(els[k], "stamp"))
  {
    hide KindOf, Attribute;
    var n := |els| - 1;
    if k < n {
      FirstLegacyIsRead(els[..n], k, mode, clock);
    } else {
      NoneOfTheKind(els[..n], LegacyDelayKind, mode);
    }
  }

  lemma {:induction false} NoneOfTheKind(els: seq<Xml>, kind: Kind, mode: SceMode)
    requires forall j :: 0 <= j < |els| ==> KindOf(els[j], mode) != kind
    ensures All(els, kind, mode) == []
  {
    hide KindOf;
    if els != [] { NoneOfTheKind(els[..|els| - 1], kind, mode); }
  }
}
