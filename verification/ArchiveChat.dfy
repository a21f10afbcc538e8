// Archived conversations: dates written as whole seconds since the message before (XEP-0136).

module ArchiveChats {
  import opened Text

  /** Dates are milliseconds since a fixed moment. */
  datatype ArchiveMessage = ArchiveMessage(body: string, date: int, isReceived: bool)

  datatype ChildTag = From | To | OtherTag(name: string)

  datatype ChildEl = ChildEl(tag: ChildTag, secs: string, body: string)

  datatype ChatXml = ChatXml(with: string, start: int, subject: string, thread: string, version: string, children: seq<ChildEl>)

  datatype Chat = Chat(with: string, start: int, subject: string, thread: string, version: Int32, messages: seq<ArchiveMessage>)

  /** Whole seconds from one date to another; parts of a second are cut off towards zero. */
  function SecsTo(from: int, to: int): int { if to >= from then (to - from) / 1000 else -((from - to) / 1000) }

  function AddSecs(date: int, secs: int): int { date + 1000 * secs }

  function PreviousDate(start: int, messages: seq<ArchiveMessage>, k: nat): int
    requires k <= |messages|
  {
    if k == 0 then start else messages[k - 1].date
  }

  function WriteMessage(prevTime: int, m: ArchiveMessage): ChildEl {
    ChildEl(if m.isReceived then From else To, Number(SecsTo(prevTime, m.date)), m.body)
  }

  function WriteMessages(start: int, messages: seq<ArchiveMessage>): seq<ChildEl> {
    seq(|messages|, k requires 0 <= k < |messages| => WriteMessage(PreviousDate(start, messages, k), messages[k]))
  }

  function ToXml(c: Chat): ChatXml {
    ChatXml(c.with, c.start, c.subject, c.thread, if c.version == 0 then "" else Number(c.version),
            WriteMessages(c.start, c.messages))
  }

  predicate IsMessage(el: ChildEl) { !el.tag.OtherTag? }

  /** The time reached after a sequence of children. */
  function TimeAfter(start: int, children: seq<ChildEl>): int {
    if children == [] then start
    else
      var front, last := children[..|children| - 1], children[|children| - 1];
      if IsMessage(last) then AddSecs(TimeAfter(start, front), IntOrZero(last.secs)) else TimeAfter(start, front)
  }

  function ReadMessages(start: int, children: seq<ChildEl>): seq<ArchiveMessage> {
    if children == [] then []
    else
      var front, last := children[..|children| - 1], children[|children| - 1];
      if IsMessage(last) then ReadMessages(start, front) + [ArchiveMessage(last.body, TimeAfter(start, children), last.tag == From)]
      else ReadMessages(start, front)
  }

  class QXmppArchiveChat {
    var c: Chat

    constructor ()
      ensures c == Chat("", 0, "", "", 0, [])
    {
      c := Chat("", 0, "", "", 0, []);
    }

    /** Messages read are added to those the chat already has. */
    method Parse(xml: ChatXml)
      modifies this
      ensures c == Chat(xml.with, xml.start, xml.subject, xml.thread, IntOrZero(xml.version),
                        old(c.messages) + ReadMessages(xml.start, xml.children))
    {
      c := c.(with := xml.with, start := xml.start, subject := xml.subject, thread := xml.thread, version := IntOrZero(xml.version));
      ghost var head := c;
      var timeAccu := c.start;
      for k := 0 to |xml.children|
        invariant timeAccu == TimeAfter(xml.start, xml.children[..k])
        invariant c == head.(messages := old(c.messages) + ReadMessages(xml.start, xml.children[..k]))
      {
        var child := xml.children[k];
        assert xml.children[..k + 1][..k] == xml.children[..k];
        if child.tag == From || child.tag == To {
          timeAccu := AddSecs(timeAccu, IntOrZero(child.secs));
          c := c.(messages := c.messages + [ArchiveMessage(child.body, timeAccu, child.tag == From)]);
        }
      }
      assert xml.children[..|xml.children|] == xml.children;
    }

    method Write() returns (xml: ChatXml)
      ensures xml == ToXml(c)
    {
      var prevTime := c.start;
      var children: seq<ChildEl> := [];
      for k := 0 to |c.messages|
        invariant prevTime == PreviousDate(c.start, c.messages, k)
        invariant children == WriteMessages(c.start, c.messages)[..k]
      {
        var message := c.messages[k];
        children := children + [ChildEl(if message.isReceived then From else To, Number(SecsTo(prevTime, message.date)), message.body)];
        prevTime := message.date;
      }
      xml := ChatXml(c.with, c.start, c.subject, c.thread, if c.version == 0 then "" else Number(c.version), children);
    }
  }

  // --------------------------------------------------------------------- round trips

  /** A number that does not fit in 32 bits is read as zero. */
  function Secs32(secs: int): int { if -0x8000_0000 <= secs <= 0x7fff_ffff then secs else 0 }

  lemma SecsAreRead(secs: int)
    ensures IntOrZero(Number(secs)) == Secs32(secs)
  {
    hide ParseInteger, Number;
    NumberRoundTrip(secs);
  }

  /** The restored date of the k-th message: the start plus the whole seconds of every gap up to it. */
  function RestoredDate(start: int, messages: seq<ArchiveMessage>, k: nat): int
    requires k <= |messages|
  {
    if k == 0 then start
    else RestoredDate(start, messages, k - 1) + 1000 * Secs32(SecsTo(PreviousDate(start, messages, k - 1), messages[k - 1].date))
  }

  function Restored(start: int, messages: seq<ArchiveMessage>): seq<ArchiveMessage> {
    seq(|messages|, k requires 0 <= k < |messages| => messages[k].(date := RestoredDate(start, messages, k + 1)))
  }

  lemma {:induction false} RestoredPrefix(start: int, messages: seq<ArchiveMessage>, n: nat, k: nat)
    requires k <= n <= |messages|
    ensures RestoredDate(start, messages[..n], k) == RestoredDate(start, messages, k)
  {
    if k > 0 { RestoredPrefix(start, messages, n, k - 1); }
  }

  lemma FrontOfWritten(start: int, messages: seq<ArchiveMessage>)
    requires messages != []
    ensures var n := |messages| - 1;
            WriteMessages(start, messages) == WriteMessages(start, messages[..n])
                                              + [WriteMessage(PreviousDate(start, messages, n), messages[n])]
  {
    hide WriteMessage;
  }

  lemma FrontOfRestored(start: int, messages: seq<ArchiveMessage>)
    requires messages != []
    ensures var n := |messages| - 1;
            Restored(start, messages) == Restored(start, messages[..n]) + [messages[n].(date := RestoredDate(start, messages, n + 1))]
  {
    hide RestoredDate;
    var n := |messages| - 1;
    var front, all := Restored(start, messages[..n]), Restored(start, messages);
    forall k | 0 <= k < n ensures front[k] == all[k] {
      RestoredPrefix(start, messages, n, k + 1);
    }
    assert all[n] == messages[n].(date := RestoredDate(start, messages, n + 1));
    hide Restored;
    assert all == all[..n] + [all[n]] && all[..n] == front;
  }

  lemma {:induction false} WrittenIsReadAs(start: int, messages: seq<ArchiveMessage>)
    ensures TimeAfter(start, WriteMessages(start, messages)) == RestoredDate(start, messages, |messages|)
    ensures ReadMessages(start, WriteMessages(start, messages)) == Restored(start, messages)
  {
    if messages == [] {
      assert WriteMessages(start, messages) == [];
    } else {
      hide WriteMessages, Restored, SecsTo, Secs32, Number, IntOrZero;
      var n := |messages| - 1;
      var front, el := messages[..n], WriteMessage(PreviousDate(start, messages, n), messages[n]);
      WrittenIsReadAs(start, front);
      FrontOfWritten(start, messages);
      FrontOfRestored(start, messages);
      RestoredPrefix(start, messages, n, n);
      SecsAreRead(SecsTo(PreviousDate(start, messages, n), messages[n].date));
      assert WriteMessages(start, messages)[..n] == WriteMessages(start, front);
    }
  }

  /** A written chat is read back with every field but the dates, which are RestoredDate. */
  lemma ChatRoundTrip(c: Chat)
    ensures ToXml(c).with == c.with && ToXml(c).start == c.start && ToXml(c).subject == c.subject && ToXml(c).thread == c.thread
    ensures IntOrZero(ToXml(c).version) == c.version
    ensures ReadMessages(c.start, ToXml(c).children) == Restored(c.start, c.messages)
  {
    hide ParseInteger, Number, WriteMessages, ReadMessages, Restored;
    SecsAreRead(c.version);
    NoVersion();
    WrittenIsReadAs(c.start, c.messages);
  }

  lemma NoVersion()
    ensures IntOrZero("") == 0
  {}

  function Gap(start: int, messages: seq<ArchiveMessage>, k: nat): int
    requires k < |messages|
  {
    messages[k].date - PreviousDate(start, messages, k)
  }

  /** Every gap is a whole number of seconds that fits in 32 bits. */
  predicate WholeSeconds(start: int, messages: seq<ArchiveMessage>) {
    forall k :: 0 <= k < |messages| ==> Gap(start, messages, k) % 1000 == 0 && Fits(Gap(start, messages, k))
  }

  predicate Fits(gap: int) { -0x8000_0000 * 1000 - 1000 < gap < 0x8000_0000 * 1000 }

  lemma SecsOfGap(from: int, to: int)
    ensures -1000 < to - from - 1000 * SecsTo(from, to) < 1000
    ensures to >= from ==> to - from - 1000 * SecsTo(from, to) >= 0 && SecsTo(from, to) >= 0
    ensures (to - from) % 1000 == 0 <==> 1000 * SecsTo(from, to) == to - from
    ensures Secs32(SecsTo(from, to)) == SecsTo(from, to) <==> Fits(to - from)
  {}

  /** The dates are restored exactly for every message if and only if all gaps are whole seconds within 32 bits. */
  lemma DatesAreExactIff(start: int, messages: seq<ArchiveMessage>)
    ensures Restored(start, messages) == messages <==> WholeSeconds(start, messages)
  {
    hide Secs32, SecsTo, Fits;
    if WholeSeconds(start, messages) {
      forall k | 0 <= k <= |messages| ensures RestoredDate(start, messages, k) == PreviousDate(start, messages, k) {
        ExactSoFar(start, messages, k);
      }
    }
    if Restored(start, messages) == messages {
      forall k | 0 <= k < |messages| ensures Gap(start, messages, k) % 1000 == 0 && Fits(Gap(start, messages, k)) {
        assert Restored(start, messages)[k].date == messages[k].date;
        assert k > 0 ==> Restored(start, messages)[k - 1].date == messages[k - 1].date;
        ExactGap(start, messages, k);
      }
    }
  }

  lemma ExactGap(start: int, messages: seq<ArchiveMessage>, k: nat)
    requires k < |messages|
    requires RestoredDate(start, messages, k) == PreviousDate(start, messages, k)
    requires RestoredDate(start, messages, k + 1) == messages[k].date
    ensures Gap(start, messages, k) % 1000 == 0 && Fits(Gap(start, messages, k))
  {
    SecsOfGap(PreviousDate(start, messages, k), messages[k].date);
  }

  lemma {:induction false} ExactSoFar(start: int, messages: seq<ArchiveMessage>, k: nat)
    requires k <= |messages| && WholeSeconds(start, messages)
    ensures RestoredDate(start, messages, k) == PreviousDate(start, messages, k)
  {
    if k > 0 {
      ExactSoFar(start, messages, k - 1);
      assert Gap(start, messages, k - 1) % 1000 == 0;
      SecsOfGap(PreviousDate(start, messages, k - 1), messages[k - 1].date);
    }
  }

  predicate GapsFit(start: int, messages: seq<ArchiveMessage>) {
    forall k :: 0 <= k < |messages| ==> Fits(Gap(start, messages, k))
  }

  predicate NonDecreasing(start: int, messages: seq<ArchiveMessage>) {
    forall k :: 0 <= k < |messages| ==> Gap(start, messages, k) >= 0
  }

  /** The k-th restored date is off by at most 999 milliseconds for each message up to it, and never late when
      dates do not decrease. */
  lemma {:induction false} DriftIsBounded(start: int, messages: seq<ArchiveMessage>, k: nat)
    requires k <= |messages| && GapsFit(start, messages)
    ensures -999 * k <= PreviousDate(start, messages, k) - RestoredDate(start, messages, k) <= 999 * k
    ensures NonDecreasing(start, messages) ==> RestoredDate(start, messages, k) <= PreviousDate(start, messages, k)
  {
    if k > 0 {
      DriftIsBounded(start, messages, k - 1);
      assert Fits(Gap(start, messages, k - 1));
      SecsOfGap(PreviousDate(start, messages, k - 1), messages[k - 1].date);
    }
  }

  /** When dates do not decrease, neither do the restored ones. */
  lemma {:induction false} OrderIsKept(start: int, messages: seq<ArchiveMessage>, i: nat, j: nat)
    requires i <= j <= |messages| && NonDecreasing(start, messages)
    ensures RestoredDate(start, messages, i) <= RestoredDate(start, messages, j)
  {
    if i < j {
      OrderIsKept(start, messages, i, j - 1);
      assert Gap(start, messages, j - 1) >= 0;
      SecsOfGap(PreviousDate(start, messages, j - 1), messages[j - 1].date);
    }
  }

  /** A second round trip changes nothing more. */
  lemma RestoredIsStable(start: int, messages: seq<ArchiveMessage>)
    ensures Restored(start, Restored(start, messages)) == Restored(start, messages)
  {
    hide Secs32, SecsTo, Fits;
    var r := Restored(start, messages);
    forall k | 0 <= k < |r| ensures Gap(start, r, k) % 1000 == 0 && Fits(Gap(start, r, k)) {
      assert Gap(start, r, k) == RestoredDate(start, messages, k + 1) - RestoredDate(start, messages, k);
      Secs32Fits(SecsTo(PreviousDate(start, messages, k), messages[k].date));
    }
    DatesAreExactIff(start, r);
  }

  lemma Secs32Fits(secs: int)
    ensures Fits(1000 * Secs32(secs))
  {}

  /** The bound is met: each of two messages half a second and more apart loses almost a second. */
  lemma DriftBoundIsTight(start: int, body: string)
    ensures var ms := [ArchiveMessage(body, start + 999, true), ArchiveMessage(body, start + 1998, true)];
            GapsFit(start, ms) && NonDecreasing(start, ms) && ms[1].date - RestoredDate(start, ms, 2) == 999 * 2
  {
    var ms := [ArchiveMessage(body, start + 999, true), ArchiveMessage(body, start + 1998, true)];
    assert RestoredDate(start, ms, 1) == start;
  }
}
