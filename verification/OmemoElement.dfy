// The OMEMO element of a message: envelopes kept in a multimap by recipient (XEP-0384).

module OmemoElements {
  import opened Wrappers
  import opened Text
  import opened Sorting
  import opened KeyOrders

  datatype Envelope = Envelope(recipientDeviceId: UInt32, usedForKeyExchange: bool, data: string)

  /** Each recipient's envelopes, the one added last first. */
  type Envelopes = map<string, seq<Envelope>>

  /** No recipient is listed without an envelope, and recipients are bare JIDs. */
  ghost predicate Valid(es: Envelopes) { forall jid :: jid in es ==> es[jid] != [] && Lacks(jid, '/') }

  datatype KeyEl = KeyEl(rid: string, kex: string, data: string)

  datatype KeysEl = KeysEl(jid: string, keys: seq<KeyEl>)

  datatype OmemoXml = OmemoXml(sid: string, recipients: seq<KeysEl>, payload: string)

  function BareJid(jid: string): string { var pos := IndexOf(jid, '/'); if pos < 0 then jid else jid[..pos] }

  function EnvelopesOf(es: Envelopes, jid: string): seq<Envelope> { if jid in es then es[jid] else [] }

  /** Inserting into the multimap puts the new value before the others of its key. */
  function Insert(es: Envelopes, jid: string, e: Envelope): Envelopes { es[jid := [e] + EnvelopesOf(es, jid)] }

  function WriteEnvelope(e: Envelope): KeyEl {
    KeyEl(Number(e.recipientDeviceId), if e.usedForKeyExchange then "true" else "", e.data)
  }

  function ReadEnvelope(k: KeyEl): Envelope { Envelope(UIntOrZero(k.rid), k.kex == "true" || k.kex == "1", k.data) }

  function WriteEnvelopes(s: seq<Envelope>): seq<KeyEl> { seq(|s|, k requires 0 <= k < |s| => WriteEnvelope(s[k])) }

  function WriteRecipients(es: Envelopes, jids: seq<string>): seq<KeysEl>
    requires forall jid :: jid in jids ==> jid in es
  {
    seq(|jids|, k requires 0 <= k < |jids| => KeysEl(jids[k], WriteEnvelopes(es[jids[k]])))
  }

  function ReadKeys(es: Envelopes, jid: string, keys: seq<KeyEl>): Envelopes {
    if keys == [] then es
    else Insert(ReadKeys(es, jid, keys[..|keys| - 1]), BareJid(jid), ReadEnvelope(keys[|keys| - 1]))
  }

  function ReadRecipients(es: Envelopes, recipients: seq<KeysEl>): Envelopes {
    if recipients == [] then es
    else
      var last := recipients[|recipients| - 1];
      ReadKeys(ReadRecipients(es, recipients[..|recipients| - 1]), last.jid, last.keys)
  }

  function FirstWith(s: seq<Envelope>, deviceId: UInt32): Option<Envelope> {
    if s == [] then None else if s[0].recipientDeviceId == deviceId then Some(s[0]) else FirstWith(s[1..], deviceId)
  }

  function Search(es: Envelopes, jid: string, deviceId: UInt32): Option<Envelope> { FirstWith(EnvelopesOf(es, jid), deviceId) }

  ghost predicate IsUniqueKeys(es: Envelopes, jids: seq<string>) {
    Distinct(jids) && Sorted(StringLess, jids) && forall jid :: jid in jids <==> jid in es
  }

  ghost predicate IsWritten(xml: OmemoXml, senderDeviceId: UInt32, es: Envelopes, payload: string) {
    && xml.sid == Number(senderDeviceId) && xml.payload == payload
    && exists jids :: IsUniqueKeys(es, jids) && xml.recipients == WriteRecipients(es, jids)
  }

  // ------------------------------------------------------------------ in-place form

  class QXmppOmemoElement {
    var senderDeviceId: UInt32
    var envelopes: Envelopes
    var payload: string

    constructor ()
      ensures senderDeviceId == 0 && envelopes == map[] && payload == "" && Valid(envelopes)
    {
      senderDeviceId, envelopes, payload := 0, map[], "";
    }

    method AddEnvelope(recipientJid: string, envelope: Envelope)
      requires Valid(envelopes)
      modifies this`envelopes
      ensures Valid(envelopes)
      ensures envelopes == Insert(old(envelopes), BareJid(recipientJid), envelope)
    {
      var jid := BareJid(recipientJid);
      envelopes := envelopes[jid := [envelope] + EnvelopesOf(envelopes, jid)];
    }

    method SearchEnvelope(recipientJid: string, recipientDeviceId: UInt32) returns (found: Option<Envelope>)
      ensures found == Search(envelopes, recipientJid, recipientDeviceId)
    {
      var values := EnvelopesOf(envelopes, recipientJid);
      var i := 0;
      while i < |values|
        invariant 0 <= i <= |values|
        invariant FirstWith(values, recipientDeviceId) == FirstWith(values[i..], recipientDeviceId)
      {
        if values[i].recipientDeviceId == recipientDeviceId { return Some(values[i]); }
        i := i + 1;
      }
      return None;
    }

    method Parse(xml: OmemoXml)
      requires Valid(envelopes)
      modifies this
      ensures senderDeviceId == UIntOrZero(xml.sid) && payload == xml.payload && Valid(envelopes)
      ensures envelopes == ReadRecipients(old(envelopes), xml.recipients)
    {
      hide BareJid, ReadEnvelope, Insert, Valid;
      senderDeviceId := UIntOrZero(xml.sid);
      for i := 0 to |xml.recipients|
        invariant senderDeviceId == UIntOrZero(xml.sid) && Valid(envelopes)
        invariant envelopes == ReadRecipients(old(envelopes), xml.recipients[..i])
      {
        var recipient := xml.recipients[i];
        ghost var before := envelopes;
        for k := 0 to |recipient.keys|
          invariant senderDeviceId == UIntOrZero(xml.sid) && Valid(envelopes)
          invariant envelopes == ReadKeys(before, recipient.jid, recipient.keys[..k])
        {
          assert recipient.keys[..k + 1][..k] == recipient.keys[..k];
          AddEnvelope(recipient.jid, ReadEnvelope(recipient.keys[k]));
        }
        assert recipient.keys[..|recipient.keys|] == recipient.keys;
        assert xml.recipients[..i + 1][..i] == xml.recipients[..i];
      }
      assert xml.recipients[..|xml.recipients|] == xml.recipients;
      payload := xml.payload;
    }

    method UniqueKeys() returns (jids: seq<string>)
      ensures IsUniqueKeys(envelopes, jids)
    {
      var keys: seq<string> := [];
      var rest := envelopes.Keys;
      while rest != {}
        invariant rest <= envelopes.Keys && Distinct(keys)
        invariant forall jid :: jid in keys <==> jid in envelopes && jid !in rest
        decreases |rest|
      {
        var jid :| jid in rest;
        keys := keys + [jid];
        rest := rest - {jid};
      }
      KeyOrderIsWeak(keys, StringLess, key => key);
      jids := Sort(keys, StringLess);
      DistinctPermuted(keys, jids);
      forall jid ensures jid in jids <==> jid in keys { PermutationsHaveSameElements(keys, jids, jid); }
    }

    method ToXml() returns (xml: OmemoXml)
      ensures IsWritten(xml, senderDeviceId, envelopes, payload)
    {
      var recipientJids := UniqueKeys();
      var recipients: seq<KeysEl> := [];
      for i := 0 to |recipientJids|
        invariant recipients == WriteRecipients(envelopes, recipientJids)[..i]
      {
        assert recipientJids[i] in recipientJids;
        var values := envelopes[recipientJids[i]];
        var keys: seq<KeyEl> := [];
        for k := 0 to |values|
          invariant keys == WriteEnvelopes(values)[..k]
        {
          keys := keys + [WriteEnvelope(values[k])];
        }
        assert keys == WriteEnvelopes(values);
        assert WriteRecipients(envelopes, recipientJids)[i] == KeysEl(recipientJids[i], keys);
        recipients := recipients + [KeysEl(recipientJids[i], keys)];
      }
      xml := OmemoXml(Number(senderDeviceId), recipients, payload);
    }
  }

  // --------------------------------------------------------------------- round trips

  function Reverse<T>(s: seq<T>): (r: seq<T>)
    ensures |r| == |s|
  {
    if s == [] then [] else [s[|s| - 1]] + Reverse(s[..|s| - 1])
  }

  lemma {:induction false} ReverseAt<T>(s: seq<T>, k: nat)
    requires k < |s|
    ensures Reverse(s)[k] == s[|s| - 1 - k]
  {
    if k > 0 { ReverseAt(s[..|s| - 1], k - 1); }
  }

  lemma ReverseTwice<T>(s: seq<T>)
    ensures Reverse(Reverse(s)) == s
  {
    forall k | 0 <= k < |s| ensures Reverse(Reverse(s))[k] == s[k] {
      ReverseAt(Reverse(s), k);
      ReverseAt(s, |s| - 1 - k);
    }
  }

  lemma {:induction false} ReverseKeepsElements<T>(s: seq<T>)
    ensures multiset(Reverse(s)) == multiset(s)
  {
    if s != [] {
      assert s == s[..|s| - 1] + [s[|s| - 1]];
      ReverseKeepsElements(s[..|s| - 1]);
    }
  }

  function Reversed(es: Envelopes): Envelopes { map jid | jid in es :: Reverse(es[jid]) }

  lemma EnvelopeRoundTrip(e: Envelope)
    ensures ReadEnvelope(WriteEnvelope(e)) == e
  {
    hide Number, ParseInteger;
    NumberRoundTrip(e.recipientDeviceId);
  }

  lemma BareJidOfBare(jid: string)
    ensures Lacks(BareJid(jid), '/') && BareJid(BareJid(jid)) == BareJid(jid)
    ensures Lacks(jid, '/') ==> BareJid(jid) == jid
  {}

  /** A full JID gives exactly what precedes its first slash. */
  lemma BareJidOfFull(bare: string, resource: string)
    requires Lacks(bare, '/')
    ensures BareJid(bare + "/" + resource) == bare
  {
    IndexOfPrefix(bare, '/', resource);
    assert bare + "/" + resource == bare + ['/'] + resource;
  }

  /** An envelope added for any device of a user is found under the bare JID, and no other search changes. */
  lemma AddedForFullJid(es: Envelopes, bare: string, resource: string, e: Envelope, jid: string, deviceId: UInt32)
    requires Lacks(bare, '/')
    ensures Search(Insert(es, BareJid(bare + "/" + resource), e), jid, deviceId)
            == if jid == bare && deviceId == e.recipientDeviceId then Some(e) else Search(es, jid, deviceId)
  {
    BareJidOfFull(bare, resource);
    if jid == bare { assert ([e] + EnvelopesOf(es, jid))[1..] == EnvelopesOf(es, jid); }
  }

  /** Only two spellings mark an envelope for key exchange; its device is the number in the text, or 0. */
  lemma EnvelopeIsRead(k: KeyEl)
    ensures ReadEnvelope(k).usedForKeyExchange <==> k.kex in {"true", "1"}
    ensures ReadEnvelope(k).recipientDeviceId
            == match ParseInteger(k.rid) case Some(n) => (if 0 <= n < 0x1_0000_0000 then n else 0) case None => 0
    ensures ReadEnvelope(k).data == k.data
  {}

  /** Key exchange is written only where it is used. */
  lemma EnvelopeIsWritten(e: Envelope)
    ensures WriteEnvelope(e).kex == (if e.usedForKeyExchange then "true" else "")
    ensures ParseInteger(WriteEnvelope(e).rid) == Some(e.recipientDeviceId) && WriteEnvelope(e).data == e.data
  {
    hide ParseInteger, Number;
    NumberRoundTrip(e.recipientDeviceId);
  }

  lemma {:induction false} KeysAreReadReversed(es: Envelopes, jid: string, s: seq<Envelope>)
    requires Lacks(jid, '/') && s != []
    ensures ReadKeys(es, jid, WriteEnvelopes(s)) == es[jid := Reverse(s) + EnvelopesOf(es, jid)]
  {
    hide WriteEnvelope, ReadEnvelope, BareJid;
    var n := |s| - 1;
    assert WriteEnvelopes(s)[..n] == WriteEnvelopes(s[..n]);
    EnvelopeRoundTrip(s[n]);
    BareJidOfBare(jid);
    if n > 0 {
      KeysAreReadReversed(es, jid, s[..n]);
      assert [s[n]] + (Reverse(s[..n]) + EnvelopesOf(es, jid)) == Reverse(s) + EnvelopesOf(es, jid);
    } else {
      assert WriteEnvelopes(s[..n]) == [] && Reverse(s) == [s[n]];
    }
  }

  /** r holds what into held, with the envelopes of the given recipients, in reverse, put before it. */
  ghost predicate HoldsReversed(r: Envelopes, into: Envelopes, es: Envelopes, jids: seq<string>)
    requires forall jid :: jid in jids ==> jid in es
  {
    && (forall jid :: jid in r <==> jid in into || jid in jids)
    && (forall jid :: jid in r ==> r[jid] == (if jid in jids then Reverse(es[jid]) else []) + EnvelopesOf(into, jid))
  }

  lemma HoldsReversedStep(r: Envelopes, into: Envelopes, es: Envelopes, jids: seq<string>, last: string)
    requires (forall jid :: jid in jids ==> jid in es) && last in es && last !in jids && HoldsReversed(r, into, es, jids)
    ensures HoldsReversed(r[last := Reverse(es[last]) + EnvelopesOf(r, last)], into, es, jids + [last])
  {
    hide Reverse;
    assert [] + EnvelopesOf(into, last) == EnvelopesOf(into, last);
  }

  lemma FrontOfWritten(es: Envelopes, front: seq<string>, last: string)
    requires (forall jid :: jid in front ==> jid in es) && last in es
    ensures forall jid :: jid in front + [last] ==> jid in es
    ensures WriteRecipients(es, front + [last])
            == WriteRecipients(es, front) + [KeysEl(last, WriteEnvelopes(es[last]))]
  {
    hide WriteEnvelopes;
  }

  lemma {:induction false} RecipientsAreReadReversed(into: Envelopes, es: Envelopes, jids: seq<string>)
    requires Valid(es) && Distinct(jids) && forall jid :: jid in jids ==> jid in es
    ensures HoldsReversed(ReadRecipients(into, WriteRecipients(es, jids)), into, es, jids)
  {
    if jids == [] {
      assert WriteRecipients(es, jids) == [];
    } else {
      hide Reverse, WriteEnvelopes, ReadKeys, HoldsReversed, WriteRecipients, ReadRecipients;
      var n := |jids| - 1;
      var last, front := jids[n], jids[..n];
      assert jids == front + [last] && last in jids && last !in front;
      RecipientsAreReadReversed(into, es, front);
      FrontOfWritten(es, front, last);
      var els, r := WriteRecipients(es, front), ReadRecipients(into, WriteRecipients(es, front));
      KeysAreReadReversed(r, last, es[last]);
      HoldsReversedStep(r, into, es, front, last);
    }
  }

  lemma UIntRoundTrip(n: UInt32)
    ensures UIntOrZero(Number(n)) == n
  {
    hide Number, ParseInteger;
    NumberRoundTrip(n);
  }

  /** Writing an element and reading it into a fresh one keeps everything and reverses each recipient's envelopes. */
  lemma ElementRoundTrip(xml: OmemoXml, senderDeviceId: UInt32, es: Envelopes, payload: string)
    requires Valid(es) && IsWritten(xml, senderDeviceId, es, payload)
    ensures UIntOrZero(xml.sid) == senderDeviceId && xml.payload == payload
    ensures ReadRecipients(map[], xml.recipients) == Reversed(es) && Valid(Reversed(es))
    ensures forall jid :: multiset(EnvelopesOf(Reversed(es), jid)) == multiset(EnvelopesOf(es, jid))
  {
    hide Number, UIntOrZero, ReadRecipients, Reverse, Distinct, Sorted, WriteRecipients;
    UIntRoundTrip(senderDeviceId);
    var jids :| IsUniqueKeys(es, jids) && xml.recipients == WriteRecipients(es, jids);
    RecipientsAreReadReversed(map[], es, jids);
    RestoredIsReversed(ReadRecipients(map[], xml.recipients), es, jids);
    forall jid ensures multiset(EnvelopesOf(Reversed(es), jid)) == multiset(EnvelopesOf(es, jid)) {
      if jid in es { ReverseKeepsElements(es[jid]); }
    }
  }

  lemma RestoredIsReversed(r: Envelopes, es: Envelopes, jids: seq<string>)
    requires Valid(es) && (forall jid :: jid in jids <==> jid in es) && HoldsReversed(r, map[], es, jids)
    ensures r == Reversed(es) && Valid(r)
  {
    hide Reverse;
    forall jid | jid in es ensures jid in r && r[jid] == Reverse(es[jid]) {
      assert jid in jids;
    }
    assert r.Keys == es.Keys;
    forall jid | jid in r ensures r[jid] != [] { assert es[jid] != []; }
  }

  lemma TwoRoundTripsAreIdentity(first: OmemoXml, second: OmemoXml, senderDeviceId: UInt32, es: Envelopes, payload: string)
    requires Valid(es) && IsWritten(first, senderDeviceId, es, payload)
    requires IsWritten(second, senderDeviceId, ReadRecipients(map[], first.recipients), payload)
    ensures ReadRecipients(map[], second.recipients) == es
  {
    hide ReadRecipients, Reverse, IsWritten;
    ElementRoundTrip(first, senderDeviceId, es, payload);
    ElementRoundTrip(second, senderDeviceId, Reversed(es), payload);
    forall jid | jid in es ensures Reversed(Reversed(es))[jid] == es[jid] { ReverseTwice(es[jid]); }
  }

  // ----------------------------------------------------------------------- searching

  function LastWith(s: seq<Envelope>, deviceId: UInt32): Option<Envelope> {
    if s == [] then None
    else if s[|s| - 1].recipientDeviceId == deviceId then Some(s[|s| - 1])
    else LastWith(s[..|s| - 1], deviceId)
  }

  lemma {:induction false} FirstOfReversed(s: seq<Envelope>, deviceId: UInt32)
    ensures FirstWith(Reverse(s), deviceId) == LastWith(s, deviceId)
  {
    if s != [] {
      FirstOfReversed(s[..|s| - 1], deviceId);
      assert Reverse(s)[1..] == Reverse(s[..|s| - 1]);
    }
  }

  /** A search gives the same answer after a round trip exactly when the first and the last envelope for the
      device are equal. */
  lemma SearchSurvivesIff(es: Envelopes, jid: string, deviceId: UInt32)
    ensures Search(Reversed(es), jid, deviceId) == Search(es, jid, deviceId)
            <==> FirstWith(EnvelopesOf(es, jid), deviceId) == LastWith(EnvelopesOf(es, jid), deviceId)
  {
    FirstOfReversed(EnvelopesOf(es, jid), deviceId);
  }

  lemma {:induction false} FirstWithIs(s: seq<Envelope>, k: nat)
    requires k < |s| && forall i :: 0 <= i < k ==> s[i].recipientDeviceId != s[k].recipientDeviceId
    ensures FirstWith(s, s[k].recipientDeviceId) == Some(s[k])
  {
    if k > 0 { FirstWithIs(s[1..], k - 1); }
  }

  lemma {:induction false} LastWithIs(s: seq<Envelope>, k: nat)
    requires k < |s| && forall i :: k < i < |s| ==> s[i].recipientDeviceId != s[k].recipientDeviceId
    ensures LastWith(s, s[k].recipientDeviceId) == Some(s[k])
  {
    if k < |s| - 1 { LastWithIs(s[..|s| - 1], k); }
  }

  lemma {:induction false} NothingWith(s: seq<Envelope>, deviceId: UInt32)
    requires forall i :: 0 <= i < |s| ==> s[i].recipientDeviceId != deviceId
    ensures FirstWith(s, deviceId) == LastWith(s, deviceId) == None
  {
    NoFirst(s, deviceId);
    if s != [] { NothingWith(s[..|s| - 1], deviceId); }
  }

  lemma {:induction false} NoFirst(s: seq<Envelope>, deviceId: UInt32)
    requires forall i :: 0 <= i < |s| ==> s[i].recipientDeviceId != deviceId
    ensures FirstWith(s, deviceId) == None
  {
    if s != [] { NoFirst(s[1..], deviceId); }
  }

  ghost predicate UniqueDevices(s: seq<Envelope>) {
    forall i, j :: 0 <= i < j < |s| ==> s[i].recipientDeviceId != s[j].recipientDeviceId
  }

  /** With at most one envelope per recipient and device, a round trip changes no search. */
  lemma UniqueDevicesSurvive(es: Envelopes, jid: string, deviceId: UInt32)
    requires UniqueDevices(EnvelopesOf(es, jid))
    ensures Search(Reversed(es), jid, deviceId) == Search(es, jid, deviceId)
  {
    var s := EnvelopesOf(es, jid);
    SearchSurvivesIff(es, jid, deviceId);
    if k :| 0 <= k < |s| && s[k].recipientDeviceId == deviceId {
      FirstWithIs(s, k);
      LastWithIs(s, k);
    } else {
      NothingWith(s, deviceId);
    }
  }

  /** Adding a second, different envelope for a device makes the answer depend on the round trip. */
  lemma SecondEnvelopeIsLost(es: Envelopes, jid: string, e: Envelope, added: Envelope)
    requires jid in es && es[jid] == [e] && e != added && e.recipientDeviceId == added.recipientDeviceId
    ensures Search(Insert(es, jid, added), jid, e.recipientDeviceId) == Some(added)
    ensures Search(Reversed(Insert(es, jid, added)), jid, e.recipientDeviceId) == Some(e)
  {
    var s := [added] + [e];
    assert EnvelopesOf(Insert(es, jid, added), jid) == s;
    FirstOfReversed(s, e.recipientDeviceId);
    LastWithIs(s, 1);
    FirstWithIs(s, 0);
  }
}
