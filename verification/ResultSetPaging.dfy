// A client that pages through a message archive with result sets (XEP-0059, sections 2.2 and 2.3).

module ResultSetPaging {
  import opened Wrappers
  import opened Sorting

  // ------------------------------------------------------------------------ protocol

  datatype Query = Query(max: int, after: Option<string>, before: Option<string>)

  datatype Reply = Reply(first: Option<string>, last: Option<string>, count: int, index: int)

  predicate ReplyIsNull(r: Reply) { r.count == -1 && r.index == -1 && r.first == None && r.last == None }

  datatype Answer = Answer(chats: seq<string>, reply: Reply)

  /** The position of an item, or the length of the archive. */
  function Position(archive: seq<string>, uid: string): nat {
    if archive == [] || archive[0] == uid then 0 else 1 + Position(archive[1..], uid)
  }

  function Min(a: int, b: int): int { if a < b then a else b }

  function Max(a: int, b: int): int { if a > b then a else b }

  /** The items a query selects: those after one item, those just before one, the last ones, or the first ones. */
  function Selected(archive: seq<string>, q: Query): seq<string> {
    var n := |archive|;
    var limit := if q.max < 0 then n else q.max;
    match q.before
    case Some(uid) =>
      var end := if uid == "" then n else Min(n, Position(archive, uid));
      archive[Max(0, end - limit)..end]
    case None =>
      var start := match q.after case Some(uid) => Min(n, Position(archive, uid) + 1) case None => 0;
      archive[start..Min(n, start + limit)]
  }

  datatype Server = Server(archive: seq<string>, reportsCount: bool, reportsIndex: bool)

  function Serve(server: Server, q: Query): Answer {
    var page := Selected(server.archive, q);
    Answer(page, Reply(if page == [] then None else Some(page[0]), if page == [] then None else Some(page[|page| - 1]),
                       if server.reportsCount then |server.archive| else -1,
                       if server.reportsIndex && page != [] then Position(server.archive, page[0]) else -1))
  }

  /** What XEP-0059 asks of identifiers: unique, and not empty, since an empty one asks for the last page. */
  ghost predicate ValidServer(server: Server) { Distinct(server.archive) && "" !in server.archive }

  // -------------------------------------------------------------------------- client

  datatype Direction = PageForwards | PageBackwards

  datatype Client = Client(collectionCount: int, direction: Direction, pageSize: int, seen: seq<string>)

  function FirstPage(c: Client): Query { Query(c.pageSize, None, if c.direction == PageBackwards then Some("") else None) }

  /** One handled answer: the next state, and the next request if the client goes on. */
  function Handle(c: Client, a: Answer): (Client, Option<Query>) {
    if c.collectionCount < 0 then (c.(collectionCount := a.reply.count), Some(FirstPage(c)))
    else if a.chats == [] then (c, None)
    else
      (c.(seen := c.seen + a.chats),
       if ReplyIsNull(a.reply) then None
       else if c.direction == PageBackwards then Some(Query(c.pageSize, None, a.reply.first))
       else Some(Query(c.pageSize, a.reply.last, None)))
  }

  class XmppClient {
    var collectionCount: int
    var pageDirection: Direction
    var pageSize: int
    var seen: seq<string>

    ghost function State(): Client reads this { Client(collectionCount, pageDirection, pageSize, seen) }

    constructor ()
      ensures State() == Client(-1, PageForwards, 10, [])
    {
      collectionCount, pageDirection, pageSize, seen := -1, PageForwards, 10, [];
    }

    /** Asks for no items: whatever the archive, the answer carries nothing but its count. */
    method ClientConnected() returns (request: Query)
      ensures Some(request) == Connect(pageDirection, pageSize).pending
      ensures forall server :: Serve(server, request) == Answer([], Reply(None, None, if server.reportsCount then |server.archive| else -1, -1))
    {
      request := Query(0, None, None);
    }

    method ArchiveListReceived(chats: seq<string>, reply: Reply) returns (request: Option<Query>)
      modifies this
      ensures (State(), request) == Handle(old(State()), Answer(chats, reply))
      ensures request == None <==> old(collectionCount) >= 0 && (chats == [] || reply == Reply(None, None, -1, -1))
      ensures old(collectionCount) < 0 ==> collectionCount == reply.count && seen == old(seen)
      ensures old(collectionCount) >= 0 ==> collectionCount == old(collectionCount) && seen == old(seen) + chats
    {
      request := None;
      if collectionCount < 0 {
        collectionCount := reply.count;
        var rsmQuery := Query(pageSize, None, None);
        if pageDirection == PageBackwards {
          rsmQuery := rsmQuery.(before := Some(""));
        }
        request := Some(rsmQuery);
      } else if |chats| != 0 {
        for k := 0 to |chats|
          invariant State() == old(State()).(seen := old(seen) + chats[..k])
        {
          seen := seen + [chats[k]];
        }
        assert chats[..|chats|] == chats;
        if !ReplyIsNull(reply) {
          var rsmQuery := Query(pageSize, None, None);
          if pageDirection == PageBackwards {
            rsmQuery := rsmQuery.(before := reply.first);
          } else {
            rsmQuery := rsmQuery.(after := reply.last);
          }
          request := Some(rsmQuery);
        }
      }
    }
  }

  // ---------------------------------------------------------------------------- runs

  datatype Session = Session(client: Client, pending: Option<Query>, requests: nat)

  function Connect(direction: Direction, pageSize: int): Session {
    Session(Client(-1, direction, pageSize, []), Some(Query(0, None, None)), 1)
  }

  /** The server answers the pending request and the client handles the answer. */
  function Exchange(server: Server, s: Session): Session {
    match s.pending
    case None => s
    case Some(q) =>
      var (client, next) := Handle(s.client, Serve(server, q));
      Session(client, next, s.requests + if next.Some? then 1 else 0)
  }

  function Exchanges(server: Server, s: Session, k: nat): Session
    decreases k
  {
    if k == 0 then s else Exchanges(server, Exchange(server, s), k - 1)
  }

  predicate Finished(s: Session) { s.pending == None }

  /** Page by page from the end, each page in archive order. */
  function PagesFromEnd(archive: seq<string>, size: nat): seq<string>
    requires size > 0
  {
    if |archive| <= size then archive
    else archive[|archive| - size..] + PagesFromEnd(archive[..|archive| - size], size)
  }

  function Visited(archive: seq<string>, direction: Direction, size: nat): seq<string>
    requires size > 0
  {
    if direction == PageForwards then archive else PagesFromEnd(archive, size)
  }

  /** n divided by size, rounded up. */
  function PagesOf(n: nat, size: nat): (k: nat)
    requires size > 0
    ensures n <= k * size < n + size
  {
    if n == 0 then 0 else 1 + PagesOf(Max(0, n - size), size)
  }

  lemma {:induction false} PositionOfItem(archive: seq<string>, k: nat)
    requires Distinct(archive) && k < |archive|
    ensures Position(archive, archive[k]) == k
  {
    if k > 0 { PositionOfItem(archive[1..], k - 1); }
  }

  lemma ServeAfter(server: Server, size: nat, done: nat)
    requires ValidServer(server) && 0 < done <= |server.archive| && size > 0
    ensures Selected(server.archive, Query(size, Some(server.archive[done - 1]), None))
            == server.archive[done..Min(|server.archive|, done + size)]
  {
    PositionOfItem(server.archive, done - 1);
  }

  lemma ServeBefore(server: Server, size: nat, left: nat)
    requires ValidServer(server) && left < |server.archive| && size > 0
    ensures Selected(server.archive, Query(size, None, Some(server.archive[left]))) == server.archive[Max(0, left - size)..left]
  {
    PositionOfItem(server.archive, left);
    assert server.archive[left] in server.archive;
  }

  function Started(server: Server, direction: Direction, size: nat, seen: seq<string>): Client {
    Client(|server.archive|, direction, size, seen)
  }

  lemma ForwardsStep(server: Server, size: nat, done: nat, q: Query, requests: nat)
    requires server.reportsCount && size > 0 && done <= |server.archive|
    requires Selected(server.archive, q) == server.archive[done..Min(|server.archive|, done + size)]
    ensures var upTo := Min(|server.archive|, done + size);
            Exchange(server, Session(Started(server, PageForwards, size, server.archive[..done]), Some(q), requests))
            == if done == |server.archive| then Session(Started(server, PageForwards, size, server.archive), None, requests)
               else Session(Started(server, PageForwards, size, server.archive[..upTo]),
                            Some(Query(size, Some(server.archive[upTo - 1]), None)), requests + 1)
  {
    hide Selected;
    var upTo := Min(|server.archive|, done + size);
    if done == |server.archive| {
      assert server.archive[..done] == server.archive;
    } else {
      assert server.archive[..done] + server.archive[done..upTo] == server.archive[..upTo];
    }
  }

  /** Once paging forwards has seen a prefix of the archive, it sees the rest and stops. */
  lemma {:induction false} ForwardsFrom(server: Server, size: nat, done: nat, q: Query, requests: nat)
    requires ValidServer(server) && server.reportsCount && size > 0 && done <= |server.archive|
    requires Selected(server.archive, q) == server.archive[done..Min(|server.archive|, done + size)]
    ensures var k := PagesOf(|server.archive| - done, size) + 1;
            Exchanges(server, Session(Started(server, PageForwards, size, server.archive[..done]), Some(q), requests), k)
            == Session(Started(server, PageForwards, size, server.archive), None, requests + k - 1)
    decreases |server.archive| - done
  {
    hide Selected, Exchange, ValidServer;
    ForwardsStep(server, size, done, q, requests);
    var s := Session(Started(server, PageForwards, size, server.archive[..done]), Some(q), requests);
    var k := PagesOf(|server.archive| - done, size) + 1;
    assert Exchanges(server, s, k) == Exchanges(server, Exchange(server, s), k - 1);
    if done < |server.archive| {
      var upTo := Min(|server.archive|, done + size);
      var next := Query(size, Some(server.archive[upTo - 1]), None);
      ServeAfter(server, size, upTo);
      ForwardsFrom(server, size, upTo, next, requests + 1);
    }
  }

  lemma PagesFromEndStep(archive: seq<string>, left: nat, size: nat)
    requires 0 < left <= |archive| && size > 0
    ensures PagesFromEnd(archive[..left], size)
            == archive[Max(0, left - size)..left] + PagesFromEnd(archive[..Max(0, left - size)], size)
  {
    var from := Max(0, left - size);
    if left > size {
      assert archive[..left][left - size..] == archive[from..left];
      assert archive[..left][..left - size] == archive[..from];
    }
  }

  lemma BackwardsStep(server: Server, size: nat, left: nat, q: Query, seen: seq<string>, requests: nat)
    requires server.reportsCount && size > 0 && left <= |server.archive|
    requires Selected(server.archive, q) == server.archive[Max(0, left - size)..left]
    ensures var from := Max(0, left - size);
            Exchange(server, Session(Started(server, PageBackwards, size, seen), Some(q), requests))
            == if left == 0 then Session(Started(server, PageBackwards, size, seen), None, requests)
               else Session(Started(server, PageBackwards, size, seen + server.archive[from..left]),
                            Some(Query(size, None, Some(server.archive[from]))), requests + 1)
  {
    hide Selected;
  }

  /** Once paging backwards has seen all but a prefix of the archive, it sees that prefix and stops. */
  lemma {:induction false} BackwardsFrom(server: Server, size: nat, left: nat, q: Query, seen: seq<string>, requests: nat)
    requires ValidServer(server) && server.reportsCount && size > 0 && left <= |server.archive|
    requires Selected(server.archive, q) == server.archive[Max(0, left - size)..left]
    ensures var k := PagesOf(left, size) + 1;
            Exchanges(server, Session(Started(server, PageBackwards, size, seen), Some(q), requests), k)
            == Session(Started(server, PageBackwards, size, seen + PagesFromEnd(server.archive[..left], size)), None, requests + k - 1)
    decreases left
  {
    hide Selected, Exchange, ValidServer;
    BackwardsStep(server, size, left, q, seen, requests);
    var s := Session(Started(server, PageBackwards, size, seen), Some(q), requests);
    var k := PagesOf(left, size) + 1;
    assert Exchanges(server, s, k) == Exchanges(server, Exchange(server, s), k - 1);
    if left == 0 {
      assert seen + PagesFromEnd(server.archive[..left], size) == seen;
    } else {
      var from := Max(0, left - size);
      var page, next := server.archive[from..left], Query(size, None, Some(server.archive[from]));
      PagesFromEndStep(server.archive, left, size);
      ServeBefore(server, size, from);
      BackwardsFrom(server, size, from, next, seen + page, requests + 1);
      var rest := PagesFromEnd(server.archive[..from], size);
      assert seen + page + rest == seen + (page + rest);
    }
  }

  /** The first answer carries the count; the first page is requested next. */
  lemma CountIsFetched(server: Server, direction: Direction, size: nat)
    requires server.reportsCount && size > 0
    ensures var c := Started(server, direction, size, []);
            && Exchange(server, Connect(direction, size)) == Session(c, Some(FirstPage(c)), 2)
            && Selected(server.archive, FirstPage(c))
               == if direction == PageForwards then server.archive[0..Min(|server.archive|, size)]
                  else server.archive[Max(0, |server.archive| - size)..|server.archive|]
  {}

  /** Against a server that reports its count, paging sees the whole archive and stops after ceil(n / p) + 2 requests. */
  lemma PagingVisitsTheArchive(server: Server, direction: Direction, size: nat)
    requires ValidServer(server) && server.reportsCount && size > 0
    ensures var k := PagesOf(|server.archive|, size) + 2;
            Exchanges(server, Connect(direction, size), k)
            == Session(Started(server, direction, size, Visited(server.archive, direction, size)), None, k)
  {
    hide ValidServer, Selected, Exchange;
    var n := |server.archive|;
    var start := Started(server, direction, size, []);
    var q := FirstPage(start);
    CountIsFetched(server, direction, size);
    assert Exchanges(server, Connect(direction, size), PagesOf(n, size) + 2)
        == Exchanges(server, Session(start, Some(q), 2), PagesOf(n, size) + 1);
    hide Exchanges;
    if direction == PageForwards {
      assert server.archive[..0] == [];
      ForwardsFrom(server, size, 0, q, 2);
    } else {
      assert server.archive[..n] == server.archive;
      BackwardsFrom(server, size, n, q, [], 2);
      assert [] + PagesFromEnd(server.archive, size) == PagesFromEnd(server.archive, size);
    }
  }

  lemma ExchangeCountsRequests(server: Server, s: Session)
    ensures Finished(s) ==> Exchange(server, s) == s
    ensures !Finished(s) ==> Exchange(server, s).requests == s.requests + if Finished(Exchange(server, s)) then 0 else 1
  {
    hide Handle, Serve;
  }

  /** The request count stands still once the client has stopped and grows with every exchange before that, so
      the number in PagingVisitsTheArchive is exact and the session stays as it is. */
  lemma {:induction false} RequestsCountExchanges(server: Server, s: Session, k: nat)
    ensures s.requests <= Exchanges(server, s, k).requests <= s.requests + k
    ensures !Finished(Exchanges(server, s, k)) ==> Exchanges(server, s, k).requests == s.requests + k
    ensures !Finished(s) && Finished(Exchanges(server, s, k)) ==> Exchanges(server, s, k).requests < s.requests + k
    ensures Finished(s) ==> Exchanges(server, s, k) == s
    decreases k
  {
    hide Exchange;
    ExchangeCountsRequests(server, s);
    if k > 0 { RequestsCountExchanges(server, Exchange(server, s), k - 1); }
  }

  lemma {:induction false} ExchangesAdd(server: Server, s: Session, j: nat, k: nat)
    ensures Exchanges(server, s, j + k) == Exchanges(server, Exchanges(server, s, j), k)
    decreases j
  {
    if j > 0 { ExchangesAdd(server, Exchange(server, s), j - 1, k); }
  }

  /** Exactly ceil(n / p) + 2 answers are handled: before that a request is pending, from then on none is. */
  lemma PagingStopsExactly(server: Server, direction: Direction, size: nat, j: nat)
    requires ValidServer(server) && server.reportsCount && size > 0
    ensures Finished(Exchanges(server, Connect(direction, size), j)) <==> j >= PagesOf(|server.archive|, size) + 2
  {
    hide Exchanges, Exchange, ValidServer, Visited;
    var k := PagesOf(|server.archive|, size) + 2;
    var s := Connect(direction, size);
    PagingVisitsTheArchive(server, direction, size);
    if j >= k {
      ExchangesAdd(server, s, k, j - k);
      RequestsCountExchanges(server, Exchanges(server, s, k), j - k);
    } else {
      ExchangesAdd(server, s, j, k - j);
      RequestsCountExchanges(server, s, j);
      RequestsCountExchanges(server, Exchanges(server, s, j), k - j);
    }
  }

  lemma {:induction false} PagesKeepItems(archive: seq<string>, size: nat)
    requires size > 0
    ensures multiset(PagesFromEnd(archive, size)) == multiset(archive)
  {
    if |archive| > size {
      var cut := |archive| - size;
      PagesKeepItems(archive[..cut], size);
      assert archive == archive[..cut] + archive[cut..];
    }
  }

  /** Every item is seen exactly once, in either direction. */
  lemma EveryItemIsSeenOnce(server: Server, direction: Direction, size: nat)
    requires ValidServer(server) && server.reportsCount && size > 0
    ensures var seen := Exchanges(server, Connect(direction, size), PagesOf(|server.archive|, size) + 2).client.seen;
            multiset(seen) == multiset(server.archive) && Distinct(seen)
  {
    PagingVisitsTheArchive(server, direction, size);
    PagesKeepItems(server.archive, size);
    DistinctPermuted(server.archive, Visited(server.archive, direction, size));
  }

  /** A server may leave out its count; then the client asks for the first page again and again and sees nothing. */
  lemma {:induction false} WithoutCountNothingIsSeen(server: Server, direction: Direction, size: nat, k: nat)
    requires !server.reportsCount
    ensures var s := Exchanges(server, Connect(direction, size), k);
            s.client == Client(-1, direction, size, []) && s.pending.Some?
            && (k > 0 ==> s.pending == Some(FirstPage(s.client)))
  {
    if k > 0 {
      WithoutCountNothingIsSeen(server, direction, size, k - 1);
      ExchangesAdd(server, Connect(direction, size), k - 1, 1);
    }
  }

  /** So paging comes to an end exactly against servers that report their count. */
  lemma PagingEndsIff(server: Server, direction: Direction, size: nat)
    requires ValidServer(server) && size > 0
    ensures (exists k :: Finished(Exchanges(server, Connect(direction, size), k))) <==> server.reportsCount
  {
    if server.reportsCount {
      PagingStopsExactly(server, direction, size, PagesOf(|server.archive|, size) + 2);
    } else {
      forall k ensures !Finished(Exchanges(server, Connect(direction, size), k)) {
        WithoutCountNothingIsSeen(server, direction, size, k);
      }
    }
  }

  /** A connected client and a server exchange requests and answers until the client stops. */
  method RunSession(client: XmppClient, server: Server) returns (requests: nat)
    requires client.collectionCount == -1 && client.seen == [] && client.pageSize > 0
    requires ValidServer(server) && server.reportsCount
    modifies client
    ensures client.seen == Visited(server.archive, old(client.pageDirection), old(client.pageSize))
    ensures requests == PagesOf(|server.archive|, old(client.pageSize)) + 2
  {
    ghost var direction, size, start := client.pageDirection, client.pageSize, Connect(client.pageDirection, client.pageSize);
    ghost var last := PagesOf(|server.archive|, size) + 2;
    var request := client.ClientConnected();
    var pending := Some(request);
    requests := 1;
    ghost var k := 0;
    while pending.Some?
      invariant k <= last && Session(client.State(), pending, requests) == Exchanges(server, start, k)
      decreases last - k
    {
      PagingStopsExactly(server, direction, size, k);
      ExchangesAdd(server, start, k, 1);
      var answer := Serve(server, pending.value);
      pending := client.ArchiveListReceived(answer.chats, answer.reply);
      requests := requests + if pending.Some? then 1 else 0;
      k := k + 1;
    }
    PagingStopsExactly(server, direction, size, k);
    PagingVisitsTheArchive(server, direction, size);
  }
}
