/** Message attachments: the request's ids, the link rows, and the two ways of reading them back. */
module Attachments {
  import opened Ordering

  /** A row of chat_message_attachments; (message, attachment) is its primary key. */
  datatype Link = Link(message: int, attachment: int, position: int)

  const MAX_ATTACHMENTS := 8

  /** The positive ids of a request, each once, in order of first occurrence. */
  function Distinct(ids: seq<int>): seq<int> {
    if ids == [] then [] else
      var before, last := Distinct(ids[..|ids| - 1]), ids[|ids| - 1];
      if last > 0 && last !in before then before + [last] else before
  }

  /** ORDER BY message_id, position, attachment id. */
  function ReadOrder(): Link -> Key { (l: Link) => Key(l.message, l.position, l.attachment) }

  /** Inner join with media_attachments, restricted to the given messages. */
  function Wanted(media: map<int, int>, messages: set<int>): Link -> bool {
    (l: Link) => l.message in messages && l.attachment in media
  }

  function Rows(links: seq<Link>, media: map<int, int>, messages: set<int>): seq<Link> {
    SortBy(ReadOrder(), Filter(Wanted(media, messages), links))
  }

  function AttachmentIds(rows: seq<Link>): seq<int> {
    seq(|rows|, i requires 0 <= i < |rows| => rows[i].attachment)
  }

  /** What reading one message alone shows: its attachments in order. */
  function Read(links: seq<Link>, media: map<int, int>, message: int): seq<int> {
    AttachmentIds(Rows(links, media, {message}))
  }

  function OfMessage(message: int): Link -> bool { (l: Link) => l.message == message }

  /** The batched read: one query for many messages, then the rows are dealt out by message. */
  method ListForMessages(links: seq<Link>, media: map<int, int>, messages: seq<int>)
      returns (grouped: map<int, seq<int>>)
    requires PrimaryKey(links)
    ensures forall m :: m in grouped <==> m in messages && Read(links, media, m) != []
    ensures forall m :: m in grouped ==> grouped[m] == Read(links, media, m)
  {
    var rows := Rows(links, media, set m | m in messages);
    grouped := map[];
    for i := 0 to |rows|
      invariant forall m :: m in grouped <==> Filter(OfMessage(m), rows[..i]) != []
      invariant forall m :: m in grouped ==> grouped[m] == AttachmentIds(Filter(OfMessage(m), rows[..i]))
    {
      var row := rows[i];
      forall m
        ensures Filter(OfMessage(m), rows[..i + 1])
             == Filter(OfMessage(m), rows[..i]) + if row.message == m then [row] else []
        ensures AttachmentIds(Filter(OfMessage(m), rows[..i + 1]))
             == AttachmentIds(Filter(OfMessage(m), rows[..i])) + if row.message == m then [row.attachment] else []
      {
        NextDealt(rows, i, m);
      }
      var before := if row.message in grouped then grouped[row.message] else [];
      grouped := grouped[row.message := before + [row.attachment]];
    }
    assert rows[..|rows|] == rows;
    forall m ensures Filter(OfMessage(m), rows) == if m in messages then Rows(links, media, {m}) else [] {
      BatchShare(links, media, (set k | k in messages), m);
    }
  }

  lemma NextDealt(rows: seq<Link>, i: nat, m: int)
    requires i < |rows|
    ensures Filter(OfMessage(m), rows[..i + 1])
         == Filter(OfMessage(m), rows[..i]) + if rows[i].message == m then [rows[i]] else []
    ensures AttachmentIds(Filter(OfMessage(m), rows[..i + 1]))
         == AttachmentIds(Filter(OfMessage(m), rows[..i])) + if rows[i].message == m then [rows[i].attachment] else []
  {
    assert rows[..i + 1] == rows[..i] + [rows[i]];
    FilterConcat(OfMessage(m), rows[..i], [rows[i]]);
  }

  ghost predicate PrimaryKey(links: seq<Link>) {
    forall i, j :: 0 <= i < j < |links|
      ==> links[i].message != links[j].message || links[i].attachment != links[j].attachment
  }

  lemma RowsListed(links: seq<Link>, media: map<int, int>, messages: set<int>)
    requires PrimaryKey(links)
    ensures Ordered(ReadOrder(), Rows(links, media, messages))
    ensures forall l ::
              l in Rows(links, media, messages) <==> l in links && l.message in messages && l.attachment in media
  {
    QueryOrders(ReadOrder(), Wanted(media, messages), links);
  }

  /** Batching is invisible: a message's share of the batched rows is what its own query returns. */
  lemma BatchShare(links: seq<Link>, media: map<int, int>, messages: set<int>, m: int)
    requires PrimaryKey(links)
    ensures Filter(OfMessage(m), Rows(links, media, messages)) == if m in messages then Rows(links, media, {m}) else []
  {
    var rows := Rows(links, media, messages);
    var share := Filter(OfMessage(m), rows);
    RowsListed(links, media, messages);
    RowsListed(links, media, {m});
    FilterOrdered(ReadOrder(), OfMessage(m), rows);
    FilterMembers(OfMessage(m), rows);
    OneOrder(ReadOrder(), share, if m in messages then Rows(links, media, {m}) else []);
  }

  /** Links written for a new message, in order of position. */
  function NewLinks(message: int, ids: seq<int>): seq<Link> {
    seq(|ids|, i requires 0 <= i < |ids| => Link(message, ids[i], i))
  }

  /** Round trip: once linked, a new message reads back exactly the requested attachments, in order. */
  lemma LinkedReadsBack(links: seq<Link>, media: map<int, int>, message: int, ids: seq<int>)
    requires PrimaryKey(links) && forall l :: l in links ==> l.message != message
    requires (forall i, j :: 0 <= i < j < |ids| ==> ids[i] != ids[j]) && forall i :: 0 <= i < |ids| ==> ids[i] in media
    ensures PrimaryKey(links + NewLinks(message, ids))
    ensures Read(links + NewLinks(message, ids), media, message) == ids
    ensures forall m :: m != message ==> Read(links + NewLinks(message, ids), media, m) == Read(links, media, m)
  {
    var all, added := links + NewLinks(message, ids), NewLinks(message, ids);
    forall i, j | 0 <= i < j < |all|
      ensures all[i].message != all[j].message || all[i].attachment != all[j].attachment
    {
      assert i < |links| ==> all[i] in links;
    }
    RowsListed(all, media, {message});
    forall l ensures l in Rows(all, media, {message}) <==> l in added {
      if l in added { var i :| 0 <= i < |added| && added[i] == l; assert all[|links| + i] == l; }
    }
    OneOrder(ReadOrder(), Rows(all, media, {message}), added);
    forall m | m != message ensures Rows(all, media, {m}) == Rows(links, media, {m}) {
      RowsListed(all, media, {m});
      RowsListed(links, media, {m});
      OneOrder(ReadOrder(), Rows(all, media, {m}), Rows(links, media, {m}));
    }
  }

  /** Where a value first occurs. */
  function FirstIndex(ids: seq<int>, x: int): nat {
    if ids == [] || ids[0] == x then 0 else 1 + FirstIndex(ids[1..], x)
  }

  lemma {:induction false} FirstIndexAppend(ids: seq<int>, last: int, x: int)
    ensures FirstIndex(ids + [last], x)
         == if x in ids then FirstIndex(ids, x) else if x == last then |ids| else |ids| + 1
    ensures x in ids ==> FirstIndex(ids, x) < |ids|
  {
    if ids != [] {
      assert (ids + [last])[1..] == ids[1..] + [last];
      FirstIndexAppend(ids[1..], last, x);
    }
  }

  /** Exactly the positive requested ids survive, each once, ordered by first occurrence. */
  lemma {:induction false} DistinctKeepsFirstOccurrences(ids: seq<int>)
    ensures forall x :: x in Distinct(ids) <==> x in ids && x > 0
    ensures forall i, j ::
              0 <= i < j < |Distinct(ids)| ==> FirstIndex(ids, Distinct(ids)[i]) < FirstIndex(ids, Distinct(ids)[j])
  {
    if ids != [] {
      var init, last := ids[..|ids| - 1], ids[|ids| - 1];
      DistinctKeepsFirstOccurrences(init);
      assert ids == init + [last];
      var before := Distinct(init);
      forall i | 0 <= i < |before| ensures FirstIndex(ids, before[i]) == FirstIndex(init, before[i]) < |init| {
        assert before[i] in before;
        FirstIndexAppend(init, last, before[i]);
      }
      FirstIndexAppend(init, last, last);
    }
  }
}
