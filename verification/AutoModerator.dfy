/** The auto-moderator: a scan reads at most a hundred messages beyond a cursor kept in memory and
    files a report for each offensive one that has none yet. The reports are committed at the end of
    the scan; the cursor moves as it goes, and starts over at 0 when the server restarts. */
module AutoModerator {
  import opened Ordering

  datatype Message = Message(id: int, chat: int, author: int, body: string)

  datatype Report = Report(message: int, chat: int, author: int, text: string)

  /** The two tables, the next message id, and the scanner's cursor. */
  datatype Desk = Desk(messages: seq<Message>, nextId: int, reports: seq<Report>, cursor: int)

  const BATCH := 100
  const REPORT_TEXT := 200

  function Beyond(cursor: int): Message -> bool { (m: Message) => m.id > cursor }

  function Waiting(d: Desk): seq<Message> { Filter(Beyond(d.cursor), d.messages) }

  function ReportFor(m: Message): Report { Report(m.id, m.chat, m.author, Take(m.body, REPORT_TEXT)) }

  predicate HasReport(reports: seq<Report>, id: int) { exists i :: 0 <= i < |reports| && reports[i].message == id }

  /** The reports after these rows have been looked at. */
  function Filed(flagged: string -> bool, reports: seq<Report>, rows: seq<Message>): seq<Report> {
    if rows == [] then reports else
      var before, m := Filed(flagged, reports, rows[..|rows| - 1]), rows[|rows| - 1];
      if flagged(m.body) && !HasReport(before, m.id) then before + [ReportFor(m)] else before
  }

  function Advanced(cursor: int, rows: seq<Message>): int {
    if rows == [] then cursor else
      var before, id := Advanced(cursor, rows[..|rows| - 1]), rows[|rows| - 1].id;
      if id > before then id else before
  }

  function Scanned(flagged: string -> bool, d: Desk): Desk {
    var rows := Take(Waiting(d), BATCH);
    d.(reports := Filed(flagged, d.reports, rows), cursor := Advanced(d.cursor, rows))
  }

  class AutoModerator {
    const flagged: string -> bool
    var messages: seq<Message>
    var nextId: int
    var reports: seq<Report>
    var lastId: int

    constructor (flagged: string -> bool, messages: seq<Message>, nextId: int, reports: seq<Report>)
      ensures this.flagged == flagged && View() == Desk(messages, nextId, reports, 0)
    {
      this.flagged, this.messages, this.nextId, this.reports := flagged, messages, nextId, reports;
      lastId := 0;
    }

    ghost function View(): Desk
      reads this
    {
      Desk(messages, nextId, reports, lastId)
    }

    method ScanNew()
      modifies this`reports, this`lastId
      ensures View() == Scanned(flagged, old(View()))
    {
      var rows := Take(Filter(Beyond(lastId), messages), BATCH);
      for i := 0 to |rows|
        invariant reports == Filed(flagged, old(reports), rows[..i])
        invariant lastId == Advanced(old(lastId), rows[..i])
      {
        assert rows[..i + 1][..i] == rows[..i];
        if flagged(rows[i].body) && !HasReport(reports, rows[i].id) {
          reports := reports + [ReportFor(rows[i])];
        }
        lastId := if rows[i].id > lastId then rows[i].id else lastId;
      }
      assert rows[..|rows|] == rows;
    }
  }

  // ---------------------------------------------------------------- whole runs

  datatype Op =
    | Scan
    | Post(chat: int, author: int, body: string)
    | Delete(message: int)
    | Restart
    // a scan that raises after `rows` rows: its reports are never committed, but the cursor has moved
    | AbortedScan(rows: nat)

  function Apply(flagged: string -> bool, d: Desk, op: Op): Desk {
    match op
    case Scan => Scanned(flagged, d)
    case Post(chat, author, body) =>
      d.(messages := d.messages + [Message(d.nextId, chat, author, body)], nextId := d.nextId + 1)
    case Delete(id) => d.(messages := Filter((m: Message) => m.id != id, d.messages))
    case Restart => d.(cursor := 0)
    case AbortedScan(n) => d.(cursor := Advanced(d.cursor, Take(Take(Waiting(d), BATCH), n)))
  }

  function Run(flagged: string -> bool, d: Desk, ops: seq<Op>): Desk {
    if ops == [] then d else Apply(flagged, Run(flagged, d, ops[..|ops| - 1]), ops[|ops| - 1])
  }

  function ById(): Message -> Key { (m: Message) => Key(m.id, 0, 0) }

  /** Messages in order of their ids, which are positive and never handed out twice. */
  ghost predicate Numbered(d: Desk) {
    && Ordered(ById(), d.messages) && 0 <= d.cursor < d.nextId
    && forall m :: m in d.messages ==> 1 <= m.id < d.nextId
  }

  predicate OncePerMessage(reports: seq<Report>) {
    forall i, j :: 0 <= i < j < |reports| ==> reports[i].message != reports[j].message
  }

  lemma {:induction false} FiledLaws(flagged: string -> bool, reports: seq<Report>, rows: seq<Message>)
    ensures OncePerMessage(reports) ==> OncePerMessage(Filed(flagged, reports, rows))
    ensures forall id :: HasReport(Filed(flagged, reports, rows), id)
                    <==> HasReport(reports, id) || exists m :: m in rows && m.id == id && flagged(m.body)
  {
    if rows != [] {
      var init, m := rows[..|rows| - 1], rows[|rows| - 1];
      FiledLaws(flagged, reports, init);
      var before, after := Filed(flagged, reports, init), Filed(flagged, reports, rows);
      forall id ensures HasReport(after, id) <==> HasReport(before, id) || (id == m.id && flagged(m.body)) {
        if HasReport(before, id) {
          var i :| 0 <= i < |before| && before[i].message == id;
          assert after[i].message == id;
        }
        if id == m.id && flagged(m.body) && !HasReport(before, id) { assert after[|before|].message == id; }
      }
      forall x ensures x in rows <==> x in init || x == m {}
    }
  }

  lemma {:induction false} AdvancedIsLast(cursor: int, rows: seq<Message>)
    requires Ordered(ById(), rows) && forall m :: m in rows ==> m.id > cursor
    ensures Advanced(cursor, rows) == if rows == [] then cursor else rows[|rows| - 1].id
  {
    if |rows| > 1 {
      AdvancedIsLast(cursor, rows[..|rows| - 1]);
      assert Before(ById()(rows[|rows| - 2]), ById()(rows[|rows| - 1]));
    } else if |rows| == 1 {
      assert rows[0] in rows;
    }
  }

  lemma WaitingListed(d: Desk)
    requires Numbered(d)
    ensures Ordered(ById(), Waiting(d)) && forall m :: m in Waiting(d) <==> m in d.messages && m.id > d.cursor
  {
    FilterMembers(Beyond(d.cursor), d.messages);
    FilterOrdered(ById(), Beyond(d.cursor), d.messages);
  }

  /** In an ordered listing the ids of the first n rows are exactly those up to the last of them. */
  lemma FrontByLast(waiting: seq<Message>, n: nat, m: Message)
    requires Ordered(ById(), waiting) && m in waiting && 0 < n <= |waiting|
    ensures m in waiting[..n] <==> m.id <= waiting[n - 1].id
  {
    var i :| 0 <= i < |waiting| && waiting[i] == m;
    if i < n {
      assert waiting[..n][i] == m;
      assert i < n - 1 ==> Before(ById()(waiting[i]), ById()(waiting[n - 1]));
    } else {
      assert Before(ById()(waiting[n - 1]), ById()(waiting[i]));
      assert forall k :: 0 <= k < n ==> Before(ById()(waiting[k]), ById()(waiting[i]));
    }
  }

  /** A scan over the first n waiting rows moves the cursor to the last of them, and the messages
      beyond it are the rest. */
  lemma CursorPasses(d: Desk, n: nat)
    requires Numbered(d)
    ensures var rows, cursor := Take(Waiting(d), n), Advanced(d.cursor, Take(Waiting(d), n));
            && d.cursor <= cursor < d.nextId
            && (forall m :: m in d.messages ==> (m.id <= cursor <==> m.id <= d.cursor || m in rows))
            && Waiting(d.(cursor := cursor)) == Drop(Waiting(d), n)
  {
    var waiting, rows, cursor := Waiting(d), Take(Waiting(d), n), Advanced(d.cursor, Take(Waiting(d), n));
    WaitingListed(d);
    TakenAndDropped(ById(), waiting, n);
    forall m | m in rows ensures m in waiting {}
    AdvancedIsLast(d.cursor, rows);
    if rows != [] {
      assert rows == waiting[..|rows|] && rows[|rows| - 1] in rows;
      forall m | m in d.messages ensures m.id <= cursor <==> m.id <= d.cursor || m in rows {
        if m in waiting { FrontByLast(waiting, |rows|, m); }
      }
    }
    WaitingListed(d.(cursor := cursor));
    OneOrder(ById(), Waiting(d.(cursor := cursor)), Drop(waiting, n));
  }

  function Least(n: nat): nat { if n < BATCH then n else BATCH }

  lemma TakeTwice(waiting: seq<Message>, n: nat)
    ensures Take(Take(waiting, BATCH), n) == Take(waiting, Least(n))
  {
  }

  lemma ApplyNumbered(flagged: string -> bool, d: Desk, op: Op)
    requires Numbered(d)
    ensures Numbered(Apply(flagged, d, op))
    ensures OncePerMessage(d.reports) ==> OncePerMessage(Apply(flagged, d, op).reports)
  {
    match op
    case Scan =>
      CursorPasses(d, BATCH);
      FiledLaws(flagged, d.reports, Take(Waiting(d), BATCH));
    case Post(chat, author, body) =>
      var last, messages := Message(d.nextId, chat, author, body), Apply(flagged, d, op).messages;
      forall i, j | 0 <= i < j < |messages| ensures Before(ById()(messages[i]), ById()(messages[j])) {
        assert messages[i] in d.messages;
      }
    case Delete(id) =>
      FilterMembers((m: Message) => m.id != id, d.messages);
      FilterOrdered(ById(), (m: Message) => m.id != id, d.messages);
    case Restart =>
    case AbortedScan(n) =>
      TakeTwice(Waiting(d), n);
      CursorPasses(d, Least(n));
  }

  /** At most one report per message, over any run of scans, aborted scans, restarts, posts and deletions. */
  lemma {:induction false} NeverReportedTwice(flagged: string -> bool, d: Desk, ops: seq<Op>)
    requires Numbered(d) && OncePerMessage(d.reports)
    ensures Numbered(Run(flagged, d, ops)) && OncePerMessage(Run(flagged, d, ops).reports)
  {
    if ops != [] {
      NeverReportedTwice(flagged, d, ops[..|ops| - 1]);
      ApplyNumbered(flagged, Run(flagged, d, ops[..|ops| - 1]), ops[|ops| - 1]);
    }
  }

  /** Every offensive message the cursor has passed has its report. */
  ghost predicate NothingMissed(flagged: string -> bool, d: Desk) {
    forall m :: m in d.messages && m.id <= d.cursor && flagged(m.body) ==> HasReport(d.reports, m.id)
  }

  /** The report says where and by whom the message was posted, and quotes its first 200 characters. */
  predicate Quotes(r: Report, m: Message) {
    && r.message == m.id && r.chat == m.chat && r.author == m.author
    && r.text <= m.body && (|r.text| == 200 || (|m.body| < 200 && r.text == m.body))
  }

  lemma {:induction false} FiledQuote(flagged: string -> bool, reports: seq<Report>, rows: seq<Message>, r: Report)
    requires r in Filed(flagged, reports, rows)
    ensures r in reports || exists m :: m in rows && flagged(m.body) && Quotes(r, m)
  {
    if rows != [] {
      var init, last := rows[..|rows| - 1], rows[|rows| - 1];
      if r in Filed(flagged, reports, init) {
        FiledQuote(flagged, reports, init, r);
      } else {
        assert Quotes(r, last);
      }
    }
  }

  /** A scan keeps every report there was, and each new one quotes an offensive message it had not passed before. */
  lemma NewReportsQuoteMessages(flagged: string -> bool, d: Desk, r: Report)
    requires Numbered(d) && r in Scanned(flagged, d).reports && r !in d.reports
    ensures d.reports <= Scanned(flagged, d).reports
    ensures exists m :: m in d.messages && m.id > d.cursor && flagged(m.body) && Quotes(r, m)
  {
    var rows := Take(Waiting(d), BATCH);
    ReportsStay(flagged, d.reports, rows);
    FiledQuote(flagged, d.reports, rows, r);
    var m :| m in rows && flagged(m.body) && Quotes(r, m);
    WaitingListed(d);
    assert m in Waiting(d);
  }

  lemma {:induction false} ReportsStay(flagged: string -> bool, reports: seq<Report>, rows: seq<Message>)
    ensures reports <= Filed(flagged, reports, rows)
  {
    if rows != [] { ReportsStay(flagged, reports, rows[..|rows| - 1]); }
  }

  lemma ScanMissesNothing(flagged: string -> bool, d: Desk)
    requires Numbered(d) && NothingMissed(flagged, d)
    ensures NothingMissed(flagged, Scanned(flagged, d))
  {
    CursorPasses(d, BATCH);
    FiledLaws(flagged, d.reports, Take(Waiting(d), BATCH));
  }

  /** Nothing is missed as long as every scan returns normally. */
  lemma {:induction false} NothingMissedWithoutAborts(flagged: string -> bool, d: Desk, ops: seq<Op>)
    requires Numbered(d) && OncePerMessage(d.reports) && NothingMissed(flagged, d)
    requires forall i :: 0 <= i < |ops| ==> !ops[i].AbortedScan?
    ensures NothingMissed(flagged, Run(flagged, d, ops))
  {
    if ops != [] {
      var before, op := Run(flagged, d, ops[..|ops| - 1]), ops[|ops| - 1];
      NothingMissedWithoutAborts(flagged, d, ops[..|ops| - 1]);
      NeverReportedTwice(flagged, d, ops[..|ops| - 1]);
      if op.Scan? { ScanMissesNothing(flagged, before); }
      if op.Delete? { FilterMembers((m: Message) => m.id != op.message, before.messages); }
    }
  }

  /** Every offensive one of these rows has its report. */
  ghost predicate AllReported(flagged: string -> bool, reports: seq<Report>, rows: seq<Message>) {
    forall m :: m in rows && flagged(m.body) ==> HasReport(reports, m.id)
  }

  /** An aborted scan leaves the table of reports as it was, and skips: it keeps the promise exactly
      when none of the rows it had passed is offensive and still without a report. */
  lemma AbortMissesIff(flagged: string -> bool, d: Desk, n: nat)
    requires Numbered(d) && NothingMissed(flagged, d)
    ensures NothingMissed(flagged, Apply(flagged, d, AbortedScan(n)))
       <==> AllReported(flagged, d.reports, Take(Take(Waiting(d), BATCH), n))
  {
    TakeTwice(Waiting(d), n);
    AbortPasses(flagged, d, n);
    PassedIff(flagged, d, Least(n));
  }

  const NEW_DESK := Desk([], 1, [], 0)

  /** A lost report: one offensive message is posted and the scan that reads it raises. However many
      scans follow, the message has no report. */
  lemma AbortLosesReport(flagged: string -> bool, body: string, k: nat)
    requires flagged(body)
    ensures var d := Run(flagged, NEW_DESK, [Post(1, 1, body), AbortedScan(1)]);
            && d == Desk([Message(1, 1, 1, body)], 2, [], 1)
            && Run(flagged, d, Scans(k)) == d && !NothingMissed(flagged, d)
  {
    var post, abort, m := Post(1, 1, body), AbortedScan(1), Message(1, 1, 1, body);
    assert [post, abort][..1] == [post] && [post][..0] == [];
    var d := Desk([m], 2, [], 0);
    assert Run(flagged, NEW_DESK, []) == NEW_DESK && Run(flagged, NEW_DESK, [post]) == d;
    AbortPassesOne(flagged, d, m);
    var d' := Run(flagged, NEW_DESK, [post, abort]);
    assert m in d'.messages;
    IdleScans(flagged, d', k);
  }

  lemma AbortPassesOne(flagged: string -> bool, d: Desk, m: Message)
    requires d.messages == [m] && d.cursor < m.id
    ensures Apply(flagged, d, AbortedScan(1)) == d.(cursor := m.id)
    ensures Waiting(d.(cursor := m.id)) == []
  {
    FilterAll(Beyond(d.cursor), d.messages);
    FilterNone(Beyond(m.id), d.messages);
    assert [m][..1] == [m] && [m][..0] == [];
    assert Advanced(d.cursor, [m]) == m.id;
  }

  lemma {:induction false} IdleScans(flagged: string -> bool, d: Desk, k: nat)
    requires Waiting(d) == []
    ensures Run(flagged, d, Scans(k)) == d
  {
    if k > 0 {
      FirstScan(flagged, d, k);
      IdleScans(flagged, d, k - 1);
    }
  }

  lemma AbortPasses(flagged: string -> bool, d: Desk, n: nat)
    requires Take(Take(Waiting(d), BATCH), n) == Take(Waiting(d), Least(n))
    ensures Apply(flagged, d, AbortedScan(n)) == d.(cursor := Advanced(d.cursor, Take(Waiting(d), Least(n))))
  {
  }

  lemma PassedIff(flagged: string -> bool, d: Desk, n: nat)
    requires Numbered(d) && NothingMissed(flagged, d)
    ensures NothingMissed(flagged, d.(cursor := Advanced(d.cursor, Take(Waiting(d), n))))
       <==> AllReported(flagged, d.reports, Take(Waiting(d), n))
  {
    var rows := Take(Waiting(d), n);
    CursorPasses(d, n);
    WaitingListed(d);
    forall m | m in rows ensures m in d.messages { assert m in Waiting(d); }
  }

  function Scans(k: nat): seq<Op> { seq(k, _ => Scan) }

  /** Catching up: with n messages beyond the cursor and none added, ceil(n / 100) scans leave exactly
      one report for each offensive one of them, and nothing beyond the cursor. After a restart the
      cursor is 0, so this covers every stored message, whatever was skipped before. */
  lemma {:induction false} ScansCatchUp(flagged: string -> bool, d: Desk, k: nat)
    requires Numbered(d) && OncePerMessage(d.reports) && 100 * k >= |Waiting(d)|
    ensures var d' := Run(flagged, d, Scans(k));
            && Waiting(d') == [] && OncePerMessage(d'.reports)
            && (forall id :: HasReport(d'.reports, id)
                  <==> HasReport(d.reports, id) || exists m :: m in Waiting(d) && m.id == id && flagged(m.body))
    decreases k
  {
    if k == 0 {
      assert Scans(0) == [];
    } else {
      var d1, rows := Scanned(flagged, d), Take(Waiting(d), BATCH);
      CursorPasses(d, BATCH);
      FiledLaws(flagged, d.reports, rows);
      ApplyNumbered(flagged, d, Scan);
      assert Waiting(d1) == Drop(Waiting(d), BATCH);
      ScansCatchUp(flagged, d1, k - 1);
      FirstScan(flagged, d, k);
      FilterOrdered(ById(), Beyond(d.cursor), d.messages);
      TakenAndDropped(ById(), Waiting(d), BATCH);
      forall m ensures m in Waiting(d) <==> m in rows || m in Waiting(d1) {}
    }
  }

  lemma {:induction false} FirstScan(flagged: string -> bool, d: Desk, k: nat)
    requires k > 0
    ensures Run(flagged, d, Scans(k)) == Run(flagged, Scanned(flagged, d), Scans(k - 1))
  {
    assert Scans(k)[..k - 1] == Scans(k - 1);
    if k > 1 {
      FirstScan(flagged, d, k - 1);
      assert Scans(k - 1)[..k - 2] == Scans(k - 2);
    } else {
      assert Scans(0) == [];
    }
  }

  // ---------------------------------------------------------------- what a scan reads

  /** The message is among the first n beyond the cursor. */
  ghost predicate Reads(d: Desk, n: nat, m: Message) {
    m in d.messages && m.id > d.cursor && |(set x | x in d.messages && d.cursor < x.id < m.id)| < n
  }

  lemma FrontIsRead(d: Desk, n: nat)
    requires Numbered(d)
    ensures forall m :: m in Take(Waiting(d), n) <==> Reads(d, n, m)
  {
    var waiting := Waiting(d);
    WaitingListed(d);
    forall k | 0 <= k < |waiting|
      ensures |(set x | x in d.messages && d.cursor < x.id < waiting[k].id)| == k && waiting[k] in d.messages
    {
      assert waiting[k] in waiting;
      Rank(ById(), waiting, k, set x | x in d.messages && d.cursor < x.id < waiting[k].id);
    }
    forall m ensures m in Take(waiting, n) <==> Reads(d, n, m) {
      if Reads(d, n, m) {
        assert m in waiting;
        var k :| 0 <= k < |waiting| && waiting[k] == m;
        assert Take(waiting, n)[k] == m;
      }
    }
  }

  /** A scan reads the first hundred messages beyond the cursor: it reports the offensive ones among
      them that have no report, and nothing else, and it moves the cursor past them, and no further. */
  lemma ScanReadsHundred(flagged: string -> bool, d: Desk)
    requires Numbered(d)
    ensures var d' := Scanned(flagged, d);
            && d'.messages == d.messages
            && (forall id :: HasReport(d'.reports, id)
                  <==> HasReport(d.reports, id) || exists m :: Reads(d, 100, m) && m.id == id && flagged(m.body))
            && (forall m :: m in d.messages ==> (m.id <= d'.cursor <==> m.id <= d.cursor || Reads(d, 100, m)))
  {
    FrontIsRead(d, 100);
    CursorPasses(d, 100);
    FiledLaws(flagged, d.reports, Take(Waiting(d), 100));
  }
}
