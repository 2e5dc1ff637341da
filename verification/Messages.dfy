/** The queries of MySQLMgr over the message table: paged history, and the last message with each
    contact.  Rows with equal send_time may be returned in any order, but one order that does not change
    between queries: `rank` is that order. */
module Messages {

  const SINGLE_CHAT := 0
  const GROUP_CHAT := 1

  datatype Row = Row(id: nat, fromUid: int, toUid: int, content: string, sendTime: nat, chatType: int)

  /** `id` is the primary key. */
  ghost predicate Table(rows: seq<Row>) {
    forall i, j :: 0 <= i < j < |rows| ==> rows[i].id != rows[j].id
  }

  /** A fixed total order of the rows that extends send_time. */
  ghost predicate Ranks(rank: Row -> int, rows: seq<Row>) {
    && (forall a, b :: a in rows && b in rows && a.sendTime < b.sendTime ==> rank(a) < rank(b))
    && (forall a, b :: a in rows && b in rows && a != b ==> rank(a) != rank(b))
  }

  function Where(rows: seq<Row>, cond: Row -> bool): (r: seq<Row>)
    ensures forall x :: x in r <==> x in rows && cond(x)
  {
    if rows == [] then []
    else
      var last := rows[|rows| - 1];
      var init := rows[..|rows| - 1];
      assert rows == init + [last];
      Where(init, cond) + (if cond(last) then [last] else [])
  }

  lemma {:induction false} WhereIsTable(rows: seq<Row>, cond: Row -> bool)
    requires Table(rows)
    ensures Table(Where(rows, cond)) && |Where(rows, cond)| <= |rows|
  {
    if rows != [] {
      var init, last := rows[..|rows| - 1], rows[|rows| - 1];
      WhereIsTable(init, cond);
      var w := Where(init, cond);
      forall i | 0 <= i < |w| ensures w[i].id != last.id {
        assert w[i] in init;
      }
    }
  }

  /** Newest first. */
  ghost predicate Descending(q: seq<Row>, rank: Row -> int) {
    forall i, j :: 0 <= i < j < |q| ==> rank(q[i]) > rank(q[j])
  }

  function InsertRow(q: seq<Row>, r: Row, rank: Row -> int): (s: seq<Row>)
    ensures multiset(s) == multiset(q) + multiset{r}
  {
    if q == [] || rank(r) > rank(q[0]) then [r] + q
    else
      assert q == [q[0]] + q[1..];
      [q[0]] + InsertRow(q[1..], r, rank)
  }

  /** ORDER BY send_time DESC. */
  function OrderDesc(rows: seq<Row>, rank: Row -> int): (q: seq<Row>)
    ensures multiset(q) == multiset(rows)
  {
    if rows == [] then []
    else
      assert rows == rows[..|rows| - 1] + [rows[|rows| - 1]];
      InsertRow(OrderDesc(rows[..|rows| - 1], rank), rows[|rows| - 1], rank)
  }

  lemma {:induction false} InsertKeepsDescending(q: seq<Row>, r: Row, rank: Row -> int)
    requires Descending(q, rank) && forall x :: x in q ==> rank(x) != rank(r)
    ensures Descending(InsertRow(q, r, rank), rank)
  {
    if q != [] && rank(r) < rank(q[0]) {
      InsertKeepsDescending(q[1..], r, rank);
      PrependKeepsDescending(q[0], InsertRow(q[1..], r, rank), q[1..], r, rank);
    }
  }

  lemma PrependKeepsDescending(first: Row, s: seq<Row>, q: seq<Row>, r: Row, rank: Row -> int)
    requires Descending(s, rank) && multiset(s) == multiset(q) + multiset{r}
    requires rank(first) > rank(r) && forall x :: x in q ==> rank(first) > rank(x)
    ensures Descending([first] + s, rank)
  {
    forall x | x in s ensures rank(first) > rank(x) {
      assert x in multiset(s);
    }
  }

  lemma {:induction false} OrderIsDescending(rows: seq<Row>, rank: Row -> int)
    requires Table(rows) && Ranks(rank, rows)
    ensures Descending(OrderDesc(rows, rank), rank)
  {
    if rows != [] {
      var init, last := rows[..|rows| - 1], rows[|rows| - 1];
      OrderIsDescending(init, rank);
      LastRanksApart(rows, rank);
      InsertKeepsDescending(OrderDesc(init, rank), last, rank);
    }
  }

  lemma LastRanksApart(rows: seq<Row>, rank: Row -> int)
    requires Table(rows) && Ranks(rank, rows) && rows != []
    ensures forall x :: x in OrderDesc(rows[..|rows| - 1], rank) ==> rank(x) != rank(rows[|rows| - 1])
  {
    var init := rows[..|rows| - 1];
    forall x | x in OrderDesc(init, rank) ensures rank(x) != rank(rows[|rows| - 1]) {
      OrderedFrom(init, rank, x);
      LastIsNew(rows, x);
    }
  }

  lemma OrderedFrom(rows: seq<Row>, rank: Row -> int, x: Row)
    requires x in OrderDesc(rows, rank)
    ensures x in rows
  {
    assert x in multiset(OrderDesc(rows, rank));
  }

  lemma LastIsNew(rows: seq<Row>, x: Row)
    requires Table(rows) && rows != [] && x in rows[..|rows| - 1]
    ensures x in rows && x != rows[|rows| - 1]
  {
  }

  /** LIMIT count OFFSET offset; MySQL refuses negative bounds, and the caller then returns no rows. */
  function Limit(q: seq<Row>, count: int, offset: int): seq<Row> {
    if count < 0 || offset < 0 then []
    else
      var from := if offset <= |q| then offset else |q|;
      var to := if from + count <= |q| then from + count else |q|;
      q[from..to]
  }

  function Reversed(q: seq<Row>): (r: seq<Row>)
    ensures |r| == |q|
    ensures forall i :: 0 <= i < |q| ==> r[i] == q[|q| - 1 - i]
  {
    seq(|q|, i requires 0 <= i < |q| => q[|q| - 1 - i])
  }

  predicate InConversation(r: Row, uid1: int, uid2: int) {
    (r.fromUid == uid1 && r.toUid == uid2) || (r.fromUid == uid2 && r.toUid == uid1)
  }

  function Conversation(uid1: int, uid2: int): Row -> bool {
    r => InConversation(r, uid1, uid2)
  }

  predicate InGroup(r: Row, groupId: int) {
    r.toUid == groupId && r.chatType == GROUP_CHAT
  }

  function GroupConversation(groupId: int): Row -> bool {
    r => InGroup(r, groupId)
  }

  /** One page of a conversation or group, oldest message of the page first. */
  function Page(rows: seq<Row>, cond: Row -> bool, rank: Row -> int, count: int, offset: int): seq<Row> {
    Reversed(Limit(OrderDesc(Where(rows, cond), rank), count, offset))
  }

  /** The rows of the conversation that are newer than r. */
  ghost function Newer(rows: seq<Row>, cond: Row -> bool, rank: Row -> int, r: Row): set<Row> {
    set x | x in rows && cond(x) && rank(x) > rank(r)
  }

  /** The page that was asked for: oldest message first, and of the conversation's rows exactly those that have
      at least `offset` and fewer than `offset + count` newer ones. */
  ghost predicate IsWindow(page: seq<Row>, rows: seq<Row>, cond: Row -> bool, rank: Row -> int, count: int, offset: int) {
    && (forall i, j :: 0 <= i < j < |page| ==> rank(page[i]) < rank(page[j]) && page[i].sendTime <= page[j].sendTime)
    && (forall r :: r in page <==>
          && r in rows && cond(r) && count >= 0 && offset >= 0
          && offset <= |Newer(rows, cond, rank, r)| < offset + count)
  }

  ghost function RowsOf(q: seq<Row>): set<Row> {
    set x | x in q
  }

  lemma {:induction false} DistinctRows(q: seq<Row>, rank: Row -> int)
    requires Descending(q, rank)
    ensures |RowsOf(q)| == |q|
  {
    if q == [] {
      assert RowsOf(q) == {};
    } else {
      var init, last := q[..|q| - 1], q[|q| - 1];
      DistinctRows(init, rank);
      assert q == init + [last];
      assert RowsOf(q) == RowsOf(init) + {last};
      assert last !in RowsOf(init);
    }
  }

  /** In the newest-first order a row's place is the number of newer ones. */
  lemma PlaceIsNewer(rows: seq<Row>, cond: Row -> bool, rank: Row -> int, q: seq<Row>, i: nat)
    requires Descending(q, rank) && i < |q| && forall x :: x in q <==> x in rows && cond(x)
    ensures |Newer(rows, cond, rank, q[i])| == i
  {
    DistinctRows(q[..i], rank);
    forall x ensures x in Newer(rows, cond, rank, q[i]) <==> x in q[..i] {
      if x in q {
        var k :| 0 <= k < |q| && q[k] == x;
        assert rank(q[k]) > rank(q[i]) <==> k < i;
        assert k < i ==> q[..i][k] == x;
      }
    }
    assert Newer(rows, cond, rank, q[i]) == RowsOf(q[..i]);
  }

  lemma LimitAt(q: seq<Row>, count: int, offset: int, r: Row)
    ensures r in Reversed(Limit(q, count, offset))
       <==> count >= 0 && offset >= 0 && exists i :: 0 <= i < |q| && offset <= i < offset + count && q[i] == r
  {
    var l := Limit(q, count, offset);
    if i :| 0 <= i < |q| && offset <= i < offset + count && q[i] == r && count >= 0 && offset >= 0 {
      assert l[i - offset] == r && Reversed(l)[|l| - 1 - (i - offset)] == r;
    }
    if r in Reversed(l) {
      var k :| 0 <= k < |l| && Reversed(l)[k] == r;
      assert l[|l| - 1 - k] == r && q[offset + |l| - 1 - k] == r;
    }
  }

  lemma PageIsWindow(rows: seq<Row>, cond: Row -> bool, rank: Row -> int, count: int, offset: int)
    requires Table(rows) && Ranks(rank, rows)
    ensures IsWindow(Page(rows, cond, rank, count, offset), rows, cond, rank, count, offset)
  {
    var q := OrderDesc(Where(rows, cond), rank);
    OrderedConversation(rows, cond, rank);
    forall x ensures x in q <==> x in rows && cond(x) {
      OrderedRows(rows, cond, rank, x);
    }
    PageRows(rows, cond, rank, q, count, offset);
    LimitKeepsOrder(q, rank, count, offset);
    ReversedIsChronological(Limit(q, count, offset), rows, rank);
  }

  lemma PageRows(rows: seq<Row>, cond: Row -> bool, rank: Row -> int, q: seq<Row>, count: int, offset: int)
    requires Descending(q, rank) && forall x :: x in q <==> x in rows && cond(x)
    ensures forall r :: r in Reversed(Limit(q, count, offset)) <==>
              && r in rows && cond(r) && count >= 0 && offset >= 0
              && offset <= |Newer(rows, cond, rank, r)| < offset + count
  {
    forall r ensures r in Reversed(Limit(q, count, offset)) <==>
                       && r in rows && cond(r) && count >= 0 && offset >= 0
                       && offset <= |Newer(rows, cond, rank, r)| < offset + count
    {
      LimitAt(q, count, offset, r);
      if r in q {
        var i :| 0 <= i < |q| && q[i] == r;
        PlaceIsNewer(rows, cond, rank, q, i);
        forall k | 0 <= k < |q| && q[k] == r ensures k == i {
          PlaceIsNewer(rows, cond, rank, q, k);
        }
      }
    }
  }

  lemma LimitKeepsOrder(q: seq<Row>, rank: Row -> int, count: int, offset: int)
    requires Descending(q, rank)
    ensures Descending(Limit(q, count, offset), rank) && forall x :: x in Limit(q, count, offset) ==> x in q
  {
  }

  method ReverseRows(a: array<Row>)
    modifies a
    ensures a[..] == Reversed(old(a[..]))
  {
    var lo, hi := 0, a.Length;
    while lo + 1 < hi
      invariant 0 <= lo && hi == a.Length - lo && lo <= hi + 1
      invariant forall k :: 0 <= k < lo || hi <= k < a.Length ==> a[k] == old(a[a.Length - 1 - k])
      invariant forall k :: lo <= k < hi ==> a[k] == old(a[k])
    {
      a[lo], a[hi - 1] := a[hi - 1], a[lo];
      lo, hi := lo + 1, hi - 1;
    }
  }

  method CopyRows(result: seq<Row>) returns (copy: array<Row>)
    requires result != []
    ensures fresh(copy) && copy[..] == result
  {
    copy := new Row[|result|](_ => result[0]);
    for i := 0 to |result|
      invariant copy[..i] == result[..i]
    {
      copy[i] := result[i];
    }
  }

  /** The row-copy loop and in-place reverse that getChatHistory and getGroupChatHistory share. */
  method GetHistory(rows: seq<Row>, cond: Row -> bool, rank: Row -> int, count: int, offset: int)
    returns (messages: seq<Row>)
    ensures messages == Page(rows, cond, rank, count, offset)
    ensures Table(rows) && Ranks(rank, rows) ==> IsWindow(messages, rows, cond, rank, count, offset)
  {
    if Table(rows) && Ranks(rank, rows) {
      PageIsWindow(rows, cond, rank, count, offset);
    }
    var result := Limit(OrderDesc(Where(rows, cond), rank), count, offset);
    if |result| == 0 {
      return [];
    }
    var copy := CopyRows(result);
    ReverseRows(copy);
    messages := copy[..];
  }

  function Offset(count: nat, page: nat): (n: nat)
    ensures n == page * count
  {
    if page == 0 then 0 else Offset(count, page - 1) + count
  }

  /** Pages pages-1, ..., 1, 0 of a conversation put together, that is the oldest page first. */
  function Pages(rows: seq<Row>, cond: Row -> bool, rank: Row -> int, count: nat, pages: nat): seq<Row> {
    if pages == 0 then []
    else Page(rows, cond, rank, count, Offset(count, pages - 1)) + Pages(rows, cond, rank, count, pages - 1)
  }

  /** Consecutive pages are together one page of their joint size. */
  lemma {:induction false} PagesAreOnePage(rows: seq<Row>, cond: Row -> bool, rank: Row -> int, count: nat, pages: nat)
    ensures Pages(rows, cond, rank, count, pages) == Page(rows, cond, rank, Offset(count, pages), 0)
  {
    if pages > 0 {
      PagesAreOnePage(rows, cond, rank, count, pages - 1);
      PrependPage(OrderDesc(Where(rows, cond), rank), Offset(count, pages - 1), count);
    }
  }

  lemma PrependPage(q: seq<Row>, start: nat, count: nat)
    ensures Reversed(Limit(q, count, start)) + Reversed(Limit(q, start, 0)) == Reversed(Limit(q, start + count, 0))
  {
  }

  /** Paging partitions a conversation: enough consecutive pages of any positive size, oldest first, are
      the whole of it in chronological order, with no gap and no repeat. */
  lemma PagingPartitions(rows: seq<Row>, cond: Row -> bool, rank: Row -> int, count: nat, pages: nat)
    requires Table(rows) && Ranks(rank, rows)
    requires |Where(rows, cond)| <= pages * count
    ensures var all := Pages(rows, cond, rank, count, pages);
            && multiset(all) == multiset(Where(rows, cond))
            && (forall i, j :: 0 <= i < j < |all| ==> rank(all[i]) < rank(all[j]) && all[i].sendTime <= all[j].sendTime)
  {
    OrderedConversation(rows, cond, rank);
    PagesAreOnePage(rows, cond, rank, count, pages);
    WholeConversation(OrderDesc(Where(rows, cond), rank), rows, rank, Offset(count, pages));
  }

  lemma OrderedConversation(rows: seq<Row>, cond: Row -> bool, rank: Row -> int)
    requires Table(rows) && Ranks(rank, rows)
    ensures var q := OrderDesc(Where(rows, cond), rank);
            && Descending(q, rank) && |q| == |Where(rows, cond)| && (forall x :: x in q ==> x in rows)
  {
    var mine := Where(rows, cond);
    var q := OrderDesc(mine, rank);
    WhereIsTable(rows, cond);
    OrderIsDescending(mine, rank);
    assert |q| == |multiset(q)| == |multiset(mine)| == |mine|;
    forall x | x in q ensures x in rows {
      assert x in multiset(q);
      assert x in mine;
    }
  }

  lemma WholeConversation(q: seq<Row>, rows: seq<Row>, rank: Row -> int, size: nat)
    requires Ranks(rank, rows) && Descending(q, rank) && (forall x :: x in q ==> x in rows) && |q| <= size
    ensures var all := Reversed(Limit(q, size, 0));
            && multiset(all) == multiset(q)
            && (forall i, j :: 0 <= i < j < |all| ==> rank(all[i]) < rank(all[j]) && all[i].sendTime <= all[j].sendTime)
  {
    assert Limit(q, size, 0) == q;
    ReversedMultiset(q);
    ReversedIsChronological(q, rows, rank);
  }

  lemma ReversedIsChronological(q: seq<Row>, rows: seq<Row>, rank: Row -> int)
    requires Ranks(rank, rows) && Descending(q, rank) && forall x :: x in q ==> x in rows
    ensures var all := Reversed(q);
            forall i, j :: 0 <= i < j < |all| ==> rank(all[i]) < rank(all[j]) && all[i].sendTime <= all[j].sendTime
  {
  }

  lemma {:induction false} ReversedMultiset(q: seq<Row>)
    ensures multiset(Reversed(q)) == multiset(q)
  {
    if q != [] {
      var init, last := q[..|q| - 1], q[|q| - 1];
      ReversedMultiset(init);
      assert q == init + [last];
      assert Reversed(q) == [last] + Reversed(init);
    }
  }

  /** The history of two users is the same whoever asks. */
  lemma {:induction false} HistoryIsSymmetric(rows: seq<Row>, u: int, v: int)
    ensures Where(rows, Conversation(u, v)) == Where(rows, Conversation(v, u))
  {
    if rows != [] {
      HistoryIsSymmetric(rows[..|rows| - 1], u, v);
    }
  }

  /** The two INSERTs into the message table. */
  datatype Save =
    | SaveMessage(fromUid: int, toUid: int, content: string, time: nat)
    | SaveGroupMessage(fromUid: int, groupId: int, content: string, time: nat)

  /** `from_uid` is a foreign key into the users; nothing is checked about the other id. */
  function Inserted(users: set<int>, rows: seq<Row>, s: Save): seq<Row> {
    if s.fromUid !in users then rows
    else
      match s
      case SaveMessage(f, to, content, time) => rows + [Row(|rows| + 1, f, to, content, time, SINGLE_CHAT)]
      case SaveGroupMessage(f, g, content, time) => rows + [Row(|rows| + 1, f, g, content, time, GROUP_CHAT)]
  }

  function Run(users: set<int>, saves: seq<Save>): seq<Row> {
    if saves == [] then [] else Inserted(users, Run(users, saves[..|saves| - 1]), saves[|saves| - 1])
  }

  lemma {:induction false} RunIsTable(users: set<int>, saves: seq<Save>)
    ensures Table(Run(users, saves))
    ensures forall i :: 0 <= i < |Run(users, saves)| ==> Run(users, saves)[i].id == i + 1
  {
    if saves != [] {
      RunIsTable(users, saves[..|saves| - 1]);
    }
  }

  /** The save that a row records. */
  predicate Records(r: Row, s: Save) {
    match s
    case SaveMessage(f, to, content, time) => r == Row(r.id, f, to, content, time, SINGLE_CHAT)
    case SaveGroupMessage(f, g, content, time) => r == Row(r.id, f, g, content, time, GROUP_CHAT)
  }

  lemma {:induction false} RowsAreSaves(users: set<int>, saves: seq<Save>)
    ensures forall r :: r in Run(users, saves) ==> r.fromUid in users && exists s :: s in saves && Records(r, s)
    ensures forall s :: s in saves && s.fromUid in users ==> exists r :: r in Run(users, saves) && Records(r, s)
  {
    if saves != [] {
      var init, last := saves[..|saves| - 1], saves[|saves| - 1];
      assert saves == init + [last];
      RowsAreSaves(users, init);
      var rows, before := Run(users, saves), Run(users, init);
      forall r | r in rows ensures r.fromUid in users && exists s :: s in saves && Records(r, s) {
        if r !in before {
          assert Records(r, last);
        } else {
          var s :| s in init && Records(r, s);
          assert s in saves;
        }
      }
      forall s | s in saves && s.fromUid in users ensures exists r :: r in rows && Records(r, s) {
        if s in init {
          var r :| r in before && Records(r, s);
          assert r in rows;
        } else {
          assert Records(rows[|before|], s);
        }
      }
    }
  }

  /** A message that an existing user saves is in the history of its two users, whichever of them asks, and in
      nobody else's; a group message is in the history of its group. */
  lemma SavedIsInHistory(users: set<int>, saves: seq<Save>, s: Save, u: int, v: int)
    requires s in saves && s.fromUid in users
    ensures s.SaveMessage? ==>
              exists r :: Records(r, s) && r in Run(users, saves)
                && (r in Where(Run(users, saves), Conversation(u, v)) <==>
                      (u == s.fromUid && v == s.toUid) || (u == s.toUid && v == s.fromUid))
    ensures s.SaveGroupMessage? ==>
              exists r :: Records(r, s) && r in Run(users, saves)
                && (r in Where(Run(users, saves), GroupConversation(u)) <==> u == s.groupId)
  {
    RowsAreSaves(users, saves);
    var r :| r in Run(users, saves) && Records(r, s);
    assert Conversation(u, v)(r) <==> InConversation(r, u, v);
  }

  /** Messages go to users and group messages to groups, as the clients are meant to have it. */
  predicate WellAddressed(users: set<int>, groups: set<int>, saves: seq<Save>) {
    forall s :: s in saves ==> if s.SaveMessage? then s.toUid in users else s.groupId in groups
  }

  predicate NoSharedId(users: set<int>, groups: set<int>) {
    forall u :: u in users ==> u !in groups
  }

  predicate NoGroupMessage(page: seq<Row>) {
    forall i :: 0 <= i < |page| ==> page[i].chatType != GROUP_CHAT
  }

  /** No page of the history of two users shows a group message. */
  ghost predicate Private(rows: seq<Row>, rank: Row -> int, u: int, v: int) {
    forall count: int, offset: int :: NoGroupMessage(Page(rows, Conversation(u, v), rank, count, offset))
  }

  lemma OrderedRows(rows: seq<Row>, cond: Row -> bool, rank: Row -> int, r: Row)
    ensures r in OrderDesc(Where(rows, cond), rank) <==> r in rows && cond(r)
  {
    assert r in OrderDesc(Where(rows, cond), rank) <==> r in multiset(OrderDesc(Where(rows, cond), rank));
    assert r in Where(rows, cond) <==> r in multiset(Where(rows, cond));
  }

  lemma WholePage(q: seq<Row>, r: Row)
    requires r in q
    ensures r in Reversed(Limit(q, |q|, 0))
  {
    var i :| 0 <= i < |q| && q[i] == r;
    assert Limit(q, |q|, 0) == q;
    assert Reversed(q)[|q| - 1 - i] == r;
  }

  lemma PageRow(q: seq<Row>, count: int, offset: int, i: nat)
    requires i < |Reversed(Limit(q, count, offset))|
    ensures Reversed(Limit(q, count, offset))[i] in q
  {
    var l := Limit(q, count, offset);
    assert Reversed(l)[i] == l[|l| - 1 - i];
  }

  /** The save puts a group message into the conversation of two users: one of them posts to a group whose
      id is the other's uid. */
  predicate Leaks(users: set<int>, s: Save, u: int, v: int) {
    s.SaveGroupMessage? && s.fromUid in users
    && ((s.fromUid == u && s.groupId == v) || (s.fromUid == v && s.groupId == u))
  }

  lemma HistoryIsPrivateIff(users: set<int>, saves: seq<Save>, rank: Row -> int, u: int, v: int)
    ensures Private(Run(users, saves), rank, u, v) <==> !exists s :: s in saves && Leaks(users, s, u, v)
  {
    var rows := Run(users, saves);
    var q := OrderDesc(Where(rows, Conversation(u, v)), rank);
    RowsAreSaves(users, saves);
    if s :| s in saves && Leaks(users, s, u, v) {
      var r :| r in rows && Records(r, s);
      OrderedRows(rows, Conversation(u, v), rank, r);
      WholePage(q, r);
      assert !NoGroupMessage(Page(rows, Conversation(u, v), rank, |q|, 0));
    } else {
      forall count: int, offset: int ensures NoGroupMessage(Page(rows, Conversation(u, v), rank, count, offset)) {
        var page := Page(rows, Conversation(u, v), rank, count, offset);
        forall i | 0 <= i < |page| ensures page[i].chatType != GROUP_CHAT {
          PageRow(q, count, offset, i);
          OrderedRows(rows, Conversation(u, v), rank, page[i]);
          var s :| s in saves && Records(page[i], s);
        }
      }
    }
  }

  ghost predicate AllPrivate(users: set<int>, rows: seq<Row>, rank: Row -> int) {
    forall u, v :: u in users && v in users ==> Private(rows, rank, u, v)
  }

  lemma PrivateWhenDisjoint(users: set<int>, groups: set<int>, saves: seq<Save>, rank: Row -> int)
    requires NoSharedId(users, groups) && WellAddressed(users, groups, saves)
    ensures AllPrivate(users, Run(users, saves), rank)
  {
    forall u, v | u in users && v in users ensures Private(Run(users, saves), rank, u, v) {
      HistoryIsPrivateIff(users, saves, rank, u, v);
    }
  }

  ghost predicate AlwaysPrivate(users: set<int>, groups: set<int>) {
    forall saves, rank :: WellAddressed(users, groups, saves) && Ranks(rank, Run(users, saves)) ==>
      AllPrivate(users, Run(users, saves), rank)
  }

  lemma AlwaysPrivateIfDisjoint(users: set<int>, groups: set<int>)
    requires NoSharedId(users, groups)
    ensures AlwaysPrivate(users, groups)
  {
    forall saves, rank: Row -> int | WellAddressed(users, groups, saves)
      ensures AllPrivate(users, Run(users, saves), rank)
    {
      PrivateWhenDisjoint(users, groups, saves, rank);
    }
  }

  lemma SharedIdLeaks(users: set<int>, groups: set<int>, u: int)
    requires u in users && u in groups
    ensures !AlwaysPrivate(users, groups)
  {
    var saves, rank := OnePostLeaks(users, groups, u, u);
    assert !AllPrivate(users, Run(users, saves), rank);
  }

  /** So among runs in which private messages go to users and group messages to groups, which nothing in the
      server enforces, all histories of users stay free of group messages iff no group has the id of a user.
      Both ids are numbered from 1, so the first group and the first user are enough for the other case. */
  lemma HistoriesArePrivateIff(users: set<int>, groups: set<int>)
    ensures AlwaysPrivate(users, groups) <==> NoSharedId(users, groups)
  {
    if u :| u in users && u in groups {
      SharedIdLeaks(users, groups, u);
    } else {
      AlwaysPrivateIfDisjoint(users, groups);
    }
  }

  /** And among all runs, as the server admits them, they do so only if there are no users. */
  lemma UncheckedHistoriesArePrivateIff(users: set<int>)
    ensures (forall saves, rank :: Ranks(rank, Run(users, saves)) ==> AllPrivate(users, Run(users, saves), rank))
       <==> !exists u :: u in users
  {
    if u :| u in users {
      var saves, rank := OnePostLeaks(users, {u}, u, u);
    }
  }

  lemma OnePost(users: set<int>, w: int, u: int)
    requires w in users
    ensures Run(users, [SaveGroupMessage(w, u, "", 0)]) == [Row(1, w, u, "", 0, GROUP_CHAT)]
  {
    var saves := [SaveGroupMessage(w, u, "", 0)];
    assert saves[..0] == [];
  }

  /** The shortest run that leaks, for any two users, the same or not: one posts to a group whose id is the
      other's uid, and the post shows in their history. */
  lemma OnePostLeaks(users: set<int>, groups: set<int>, w: int, u: int) returns (saves: seq<Save>, rank: Row -> int)
    requires w in users && u in users && u in groups
    ensures |saves| == 1 && WellAddressed(users, groups, saves) && Ranks(rank, Run(users, saves))
    ensures !Private(Run(users, saves), rank, w, u)
  {
    saves, rank := [SaveGroupMessage(w, u, "", 0)], _ => 0;
    OnePost(users, w, u);
    HistoryIsPrivateIff(users, saves, rank, w, u);
    assert saves[0] in saves && Leaks(users, saves[0], w, u);
  }
}
