/** getLastMessages: the last message of every conversation of a user, by a GROUP BY subquery joined back
    to the table, against the plain reading "for each contact the message with the greatest id". */
module LastMessages {
  import opened Wrappers
  import opened Messages

  predicate Mine(r: Row, uid: int) {
    r.fromUid == uid || r.toUid == uid
  }

  /** The subquery's CASE: the other party, or NULL if the row is not the user's. */
  function SqlContact(r: Row, uid: int): Option<int> {
    if r.fromUid == uid then Some(r.toUid)
    else if r.toUid == uid then Some(r.fromUid)
    else None
  }

  /** What the C++ loop recomputes from a returned row. */
  function CppContact(r: Row, uid: int): int {
    if r.fromUid == uid then r.toUid else r.fromUid
  }

  /** SELECT contact, MAX(id) ... WHERE the row is the user's GROUP BY contact. */
  function Latest(rows: seq<Row>, uid: int): map<Option<int>, nat> {
    if rows == [] then map[]
    else
      var m, r := Latest(rows[..|rows| - 1], uid), rows[|rows| - 1];
      var c := SqlContact(r, uid);
      if !Mine(r, uid) then m
      else m[c := if c in m && m[c] > r.id then m[c] else r.id]
  }

  /** INNER JOIN ON m.id = latest.max_id: one copy of a message for each group it is the maximum of. */
  function Joined(rows: seq<Row>, latest: map<Option<int>, nat>): seq<Row> {
    if rows == [] then []
    else
      var r := rows[|rows| - 1];
      Joined(rows[..|rows| - 1], latest) + seq(|set c | c in latest && latest[c] == r.id|, _ => r)
  }

  function Selected(rows: seq<Row>, uid: int): seq<Row> {
    Joined(rows, Latest(rows, uid))
  }

  /** The naive specification: the user's row with the greatest id for its contact. */
  ghost predicate LastWith(rows: seq<Row>, r: Row, uid: int) {
    && r in rows && Mine(r, uid)
    && forall s :: s in rows && Mine(s, uid) && SqlContact(s, uid) == SqlContact(r, uid) ==> s.id <= r.id
  }

  ghost predicate IsMaximum(rows: seq<Row>, uid: int, c: Option<int>, id: nat) {
    exists r :: LastWith(rows, r, uid) && SqlContact(r, uid) == c && r.id == id
  }

  lemma {:induction false} LatestIsMaximum(rows: seq<Row>, uid: int)
    ensures forall c :: c in Latest(rows, uid) ==> IsMaximum(rows, uid, c, Latest(rows, uid)[c])
    ensures forall r :: r in rows && Mine(r, uid) ==> SqlContact(r, uid) in Latest(rows, uid)
  {
    if rows != [] {
      var init, last := rows[..|rows| - 1], rows[|rows| - 1];
      assert rows == init + [last];
      LatestIsMaximum(init, uid);
      var m, n := Latest(init, uid), Latest(rows, uid);
      forall c | c in n ensures IsMaximum(rows, uid, c, n[c]) {
        if c in m && n[c] == m[c] {
          var r :| LastWith(init, r, uid) && SqlContact(r, uid) == c && r.id == m[c];
          assert LastWith(rows, r, uid);
        } else {
          NewMaximum(init, last, uid);
          assert LastWith(rows, last, uid);
        }
      }
    }
  }

  lemma NewMaximum(init: seq<Row>, last: Row, uid: int)
    requires Mine(last, uid)
    requires var c := SqlContact(last, uid);
             c in Latest(init, uid) ==> IsMaximum(init, uid, c, Latest(init, uid)[c]) && Latest(init, uid)[c] <= last.id
    requires forall r :: r in init && Mine(r, uid) ==> SqlContact(r, uid) in Latest(init, uid)
    ensures LastWith(init + [last], last, uid)
  {
  }

  /** How many groups a message is the maximum of: one if it is the last with its contact, else none. */
  lemma GroupsOf(rows: seq<Row>, r: Row, uid: int)
    requires Table(rows) && r in rows
    ensures var m := Latest(rows, uid);
            |set c | c in m && m[c] == r.id| == if LastWith(rows, r, uid) then 1 else 0
  {
    var m := Latest(rows, uid);
    LatestIsMaximum(rows, uid);
    var groups := set c | c in m && m[c] == r.id;
    forall c | c in groups ensures c == SqlContact(r, uid) && LastWith(rows, r, uid) {
      var s :| LastWith(rows, s, uid) && SqlContact(s, uid) == c && s.id == m[c];
      SameRow(rows, r, s);
    }
    if LastWith(rows, r, uid) {
      var c := SqlContact(r, uid);
      var s :| LastWith(rows, s, uid) && SqlContact(s, uid) == c && s.id == m[c];
      assert groups == {c};
    } else {
      assert groups == {};
    }
  }

  lemma SameRow(rows: seq<Row>, r: Row, s: Row)
    requires Table(rows) && r in rows && s in rows && r.id == s.id
    ensures r == s
  {
  }

  lemma {:induction false} JoinedCounts(all: seq<Row>, rows: seq<Row>, uid: int, x: Row)
    requires Table(all) && Table(rows) && forall r :: r in rows ==> r in all
    ensures multiset(Joined(rows, Latest(all, uid)))[x] == if x in rows && LastWith(all, x, uid) then 1 else 0
  {
    if rows != [] {
      var init, last := rows[..|rows| - 1], rows[|rows| - 1];
      assert rows == init + [last];
      JoinedCounts(all, init, uid, x);
      GroupsOf(all, last, uid);
      var m := Latest(all, uid);
      var copies := |set c | c in m && m[c] == last.id|;
      assert copies == 0 ==> seq(copies, _ => last) == [];
      assert copies == 1 ==> seq(copies, _ => last) == [last];
      assert last !in init;
    }
  }

  /** The query refines the naive specification: it returns exactly the messages that are last with their
      contact, each once. */
  lemma QueryIsLastPerContact(rows: seq<Row>, uid: int, x: Row)
    requires Table(rows)
    ensures multiset(Selected(rows, uid))[x] == if LastWith(rows, x, uid) then 1 else 0
  {
    JoinedCounts(rows, rows, uid, x);
  }

  /** So there is one row for each contact the user has a message with, and on every row the two
      computations of the contact agree, also for messages to oneself. */
  lemma OneRowPerContact(rows: seq<Row>, uid: int, r: Row)
    requires Table(rows) && r in rows && Mine(r, uid)
    ensures exists x :: x in Selected(rows, uid) && SqlContact(x, uid) == SqlContact(r, uid)
    ensures forall x, y | x in Selected(rows, uid) && y in Selected(rows, uid) ::
              SqlContact(x, uid) == SqlContact(y, uid) ==> x == y
    ensures forall x :: x in Selected(rows, uid) ==> SqlContact(x, uid) == Some(CppContact(x, uid))
  {
    LatestIsMaximum(rows, uid);
    var c := SqlContact(r, uid);
    var x :| LastWith(rows, x, uid) && SqlContact(x, uid) == c && x.id == Latest(rows, uid)[c];
    QueryIsLastPerContact(rows, uid, x);
    assert x in multiset(Selected(rows, uid));
    forall y | y in Selected(rows, uid) ensures LastWith(rows, y, uid) {
      QueryIsLastPerContact(rows, uid, y);
      assert y in multiset(Selected(rows, uid));
    }
    forall y, z | y in Selected(rows, uid) && z in Selected(rows, uid) && SqlContact(y, uid) == SqlContact(z, uid)
      ensures y == z
    {
      assert LastWith(rows, y, uid) && LastWith(rows, z, uid);
      SameRow(rows, y, z);
    }
  }

  /** Whatever the user has sent or been sent by id, private messages and group posts apart, its contact has a
      row of that kind. */
  ghost predicate NoneHidden(rows: seq<Row>, uid: int) {
    forall r :: r in rows && Mine(r, uid) ==> HasRow(rows, uid, SqlContact(r, uid), r.chatType)
  }

  ghost predicate HasRow(rows: seq<Row>, uid: int, contact: Option<int>, chatType: int) {
    exists x :: x in Selected(rows, uid) && SqlContact(x, uid) == contact && x.chatType == chatType
  }

  /** A group and a user of the same id are one contact to the query, which then shows only one of the two; so
      in all well-addressed runs neither hides the other iff no group has the id of a user. */
  lemma NoneHiddenIff(users: set<int>, groups: set<int>)
    ensures (forall saves, uid ::
               WellAddressed(users, groups, saves) && uid in users ==> NoneHidden(Run(users, saves), uid))
       <==> NoSharedId(users, groups)
  {
    if u :| u in users && u in groups {
      GroupHidesUser(users, groups, u);
    } else {
      forall saves, uid | WellAddressed(users, groups, saves) && uid in users
        ensures NoneHidden(Run(users, saves), uid)
      {
        forall r | r in Run(users, saves) && Mine(r, uid)
          ensures HasRow(Run(users, saves), uid, SqlContact(r, uid), r.chatType)
        {
          RunIsTable(users, saves);
          OneRowPerContact(Run(users, saves), uid, r);
          var x :| x in Selected(Run(users, saves), uid) && SqlContact(x, uid) == SqlContact(r, uid);
          SelectedIsTable(Run(users, saves), uid);
          TypeOfContact(users, groups, saves, uid, r);
          TypeOfContact(users, groups, saves, uid, x);
        }
      }
    }
  }

  /** When ids are disjoint the contact tells a private conversation from a group. */
  lemma TypeOfContact(users: set<int>, groups: set<int>, saves: seq<Save>, uid: int, r: Row)
    requires NoSharedId(users, groups) && WellAddressed(users, groups, saves) && uid in users
    requires r in Run(users, saves) && Mine(r, uid)
    ensures r.chatType == if SqlContact(r, uid).value in users then SINGLE_CHAT else GROUP_CHAT
  {
    RowsAreSaves(users, saves);
    var s :| s in saves && Records(r, s);
  }

  lemma TwoPosts(users: set<int>, u: int)
    requires u in users
    ensures Run(users, [SaveMessage(u, u, "", 0), SaveGroupMessage(u, u, "", 0)])
         == [Row(1, u, u, "", 0, SINGLE_CHAT), Row(2, u, u, "", 0, GROUP_CHAT)]
  {
    var saves := [SaveMessage(u, u, "", 0), SaveGroupMessage(u, u, "", 0)];
    assert saves[..1] == [SaveMessage(u, u, "", 0)] && saves[..1][..0] == [];
    assert Run(users, saves[..1]) == [Row(1, u, u, "", 0, SINGLE_CHAT)];
  }

  lemma GroupHidesUser(users: set<int>, groups: set<int>, u: int)
    requires u in users && u in groups
    ensures exists saves :: WellAddressed(users, groups, saves) && !NoneHidden(Run(users, saves), u)
  {
    TwoPosts(users, u);
    OneIsHidden(Row(1, u, u, "", 0, SINGLE_CHAT), Row(2, u, u, "", 0, GROUP_CHAT), u);
  }

  lemma OneIsHidden(r: Row, g: Row, u: int)
    requires Mine(r, u) && Mine(g, u) && SqlContact(r, u) == SqlContact(g, u) && r.id < g.id && r.chatType != g.chatType
    ensures !NoneHidden([r, g], u)
  {
    forall x | x in Selected([r, g], u) && SqlContact(x, u) == SqlContact(g, u) ensures x == g {
      SelectedIsLast([r, g], u, x);
      assert [r, g][1] == g;
    }
    assert [r, g][0] == r && !HasRow([r, g], u, SqlContact(r, u), r.chatType);
  }

  lemma SelectedIsLast(rows: seq<Row>, uid: int, x: Row)
    requires Table(rows) && x in Selected(rows, uid)
    ensures LastWith(rows, x, uid)
  {
    QueryIsLastPerContact(rows, uid, x);
    assert x in multiset(Selected(rows, uid));
  }

  /** `r` is the newest message by id among those that satisfy `cond`. */
  ghost predicate Newest(rows: seq<Row>, cond: Row -> bool, r: Row) {
    r in rows && cond(r) && forall s :: s in rows && cond(s) ==> s.id <= r.id
  }

  /** The user's private messages with `contact`. */
  function PrivateWith(uid: int, contact: int): Row -> bool {
    (r: Row) => r.chatType == SINGLE_CHAT && InConversation(r, uid, contact)
  }

  lemma SelectedIff(rows: seq<Row>, uid: int, r: Row)
    requires Table(rows)
    ensures r in Selected(rows, uid) <==> LastWith(rows, r, uid)
  {
    QueryIsLastPerContact(rows, uid, r);
    assert r in Selected(rows, uid) <==> r in multiset(Selected(rows, uid));
  }

  /** With disjoint ids the last message of every private conversation is shown to both users. */
  lemma PrivateLastIsShown(users: set<int>, groups: set<int>, saves: seq<Save>, uid: int, contact: int, r: Row)
    requires NoSharedId(users, groups) && WellAddressed(users, groups, saves) && uid in users && contact in users
    requires Newest(Run(users, saves), PrivateWith(uid, contact), r)
    ensures r in Selected(Run(users, saves), uid)
  {
    var rows := Run(users, saves);
    RunIsTable(users, saves);
    SelectedIff(rows, uid, r);
    forall s | s in rows && Mine(s, uid) && SqlContact(s, uid) == SqlContact(r, uid) ensures s.id <= r.id {
      TypeOfContact(users, groups, saves, uid, s);
      assert PrivateWith(uid, contact)(s);
    }
  }

  /** But a member only reads a group: its messages come to the user by no id in the row, so even with disjoint
      ids the last message of a group is shown to a user iff the user has sent it. */
  lemma GroupLastIsShownIff(users: set<int>, groups: set<int>, saves: seq<Save>, uid: int, g: int, r: Row)
    requires NoSharedId(users, groups) && WellAddressed(users, groups, saves) && uid in users && g in groups
    requires Newest(Run(users, saves), GroupConversation(g), r)
    ensures r in Selected(Run(users, saves), uid) <==> r.fromUid == uid
  {
    var rows := Run(users, saves);
    RunIsTable(users, saves);
    SelectedIff(rows, uid, r);
    if r.fromUid == uid {
      forall s | s in rows && Mine(s, uid) && SqlContact(s, uid) == SqlContact(r, uid) ensures s.id <= r.id {
        TypeOfContact(users, groups, saves, uid, s);
        RowsAreSaves(users, saves);
        assert GroupConversation(g)(s);
      }
    }
  }

  /** And a group has a row at all iff the user has posted to it, the row then being the user's own post. */
  lemma GroupHasRowIff(users: set<int>, groups: set<int>, saves: seq<Save>, uid: int, g: int)
    requires NoSharedId(users, groups) && WellAddressed(users, groups, saves) && uid in users && g in groups
    ensures (exists x :: x in Selected(Run(users, saves), uid) && InGroup(x, g))
       <==> exists s :: s in saves && s.SaveGroupMessage? && s.fromUid == uid && s.groupId == g
    ensures forall x :: x in Selected(Run(users, saves), uid) && InGroup(x, g) ==> x.fromUid == uid
  {
    var rows := Run(users, saves);
    RunIsTable(users, saves);
    RowsAreSaves(users, saves);
    forall x | x in Selected(rows, uid) && InGroup(x, g)
      ensures x.fromUid == uid && exists s :: s in saves && s.SaveGroupMessage? && s.fromUid == uid && s.groupId == g
    {
      SelectedIff(rows, uid, x);
      var s :| s in saves && Records(x, s);
    }
    if s :| s in saves && s.SaveGroupMessage? && s.fromUid == uid && s.groupId == g {
      var r :| r in rows && Records(r, s);
      OneRowPerContact(rows, uid, r);
      var x :| x in Selected(rows, uid) && SqlContact(x, uid) == SqlContact(r, uid);
      SelectedIff(rows, uid, x);
      TypeOfContact(users, groups, saves, uid, x);
      assert InGroup(x, g);
    }
  }

  /** A message as the method returns it, with the contact it recomputed. */
  datatype Last = Last(row: Row, contactId: int)

  /** The user's last messages with contacts that are newer than r. */
  ghost function NewerLast(rows: seq<Row>, rank: Row -> int, uid: int, r: Row): set<Row> {
    set x | x in rows && LastWith(rows, x, uid) && rank(x) > rank(r)
  }

  /** What is asked for: newest first, the rows that are last with their contacts and have fewer than `count`
      newer ones. */
  ghost predicate AreLast(q: seq<Row>, rows: seq<Row>, rank: Row -> int, uid: int, count: int) {
    && Descending(q, rank)
    && (forall r :: r in q <==> LastWith(rows, r, uid) && |NewerLast(rows, rank, uid, r)| < count)
  }

  lemma LimitedAreLast(rows: seq<Row>, rank: Row -> int, uid: int, count: int)
    requires Table(rows) && Ranks(rank, rows)
    ensures AreLast(Limit(OrderDesc(Selected(rows, uid), rank), count, 0), rows, rank, uid, count)
  {
    var selected := Selected(rows, uid);
    var q := OrderDesc(selected, rank);
    SelectedIsTable(rows, uid);
    OrderIsDescending(selected, rank);
    forall x ensures x in q <==> LastWith(rows, x, uid) {
      SelectedIff(rows, uid, x);
      assert x in q <==> x in multiset(q);
      assert x in selected <==> x in multiset(selected);
    }
    LimitKeepsOrder(q, rank, count, 0);
    LastRows(rows, rank, uid, q, count);
  }

  lemma LastRows(rows: seq<Row>, rank: Row -> int, uid: int, q: seq<Row>, count: int)
    requires Descending(q, rank) && forall x :: x in q <==> LastWith(rows, x, uid)
    ensures forall r :: r in Limit(q, count, 0) <==> LastWith(rows, r, uid) && |NewerLast(rows, rank, uid, r)| < count
  {
    var limited := Limit(q, count, 0);
    forall r ensures r in limited <==> LastWith(rows, r, uid) && |NewerLast(rows, rank, uid, r)| < count {
      if LastWith(rows, r, uid) {
        var i :| 0 <= i < |q| && q[i] == r;
        PlaceIsNewer(q, _ => true, rank, q, i);
        assert NewerLast(rows, rank, uid, r) == Newer(q, _ => true, rank, r);
        assert i < count ==> limited[i] == r;
        if r in limited {
          var k :| 0 <= k < |limited| && limited[k] == r;
          assert rank(q[k]) == rank(q[i]);
        }
      }
    }
  }

  function RowsIn(messages: seq<Last>): seq<Row> {
    seq(|messages|, i requires 0 <= i < |messages| => messages[i].row)
  }

  method GetLastMessages(rows: seq<Row>, rank: Row -> int, uid: int, count: int) returns (messages: seq<Last>)
    ensures RowsIn(messages) == Limit(OrderDesc(Selected(rows, uid), rank), count, 0)
    ensures Table(rows) && Ranks(rank, rows) ==> AreLast(RowsIn(messages), rows, rank, uid, count)
    ensures forall i :: 0 <= i < |messages| ==>
              var row := messages[i].row;
              messages[i].contactId == if row.fromUid == uid then row.toUid else row.fromUid
  {
    if Table(rows) && Ranks(rank, rows) {
      LimitedAreLast(rows, rank, uid, count);
    }
    var result := Limit(OrderDesc(Selected(rows, uid), rank), count, 0);
    messages := [];
    for k := 0 to |result|
      invariant |messages| == k
      invariant forall i :: 0 <= i < k ==>
                  messages[i].row == result[i] && messages[i].contactId == CppContact(result[i], uid)
    {
      var row := result[k];
      var contactId := if row.fromUid == uid then row.toUid else row.fromUid;
      messages := messages + [Last(row, contactId)];
    }
    assert RowsIn(messages) == result;
  }

  /** The limit keeps the most recent conversations: no message it leaves out is newer than one it keeps. */
  lemma LimitKeepsNewest(rows: seq<Row>, rank: Row -> int, uid: int, count: nat, x: Row, y: Row)
    requires Table(rows) && Ranks(rank, rows)
    requires var q := OrderDesc(Selected(rows, uid), rank);
             x in Limit(q, count, 0) && y in q && y !in Limit(q, count, 0)
    ensures rank(y) < rank(x) && y.sendTime <= x.sendTime
  {
    var q := OrderDesc(Selected(rows, uid), rank);
    SelectedIsTable(rows, uid);
    OrderIsDescending(Selected(rows, uid), rank);
    var i :| 0 <= i < |Limit(q, count, 0)| && Limit(q, count, 0)[i] == x;
    var j :| 0 <= j < |q| && q[j] == y;
    assert q[i] == x;
    forall k | 0 <= k < |Limit(q, count, 0)| ensures q[k] != y {
      assert Limit(q, count, 0)[k] == q[k];
    }
    assert x in multiset(q) && y in multiset(q);
    assert x in Selected(rows, uid) && y in Selected(rows, uid);
  }

  lemma SelectedIsTable(rows: seq<Row>, uid: int)
    requires Table(rows)
    ensures Table(Selected(rows, uid))
    ensures forall x :: x in Selected(rows, uid) ==> x in rows
  {
    var s := Selected(rows, uid);
    forall x | x in s ensures x in rows {
      QueryIsLastPerContact(rows, uid, x);
      assert x in multiset(s);
    }
    forall i, j | 0 <= i < j < |s| ensures s[i].id != s[j].id {
      QueryIsLastPerContact(rows, uid, s[i]);
      if s[i].id == s[j].id {
        SameRow(rows, s[i], s[j]);
        TwiceCounts(s, i, j);
        assert false;
      }
    }
  }

  lemma TwiceCounts(s: seq<Row>, i: nat, j: nat)
    requires i < j < |s| && s[i] == s[j]
    ensures multiset(s)[s[i]] >= 2
  {
    assert s == s[..j] + ([s[j]] + s[j + 1..]);
    assert s[..j][i] in multiset(s[..j]);
  }
}
