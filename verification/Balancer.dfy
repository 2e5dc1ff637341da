/** choseChatServer's load balancing.  The selection is the first server, in whatever order the hash table
    is walked, whose connection count as read from Redis is least; here is what that rule gives when the
    reads see the increments, and what it gives with the commands the service actually issues. */
module Balancer {

  const INT_MAX := 0x7FFF_FFFF

  /** `i` is the selected position of `order`; -1 stands for the remembered server. */
  ghost predicate Selects(order: seq<string>, read: string -> int, i: int) {
    if exists k :: 0 <= k < |order| && read(order[k]) < INT_MAX then
      && 0 <= i < |order|
      && (forall k :: 0 <= k < |order| ==> read(order[i]) <= read(order[k]))
      && (forall k :: 0 <= k < i ==> read(order[i]) < read(order[k]))
    else i == -1
  }

  /** One turn of the selection loop. */
  lemma ScanStep(order: seq<string>, last: string, read: string -> int, j: int)
    requires Selects(order, read, j)
    ensures Selects(order + [last], read,
              if read(last) < (if j == -1 then INT_MAX else read(order[j])) then |order| else j)
  {
    var all := order + [last];
    assert all[|order|] == last;
    assert forall k :: 0 <= k < |order| ==> all[k] == order[k];
  }

  /** The same turn while walking `order`. */
  lemma ScanTurn(order: seq<string>, i: nat, read: string -> int, j: int)
    requires i < |order| && Selects(order[..i], read, j)
    ensures Selects(order[..i + 1], read, if read(order[i]) < (if j == -1 then INT_MAX else read(order[j])) then i else j)
  {
    assert order[..i + 1] == order[..i] + [order[i]];
    ScanStep(order[..i], order[i], read, j);
  }

  /** The running minimum of the selection loop. */
  function Select(order: seq<string>, read: string -> int): (i: int)
    ensures Selects(order, read, i)
  {
    if order == [] then -1
    else
      var before, last := order[..|order| - 1], order[|order| - 1];
      var j := Select(before, read);
      ScanStep(before, last, read, j);
      assert order == before + [last];
      if read(last) < (if j == -1 then INT_MAX else read(before[j])) then |before| else j
  }

  /** How often `name` has been chosen. */
  function Count(picks: seq<string>, name: string): nat {
    multiset(picks)[name]
  }

  ghost predicate Walks(order: seq<string>, names: set<string>) {
    && (forall k :: 0 <= k < |order| ==> order[k] in names)
    && (forall n :: n in names ==> n in order)
  }

  /** A run of choices over a fixed registry when each read returns the increments so far, counts start at
      zero and nobody disconnects; every choice may walk the table in its own order. */
  ghost predicate BalancedRun(names: set<string>, picks: seq<string>) {
    forall k :: 0 <= k < |picks| ==> ChosenAt(names, picks, k)
  }

  ghost predicate Picked(names: set<string>, picks: seq<string>, k: nat, order: seq<string>, i: int)
    requires k < |picks|
  {
    && Walks(order, names) && Selects(order, n => Count(picks[..k], n), i)
    && (if i == -1 then k > 0 && picks[k] == picks[k - 1] else i < |order| && picks[k] == order[i])
  }

  ghost predicate ChosenAt(names: set<string>, picks: seq<string>, k: nat)
    requires k < |picks|
  {
    exists order: seq<string>, i: int :: Picked(names, picks, k, order, i)
  }

  /** `n` copies of every element. */
  function Each(names: set<string>, n: nat): multiset<string> {
    if n == 0 then multiset{} else multiset(names) + Each(names, n - 1)
  }

  ghost predicate AllAtLeast(names: set<string>, picks: seq<string>, c: nat) {
    forall n :: n in names ==> Count(picks, n) >= c
  }

  lemma {:induction false} EachCount(names: set<string>, n: nat, x: string)
    ensures Each(names, n)[x] == if x in names then n else 0
    ensures |Each(names, n)| == n * |names|
  {
    if n > 0 {
      EachCount(names, n - 1, x);
      assert n * |names| == |names| + (n - 1) * |names|;
    }
  }

  lemma SubmultisetSize(a: multiset<string>, b: multiset<string>)
    requires a <= b
    ensures |a| <= |b|
  {
    assert b == a + (b - a);
  }

  /** If every server has been chosen at least c times there have been at least c choices per server. */
  lemma PicksAtLeast(names: set<string>, picks: seq<string>, c: nat)
    requires AllAtLeast(names, picks, c)
    ensures c * |names| <= |picks|
  {
    forall x ensures Each(names, c)[x] <= multiset(picks)[x] {
      EachCount(names, c, x);
    }
    EachCount(names, c, "");
    SubmultisetSize(Each(names, c), multiset(picks));
  }

  /** If no server has been chosen more than c times there have been at most c choices per server. */
  lemma PicksAtMost(names: set<string>, picks: seq<string>, c: nat)
    requires forall k :: 0 <= k < |picks| ==> picks[k] in names
    requires forall n :: n in names ==> Count(picks, n) <= c
    ensures |picks| <= c * |names|
  {
    forall x ensures multiset(picks)[x] <= Each(names, c)[x] {
      EachCount(names, c, x);
      if x !in names {
        assert x !in picks;
      }
    }
    EachCount(names, c, "");
    SubmultisetSize(multiset(picks), Each(names, c));
  }

  /** Below the integer limit the choice is always a registered server with the least count. */
  lemma ChoiceIsLeast(names: set<string>, picks: seq<string>, k: nat)
    requires k < |picks| && ChosenAt(names, picks, k) && k < INT_MAX * |names|
    ensures picks[k] in names
    ensures forall n :: n in names ==> Count(picks[..k], picks[k]) <= Count(picks[..k], n)
  {
    var order, i :| Picked(names, picks, k, order, i);
    var read := n => Count(picks[..k], n);
    if AllAtLeast(names, picks[..k], INT_MAX) {
      PicksAtLeast(names, picks[..k], INT_MAX);
      assert false;
    }
    var n :| n in names && Count(picks[..k], n) < INT_MAX;
    var j :| 0 <= j < |order| && order[j] == n;
    assert read(order[j]) < INT_MAX;
    forall m | m in names ensures Count(picks[..k], picks[k]) <= Count(picks[..k], m) {
      var l :| 0 <= l < |order| && order[l] == m;
      assert read(order[i]) <= read(order[l]);
    }
  }

  ghost predicate Between(names: set<string>, picks: seq<string>, c: nat) {
    forall n :: n in names ==> c <= Count(picks, n) <= c + 1
  }

  /** Greedy balance: if reads see the increments then after any number of choices every server has been
      chosen c or c + 1 times for one c, and the choices number between c and c + 1 per server. */
  lemma {:induction false} GreedyBalance(names: set<string>, picks: seq<string>) returns (c: nat)
    requires names != {} && BalancedRun(names, picks) && |picks| <= INT_MAX * |names|
    ensures forall k :: 0 <= k < |picks| ==> picks[k] in names
    ensures Between(names, picks, c)
    ensures c * |names| <= |picks| <= (c + 1) * |names|
  {
    if picks == [] {
      c := 0;
    } else {
      var k := |picks| - 1;
      var p, x := picks[..k], picks[k];
      PrefixRun(names, picks);
      c := GreedyBalance(names, p);
      assert ChosenAt(names, picks, k);
      ChoiceIsLeast(names, picks, k);
      assert picks == p + [x];
      forall n ensures Count(picks, n) == Count(p, n) + (if n == x then 1 else 0) {}
      if Count(p, x) == c + 1 {
        c := c + 1;
      }
    }
    PicksAtLeast(names, picks, c);
    PicksAtMost(names, picks, c + 1);
  }

  lemma PrefixRun(names: set<string>, picks: seq<string>)
    requires picks != [] && BalancedRun(names, picks)
    ensures BalancedRun(names, picks[..|picks| - 1])
  {
    var p := picks[..|picks| - 1];
    forall k | 0 <= k < |p| ensures ChosenAt(names, p, k) {
      assert ChosenAt(names, picks, k);
      var order, i :| Picked(names, picks, k, order, i);
      assert p[..k] == picks[..k];
      assert Picked(names, p, k, order, i);
    }
  }

  /** A connection-count key of the store: a string that holds a number, or a hash with a `count` field. */
  datatype CountKey = Number(n: int) | Hash(count: int)

  type Counts = map<string, CountKey>

  /** What the loop reads: GET answers only for a string, and a failed read counts as zero. */
  function Read(counts: Counts, name: string): int {
    if name in counts && counts[name].Number? then counts[name].n else 0
  }

  function Reader(counts: Counts): string -> int {
    name => Read(counts, name)
  }

  /** HINCRBY key "count" 1, which fails on a string. */
  function Incremented(counts: Counts, name: string): Counts {
    if name !in counts then counts[name := Hash(1)]
    else if counts[name].Hash? then counts[name := Hash(counts[name].count + 1)]
    else counts
  }

  /** An increment counts a choice and touches no other key, and no read ever sees it. */
  lemma IncrementIsInvisible(counts: Counts, x: string, y: string)
    ensures Read(Incremented(counts, x), y) == Read(counts, y)
    ensures y != x ==> (y in Incremented(counts, x) <==> y in counts)
    ensures y != x && y in counts ==> Incremented(counts, x)[y] == counts[y]
    ensures x !in counts ==> x in Incremented(counts, x) && Incremented(counts, x)[x] == Hash(1)
    ensures x in counts && counts[x].Hash? ==>
              x in Incremented(counts, x) && Incremented(counts, x)[x] == Hash(counts[x].count + 1)
    ensures y in counts && counts[y].Number? ==> Read(counts, y) == counts[y].n
  {
  }

  /** n choices over a fixed table walked in a fixed order, with the commands the service issues. */
  function ServicePicks(order: seq<string>, counts: Counts, n: nat): seq<string>
    requires order != []
    decreases n
  {
    if n == 0 then []
    else
      var i := Select(order, Reader(counts));
      var x := if 0 <= i < |order| then order[i] else "";
      [x] + ServicePicks(order, Incremented(counts, x), n - 1)
  }

  predicate OnlyHashes(counts: Counts) {
    forall n :: n in counts ==> counts[n].Hash?
  }

  lemma ZeroReadsSelectFirst(order: seq<string>, counts: Counts)
    requires order != [] && OnlyHashes(counts)
    ensures Select(order, Reader(counts)) == 0
  {
    assert Reader(counts)(order[0]) < INT_MAX;
    assert Selects(order, Reader(counts), Select(order, Reader(counts)));
  }

  lemma {:induction false} ServiceAlwaysPicksFirst(order: seq<string>, counts: Counts, n: nat)
    requires order != [] && OnlyHashes(counts)
    ensures |ServicePicks(order, counts, n)| == n
    ensures forall k :: 0 <= k < n ==> ServicePicks(order, counts, n)[k] == order[0]
    decreases n
  {
    if n > 0 {
      ZeroReadsSelectFirst(order, counts);
      assert OnlyHashes(Incremented(counts, order[0]));
      ServiceAlwaysPicksFirst(order, Incremented(counts, order[0]), n - 1);
    }
  }

  /** GET never sees what HINCRBY wrote, so the service balances exactly when it has no choice to make:
      with one server, or before the second login. */
  lemma ServiceBalancesOnlyTrivially(order: seq<string>, counts: Counts, n: nat)
    requires order != [] && OnlyHashes(counts)
    requires forall i, j :: 0 <= i < j < |order| ==> order[i] != order[j]
    ensures (forall s, t :: s in order && t in order ==>
               Count(ServicePicks(order, counts, n), s) <= Count(ServicePicks(order, counts, n), t) + 1)
       <==> |order| == 1 || n <= 1
  {
    var picks := ServicePicks(order, counts, n);
    ServiceAlwaysPicksFirst(order, counts, n);
    CountOfConstant(picks, order[0]);
    if |order| > 1 {
      assert order[0] in order && order[1] in order && order[0] != order[1];
      assert Count(picks, order[0]) == n && Count(picks, order[1]) == 0;
    } else {
      assert forall s :: s in order ==> s == order[0];
    }
  }

  lemma {:induction false} CountOfConstant(picks: seq<string>, x: string)
    requires forall k :: 0 <= k < |picks| ==> picks[k] == x
    ensures Count(picks, x) == |picks|
    ensures forall y :: y != x ==> Count(picks, y) == 0
  {
    if picks != [] {
      CountOfConstant(picks[1..], x);
      assert picks == [x] + picks[1..];
    }
  }
}
