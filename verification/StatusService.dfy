/** StatusServiceImpl in the source's own form: one object whose RPC methods and health-check loop update
    the server table, the remembered server and the store, proved against Registry, Balancer and Tokens.
    The order in which an unordered_map is walked is a parameter of the walk. */
module StatusService {
  import opened Wrappers
  import Registry
  import Balancer
  import Tokens

  datatype Endpoint = Endpoint(name: string, host: string, port: string)

  function EndpointOf(s: Registry.Server): Endpoint {
    Endpoint(s.name, s.host, s.port)
  }

  /** `order` lists every key once. */
  ghost predicate Walks(order: seq<string>, t: Registry.Table) {
    && (forall i :: 0 <= i < |order| ==> order[i] in t)
    && (forall n :: n in t ==> n in order)
    && (forall i, j :: 0 <= i < j < |order| ==> order[i] != order[j])
  }

  /** The configuration's servers; a name configured twice keeps its first entry. */
  function Configured(config: seq<Endpoint>): (t: Registry.Table)
    ensures Registry.StartUp(t)
  {
    if config == [] then map[]
    else
      var t, e := Configured(config[..|config| - 1]), config[|config| - 1];
      if e.name in t then t else t[e.name := Registry.Server(e.name, e.host, e.port, 0)]
  }

  /** A name is configured iff an entry has it, and its address is that of the first such entry. */
  lemma {:induction false} FirstEntryWins(config: seq<Endpoint>, i: nat)
    requires i < |config| && forall k :: 0 <= k < i ==> config[k].name != config[i].name
    ensures var t := Configured(config);
            config[i].name in t && EndpointOf(t[config[i].name]) == config[i]
            && forall n :: n in t ==> exists k :: 0 <= k < |config| && config[k].name == n
  {
    var p := config[..|config| - 1];
    if i < |p| {
      FirstEntryWins(p, i);
      assert forall k :: 0 <= k < |p| ==> p[k] == config[k];
    } else {
      NamesAreConfigured(p);
      assert forall k :: 0 <= k < |p| ==> p[k] == config[k];
    }
  }

  lemma {:induction false} NamesAreConfigured(config: seq<Endpoint>)
    ensures forall n :: n in Configured(config) ==> exists k :: 0 <= k < |config| && config[k].name == n
  {
    if config != [] {
      var p := config[..|config| - 1];
      NamesAreConfigured(p);
      assert forall k :: 0 <= k < |p| ==> p[k] == config[k];
    }
  }

  /** The table when the entries of `done` have been visited. */
  ghost function CheckedSoFar(t: Registry.Table, done: set<string>): Registry.Table {
    map n | n in t && (n in done ==> t[n].missed < Registry.MAX_MISSED) ::
      if n in done then t[n].(missed := t[n].missed + 1) else t[n]
  }

  lemma CheckNext(t: Registry.Table, counts: Balancer.Counts, done: set<string>, name: string)
    requires name in t && name !in done
    ensures var now, next := CheckedSoFar(t, done), CheckedSoFar(t, done + {name});
            && name in now && now[name] == t[name]
            && next == if t[name].missed >= Registry.MAX_MISSED then now - {name}
                       else now[name := t[name].(missed := t[name].missed + 1)]
    ensures counts - (Registry.Evicted(t) * (done + {name}))
         == counts - (Registry.Evicted(t) * done) - (if t[name].missed >= Registry.MAX_MISSED then {name} else {})
  {
  }

  lemma CheckedAll(t: Registry.Table, done: set<string>)
    requires done == t.Keys
    ensures CheckedSoFar(t, done) == Registry.Checked(t) && Registry.Evicted(t) * done == Registry.Evicted(t)
  {
  }

  ghost function Visited(order: seq<string>, i: nat): set<string>
    requires i <= |order|
  {
    set k | 0 <= k < i :: order[k]
  }

  lemma VisitNext(order: seq<string>, t: Registry.Table, i: nat)
    requires Walks(order, t) && i < |order|
    ensures order[i] in t && order[i] !in Visited(order, i)
    ensures Visited(order, i + 1) == Visited(order, i) + {order[i]}
  {
  }

  lemma VisitedAll(order: seq<string>, t: Registry.Table)
    requires Walks(order, t)
    ensures Visited(order, |order|) == t.Keys
  {
  }

  /** The entries left when the one at the iterator is erased; the iterator's place is then that of the
      next one. */
  function Erased(entries: seq<string>, it: nat): seq<string>
    requires it < |entries|
  {
    entries[..it] + entries[it + 1..]
  }

  lemma EraseWalks(entries: seq<string>, it: nat, t: Registry.Table)
    requires Walks(entries, t) && it < |entries|
    ensures Walks(Erased(entries, it), t - {entries[it]})
  {
    var left := Erased(entries, it);
    forall n | n in t - {entries[it]} ensures n in left {
      var i :| 0 <= i < |entries| && entries[i] == n;
      assert left[if i < it then i else i - 1] == n;
    }
  }

  /** The iterator is at place `it` of `entries`, and has visited the rest of the walk. */
  predicate AtPlace(walk: seq<string>, visited: seq<string>, entries: seq<string>, it: nat) {
    it <= |entries| && visited + entries[it..] == walk
  }

  /** Erasing or passing the entry at the iterator, the walk goes on with the one after it. */
  lemma PlaceNext(walk: seq<string>, visited: seq<string>, entries: seq<string>, it: nat)
    requires AtPlace(walk, visited, entries, it) && it < |entries|
    ensures |visited| < |walk| && entries[it] == walk[|visited|]
    ensures AtPlace(walk, visited + [entries[it]], Erased(entries, it), it)
    ensures AtPlace(walk, visited + [entries[it]], entries, it + 1)
  {
    assert entries[it..] == [entries[it]] + entries[it + 1..];
    assert (visited + entries[it..])[|visited|] == entries[it];
    assert Erased(entries, it)[it..] == entries[it + 1..];
  }

  /** The table and the counts when the first i entries of the walk have been treated. */
  ghost predicate Treated(start: Registry.Table, startCounts: Balancer.Counts, walk: seq<string>, i: nat,
                          t: Registry.Table, counts: Balancer.Counts) {
    && i <= |walk| && t == CheckedSoFar(start, Visited(walk, i))
    && counts == startCounts - (Registry.Evicted(start) * Visited(walk, i))
  }

  /** One entry's treatment: an entry silent for too long goes together with its count. */
  function TableAfter(t: Registry.Table, n: string): Registry.Table
    requires n in t
  {
    if t[n].missed >= Registry.MAX_MISSED then t - {n} else t[n := t[n].(missed := t[n].missed + 1)]
  }

  function CountsAfter(t: Registry.Table, counts: Balancer.Counts, n: string): Balancer.Counts
    requires n in t
  {
    if t[n].missed >= Registry.MAX_MISSED then counts - {n} else counts
  }

  lemma TreatedNext(start: Registry.Table, startCounts: Balancer.Counts, walk: seq<string>, i: nat,
                    t: Registry.Table, counts: Balancer.Counts)
    requires Walks(walk, start) && i < |walk| && Treated(start, startCounts, walk, i, t, counts)
    ensures walk[i] in t
    ensures Treated(start, startCounts, walk, i + 1, TableAfter(t, walk[i]), CountsAfter(t, counts, walk[i]))
  {
    VisitNext(walk, start, i);
    CheckNext(start, startCounts, Visited(walk, i), walk[i]);
    assert counts - {} == counts;
  }

  lemma TreatedNone(start: Registry.Table, startCounts: Balancer.Counts, walk: seq<string>)
    ensures Treated(start, startCounts, walk, 0, start, startCounts) && AtPlace(walk, [], walk, 0)
  {
    assert Visited(walk, 0) == {} && [] + walk == walk;
    assert startCounts - {} == startCounts;
  }

  lemma TreatedAll(start: Registry.Table, startCounts: Balancer.Counts, walk: seq<string>, visited: seq<string>,
                   t: Registry.Table, counts: Balancer.Counts, entries: seq<string>, it: nat)
    requires Walks(walk, start) && AtPlace(walk, visited, entries, it) && it == |entries|
    requires Treated(start, startCounts, walk, |visited|, t, counts)
    ensures visited == walk && t == Registry.Checked(start) && counts == startCounts - Registry.Evicted(start)
  {
    assert visited == walk;
    VisitedAll(walk, start);
    CheckedAll(start, Visited(walk, |walk|));
  }

  class StatusServiceImpl {
    var chatServers: Registry.Table
    var freeServer: Endpoint
    var counts: Balancer.Counts      // the keys "chatserver:<name>:connections"
    var store: Tokens.TokenState     // the keys "token_<uid>", and the store's clock

    /** Every entry is filed under its own name. */
    ghost predicate Valid()
      reads this
    {
      forall n :: n in chatServers ==> chatServers[n].name == n
    }

    /** `first` is the entry an iterator over the new table starts at. */
    constructor (config: seq<Endpoint>, first: string)
      requires config != [] ==> first in Configured(config)
      ensures Valid() && chatServers == Configured(config)
      ensures config != [] ==> freeServer == EndpointOf(chatServers[first])
      ensures counts == map[] && store == Tokens.After([])
    {
      var t: Registry.Table := map[];
      for i := 0 to |config|
        invariant t == Configured(config[..i])
      {
        assert config[..i + 1][..i] == config[..i];
        var e := config[i];
        if e.name !in t {
          t := t[e.name := Registry.Server(e.name, e.host, e.port, 0)];
        }
      }
      assert config[..|config|] == config;
      chatServers := t;
      freeServer := if |config| > 0 then EndpointOf(t[first]) else Endpoint("", "", "");
      counts, store := map[], Tokens.TokenState(map[], 0);
    }

    method RegisterChatServer(name: string, host: string, port: string)
      requires Valid()
      modifies `chatServers
      ensures Valid() && chatServers == Registry.Apply(old(chatServers), Registry.Register(name, host, port))
    {
      var server := Registry.Server(name, host, port, 0);
      chatServers := chatServers[server.name := server];
    }

    method Heartbeat(name: string) returns (found: bool)
      requires Valid()
      modifies `chatServers
      ensures Valid() && chatServers == Registry.Apply(old(chatServers), Registry.Heartbeat(name))
      ensures found <==> name in old(chatServers)
    {
      found := name in chatServers;
      if found {
        chatServers := chatServers[name := chatServers[name].(missed := 0)];
      }
    }

    /** One round of startHealthCheck.  `walk` is the order in which the table's entries come when the walk
        begins; `entries` is that of the entries still in the table, and `it` the iterator's place in it.
        Erasing an entry leaves the iterator at the next one, so the walk treats every entry exactly once,
        although it changes the table. */
    method HealthCheck(walk: seq<string>) returns (entries: seq<string>, ghost visited: seq<string>)
      requires Valid() && Walks(walk, chatServers)
      modifies `chatServers, `counts
      ensures Valid() && chatServers == Registry.Apply(old(chatServers), Registry.Tick)
      ensures counts == old(counts) - Registry.Evicted(old(chatServers))
      ensures visited == walk && Walks(entries, chatServers)
    {
      ghost var start, startCounts := chatServers, counts;
      entries, visited := walk, [];
      var it: nat := 0;
      TreatedNone(start, startCounts, walk);
      while it < |entries|
        invariant Valid() && Walks(entries, chatServers) && AtPlace(walk, visited, entries, it)
        invariant Treated(start, startCounts, walk, |visited|, chatServers, counts)
        decreases |entries| - it
      {
        ghost var name := entries[it];
        entries, it := VisitEntry(start, startCounts, walk, visited, entries, it);
        visited := visited + [name];
      }
      TreatedAll(start, startCounts, walk, visited, chatServers, counts, entries, it);
    }

    /** One turn of the loop. */
    method VisitEntry(ghost start: Registry.Table, ghost startCounts: Balancer.Counts, ghost walk: seq<string>,
                      ghost visited: seq<string>, entries: seq<string>, it: nat) returns (left: seq<string>, next: nat)
      requires Valid() && Walks(entries, chatServers) && AtPlace(walk, visited, entries, it) && it < |entries|
      requires Walks(walk, start) && Treated(start, startCounts, walk, |visited|, chatServers, counts)
      modifies `chatServers, `counts
      ensures Valid() && Walks(left, chatServers) && AtPlace(walk, visited + [entries[it]], left, next)
      ensures Treated(start, startCounts, walk, |visited| + 1, chatServers, counts)
      ensures |left| - next < |entries| - it
    {
      PlaceNext(walk, visited, entries, it);
      TreatedNext(start, startCounts, walk, |visited|, chatServers, counts);
      left, next := CheckEntry(entries, it);
    }

    /** The body of that loop: the entry is erased together with its count, or counted silent and passed. */
    method CheckEntry(entries: seq<string>, it: nat) returns (left: seq<string>, next: nat)
      requires Valid() && Walks(entries, chatServers) && it < |entries|
      modifies `chatServers, `counts
      ensures Valid() && Walks(left, chatServers)
      ensures chatServers == TableAfter(old(chatServers), entries[it])
      ensures counts == CountsAfter(old(chatServers), old(counts), entries[it])
      ensures if old(chatServers)[entries[it]].missed >= Registry.MAX_MISSED then left == Erased(entries, it) && next == it
              else left == entries && next == it + 1
    {
      var name := entries[it];
      if chatServers[name].missed >= Registry.MAX_MISSED {
        EraseWalks(entries, it, chatServers);
        counts := counts - {name};
        chatServers := chatServers - {name};
        return Erased(entries, it), it;
      }
      chatServers := chatServers[name := chatServers[name].(missed := chatServers[name].missed + 1)];
      return entries, it + 1;
    }

    /** choseChatServer: the position selected in the walk, or -1 for the remembered server. */
    method ChoseChatServer(order: seq<string>) returns (selected: Endpoint, ghost position: int)
      requires Valid() && Walks(order, chatServers)
      modifies `freeServer, `counts
      ensures Balancer.Selects(order, Balancer.Reader(old(counts)), position)
      ensures selected == (if position == -1 then old(freeServer) else EndpointOf(chatServers[order[position]]))
      ensures freeServer == selected && counts == Balancer.Incremented(old(counts), selected.name)
    {
      selected, position := freeServer, -1;
      var minConnections := Balancer.INT_MAX;
      ghost var read := Balancer.Reader(old(counts));
      for i := 0 to |order|
        invariant Balancer.Selects(order[..i], read, position)
        invariant minConnections == if position == -1 then Balancer.INT_MAX else read(order[position])
        invariant selected == if position == -1 then old(freeServer) else EndpointOf(chatServers[order[position]])
        modifies {}
      {
        Balancer.ScanTurn(order, i, read, position);
        var currentCount := Balancer.Read(counts, order[i]);
        if currentCount < minConnections {
          minConnections := currentCount;
          selected := EndpointOf(chatServers[order[i]]);
          position := i;
        }
      }
      assert order[..|order|] == order;
      counts := Balancer.Incremented(counts, selected.name);
      freeServer := selected;
    }

    method GetChatServer(order: seq<string>, uid: int, uuid: string) returns (host: string, port: string, token: string)
      requires Valid() && Walks(order, chatServers)
      modifies `freeServer, `counts, `store
      ensures token == uuid && store == Tokens.Apply(old(store), Tokens.Issue(uid, uuid))
      ensures freeServer.host == host && freeServer.port == port
      ensures counts == Balancer.Incremented(old(counts), freeServer.name)
      ensures exists i :: Balancer.Selects(order, Balancer.Reader(old(counts)), i)
                && freeServer == if i == -1 then old(freeServer) else EndpointOf(chatServers[order[i]])
      ensures chatServers != map[] && (forall n :: n in chatServers ==> Balancer.Read(old(counts), n) < Balancer.INT_MAX) ==>
                && freeServer.name in chatServers && freeServer == EndpointOf(chatServers[freeServer.name])
                && forall n :: n in chatServers ==> Balancer.Read(old(counts), freeServer.name) <= Balancer.Read(old(counts), n)
    {
      ghost var position;
      var selected;
      selected, position := ChoseChatServer(order);
      ghost var read := Balancer.Reader(old(counts));
      if chatServers != map[] && forall n :: n in chatServers ==> read(n) < Balancer.INT_MAX {
        var n :| n in chatServers;
        assert n in order;
        var k :| 0 <= k < |order| && order[k] == n;
        assert read(order[k]) < Balancer.INT_MAX;
      }
      host, port, token := selected.host, selected.port, uuid;
      InsertToken(uid, token);
    }

    method InsertToken(uid: int, token: string)
      modifies `store
      ensures store == Tokens.Apply(old(store), Tokens.Issue(uid, token))
    {
      store := store.(tokens := store.tokens[uid := Tokens.Entry(token, store.now + Tokens.TOKEN_TTL)]);
    }

    /** The store's GET on the user's token key. */
    method GetToken(uid: int) returns (stored: Option<string>)
      ensures forall t :: stored == Some(t) <==> Tokens.Accepts(store, uid, t)
    {
      if uid in store.tokens && store.now < store.tokens[uid].expires {
        stored := Some(store.tokens[uid].token);
      } else {
        stored := None;
      }
    }

    method CheckToken(uid: int, token: string) returns (success: bool)
      modifies `store
      ensures success <==> Tokens.Accepts(old(store), uid, token)
      ensures store == Tokens.Apply(old(store), Tokens.Check(uid, token))
    {
      var stored := GetToken(uid);
      success := stored == Some(token);
      if success {
        store := store.(tokens := store.tokens - {uid});
      }
    }
  }
}
