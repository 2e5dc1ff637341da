/** The other half of routing: an addressee without a session at the origin, but with one on a server
    subscribed to its channel, is handed a copy there. */
module Handover {
  import opened Wrappers
  import opened Rendering
  import opened Routing

  function ServerAt(n: nat, es: seq<Event>, k: nat): Server
    requires k < n
  {
    After(n, es).servers[k]
  }

  /** Event e relays `notice` for `uid`, who has no session on that server. */
  ghost predicate Relays(w: World, e: Event, notice: Notice, uid: int) {
    && Advances(w, e)
    && var job := w.servers[e.k].jobs[e.j];
       job.notice == notice && job.relay && job.left[0] == uid && !Skips(notice, uid)
       && uid !in w.servers[e.k].sessions
  }

  lemma RelayReaches(w: World, e: Event, notice: Notice, uid: int, k: nat)
    requires Relays(w, e, notice, uid) && k < |w.servers| && uid in w.servers[k].subscribed
    ensures Step(w, e).servers[k].inbox == w.servers[k].inbox + [notice]
  {
  }

  lemma {:induction false} InboxGrows(n: nat, es: seq<Event>, a: nat, k: nat)
    requires a <= |es| && k < n
    ensures ServerAt(n, es[..a], k).inbox <= ServerAt(n, es, k).inbox
  {
    if a < |es| {
      var p := es[..|es| - 1];
      assert p[..a] == es[..a];
      InboxGrows(n, p, a, k);
      InboxStep(After(n, p), es[|es| - 1], k);
    } else {
      assert es[..a] == es;
    }
  }

  ghost predicate Handed(w: World, k: nat, uid: int, note: Notification) {
    exists d :: d in w.delivered && d.server == k && d.uid == uid && d.note == note
  }

  /** Job q of server k is a loop for `notice` that has `uid` still ahead of it or has served it. */
  ghost predicate OnTheWay(w: World, k: nat, q: nat, notice: Notice, uid: int) {
    && k < |w.servers| && q < |w.servers[k].jobs|
    && w.servers[k].jobs[q].notice == notice && w.servers[k].jobs[q].note == Local(notice)
    && (uid in w.servers[k].jobs[q].left || Handed(w, k, uid, Local(notice)))
  }

  lemma HandedLater(w: World, e: Event, k: nat, uid: int, note: Notification)
    requires Handed(w, k, uid, note)
    ensures Handed(Step(w, e), k, uid, note)
  {
    var d :| d in w.delivered && d.server == k && d.uid == uid && d.note == note;
    DeliveryStep(w, e);
    assert d in Step(w, e).delivered;
  }

  lemma LookupHands(w: World, k: nat, q: nat, uid: int)
    requires k < |w.servers| && q < |w.servers[k].jobs| && w.servers[k].jobs[q].left != []
    requires w.servers[k].jobs[q].left[0] == uid && !Skips(w.servers[k].jobs[q].notice, uid)
    requires uid in w.servers[k].sessions
    ensures Handed(Step(w, Advance(k, q)), k, uid, w.servers[k].jobs[q].note)
  {
    var d := Delivery(k, w.servers[k].sessions[uid], uid, w.servers[k].jobs[q].note);
    var delivered := Step(w, Advance(k, q)).delivered;
    assert delivered == w.delivered + [d];
    assert delivered[|w.delivered|] == d;
  }

  lemma StaysOnTheWay(w: World, e: Event, k: nat, q: nat, notice: Notice, uid: int)
    requires OnTheWay(w, k, q, notice, uid) && uid in w.servers[k].sessions && !Skips(notice, uid)
    ensures OnTheWay(Step(w, e), k, q, notice, uid)
  {
    JobsStep(w, e, k);
    InboxStep(w, e, k);
    if Handed(w, k, uid, Local(notice)) {
      HandedLater(w, e, k, uid, Local(notice));
    } else if e == Advance(k, q) && Advances(w, e) && w.servers[k].jobs[q].left[0] == uid {
      LookupHands(w, k, q, uid);
    }
  }

  /** The callback that takes the record starts a loop with the addressee ahead of it. */
  lemma CallbackPutsOnTheWay(w: World, k: nat, notice: Notice, uid: int)
    requires k < |w.servers| && w.servers[k].taken < |w.servers[k].inbox|
    requires w.servers[k].inbox[w.servers[k].taken] == notice && uid in Visits(w, Addressee(notice))
    ensures OnTheWay(Step(w, Callback(k)), k, |w.servers[k].jobs|, notice, uid)
  {
  }

  lemma {:induction false} KeptOnTheWay(n: nat, es: seq<Event>, b: nat, k: nat, q: nat, notice: Notice, uid: int)
    requires b <= |es| && k < n && !Skips(notice, uid)
    requires OnTheWay(After(n, es[..b]), k, q, notice, uid)
    requires forall c :: b <= c < |es| ==> uid in ServerAt(n, es[..c], k).sessions
    ensures OnTheWay(After(n, es), k, q, notice, uid)
  {
    if b < |es| {
      var p := es[..|es| - 1];
      assert p[..b] == es[..b];
      forall c | b <= c < |p| ensures uid in ServerAt(n, p[..c], k).sessions {
        assert p[..c] == es[..c];
      }
      KeptOnTheWay(n, p, b, k, q, notice, uid);
      assert uid in ServerAt(n, p, k).sessions;
      StaysOnTheWay(After(n, p), es[|es| - 1], k, q, notice, uid);
    } else {
      assert es[..b] == es;
    }
  }

  ghost predicate LoopDone(n: nat, es: seq<Event>, k: nat, q: nat)
    requires k < n
  {
    q < |ServerAt(n, es, k).jobs| ==> ServerAt(n, es, k).jobs[q].left == []
  }

  /** The relayed record is still where it arrived when the callback gets to it. */
  lemma RecordArrives(n: nat, es: seq<Event>, a: nat, b: nat, k: nat, notice: Notice, uid: int)
    requires a < b <= |es| && k < n
    requires Relays(After(n, es[..a]), es[a], notice, uid) && uid in ServerAt(n, es[..a], k).subscribed
    ensures var p := |ServerAt(n, es[..a], k).inbox|;
            p < |ServerAt(n, es[..b], k).inbox| && ServerAt(n, es[..b], k).inbox[p] == notice
  {
    RelayReaches(After(n, es[..a]), es[a], notice, uid, k);
    assert es[..a + 1] == es[..a] + [es[a]];
    Snoc(n, es[..a], es[a]);
    assert es[..b][..a + 1] == es[..a + 1];
    InboxGrows(n, es[..b], a + 1, k);
  }

  lemma CallbackAt(n: nat, es: seq<Event>, b: nat, k: nat, notice: Notice, uid: int)
    requires b < |es| && k < n && es[b] == Callback(k)
    requires var s := ServerAt(n, es[..b], k); s.taken < |s.inbox| && s.inbox[s.taken] == notice
    requires uid in Visits(After(n, es[..b]), Addressee(notice))
    ensures OnTheWay(After(n, es[..b + 1]), k, |ServerAt(n, es[..b], k).jobs|, notice, uid)
  {
    assert es[..b + 1] == es[..b] + [es[b]];
    Snoc(n, es[..b], es[b]);
    CallbackPutsOnTheWay(After(n, es[..b]), k, notice, uid);
  }

  /** From the callback on, k's loop serves a user who keeps a session on k. */
  lemma TakenRecordHands(n: nat, es: seq<Event>, b: nat, k: nat, notice: Notice, uid: int)
    requires b < |es| && k < n && es[b] == Callback(k) && !Skips(notice, uid)
    requires var s := ServerAt(n, es[..b], k); s.taken < |s.inbox| && s.inbox[s.taken] == notice
    requires uid in Visits(After(n, es[..b]), Addressee(notice))
    requires forall c :: b + 1 <= c < |es| ==> uid in ServerAt(n, es[..c], k).sessions
    requires LoopDone(n, es, k, |ServerAt(n, es[..b], k).jobs|)
    ensures Handed(After(n, es), k, uid, Local(notice))
  {
    CallbackAt(n, es, b, k, notice, uid);
    KeptOnTheWay(n, es, b + 1, k, |ServerAt(n, es[..b], k).jobs|, notice, uid);
  }

  /** Event a relays a notice for a user who has no session at the origin; server k is subscribed to the
      user's channel then; event b is k's callback taking that record; the user is an addressee at that
      moment (for a group: a member other than the sender) and keeps a session on k until the callback's
      loop is done. */
  ghost predicate RelayedAndKept(n: nat, es: seq<Event>, a: nat, b: nat, k: nat, notice: Notice, uid: int) {
    && a < b < |es| && k < n
    && Relays(After(n, es[..a]), es[a], notice, uid) && uid in ServerAt(n, es[..a], k).subscribed
    && es[b] == Callback(k) && ServerAt(n, es[..b], k).taken == |ServerAt(n, es[..a], k).inbox|
    && uid in Visits(After(n, es[..b]), Addressee(notice)) && !Skips(notice, uid)
    && (forall c :: b + 1 <= c < |es| ==> uid in ServerAt(n, es[..c], k).sessions)
    && LoopDone(n, es, k, |ServerAt(n, es[..b], k).jobs|)
  }

  /** Then k has handed the user exactly what the origin would have. */
  lemma RemoteAddresseeGetsCopy(n: nat, es: seq<Event>, a: nat, b: nat, k: nat, notice: Notice, uid: int)
    requires RelayedAndKept(n, es, a, b, k, notice, uid)
    ensures Handed(After(n, es), k, uid, Local(notice))
  {
    RecordArrives(n, es, a, b, k, notice, uid);
    TakenRecordHands(n, es, b, k, notice, uid);
  }

  /** The shortest such run: the addressee of a single message is logged in on the other of two servers. */
  function Crossing(sender: Sender, uid: int, sid: nat, content: string, time: string): seq<Event> {
    [Login(1, uid, sid), SendChat(0, sender, uid, content, time, None), Begin(0, 0), Advance(0, 0),
     Callback(1), Advance(1, 0)]
  }

  lemma Prefixes(n: nat, es: seq<Event>, m: nat)
    requires m < |es|
    ensures After(n, es[..m + 1]) == Step(After(n, es[..m]), es[m])
  {
    assert es[..m + 1] == es[..m] + [es[m]];
    Snoc(n, es[..m], es[m]);
  }

  /** The addressee's server after it has received `inbox` and its callback has started `jobs`. */
  function Other(uid: int, sid: nat, inbox: seq<Notice>, jobs: seq<Job>): Server {
    Server(map[uid := sid], {uid}, [], inbox, |jobs|, jobs)
  }

  lemma MessageSaved(sender: Sender, uid: int, sid: nat, content: string, time: string)
    ensures var w, notice := After(2, Crossing(sender, uid, sid, content, time)[..2]), Chat(1, sender, uid, content, time);
            w.servers == [Server(map[], {}, [notice], [], 0, []), Other(uid, sid, [], [])]
  {
    var es := Crossing(sender, uid, sid, content, time);
    Prefixes(2, es, 0);
    Prefixes(2, es, 1);
    var none := Server(map[], {}, [], [], 0, []);
    assert After(2, es[..0]).servers == [none, none];
    assert map[][uid := sid] == map[uid := sid] && {} + {uid} == {uid};
    assert After(2, es[..1]).servers == [none, Other(uid, sid, [], [])] && After(2, es[..1]).rows == [];
    assert [] + [Chat(1, sender, uid, content, time)] == [Chat(1, sender, uid, content, time)];
  }

  lemma MessageRelayed(w: World, notice: Notice, uid: int, sid: nat)
    requires w.servers == [Server(map[], {}, [notice], [], 0, []), Other(uid, sid, [], [])]
    requires Addressee(notice) == User(uid)
    ensures var v := Step(w, Begin(0, 0));
            && Relays(v, Advance(0, 0), notice, uid) && v.servers[1] == w.servers[1]
            && Step(v, Advance(0, 0)).servers[1] == Other(uid, sid, [notice], [])
  {
  }

  lemma RecordTaken(w: World, notice: Notice, uid: int, sid: nat)
    requires |w.servers| == 2 && w.servers[1] == Other(uid, sid, [notice], []) && Addressee(notice) == User(uid)
    ensures Step(w, Callback(1)).servers[1] == Other(uid, sid, [notice], [Job(notice, Local(notice), false, [uid])])
  {
    CallbackJob(w, 1);
  }

  lemma LoopEnds(w: World, notice: Notice, uid: int, sid: nat)
    requires |w.servers| == 2 && Addressee(notice) == User(uid)
    requires w.servers[1] == Other(uid, sid, [notice], [Job(notice, Local(notice), false, [uid])])
    ensures Step(w, Advance(1, 0)).servers[1].jobs[0].left == []
  {
  }

  lemma CrossingIsHandedOver(sender: Sender, uid: int, sid: nat, content: string, time: string)
    ensures var es, notice := Crossing(sender, uid, sid, content, time), Chat(1, sender, uid, content, time);
            RelayedAndKept(2, es, 3, 4, 1, notice, uid) && Handed(After(2, es), 1, uid, Local(notice))
  {
    var es, notice := Crossing(sender, uid, sid, content, time), Chat(1, sender, uid, content, time);
    MessageSaved(sender, uid, sid, content, time);
    Prefixes(2, es, 2);
    Prefixes(2, es, 3);
    MessageRelayed(After(2, es[..2]), notice, uid, sid);
    Prefixes(2, es, 4);
    RecordTaken(After(2, es[..4]), notice, uid, sid);
    Prefixes(2, es, 5);
    LoopEnds(After(2, es[..5]), notice, uid, sid);
    assert es[..6] == es;
    RemoteAddresseeGetsCopy(2, es, 3, 4, 1, notice, uid);
  }
}
