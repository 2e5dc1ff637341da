/** The session map against its history, and the handlers' loop over addressees in the source's own form. */
module SessionMgr {
  import opened Wrappers
  import opened Rendering
  import opened Routing

  datatype Op = Add(uid: int, sid: nat) | Remove(uid: int)

  /** The map after a history of additions and removals. */
  function Sessions(h: seq<Op>): map<int, nat> {
    if h == [] then map[]
    else
      match h[|h| - 1]
      case Add(uid, sid) => Sessions(h[..|h| - 1])[uid := sid]
      case Remove(uid) => Sessions(h[..|h| - 1]) - {uid}
  }

  /** `sid` was added for the uid, and nothing has been added or removed under that uid since. */
  ghost predicate IsHeld(h: seq<Op>, uid: int, sid: nat) {
    exists i :: 0 <= i < |h| && h[i] == Add(uid, sid) && forall k :: i < k < |h| ==> h[k].uid != uid
  }

  /** What the map holds is what was added last, whoever added it and whoever removed something earlier. */
  lemma {:induction false} HeldIsLatest(h: seq<Op>, uid: int, sid: nat)
    ensures uid in Sessions(h) && Sessions(h)[uid] == sid <==> IsHeld(h, uid, sid)
  {
    if h != [] {
      var p := h[..|h| - 1];
      HeldIsLatest(p, uid, sid);
      if h[|h| - 1].uid != uid {
        assert IsHeld(h, uid, sid) <==> IsHeld(p, uid, sid) by {
          HeldBefore(h, p, uid, sid);
        }
      }
    }
  }

  lemma HeldBefore(h: seq<Op>, p: seq<Op>, uid: int, sid: nat)
    requires h != [] && p == h[..|h| - 1] && h[|h| - 1].uid != uid
    ensures IsHeld(h, uid, sid) <==> IsHeld(p, uid, sid)
  {
    if IsHeld(p, uid, sid) {
      var i :| 0 <= i < |p| && p[i] == Add(uid, sid) && forall k :: i < k < |p| ==> p[k].uid != uid;
      assert h[i] == Add(uid, sid);
    }
    if IsHeld(h, uid, sid) {
      var i :| 0 <= i < |h| && h[i] == Add(uid, sid) && forall k :: i < k < |h| ==> h[k].uid != uid;
      assert p[i] == Add(uid, sid);
    }
  }

  class SessionMgr {
    var sessions: map<int, nat>
    ghost var history: seq<Op>

    ghost predicate Valid()
      reads this
    {
      sessions == Sessions(history)
    }

    constructor ()
      ensures Valid() && history == []
    {
      sessions := map[];
      history := [];
    }

    /** From now on the uid's session is this one, and everybody else's is what it was. */
    method AddSession(uid: int, sid: nat)
      requires Valid()
      modifies this
      ensures Valid() && history == old(history) + [Add(uid, sid)]
      ensures IsHeld(history, uid, sid)
      ensures forall u, s: nat :: u != uid ==> (IsHeld(history, u, s) <==> IsHeld(old(history), u, s))
    {
      sessions := sessions[uid := sid];
      history := history + [Add(uid, sid)];
      HeldIsLatest(history, uid, sid);
      OthersKeep(old(history), Add(uid, sid));
    }

    /** Removes whatever session is filed under the uid, whoever filed it. */
    method RemoveSession(uid: int)
      requires Valid()
      modifies this
      ensures Valid() && history == old(history) + [Remove(uid)]
      ensures forall s: nat :: !IsHeld(history, uid, s)
      ensures forall u, s: nat :: u != uid ==> (IsHeld(history, u, s) <==> IsHeld(old(history), u, s))
    {
      if uid in sessions {
        sessions := sessions - {uid};
      }
      history := history + [Remove(uid)];
      assert history[|history| - 1] == Remove(uid);
      OthersKeep(old(history), Remove(uid));
    }

    method GetSessionByUid(uid: int) returns (session: Option<nat>)
      requires Valid()
      ensures session == if uid in sessions then Some(sessions[uid]) else None
      ensures forall s: nat :: session == Some(s) <==> IsHeld(history, uid, s)
    {
      forall s: nat ensures uid in sessions && sessions[uid] == s <==> IsHeld(history, uid, s) {
        HeldIsLatest(history, uid, s);
      }
      if uid in sessions {
        return Some(sessions[uid]);
      }
      return None;
    }
  }

  lemma OthersKeep(h: seq<Op>, op: Op)
    ensures forall u, s: nat :: u != op.uid ==> (IsHeld(h + [op], u, s) <==> IsHeld(h, u, s))
  {
    forall u, s: nat | u != op.uid ensures IsHeld(h + [op], u, s) <==> IsHeld(h, u, s) {
      HeldBefore(h + [op], h, u, s);
    }
  }

  /** What an event, and then a run, of the routing model does to server k's session map. */
  function OpOf(e: Event, k: nat): seq<Op> {
    match e
    case Login(o, uid, sid) => if o == k then [Add(uid, sid)] else []
    case RemoveSession(o, uid) => if o == k then [Remove(uid)] else []
    case _ => []
  }

  function OpsOf(es: seq<Event>, k: nat): seq<Op> {
    if es == [] then [] else OpsOf(es[..|es| - 1], k) + OpOf(es[|es| - 1], k)
  }

  /** So in every run of the servers each of them routes to the session a uid has logged in with last on
      it, unless that uid has been removed since. */
  lemma {:induction false} RoutesToLatest(n: nat, es: seq<Event>, k: nat, uid: int, sid: nat)
    requires k < n
    ensures After(n, es).servers[k].sessions == Sessions(OpsOf(es, k))
    ensures var sessions := After(n, es).servers[k].sessions;
            uid in sessions && sessions[uid] == sid <==> IsHeld(OpsOf(es, k), uid, sid)
  {
    if es != [] {
      RoutesToLatest(n, es[..|es| - 1], k, uid, sid);
      SessionsStep(After(n, es[..|es| - 1]), es[|es| - 1], k, OpsOf(es[..|es| - 1], k));
    }
    HeldIsLatest(OpsOf(es, k), uid, sid);
  }

  /** Only logins and removals on a server touch its map. */
  lemma MapStep(w: World, e: Event, k: nat)
    requires k < |w.servers|
    ensures var s, t := w.servers[k].sessions, Step(w, e).servers[k].sessions;
            t == if e.Login? && e.k == k then s[e.uid := e.sid]
                 else if e.RemoveSession? && e.k == k then s - {e.uid} else s
  {
  }

  lemma SessionsStep(w: World, e: Event, k: nat, h: seq<Op>)
    requires k < |w.servers| && w.servers[k].sessions == Sessions(h)
    ensures Step(w, e).servers[k].sessions == Sessions(h + OpOf(e, k))
  {
    MapStep(w, e, k);
    if OpOf(e, k) == [] {
      assert h + [] == h;
    } else {
      assert (h + OpOf(e, k))[..|h|] == h;
    }
  }

  predicate Enters(e: Event, k: nat, uid: int) {
    e.Login? && e.k == k && e.uid == uid
  }

  lemma ChannelStep(w: World, e: Event, k: nat, uid: int)
    requires k < |w.servers|
    ensures uid in Step(w, e).servers[k].subscribed
       <==> Enters(e, k, uid) || (uid in w.servers[k].subscribed && e != Unsubscribe(k, uid))
  {
  }

  /** A login opens the user's channel on that server until it is unsubscribed; nothing else does either. */
  lemma {:induction false} ChannelIsLatest(n: nat, es: seq<Event>, k: nat, uid: int, i: nat)
    requires k < n && i < |es| && (Enters(es[i], k, uid) || es[i] == Unsubscribe(k, uid))
    requires forall j :: i < j < |es| ==> !Enters(es[j], k, uid) && es[j] != Unsubscribe(k, uid)
    ensures uid in After(n, es).servers[k].subscribed <==> Enters(es[i], k, uid)
  {
    var p := es[..|es| - 1];
    ChannelStep(After(n, p), es[|es| - 1], k, uid);
    if i < |p| {
      ChannelIsLatest(n, p, k, uid, i);
    }
  }

  /** The sends of a loop over `uids` on server k, and the channels it publishes on. */
  function HandedOver(sessions: map<int, nat>, k: nat, n: Notice, note: Notification, uids: seq<int>): seq<Delivery> {
    if uids == [] then []
    else
      var rest := HandedOver(sessions, k, n, note, uids[..|uids| - 1]);
      var uid := uids[|uids| - 1];
      if Skips(n, uid) || uid !in sessions then rest else rest + [Delivery(k, sessions[uid], uid, note)]
  }

  function Relayed(sessions: map<int, nat>, n: Notice, uids: seq<int>): seq<int> {
    if uids == [] then []
    else
      var rest := Relayed(sessions, n, uids[..|uids| - 1]);
      var uid := uids[|uids| - 1];
      if Skips(n, uid) || uid in sessions then rest else rest + [uid]
  }

  /** The loop of the text, image and group handlers, and with `relay` false of the subscriber callback. */
  method FanOut(mgr: SessionMgr, k: nat, n: Notice, note: Notification, relay: bool, uids: seq<int>)
    returns (sent: seq<Delivery>, channels: seq<int>)
    requires mgr.Valid()
    ensures sent == HandedOver(mgr.sessions, k, n, note, uids)
    ensures channels == if relay then Relayed(mgr.sessions, n, uids) else []
  {
    sent, channels := [], [];
    for i := 0 to |uids|
      invariant sent == HandedOver(mgr.sessions, k, n, note, uids[..i])
      invariant channels == if relay then Relayed(mgr.sessions, n, uids[..i]) else []
    {
      assert uids[..i + 1][..i] == uids[..i];
      if Skips(n, uids[i]) {
        continue;
      }
      var session := mgr.GetSessionByUid(uids[i]);
      if session.Some? {
        sent := sent + [Delivery(k, session.value, uids[i], note)];
      } else if relay {
        channels := channels + [uids[i]];
      }
    }
    assert uids[..|uids|] == uids;
  }

  predicate IsSender(n: Notice, uid: int) {
    (n.GroupChat? || n.GroupImage?) && n.sender.uid == uid
  }

  /** The loop passes over nobody but the sender of a group message: everybody else it visits is sent the
      notification if there is a session and published for if there is none, and nobody it does not visit is
      sent anything. */
  lemma {:induction false} FanOutServesAll(sessions: map<int, nat>, k: nat, n: Notice, note: Notification,
                                           uids: seq<int>, uid: int, sid: nat)
    ensures Delivery(k, sid, uid, note) in HandedOver(sessions, k, n, note, uids)
       <==> uid in uids && !IsSender(n, uid) && uid in sessions && sessions[uid] == sid
    ensures uid in Relayed(sessions, n, uids) <==> uid in uids && !IsSender(n, uid) && uid !in sessions
  {
    if uids != [] {
      assert uids == uids[..|uids| - 1] + [uids[|uids| - 1]];
      FanOutServesAll(sessions, k, n, note, uids[..|uids| - 1], uid, sid);
    }
  }

  /** `steps` uninterrupted steps of job j of server k. */
  function Steps(w: World, k: nat, j: nat, steps: nat): World {
    if steps == 0 then w else Step(Steps(w, k, j, steps - 1), Advance(k, j))
  }

  /** Records reaching a server with these subscriptions when `n` is published on `channels`. */
  function Arrivals(subscribed: set<int>, channels: seq<int>, n: Notice): seq<Notice> {
    if channels == [] then []
    else Arrivals(subscribed, channels[..|channels| - 1], n)
         + (if channels[|channels| - 1] in subscribed then [n] else [])
  }

  /** How `v` differs from `w` once job j of server k has looked up `steps` addresses, seen from server i. */
  ghost predicate Served(w: World, v: World, k: nat, j: nat, steps: nat, i: nat)
    requires k < |w.servers| && i < |w.servers| && j < |w.servers[k].jobs| && steps <= |w.servers[k].jobs[j].left|
  {
    var s, job := w.servers[k], w.servers[k].jobs[j];
    && |v.servers| == |w.servers| && v.servers[k].sessions == s.sessions
    && v.servers[i].subscribed == w.servers[i].subscribed
    && |v.servers[k].jobs| == |s.jobs| && v.servers[k].jobs[j] == job.(left := job.left[steps..])
    && v.delivered == w.delivered + HandedOver(s.sessions, k, job.notice, job.note, job.left[..steps])
    && v.servers[i].inbox == w.servers[i].inbox
         + Arrivals(w.servers[i].subscribed,
                    if job.relay then Relayed(s.sessions, job.notice, job.left[..steps]) else [], job.notice)
  }

  /** A job that is not interrupted does what the loop of the handlers and the callback does: it hands over
      FanOut's sends and every server's inbox receives FanOut's publications, none from a callback. */
  lemma {:induction false} JobIsFanOut(w: World, k: nat, j: nat, steps: nat, i: nat)
    requires k < |w.servers| && i < |w.servers| && j < |w.servers[k].jobs| && steps <= |w.servers[k].jobs[j].left|
    ensures Served(w, Steps(w, k, j, steps), k, j, steps, i)
  {
    if steps > 0 {
      JobIsFanOut(w, k, j, steps - 1, i);
      ServeNext(w, Steps(w, k, j, steps - 1), k, j, steps - 1, i);
    }
  }

  lemma ServeNext(w: World, v: World, k: nat, j: nat, steps: nat, i: nat)
    requires k < |w.servers| && i < |w.servers| && j < |w.servers[k].jobs| && steps < |w.servers[k].jobs[j].left|
    requires Served(w, v, k, j, steps, i)
    ensures Served(w, Step(v, Advance(k, j)), k, j, steps + 1, i)
  {
    var left := w.servers[k].jobs[j].left;
    assert left[..steps + 1][..steps] == left[..steps];
    assert left[steps..][1..] == left[steps + 1..];
    OneLookup(v, k, j, i);
  }

  lemma OneLookup(w: World, k: nat, j: nat, i: nat)
    requires k < |w.servers| && i < |w.servers| && j < |w.servers[k].jobs| && w.servers[k].jobs[j].left != []
    ensures var v, s, job := Step(w, Advance(k, j)), w.servers[k], w.servers[k].jobs[j];
            var uid := job.left[0];
            && |v.servers| == |w.servers| && v.servers[k].sessions == s.sessions
            && v.servers[i].subscribed == w.servers[i].subscribed
            && v.servers[k].jobs == s.jobs[j := job.(left := job.left[1..])]
            && v.delivered == w.delivered + (if Skips(job.notice, uid) || uid !in s.sessions then []
                                             else [Delivery(k, s.sessions[uid], uid, job.note)])
            && v.servers[i].inbox == w.servers[i].inbox + (if Skips(job.notice, uid) || uid in s.sessions || !job.relay
                                                             || uid !in w.servers[i].subscribed then [] else [job.notice])
  {
  }
}
