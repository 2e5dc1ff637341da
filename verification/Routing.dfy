/** Message routing between n chat servers.  A handler saves the message, then looks each addressee up in
    its own session map and either hands the notification over or publishes a record on the addressee's
    channel; every server subscribed to the channel gets the record, and its subscriber callback looks the
    addressees up again.  A loop over group members is a job that advances one member at a time, so logins,
    logouts and other handlers may come between any two of its steps. */
module Routing {
  import opened Wrappers
  import opened Rendering

  datatype MessageRow = MessageRow(id: int, fromUid: int, toUid: int, content: string, group: bool)

  /** A handler's or callback's loop over the uids it has `left` to look up.  A relaying job publishes for
      a uid that has no session here; the callback's job does not. */
  datatype Job = Job(notice: Notice, note: Notification, relay: bool, left: seq<int>)

  /** `saved` are the messages whose handlers have not read the addressees yet.  `inbox` is everything that
      has arrived on subscribed channels, each entry standing for the record published for that notice; the
      first `taken` of them have been given to the callback. */
  datatype Server = Server(
    sessions: map<int, nat>, subscribed: set<int>, saved: seq<Notice>, inbox: seq<Notice>, taken: nat, jobs: seq<Job>)

  /** A notification handed to the session `sid` that `server` held for `uid`. */
  datatype Delivery = Delivery(server: nat, sid: nat, uid: int, note: Notification)

  datatype World = World(
    servers: seq<Server>, rows: seq<MessageRow>, members: map<int, seq<int>>, delivered: seq<Delivery>)

  datatype Event =
    | Login(k: nat, uid: int, sid: nat)
    | RemoveSession(k: nat, uid: int)
    | Unsubscribe(k: nat, uid: int)
    | SetMembers(groupId: int, uids: seq<int>)
    | SendChat(k: nat, sender: Sender, toUid: int, content: string, time: string, image: Option<Image>)
    | SendGroup(k: nat, sender: Sender, groupId: int, groupName: string, content: string, time: string,
                image: Option<Image>)
    | Begin(k: nat, q: nat)
    | SendNotice(k: nat, notice: Notice)
    | Advance(k: nat, j: nat)
    | Callback(k: nat)

  function MembersOf(w: World, groupId: int): seq<int> {
    if groupId in w.members then w.members[groupId] else []
  }

  /** The uids a loop for this target visits. */
  function Visits(w: World, t: Target): seq<int> {
    match t
    case User(uid) => [uid]
    case Members(groupId, _) => MembersOf(w, groupId)
    case Nobody => []
  }

  predicate Skips(n: Notice, uid: int) {
    Addressee(n).Members? && Addressee(n).except == uid
  }

  function Started(w: World, k: nat, n: Notice): World
    requires k < |w.servers|
  {
    var s := w.servers[k];
    w.(servers := w.servers[k := s.(jobs := s.jobs + [Job(n, Local(n), true, Visits(w, Addressee(n)))])])
  }

  /** The new row's notice, with the id the database gave it. */
  function ChatNotice(id: nat, sender: Sender, toUid: int, content: string, time: string, image: Option<Image>): Notice {
    match image
    case None => Chat(id, sender, toUid, content, time)
    case Some(i) => ImageChat(id, sender, toUid, content, time, i)
  }

  function GroupNotice(id: nat, sender: Sender, g: int, name: string, content: string, time: string,
                       image: Option<Image>): Notice
  {
    match image
    case None => GroupChat(id, sender, g, name, content, time)
    case Some(i) => GroupImage(id, sender, g, name, content, time, i)
  }

  /** The INSERT of a handler. */
  function Saved(w: World, k: nat, row: MessageRow, n: Notice): World
    requires k < |w.servers|
  {
    var s := w.servers[k];
    w.(rows := w.rows + [row], servers := w.servers[k := s.(saved := s.saved + [n])])
  }

  function Without(ns: seq<Notice>, q: nat): seq<Notice>
    requires q < |ns|
  {
    ns[..q] + ns[q + 1..]
  }

  /** A handler that has saved reads its addressees and starts to look them up. */
  function Begun(w: World, k: nat, q: nat): World
    requires k < |w.servers| && q < |w.servers[k].saved|
  {
    var s := w.servers[k];
    Started(w.(servers := w.servers[k := s.(saved := Without(s.saved, q))]), k, s.saved[q])
  }

  /** PUBLISH: every server subscribed to the channel receives the record. */
  function Broadcast(servers: seq<Server>, channel: int, n: Notice): (r: seq<Server>)
    ensures |r| == |servers|
  {
    seq(|servers|, i requires 0 <= i < |servers| =>
      if channel in servers[i].subscribed then servers[i].(inbox := servers[i].inbox + [n]) else servers[i])
  }

  function Advanced(w: World, k: nat, j: nat): World
    requires k < |w.servers| && j < |w.servers[k].jobs| && w.servers[k].jobs[j].left != []
  {
    var s := w.servers[k];
    var job := s.jobs[j];
    var uid := job.left[0];
    var servers := w.servers[k := s.(jobs := s.jobs[j := job.(left := job.left[1..])])];
    if Skips(job.notice, uid) then w.(servers := servers)
    else if uid in s.sessions then
      w.(servers := servers, delivered := w.delivered + [Delivery(k, s.sessions[uid], uid, job.note)])
    else if job.relay then w.(servers := Broadcast(servers, uid, job.notice))
    else w.(servers := servers)
  }

  /** The subscriber takes the next record, renders it once and starts looking up its addressees. */
  function CalledBack(w: World, k: nat): World
    requires k < |w.servers| && w.servers[k].taken < |w.servers[k].inbox|
  {
    var s := w.servers[k];
    var n := s.inbox[s.taken];
    var record := Published(n);
    var jobs :=
      match Rendered(record)
      case Some(note) => s.jobs + [Job(n, note, false, Visits(w, TargetOf(record)))]
      case None => s.jobs;
    w.(servers := w.servers[k := s.(taken := s.taken + 1, jobs := jobs)])
  }

  function Step(w: World, e: Event): (v: World)
    ensures |v.servers| == |w.servers|
  {
    match e
    case Login(k, uid, sid) =>
      if k >= |w.servers| then w
      else w.(servers := w.servers[k := w.servers[k].(sessions := w.servers[k].sessions[uid := sid],
                                                      subscribed := w.servers[k].subscribed + {uid})])
    case RemoveSession(k, uid) =>
      if k >= |w.servers| then w
      else w.(servers := w.servers[k := w.servers[k].(sessions := w.servers[k].sessions - {uid})])
    case Unsubscribe(k, uid) =>
      if k >= |w.servers| then w
      else w.(servers := w.servers[k := w.servers[k].(subscribed := w.servers[k].subscribed - {uid})])
    case SetMembers(g, uids) => w.(members := w.members[g := uids])
    case SendChat(k, sender, toUid, content, time, image) =>
      if k >= |w.servers| then w
      else
        var id := |w.rows| + 1;
        Saved(w, k, MessageRow(id, sender.uid, toUid, content, false), ChatNotice(id, sender, toUid, content, time, image))
    case SendGroup(k, sender, g, name, content, time, image) =>
      if k >= |w.servers| then w
      else
        var id := |w.rows| + 1;
        Saved(w, k, MessageRow(id, sender.uid, g, content, true), GroupNotice(id, sender, g, name, content, time, image))
    case Begin(k, q) =>
      if k >= |w.servers| || q >= |w.servers[k].saved| then w else Begun(w, k, q)
    case SendNotice(k, n) =>
      if k >= |w.servers| || !(n.FriendRequest? || n.FriendAuth?) then w else Started(w, k, n)
    case Advance(k, j) =>
      if k >= |w.servers| || j >= |w.servers[k].jobs| || w.servers[k].jobs[j].left == [] then w else Advanced(w, k, j)
    case Callback(k) =>
      if k >= |w.servers| || w.servers[k].taken >= |w.servers[k].inbox| then w else CalledBack(w, k)
  }

  function After(n: nat, es: seq<Event>): (w: World)
    ensures |w.servers| == n
  {
    if es == [] then World(seq(n, _ => Server(map[], {}, [], [], 0, [])), [], map[], [])
    else Step(After(n, es[..|es| - 1]), es[|es| - 1])
  }

  /** The notice of a chat message copies a saved row; `t` is whom it is for. */
  predicate CopiesRow(n: Notice, row: MessageRow) {
    match n
    case Chat(id, s, to, content, _) => row == MessageRow(row.id, s.uid, to, content, false) && row.id == id
    case ImageChat(id, s, to, content, _, _) => row == MessageRow(row.id, s.uid, to, content, false) && row.id == id
    case GroupChat(id, s, g, _, content, _) => row == MessageRow(row.id, s.uid, g, content, true) && row.id == id
    case GroupImage(id, s, g, _, content, _, _) => row == MessageRow(row.id, s.uid, g, content, true) && row.id == id
    case _ => false
  }

  ghost predicate Backed(rows: seq<MessageRow>, n: Notice) {
    n.FriendRequest? || n.FriendAuth? || exists i :: 0 <= i < |rows| && CopiesRow(n, rows[i])
  }

  /** Event m of the run started job j of server k: it is the read of the addressees, and for a group of
      its members, that the loop then visits. */
  ghost predicate LoopStart(n: nat, es: seq<Event>, k: nat, j: nat, m: nat)
    requires k < n
  {
    && m < |es|
    && |After(n, es[..m]).servers[k].jobs| == j && |After(n, es[..m + 1]).servers[k].jobs| == j + 1
  }

  /** The job's notice copies a row that is saved in `w`, and what is left of its loop are addressees in `w`. */
  ghost predicate FansOut(w: World, job: Job) {
    Backed(w.rows, job.notice) && forall uid :: uid in job.left ==> uid in Visits(w, Addressee(job.notice))
  }

  ghost predicate JobOk(n: nat, es: seq<Event>, k: nat, j: nat, job: Job)
    requires k < n
  {
    job.note == Local(job.notice) && exists m: nat :: LoopStart(n, es, k, j, m) && FansOut(After(n, es[..m + 1]), job)
  }

  ghost predicate ServerOk(n: nat, es: seq<Event>, k: nat)
    requires k < n
  {
    var s := After(n, es).servers[k];
    && (forall j: nat :: j < |s.jobs| ==> JobOk(n, es, k, j, s.jobs[j]))
    && (forall i :: 0 <= i < |s.saved| ==> Backed(After(n, es).rows, s.saved[i]))
    && (forall i :: 0 <= i < |s.inbox| ==> Backed(After(n, es).rows, s.inbox[i]))
    && s.taken <= |s.inbox|
  }

  ghost predicate Inv(n: nat, es: seq<Event>) {
    forall k: nat :: k < n ==> ServerOk(n, es, k)
  }

  lemma BackedLater(rows: seq<MessageRow>, row: MessageRow, n: Notice)
    requires Backed(rows, n)
    ensures Backed(rows + [row], n)
  {
    if !n.FriendRequest? && !n.FriendAuth? {
      var i :| 0 <= i < |rows| && CopiesRow(n, rows[i]);
      assert (rows + [row])[i] == rows[i];
    }
  }

  lemma JobOkLater(n: nat, es: seq<Event>, e: Event, k: nat, j: nat, job: Job)
    requires k < n && JobOk(n, es, k, j, job)
    ensures JobOk(n, es + [e], k, j, job)
  {
    var m: nat :| LoopStart(n, es, k, j, m) && FansOut(After(n, es[..m + 1]), job);
    assert (es + [e])[..m] == es[..m] && (es + [e])[..m + 1] == es[..m + 1];
    assert LoopStart(n, es + [e], k, j, m);
  }

  lemma Snoc(n: nat, es: seq<Event>, e: Event)
    ensures After(n, es + [e]) == Step(After(n, es), e)
  {
  }

  lemma RowsGrow(n: nat, es: seq<Event>, e: Event, notice: Notice)
    requires Backed(After(n, es).rows, notice)
    ensures Backed(After(n, es + [e]).rows, notice)
  {
    Snoc(n, es, e);
    var rows, later := After(n, es).rows, After(n, es + [e]).rows;
    if later != rows {
      assert later == rows + [later[|rows|]];
      BackedLater(rows, later[|rows|], notice);
    }
  }

  /** A job that event e starts on server k: its loop visits the addressees as they are then, and its notice
      is a saved message's, the next record of the inbox, or a friend notice. */
  ghost predicate Starts(w: World, e: Event, k: nat, job: Job)
    requires k < |w.servers|
  {
    var s := w.servers[k];
    && job.note == Local(job.notice) && job.left == Visits(Step(w, e), Addressee(job.notice))
    && (|| (e == Callback(k) && s.taken < |s.inbox| && job.notice == s.inbox[s.taken])
        || (e.Begin? && e.q < |s.saved| && job.notice == s.saved[e.q])
        || job.notice.FriendRequest? || job.notice.FriendAuth?)
  }

  lemma StartedJob(w: World, e: Event, k: nat)
    requires k < |w.servers| && (e.Begin? || e.SendNotice?) && e.k == k
    ensures var before, jobs := w.servers[k].jobs, Step(w, e).servers[k].jobs;
            jobs == before || (exists job :: Starts(w, e, k, job) && jobs == before + [job])
  {
    var before, jobs := w.servers[k].jobs, Step(w, e).servers[k].jobs;
    if jobs != before {
      assert Starts(w, e, k, jobs[|before|]);
    }
  }

  lemma CallbackJob(w: World, k: nat)
    requires k < |w.servers| && w.servers[k].taken < |w.servers[k].inbox|
    ensures var s, t := w.servers[k], CalledBack(w, k).servers[k];
            var n := s.inbox[s.taken];
            t == s.(taken := s.taken + 1, jobs := s.jobs + [Job(n, Local(n), false, Visits(w, Addressee(n)))])
  {
  }

  /** The job that Advance(k, j) moves on. */
  predicate Advances(w: World, e: Event) {
    e.Advance? && e.k < |w.servers| && e.j < |w.servers[e.k].jobs| && w.servers[e.k].jobs[e.j].left != []
  }

  /** The jobs of server k after an event are those before it, one of them moved on, or one more. */
  ghost predicate JobsFollow(w: World, e: Event, k: nat, jobs: seq<Job>)
    requires k < |w.servers|
  {
    var before := w.servers[k].jobs;
    || jobs == before
    || (Advances(w, e) && e.k == k && jobs == before[e.j := before[e.j].(left := before[e.j].left[1..])])
    || (exists job :: Starts(w, e, k, job) && jobs == before + [job])
  }

  lemma JobsStep(w: World, e: Event, k: nat)
    requires k < |w.servers|
    ensures JobsFollow(w, e, k, Step(w, e).servers[k].jobs)
  {
    match e
    case Begin(o, _) => if o == k { StartedJob(w, e, k); }
    case SendNotice(o, _) => if o == k { StartedJob(w, e, k); }
    case Callback(o) => if o == k && w.servers[k].taken < |w.servers[k].inbox| { CallbackStarts(w, k); }
    case _ =>
  }

  lemma CallbackStarts(w: World, k: nat)
    requires k < |w.servers| && w.servers[k].taken < |w.servers[k].inbox|
    ensures var before, jobs := w.servers[k].jobs, Step(w, Callback(k)).servers[k].jobs;
            exists job :: Starts(w, Callback(k), k, job) && jobs == before + [job]
  {
    CallbackJob(w, k);
    var n := w.servers[k].inbox[w.servers[k].taken];
    assert Starts(w, Callback(k), k, Job(n, Local(n), false, Visits(w, Addressee(n))));
  }

  lemma InboxStep(w: World, e: Event, k: nat)
    requires k < |w.servers|
    ensures var s, t := w.servers[k], Step(w, e).servers[k];
            && (t.inbox == s.inbox || (Advances(w, e) && t.inbox == s.inbox + [w.servers[e.k].jobs[e.j].notice]))
            && (t.taken == s.taken || (t.taken == s.taken + 1 && e == Callback(k) && s.taken < |s.inbox|))
  {
  }

  lemma SavedStep(w: World, e: Event, k: nat)
    requires k < |w.servers|
    ensures var saved, now := w.servers[k].saved, Step(w, e).servers[k].saved;
            || now == saved
            || (e.Begin? && e.q < |saved| && now == Without(saved, e.q))
            || (exists n :: now == saved + [n] && Backed(Step(w, e).rows, n))
  {
    var saved, now := w.servers[k].saved, Step(w, e).servers[k].saved;
    if (e.SendChat? || e.SendGroup?) && e.k == k {
      assert CopiesRow(now[|saved|], Step(w, e).rows[|w.rows|]);
      assert now == saved + [now[|saved|]];
    }
  }

  /** The job that an event starts. */
  lemma NewJobOk(n: nat, es: seq<Event>, e: Event, k: nat, job: Job)
    requires Inv(n, es) && k < n && Starts(After(n, es), e, k, job)
    requires After(n, es + [e]).servers[k].jobs == After(n, es).servers[k].jobs + [job]
    ensures JobOk(n, es + [e], k, |After(n, es).servers[k].jobs|, job)
  {
    assert ServerOk(n, es, k);
    if !job.notice.FriendRequest? && !job.notice.FriendAuth? {
      RowsGrow(n, es, e, job.notice);
    }
    Snoc(n, es, e);
    assert (es + [e])[..|es|] == es && (es + [e])[..|es| + 1] == es + [e];
    assert LoopStart(n, es + [e], k, |After(n, es).servers[k].jobs|, |es|);
  }

  lemma AdvancedJobOk(n: nat, es: seq<Event>, k: nat, j: nat, job: Job)
    requires k < n && JobOk(n, es, k, j, job) && job.left != []
    ensures JobOk(n, es, k, j, job.(left := job.left[1..]))
  {
    var m: nat :| LoopStart(n, es, k, j, m) && FansOut(After(n, es[..m + 1]), job);
    assert FansOut(After(n, es[..m + 1]), job.(left := job.left[1..]));
  }

  lemma OldJobOk(n: nat, es: seq<Event>, e: Event, k: nat, j: nat, job: Job)
    requires k < n && j < |After(n, es).servers[k].jobs| && JobOk(n, es, k, j, After(n, es).servers[k].jobs[j])
    requires var before := After(n, es).servers[k].jobs[j];
             job == before || (before.left != [] && job == before.(left := before.left[1..]))
    ensures JobOk(n, es + [e], k, j, job)
  {
    var before := After(n, es).servers[k].jobs[j];
    JobOkLater(n, es, e, k, j, before);
    if job != before {
      AdvancedJobOk(n, es + [e], k, j, before);
    }
  }

  lemma JobIsOk(n: nat, es: seq<Event>, k: nat, j: nat)
    requires Inv(n, es) && k < n && j < |After(n, es).servers[k].jobs|
    ensures JobOk(n, es, k, j, After(n, es).servers[k].jobs[j])
  {
    assert ServerOk(n, es, k);
  }

  lemma JobsShape(w: World, e: Event, k: nat, jobs: seq<Job>, j: nat)
    requires k < |w.servers| && j < |jobs| && JobsFollow(w, e, k, jobs)
    ensures var before := w.servers[k].jobs;
            if j < |before| then
              jobs[j] == before[j] || (before[j].left != [] && jobs[j] == before[j].(left := before[j].left[1..]))
            else j == |before| && jobs == before + [jobs[j]] && Starts(w, e, k, jobs[j])
  {
  }

  lemma JobsOkStep(n: nat, es: seq<Event>, e: Event, k: nat, jobs: seq<Job>, j: nat)
    requires Inv(n, es) && k < n && jobs == After(n, es + [e]).servers[k].jobs && j < |jobs|
    requires JobsFollow(After(n, es), e, k, jobs)
    ensures JobOk(n, es + [e], k, j, jobs[j])
  {
    JobsShape(After(n, es), e, k, jobs, j);
    if j < |After(n, es).servers[k].jobs| {
      JobIsOk(n, es, k, j);
      OldJobOk(n, es, e, k, j, jobs[j]);
    } else {
      NewJobOk(n, es, e, k, jobs[j]);
    }
  }

  lemma InboxOkStep(n: nat, es: seq<Event>, e: Event, k: nat, i: nat)
    requires Inv(n, es) && k < n && i < |After(n, es + [e]).servers[k].inbox|
    ensures Backed(After(n, es + [e]).rows, After(n, es + [e]).servers[k].inbox[i])
  {
    Snoc(n, es, e);
    var w := After(n, es);
    InboxStep(w, e, k);
    assert ServerOk(n, es, k);
    if i < |w.servers[k].inbox| {
      RowsGrow(n, es, e, w.servers[k].inbox[i]);
    } else {
      RelayedIsBacked(n, es, e.k, e.j);
      RowsGrow(n, es, e, w.servers[e.k].jobs[e.j].notice);
    }
  }

  lemma SavedOkStep(n: nat, es: seq<Event>, e: Event, k: nat, i: nat)
    requires Inv(n, es) && k < n && i < |After(n, es + [e]).servers[k].saved|
    ensures Backed(After(n, es + [e]).rows, After(n, es + [e]).servers[k].saved[i])
  {
    Snoc(n, es, e);
    var w := After(n, es);
    SavedStep(w, e, k);
    assert ServerOk(n, es, k);
    var saved, now := w.servers[k].saved, After(n, es + [e]).servers[k].saved;
    if now[i] in saved {
      RowsGrow(n, es, e, now[i]);
    }
  }

  lemma {:induction false} BackedSince(n: nat, es: seq<Event>, m: nat, notice: Notice)
    requires m <= |es| && Backed(After(n, es[..m]).rows, notice)
    ensures Backed(After(n, es).rows, notice)
  {
    if m < |es| {
      var p := es[..|es| - 1];
      assert p[..m] == es[..m] && p + [es[|es| - 1]] == es;
      BackedSince(n, p, m, notice);
      RowsGrow(n, p, es[|es| - 1], notice);
    } else {
      assert es[..m] == es;
    }
  }

  lemma RelayedIsBacked(n: nat, es: seq<Event>, k: nat, j: nat)
    requires Inv(n, es) && k < n && j < |After(n, es).servers[k].jobs|
    ensures Backed(After(n, es).rows, After(n, es).servers[k].jobs[j].notice)
  {
    assert ServerOk(n, es, k);
    var job := After(n, es).servers[k].jobs[j];
    assert JobOk(n, es, k, j, job);
    var m: nat :| LoopStart(n, es, k, j, m) && FansOut(After(n, es[..m + 1]), job);
    BackedSince(n, es, m + 1, job.notice);
  }

  lemma InvStep(n: nat, es: seq<Event>, e: Event)
    requires Inv(n, es)
    ensures Inv(n, es + [e])
  {
    forall k: nat | k < n ensures ServerOk(n, es + [e], k) {
      Snoc(n, es, e);
      var t := After(n, es + [e]).servers[k];
      assert ServerOk(n, es, k);
      InboxStep(After(n, es), e, k);
      JobsStep(After(n, es), e, k);
      forall j: nat | j < |t.jobs| ensures JobOk(n, es + [e], k, j, t.jobs[j]) {
        JobsOkStep(n, es, e, k, t.jobs, j);
      }
      forall i | 0 <= i < |t.saved| ensures Backed(After(n, es + [e]).rows, t.saved[i]) {
        SavedOkStep(n, es, e, k, i);
      }
      forall i | 0 <= i < |t.inbox| ensures Backed(After(n, es + [e]).rows, t.inbox[i]) {
        InboxOkStep(n, es, e, k, i);
      }
    }
  }

  lemma {:induction false} InvHolds(n: nat, es: seq<Event>)
    ensures Inv(n, es)
  {
    if es != [] {
      var p, e := es[..|es| - 1], es[|es| - 1];
      assert p + [e] == es;
      InvHolds(n, p);
      InvStep(n, p, e);
    }
  }

  lemma {:induction false} JobsGrow(n: nat, es: seq<Event>, m: nat, k: nat)
    requires m <= |es| && k < n
    ensures |After(n, es[..m]).servers[k].jobs| <= |After(n, es).servers[k].jobs|
  {
    if m < |es| {
      var p := es[..|es| - 1];
      assert p[..m] == es[..m];
      JobsGrow(n, p, m, k);
      JobsStep(After(n, p), es[|es| - 1], k);
    } else {
      assert es[..m] == es;
    }
  }

  lemma StartingEvent(w: World, e: Event, k: nat)
    requires k < |w.servers| && |Step(w, e).servers[k].jobs| > |w.servers[k].jobs|
    ensures e == Callback(k) || ((e.Begin? || e.SendNotice?) && e.k == k)
  {
  }

  /** A job that has started does not start again. */
  lemma StartsOnce(n: nat, es: seq<Event>, k: nat, j: nat, l: nat, m: nat)
    requires k < n && l < m && LoopStart(n, es, k, j, l)
    ensures !LoopStart(n, es, k, j, m)
  {
    if m < |es| {
      assert es[..m][..l + 1] == es[..l + 1];
      JobsGrow(n, es[..m], l + 1, k);
    }
  }

  /** The event that started a loop is one: a handler's on that server or its subscriber callback. */
  lemma StartIsOneEvent(n: nat, es: seq<Event>, k: nat, j: nat, m: nat)
    requires k < n && LoopStart(n, es, k, j, m)
    ensures es[m] == Callback(k) || ((es[m].Begin? || es[m].SendNotice?) && es[m].k == k)
    ensures forall l: nat :: LoopStart(n, es, k, j, l) ==> l == m
  {
    assert es[..m + 1] == es[..m] + [es[m]];
    Snoc(n, es[..m], es[m]);
    StartingEvent(After(n, es[..m]), es[m], k);
    forall l: nat | LoopStart(n, es, k, j, l) ensures l == m {
      if l < m {
        StartsOnce(n, es, k, j, l, m);
      } else if m < l {
        StartsOnce(n, es, k, j, m, l);
      }
    }
  }

  predicate SaysSender(r: Record, s: Sender) {
    r.fromUid == Num(s.uid) && r.fromName == Text(s.name) && r.fromAvatar == Text(s.avatar)
  }

  predicate SaysImage(r: Record, i: Image) {
    && r.imageType == Text(i.imageType) && r.width == Num(i.width) && r.height == Num(i.height)
    && r.fileSize == Num(i.fileSize)
  }

  predicate SaysMessage(r: Record, id: int, s: Sender, content: string, time: string) {
    SaysSender(r, s) && r.messageId == Num(id) && r.content == Text(content) && r.time == Text(time)
  }

  /** What a delivery for `notice` says and whom it reaches, `w` being the world when its loop started.  A chat
      message copies a row saved by then; a single one reaches the row's addressee, a group one somebody other
      than the sender who was a member then.  A friend request reaches the user it is made to; the answer to one
      reaches the user who made it, names the one who answered as its sender and the receiver as its addressee. */
  ghost predicate IsRight(w: World, notice: Notice, d: Delivery) {
    var r := d.note.fields;
    match notice
    case Chat(id, s, to, content, time) =>
      && d.note.id == ID_NOTIFY_TEXT_CHAT_MSG_REQ && d.uid == to && SaysMessage(r, id, s, content, time)
      && MessageRow(id, s.uid, to, content, false) in w.rows
    case ImageChat(id, s, to, content, time, image) =>
      && d.note.id == ID_NOTIFY_IMAGE_CHAT_MSG_REQ && d.uid == to && SaysMessage(r, id, s, content, time)
      && SaysImage(r, image) && MessageRow(id, s.uid, to, content, false) in w.rows
    case GroupChat(id, s, g, name, content, time) =>
      && d.note.id == ID_NOTIFY_GROUP_CHAT_MSG_REQ && d.uid != s.uid && d.uid in MembersOf(w, g)
      && SaysMessage(r, id, s, content, time) && r.groupId == Num(g) && r.groupName == Text(name)
      && MessageRow(id, s.uid, g, content, true) in w.rows
    case GroupImage(id, s, g, name, content, time, image) =>
      && d.note.id == ID_NOTIFY_GROUP_IMAGE_CHAT_MSG_REQ && d.uid != s.uid && d.uid in MembersOf(w, g)
      && SaysMessage(r, id, s, content, time) && SaysImage(r, image) && r.groupId == Num(g) && r.groupName == Text(name)
      && MessageRow(id, s.uid, g, content, true) in w.rows
    case FriendRequest(s, to, message, time) =>
      && d.note.id == ID_NOTIFY_ADD_FRIEND_REQ && d.uid == to && SaysSender(r, s)
      && r.message == Text(message) && r.requestTime == Text(time)
    case FriendAuth(id, asked, answered, name, accepted, message) =>
      && d.note.id == ID_NOTIFY_AUTH_FRIEND_RSP && d.uid == asked && r.toUid == Num(d.uid)
      && r.fromUid == Num(answered) && r.fromName == Text(name) && r.requestId == Num(id)
      && r.accepted == Flag(accepted) && r.message == Text(message)
  }

  /** What makes a delivery by job j of server k right: the session is the one the server holds for that user
      when the delivery is made, and message and receiver are right for the job's notice and the moment at
      which its loop started. */
  ghost predicate Justified(n: nat, es: seq<Event>, k: nat, j: nat, d: Delivery)
    requires k < n && j < |After(n, es).servers[k].jobs|
  {
    var sessions, notice := After(n, es).servers[k].sessions, After(n, es).servers[k].jobs[j].notice;
    && d.server == k && d.uid in sessions && d.sid == sessions[d.uid]
    && (exists m: nat :: LoopStart(n, es, k, j, m) && IsRight(After(n, es[..m + 1]), notice, d))
  }

  lemma JobDeliveryIsRight(w: World, job: Job, d: Delivery)
    requires FansOut(w, job) && job.note == Local(job.notice)
    requires d.note == job.note && d.uid in job.left && !Skips(job.notice, d.uid)
    ensures IsRight(w, job.notice, d)
  {
    assert d.uid in Visits(w, Addressee(job.notice));
    if !job.notice.FriendRequest? && !job.notice.FriendAuth? {
      var i :| 0 <= i < |w.rows| && CopiesRow(job.notice, w.rows[i]);
      assert w.rows[i] in w.rows;
    }
  }

  /** Only the lookup of a job hands anything over. */
  lemma DeliveryStep(w: World, e: Event)
    ensures var d := Step(w, e).delivered;
            d == w.delivered
            || (Advances(w, e) && var job := w.servers[e.k].jobs[e.j];
                var uid := job.left[0];
                && !Skips(job.notice, uid) && uid in w.servers[e.k].sessions
                && d == w.delivered + [Delivery(e.k, w.servers[e.k].sessions[uid], uid, job.note)])
  {
  }

  /** Routing safety, over any number of servers and any interleaving: an event hands over at most one
      notification, and it is a justified one of the loop that the event advances. */
  lemma RoutingSafety(n: nat, es: seq<Event>, e: Event)
    ensures After(n, es + [e]).delivered == After(n, es).delivered
            || (Advances(After(n, es), e)
                && exists d ::
                     After(n, es + [e]).delivered == After(n, es).delivered + [d] && Justified(n, es, e.k, e.j, d))
  {
    InvHolds(n, es);
    Snoc(n, es, e);
    var w := After(n, es);
    DeliveryStep(w, e);
    if Step(w, e).delivered != w.delivered {
      var job := w.servers[e.k].jobs[e.j];
      var d := Delivery(e.k, w.servers[e.k].sessions[job.left[0]], job.left[0], job.note);
      JobIsOk(n, es, e.k, e.j);
      var m: nat :| LoopStart(n, es, e.k, e.j, m) && FansOut(After(n, es[..m + 1]), job);
      JobDeliveryIsRight(After(n, es[..m + 1]), job, d);
      assert Justified(n, es, e.k, e.j, d);
    }
  }

  /** Saving a message records who sent what to whom, in a new row, and leaves the handler with the notice of
      exactly that row, image and sender details included. */
  lemma SendIsSaved(w: World, k: nat, sender: Sender, to: int, content: string, time: string, image: Image)
    requires k < |w.servers|
    ensures var id, s := |w.rows| + 1, w.servers[k];
            var text := Step(w, SendChat(k, sender, to, content, time, None));
            var picture := Step(w, SendChat(k, sender, to, content, time, Some(image)));
            && text.rows == w.rows + [MessageRow(id, sender.uid, to, content, false)] && picture.rows == text.rows
            && text.servers[k].saved == s.saved + [Chat(id, sender, to, content, time)]
            && picture.servers[k].saved == s.saved + [ImageChat(id, sender, to, content, time, image)]
  {
  }

  lemma GroupSendIsSaved(w: World, k: nat, sender: Sender, g: int, name: string, content: string, time: string, image: Image)
    requires k < |w.servers|
    ensures var id, s := |w.rows| + 1, w.servers[k];
            var text := Step(w, SendGroup(k, sender, g, name, content, time, None));
            var picture := Step(w, SendGroup(k, sender, g, name, content, time, Some(image)));
            && text.rows == w.rows + [MessageRow(id, sender.uid, g, content, true)] && picture.rows == text.rows
            && text.servers[k].saved == s.saved + [GroupChat(id, sender, g, name, content, time)]
            && picture.servers[k].saved == s.saved + [GroupImage(id, sender, g, name, content, time, image)]
  {
  }

  /** Whom a notice is for, in `w`. */
  function Receivers(w: World, n: Notice): seq<int> {
    match n
    case Chat(_, _, to, _, _) => [to]
    case ImageChat(_, _, to, _, _, _) => [to]
    case GroupChat(_, _, g, _, _, _) => MembersOf(w, g)
    case GroupImage(_, _, g, _, _, _, _) => MembersOf(w, g)
    case FriendRequest(_, to, _, _) => [to]
    case FriendAuth(_, asked, _, _, _, _) => [asked]
  }

  /** Every saved message and every friend notice gets its loop, relaying and over all its receivers; and so
      does every record that the callback takes, not relaying. */
  lemma LoopIsStarted(w: World, k: nat, q: nat, n: Notice)
    requires k < |w.servers|
    ensures q < |w.servers[k].saved| ==>
              var s, t, m := w.servers[k], Step(w, Begin(k, q)).servers[k], w.servers[k].saved[q];
              t == s.(saved := s.saved[..q] + s.saved[q + 1..], jobs := s.jobs + [Job(m, Local(m), true, Receivers(w, m))])
    ensures n.FriendRequest? || n.FriendAuth? ==>
              var s, t := w.servers[k], Step(w, SendNotice(k, n)).servers[k];
              t == s.(jobs := s.jobs + [Job(n, Local(n), true, Receivers(w, n))])
    ensures w.servers[k].taken < |w.servers[k].inbox| ==>
              var s, t, m := w.servers[k], Step(w, Callback(k)).servers[k], w.servers[k].inbox[w.servers[k].taken];
              t == s.(taken := s.taken + 1, jobs := s.jobs + [Job(m, Local(m), false, Receivers(w, m))])
  {
    if w.servers[k].taken < |w.servers[k].inbox| {
      CallbackJob(w, k);
    }
  }

  predicate Sets(e: Event, g: int) {
    e.SetMembers? && e.groupId == g
  }

  lemma MembersStep(w: World, e: Event, g: int)
    ensures MembersOf(Step(w, e), g) == if Sets(e, g) then e.uids else MembersOf(w, g)
  {
  }

  /** The members of a group are those that event i set, if none has set them later; until one has, there are
      none. */
  lemma {:induction false} MembersAreLatest(n: nat, es: seq<Event>, g: int, i: nat)
    requires i < |es| && Sets(es[i], g) && forall k :: i < k < |es| ==> !Sets(es[k], g)
    ensures MembersOf(After(n, es), g) == es[i].uids
  {
    var p := es[..|es| - 1];
    MembersStep(After(n, p), es[|es| - 1], g);
    if i < |p| {
      MembersAreLatest(n, p, g, i);
    }
  }

  lemma {:induction false} NoMembersAtFirst(n: nat, es: seq<Event>, g: int)
    requires forall k :: 0 <= k < |es| ==> !Sets(es[k], g)
    ensures MembersOf(After(n, es), g) == []
  {
    if es != [] {
      NoMembersAtFirst(n, es[..|es| - 1], g);
      MembersStep(After(n, es[..|es| - 1]), es[|es| - 1], g);
    }
  }
}
