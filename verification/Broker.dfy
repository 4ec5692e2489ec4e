/**
 The broker agent: client sessions, one first-in first-out queue per board, and the driver's
 descriptor table behind each board. A run is any interleaving of client events, queue jobs
 and the clean-up of departed clients; what the adapters answer is arbitrary.
 */
module Broker {
  import opened Handles

  const MAX_BOARDS := 16
  const MAX_OUT := 0x10_0000
  const OPEN_IN := 32
  const OPEN_OUT := 16
  const HANDLE_IN := 8

  type Sid = nat

  datatype Desc = Desc(board: int, handle: int)

  datatype Op = ListBoards | Probe | OpenDescriptor | CloseDescriptor | OtherSelector

  /** `handle` is read from the input when there is enough of it. */
  datatype Request = Request(op: Op, board: nat, cap: nat, inSize: nat, handle: int)

  datatype Job = Handle(sid: Sid, request: Request) | ReapClose(sid: Sid, desc: Desc)

  /** Leaving: the clean-up is scheduled. Reaping: it has detached the list, and `waiting` for
      the job that closes its head. */
  datatype Stage = Serving | Leaving | Reaping(list: seq<Desc>, waiting: bool)

  datatype Session = Session(descs: seq<Desc>, stage: Stage) {
    function All(): seq<Desc> {
      if stage.Reaping? then descs + stage.list else descs
    }
  }

  /** A clean-up's close call that the driver served. */
  datatype Closing = Closing(reaper: Sid, desc: Desc)

  datatype State = State(sessions: map<Sid, Session>, next: Sid, queues: seq<seq<Job>>, conn: seq<bool>,
                         tables: seq<set<int>>, closed: seq<Closing>) {
    predicate Shaped() {
      |queues| == |conn| == |tables| == MAX_BOARDS
    }

    predicate Live(d: Desc) {
      0 <= d.board < |tables| && d.handle in tables[d.board]
    }

    predicate Holds(sid: Sid, d: Desc) {
      sid in sessions && d in sessions[sid].All()
    }
  }

  /** How one call into the driver ends; a dead port may mean a new driver with an empty table. */
  datatype Reply = Served | Refused | Gone(lost: bool)

  /** What the outside does during one job: can the board be opened, and what do calls answer. */
  datatype Env = Env(attached: bool, first: Reply, again: bool, second: Reply)

  // ----- The driver -----

  datatype Answer = Answer(dead: bool, ok: bool, handle: int, table: set<int>)

  function Drive(table: set<int>, r: Request, reply: Reply): Answer {
    match reply
    case Refused => Answer(false, false, -1, table)
    case Gone(lost) => Answer(true, false, -1, if lost then {} else table)
    case Served =>
      if r.op.OpenDescriptor? && r.inSize >= OPEN_IN then
        var h := FirstFree(table);
        Answer(false, true, h, if h < 0 then table else table + {h})
      else if r.op.CloseDescriptor? && r.inSize >= HANDLE_IN then Answer(false, true, -1, table - {r.handle})
      else Answer(false, r.op.OtherSelector?, -1, table)
  }

  // ----- What each piece of the broker does to the state -----

  /** The request's 64-bit board number as a 32-bit int. */
  function BoardOf(raw: nat): int {
    var low := raw % 0x1_0000_0000;
    if low < 0x8000_0000 then low else low - 0x1_0000_0000
  }

  predicate IsBoard(b: int) {
    0 <= b < MAX_BOARDS
  }

  function QueueOf(b: int): nat {
    if IsBoard(b) then b else 0
  }

  predicate Reachable(s: State, b: int, attached: bool)
    requires s.Shaped()
  {
    IsBoard(b) && (s.conn[b] || attached)
  }

  function Connected(s: State, b: int, attached: bool): State
    requires s.Shaped()
  {
    if Reachable(s, b, attached) then s.(conn := s.conn[b := true]) else s
  }

  function Dropped(s: State, b: int): State
    requires s.Shaped()
  {
    if IsBoard(b) then s.(conn := s.conn[b := false]) else s
  }

  function WithTable(s: State, b: int, table: set<int>): State
    requires s.Shaped() && IsBoard(b)
  {
    s.(tables := s.tables[b := table])
  }

  function Added(s: State, sid: Sid, d: Desc): State {
    if sid in s.sessions && d.handle >= 0
    then s.(sessions := s.sessions[sid := s.sessions[sid].(descs := [d] + s.sessions[sid].descs)])
    else s
  }

  function WithoutFirst(list: seq<Desc>, d: Desc): seq<Desc> {
    if list == [] then [] else if list[0] == d then list[1..] else [list[0]] + WithoutFirst(list[1..], d)
  }

  lemma SkipOne(list: seq<Desc>, i: nat, d: Desc)
    requires i < |list| && list[i] != d
    ensures list[..i] + WithoutFirst(list[i..], d) == list[..i + 1] + WithoutFirst(list[i + 1..], d)
  {
    assert list[i..][1..] == list[i + 1..];
  }

  function Forgotten(s: State, sid: Sid, d: Desc): State {
    if sid in s.sessions
    then s.(sessions := s.sessions[sid := s.sessions[sid].(descs := WithoutFirst(s.sessions[sid].descs, d))])
    else s
  }

  function Tracked(s: State, sid: Sid, b: int, r: Request, a: Answer): State {
    if !a.ok || r.cap == 0 then s
    else if r.op.OpenDescriptor? then
      if r.cap >= OPEN_OUT then Added(s, sid, Desc(b, a.handle)) else s
    else if r.op.CloseDescriptor? then Forgotten(s, sid, Desc(b, r.handle))
    else s
  }

  function Retried(s: State, sid: Sid, b: int, r: Request, e: Env): State
    requires s.Shaped() && IsBoard(b)
  {
    var s0 := Dropped(s, b);
    if !e.again then s0
    else
      var a := Drive(s0.tables[b], r, e.second);
      var s1 := WithTable(Connected(s0, b, true), b, a.table);
      Tracked(if a.dead then Dropped(s1, b) else s1, sid, b, r, a)
  }

  function Handled(s: State, sid: Sid, r: Request, e: Env): State
    requires s.Shaped()
  {
    var b := BoardOf(r.board);
    if r.cap > MAX_OUT || r.op.ListBoards? || !Reachable(s, b, e.attached) then s
    else
      var s0 := Connected(s, b, e.attached);
      if r.op.Probe? then s0
      else
        var a := Drive(s0.tables[b], r, e.first);
        var s1 := WithTable(s0, b, a.table);
        if a.dead then Retried(s1, sid, b, r, e) else Tracked(s1, sid, b, r, a)
  }

  function CloseRequest(d: Desc): Request {
    Request(CloseDescriptor, QueueOf(d.board), 0, HANDLE_IN, d.handle)
  }

  /** The head of the detached list has had its turn, whatever the driver said. */
  function Popped(s: State, sid: Sid): State {
    if sid in s.sessions && s.sessions[sid].stage.Reaping? && s.sessions[sid].stage.list != []
    then s.(sessions := s.sessions[sid := s.sessions[sid].(stage := Reaping(s.sessions[sid].stage.list[1..], false))])
    else s
  }

  function Reaped(s: State, sid: Sid, d: Desc, e: Env): State
    requires s.Shaped()
  {
    if !Reachable(s, d.board, e.attached) then Popped(s, sid)
    else
      var s0 := Connected(s, d.board, e.attached);
      var a := Drive(s0.tables[d.board], CloseRequest(d), e.first);
      var s1 := WithTable(s0, d.board, a.table);
      Popped(if a.ok then s1.(closed := s1.closed + [Closing(sid, d)]) else s1, sid)
  }

  function Queued(s: State, b: int, j: Job): State
    requires s.Shaped()
  {
    var q := QueueOf(b);
    s.(queues := s.queues[q := s.queues[q] + [j]])
  }

  // ----- Runs -----

  datatype Step =
    | Arrive
    | Message(sid: Sid, request: Request)
    | Invalid(sid: Sid)
    | StartReap(sid: Sid)
    | QueueClose(sid: Sid)
    | RunJob(q: nat, env: Env)
    | EndReap(sid: Sid)

  predicate Enabled(s: State, t: Step)
    requires s.Shaped()
  {
    match t
    case Arrive => true
    case Message(sid, _) => sid in s.sessions && s.sessions[sid].stage.Serving?
    case Invalid(sid) => sid in s.sessions && s.sessions[sid].stage.Serving?
    case StartReap(sid) => sid in s.sessions && s.sessions[sid].stage.Leaving?
    case QueueClose(sid) =>
      && sid in s.sessions && s.sessions[sid].stage.Reaping?
      && s.sessions[sid].stage.list != [] && !s.sessions[sid].stage.waiting
    case RunJob(q, _) => q < MAX_BOARDS && s.queues[q] != []
    case EndReap(sid) => sid in s.sessions && s.sessions[sid].stage == Reaping([], false)
  }

  function Staged(s: State, sid: Sid, stage: Stage): State
    requires sid in s.sessions
  {
    s.(sessions := s.sessions[sid := s.sessions[sid].(stage := stage)])
  }

  function After(s: State, t: Step): State
    requires s.Shaped() && Enabled(s, t)
  {
    match t
    case Arrive => s.(sessions := s.sessions[s.next := Session([], Serving)], next := s.next + 1)
    case Message(sid, r) => Queued(s, BoardOf(r.board), Handle(sid, r))
    case Invalid(sid) => Staged(s, sid, Leaving)
    case StartReap(sid) =>
      s.(sessions := s.sessions[sid := Session([], Reaping(s.sessions[sid].descs, false))])
    case QueueClose(sid) =>
      var list := s.sessions[sid].stage.list;
      Queued(Staged(s, sid, Reaping(list, true)), list[0].board, ReapClose(sid, list[0]))
    case RunJob(q, e) =>
      var j := s.queues[q][0];
      var s0 := s.(queues := s.queues[q := s.queues[q][1..]]);
      if j.Handle? then Handled(s0, j.sid, j.request, e) else Reaped(s0, j.sid, j.desc, e)
    case EndReap(sid) => s.(sessions := s.sessions - {sid})
  }

  // ----- Conservation of descriptors -----

  predicate Distinct(list: seq<Desc>) {
    forall i, j :: 0 <= i < j < |list| ==> list[i] != list[j]
  }

  ghost predicate AllLive(s: State) {
    forall sid, d :: s.Holds(sid, d) ==> s.Live(d)
  }

  ghost predicate AllHeld(s: State) {
    forall d :: s.Live(d) ==> Owned(s, d)
  }

  ghost predicate Owned(s: State, d: Desc) {
    exists sid :: s.Holds(sid, d)
  }

  ghost predicate HeldOnce(s: State) {
    && (forall sid :: sid in s.sessions ==> Distinct(s.sessions[sid].All()))
    && (forall a, b, d :: s.Holds(a, d) && s.Holds(b, d) ==> a == b)
  }

  ghost predicate Slots(s: State) {
    forall b, h :: 0 <= b < |s.tables| && h in s.tables[b] ==> IsSlot(h)
  }

  /** Every live driver handle is a slot from 1 to 63 and is in exactly one session's list or
      pending clean-up, once; and these lists hold nothing else. */
  ghost predicate Conserved(s: State) {
    AllLive(s) && AllHeld(s) && HeldOnce(s) && Slots(s)
  }

  /** Does the request get served by the driver (after one retry on a dead connection)? */
  predicate Reaches(s: State, r: Request, e: Env)
    requires s.Shaped()
  {
    && r.cap <= MAX_OUT && Reachable(s, BoardOf(r.board), e.attached)
    && (e.first.Served? || (e.first.Gone? && e.again && e.second.Served?))
  }

  /** Does a dead connection turn out to be a new driver with an empty table? */
  predicate Loses(s: State, r: Request, e: Env)
    requires s.Shaped()
  {
    && r.cap <= MAX_OUT && !r.op.ListBoards? && !r.op.Probe? && Reachable(s, BoardOf(r.board), e.attached)
    && (e.first == Gone(true) || (e.first == Gone(false) && e.again && e.second == Gone(true)))
  }

  /** A served open has room for its whole reply, and a served close of a live handle is of
      one of the client's own and asks for a reply. */
  predicate Accounted(s: State, sid: Sid, r: Request, e: Env)
    requires s.Shaped()
  {
    Reaches(s, r, e) ==>
      var b := BoardOf(r.board);
      && (r.op.OpenDescriptor? && r.inSize >= OPEN_IN && FirstFree(s.tables[b]) >= 0 ==>
            r.cap >= OPEN_OUT && sid in s.sessions)
      && (r.op.CloseDescriptor? && r.inSize >= HANDLE_IN && r.handle in s.tables[b] ==>
            r.cap > 0 && sid in s.sessions && Desc(b, r.handle) in s.sessions[sid].descs)
  }

  lemma {:induction false} WithoutFirstMembers(list: seq<Desc>, d: Desc)
    requires Distinct(list)
    ensures var w := WithoutFirst(list, d);
            && Distinct(w) && (forall x :: x in w <==> x in list && x != d)
            && (d !in list ==> w == list)
  {
    if list != [] {
      var rest := list[1..];
      assert list == [list[0]] + rest;
      assert list[0] !in rest;
      WithoutFirstMembers(rest, d);
    }
  }

  // ----- One request -----

  lemma TrackedFrame(s: State, t: State, sid: Sid, b: int, r: Request, a: Answer)
    requires s.sessions == t.sessions && s.tables == t.tables
    ensures var u, v := Tracked(s, sid, b, r, a), Tracked(t, sid, b, r, a);
            && u.sessions == v.sessions && u.tables == v.tables == s.tables
            && v.conn == t.conn && v.next == t.next && v.queues == t.queues && v.closed == t.closed
  {
  }

  lemma RetriedEffect(s: State, sid: Sid, b: int, r: Request, e: Env)
    requires s.Shaped() && IsBoard(b) && !(e.again && e.second == Gone(true))
    ensures var t := Retried(s, sid, b, r, e);
            && t.Shaped() && t.next == s.next && t.queues == s.queues && t.closed == s.closed
            && if !e.again || !e.second.Served? then t.sessions == s.sessions && t.tables == s.tables
               else
                 var a := Drive(s.tables[b], r, Served);
                 var u := Tracked(WithTable(s, b, a.table), sid, b, r, a);
                 t.sessions == u.sessions && t.tables == u.tables
  {
    assert s.tables[b := s.tables[b]] == s.tables;
    var s0 := Dropped(s, b);
    var a := Drive(s0.tables[b], r, e.second);
    var s1 := WithTable(Connected(s0, b, true), b, a.table);
    TrackedFrame(WithTable(s, b, a.table), if a.dead then Dropped(s1, b) else s1, sid, b, r, a);
  }

  /** What a request comes to, when no board loses its table: nothing, or one served call. */
  lemma HandledEffect(s: State, sid: Sid, r: Request, e: Env)
    requires s.Shaped() && !Loses(s, r, e)
    ensures var t := Handled(s, sid, r, e);
            && t.Shaped() && t.next == s.next && t.queues == s.queues && t.closed == s.closed
            && if !Reaches(s, r, e) then t.sessions == s.sessions && t.tables == s.tables
               else
                 var b := BoardOf(r.board);
                 var a := Drive(s.tables[b], r, Served);
                 var u := Tracked(WithTable(s, b, a.table), sid, b, r, a);
                 t.sessions == u.sessions && t.tables == u.tables
  {
    var b := BoardOf(r.board);
    if r.cap > MAX_OUT || !Reachable(s, b, e.attached) {
      return;
    }
    assert s.tables[b := s.tables[b]] == s.tables;
    if r.op.ListBoards? || r.op.Probe? {
      return;
    }
    var s0 := Connected(s, b, e.attached);
    var a := Drive(s0.tables[b], r, e.first);
    var s1 := WithTable(s0, b, a.table);
    if a.dead {
      RetriedEffect(s1, sid, b, r, e);
    } else {
      TrackedFrame(WithTable(s, b, a.table), s1, sid, b, r, a);
    }
  }

  lemma SameHoldings(s: State, t: State)
    requires s.sessions == t.sessions && s.tables == t.tables
    ensures Conserved(s) <==> Conserved(t)
  {
    assert forall sid, d :: s.Holds(sid, d) == t.Holds(sid, d);
    assert forall d :: s.Live(d) == t.Live(d);
    assert forall d :: Owned(s, d) ==> Owned(t, d) by {
      forall d | Owned(s, d) ensures Owned(t, d) {
        var sid :| s.Holds(sid, d);
        assert t.Holds(sid, d);
      }
    }
    assert forall d :: Owned(t, d) ==> Owned(s, d) by {
      forall d | Owned(t, d) ensures Owned(s, d) {
        var sid :| t.Holds(sid, d);
        assert s.Holds(sid, d);
      }
    }
  }

  /** A served open keeps every descriptor accounted for exactly if the reply is recorded. */
  lemma OpenConserves(s: State, sid: Sid, b: int, h: int, recorded: bool)
    requires s.Shaped() && Conserved(s) && IsBoard(b) && IsSlot(h) && h !in s.tables[b]
    ensures var t := WithTable(s, b, s.tables[b] + {h});
            Conserved(if recorded then Added(t, sid, Desc(b, h)) else t) <==> recorded && sid in s.sessions
  {
    var d := Desc(b, h);
    var t := WithTable(s, b, s.tables[b] + {h});
    var u := if recorded then Added(t, sid, d) else t;
    assert u.tables == t.tables;
    assert forall x :: u.Live(x) <==> s.Live(x) || x == d;
    assert !s.Live(d) && !Owned(s, d);
    if recorded && sid in s.sessions {
      var was, now := s.sessions[sid].All(), u.sessions[sid].All();
      assert now == [d] + was;
      assert forall a, x :: u.Holds(a, x) <==> s.Holds(a, x) || (a == sid && x == d);
      assert u.Holds(sid, d);
      forall x | u.Live(x) ensures Owned(u, x) {
        if x != d {
          assert Owned(s, x);
          var a :| s.Holds(a, x);
          assert u.Holds(a, x);
        }
      }
      assert d !in was by { assert !s.Holds(sid, d); }
    } else {
      assert u.sessions == s.sessions;
      assert u.Live(d);
      if Owned(u, d) {
        var a :| u.Holds(a, d);
        assert s.Holds(a, d);
      }
    }
  }

  /** A served close keeps every descriptor accounted for exactly if the handle was not live,
      or the client that closed it owned it and its record is dropped. */
  lemma CloseConserves(s: State, sid: Sid, b: int, h: int, forgotten: bool)
    requires s.Shaped() && Conserved(s) && IsBoard(b)
    ensures var t := WithTable(s, b, s.tables[b] - {h});
            Conserved(if forgotten then Forgotten(t, sid, Desc(b, h)) else t) <==>
            (h in s.tables[b] ==> forgotten && sid in s.sessions && Desc(b, h) in s.sessions[sid].descs)
  {
    var d := Desc(b, h);
    var t := WithTable(s, b, s.tables[b] - {h});
    var u := if forgotten then Forgotten(t, sid, d) else t;
    var owned := forgotten && sid in s.sessions && d in s.sessions[sid].descs;
    assert u.tables == t.tables;
    assert forall x :: u.Live(x) <==> s.Live(x) && x != d;
    if sid in s.sessions {
      DescsDistinct(s.sessions[sid]);
      WithoutFirstMembers(s.sessions[sid].descs, d);
    }
    if owned {
      ForgottenHoldings(s, u, sid, d);
    } else {
      assert u.sessions == s.sessions by {
        if forgotten && sid in s.sessions {
          assert t.sessions[sid].(descs := s.sessions[sid].descs) == s.sessions[sid];
        }
      }
      if h in s.tables[b] {
        assert s.Live(d) && Owned(s, d);
        var a :| s.Holds(a, d);
        assert u.Holds(a, d) && !u.Live(d);
      } else {
        assert s.tables[b] - {h} == s.tables[b] && t.tables == s.tables;
        SameHoldings(s, u);
      }
    }
  }

  lemma DescsDistinct(x: Session)
    requires Distinct(x.All())
    ensures Distinct(x.descs)
    ensures x.stage.Reaping? ==> Distinct(x.stage.list) && forall d :: d in x.descs ==> d !in x.stage.list
  {
    assert forall i :: 0 <= i < |x.descs| ==> x.All()[i] == x.descs[i];
    if x.stage.Reaping? {
      assert forall i :: 0 <= i < |x.stage.list| ==> x.All()[|x.descs| + i] == x.stage.list[i];
    }
  }

  lemma DistinctJoin(a: seq<Desc>, b: seq<Desc>)
    requires Distinct(a) && Distinct(b) && forall d :: d in a ==> d !in b
    ensures Distinct(a + b)
  {
    forall i, j | 0 <= i < j < |a + b|
      ensures (a + b)[i] != (a + b)[j]
    {
      if i < |a| <= j {
        assert (a + b)[i] in a && (a + b)[j] in b;
      }
    }
  }

  lemma ForgottenHoldings(s: State, u: State, sid: Sid, d: Desc)
    requires s.Shaped() && Conserved(s) && u.Shaped() && sid in s.sessions && d in s.sessions[sid].descs
    requires u.sessions == Forgotten(s, sid, d).sessions
    requires forall x :: u.Live(x) <==> s.Live(x) && x != d
    requires Slots(u)
    ensures Conserved(u)
  {
    var was, now := s.sessions[sid], u.sessions[sid];
    DescsDistinct(was);
    WithoutFirstMembers(was.descs, d);
    assert forall x :: x in now.All() <==> x in was.All() && x != d;
    if now.stage.Reaping? {
      DistinctJoin(now.descs, now.stage.list);
    }
    HoldingsWithout(s, u, sid, d);
  }

  /** One descriptor gone from one session's lists and from the table. */
  lemma HoldingsWithout(s: State, u: State, sid: Sid, d: Desc)
    requires Conserved(s) && Slots(u) && s.Holds(sid, d) && sid in u.sessions
    requires forall x :: u.Live(x) <==> s.Live(x) && x != d
    requires forall a :: a in u.sessions <==> a in s.sessions
    requires forall a :: a in s.sessions && a != sid ==> u.sessions[a] == s.sessions[a]
    requires Distinct(u.sessions[sid].All())
    requires forall x :: x in u.sessions[sid].All() <==> x in s.sessions[sid].All() && x != d
    ensures Conserved(u)
  {
    assert forall a, x :: u.Holds(a, x) <==> s.Holds(a, x) && x != d by {
      forall a, x ensures u.Holds(a, x) <==> s.Holds(a, x) && x != d {
        if a != sid && s.Holds(a, x) {
          assert x != d;
        }
      }
    }
    forall x | u.Live(x) ensures Owned(u, x) {
      assert Owned(s, x);
      var a :| s.Holds(a, x);
      assert u.Holds(a, x);
    }
  }

  /** One request, exactly: while no board loses its table, the descriptors stay conserved if
      and only if the request is accounted for. */
  lemma RequestConserves(s: State, sid: Sid, r: Request, e: Env)
    requires s.Shaped() && Conserved(s) && !Loses(s, r, e)
    ensures Conserved(Handled(s, sid, r, e)) <==> Accounted(s, sid, r, e)
  {
    var t := Handled(s, sid, r, e);
    HandledEffect(s, sid, r, e);
    if !Reaches(s, r, e) {
      SameHoldings(s, t);
      return;
    }
    var b := BoardOf(r.board);
    var table := s.tables[b];
    var a := Drive(table, r, Served);
    var u := Tracked(WithTable(s, b, a.table), sid, b, r, a);
    SameHoldings(t, u);
    if r.op.OpenDescriptor? && r.inSize >= OPEN_IN && FirstFree(table) >= 0 {
      OpenConserves(s, sid, b, FirstFree(table), r.cap >= OPEN_OUT);
    } else if r.op.CloseDescriptor? && r.inSize >= HANDLE_IN {
      CloseConserves(s, sid, b, r.handle, r.cap > 0);
    } else {
      assert s.tables[b := table] == s.tables;
      SameHoldings(s, u);
    }
  }

  /** One board's table changed and no record: conserved exactly if it did not really change. */
  lemma TableSwapped(s: State, u: State, b: int, table: set<int>)
    requires s.Shaped() && Conserved(s) && IsBoard(b)
    requires u.sessions == s.sessions && u.tables == s.tables[b := table]
    ensures Conserved(u) <==> table == s.tables[b]
  {
    if table == s.tables[b] {
      assert u.tables == s.tables;
      SameHoldings(s, u);
    } else {
      SomeDifference(table, s.tables[b]);
      var h :| (h in table) != (h in s.tables[b]);
      var d := Desc(b, h);
      if s.Live(d) {
        assert Owned(s, d);
        var a :| s.Holds(a, d);
        assert u.Holds(a, d) && !u.Live(d);
      } else if Owned(u, d) {
        var a :| u.Holds(a, d);
        assert s.Holds(a, d);
      }
    }
  }

  lemma SomeDifference(x: set<int>, y: set<int>)
    ensures x == y || exists h :: (h in x) != (h in y)
  {
    if forall h :: h in x <==> h in y {
      assert x == y;
    }
  }

  /** What is left of a request whose board lost its table: the effect of the retry, if there
      was one, on an empty table. */
  lemma LossEffect(s: State, sid: Sid, r: Request, e: Env)
    requires s.Shaped() && Loses(s, r, e)
    ensures var t, b := Handled(s, sid, r, e), BoardOf(r.board);
            if e.first == Gone(true) && e.again && e.second.Served? then
              var a := Drive({}, r, Served);
              var u := Tracked(WithTable(s, b, a.table), sid, b, r, a);
              t.sessions == u.sessions && t.tables == u.tables
            else t.sessions == s.sessions && t.tables == s.tables[b := {}]
  {
    var b := BoardOf(r.board);
    var s0 := Connected(s, b, e.attached);
    var a := Drive(s0.tables[b], r, e.first);
    var s1 := WithTable(s0, b, a.table);
    assert Handled(s, sid, r, e) == Retried(s1, sid, b, r, e);
    RetriedTables(s1, sid, b, r, e);
    if e.again {
      var c := Drive(a.table, r, e.second);
      assert s1.tables[b := c.table] == s.tables[b := c.table];
      TrackedFrame(WithTable(s, b, c.table), WithTable(s1, b, c.table), sid, b, r, c);
    }
  }

  lemma RetriedTables(s: State, sid: Sid, b: int, r: Request, e: Env)
    requires s.Shaped() && IsBoard(b)
    ensures var t := Retried(s, sid, b, r, e);
            if !e.again then t.sessions == s.sessions && t.tables == s.tables
            else
              var a := Drive(s.tables[b], r, e.second);
              var u := Tracked(WithTable(s, b, a.table), sid, b, r, a);
              t.sessions == u.sessions && t.tables == u.tables
  {
    var s0 := Dropped(s, b);
    var a := Drive(s0.tables[b], r, e.second);
    var s1 := WithTable(Connected(s0, b, true), b, a.table);
    TrackedFrame(WithTable(s, b, a.table), if a.dead then Dropped(s1, b) else s1, sid, b, r, a);
  }

  /** The records a request makes up for when the new driver serves it: an open that is not
      put on a list leaves handle 1 live, and a close takes its own descriptor off one. */
  function MadeUp(s: State, sid: Sid, r: Request): set<int> {
    if r.op.OpenDescriptor? && r.inSize >= OPEN_IN then
      if r.cap >= OPEN_OUT && sid in s.sessions then {} else {1}
    else if r.op.CloseDescriptor? && r.inSize >= HANDLE_IN && r.cap > 0 && sid in s.sessions then
      if Desc(BoardOf(r.board), r.handle) in s.sessions[sid].descs then {r.handle} else {}
    else {}
  }

  /** The loss goes unnoticed: the lost table held just what the retried request makes up
      for, which is nothing if there was no retry. */
  predicate Survives(s: State, sid: Sid, r: Request, e: Env)
    requires s.Shaped() && Loses(s, r, e)
  {
    var retried := e.first == Gone(true) && e.again && e.second.Served?;
    s.tables[BoardOf(r.board)] == if retried then MadeUp(s, sid, r) else {}
  }

  /** A recorded open on the new driver's empty table. */
  lemma OpenAfterLoss(s: State, sid: Sid, b: int)
    requires s.Shaped() && Conserved(s) && IsBoard(b) && sid in s.sessions
    ensures Conserved(Added(WithTable(s, b, {1}), sid, Desc(b, 1))) <==> s.tables[b] == {}
  {
    var u := Added(WithTable(s, b, {1}), sid, Desc(b, 1));
    if s.tables[b] == {} {
      assert s.tables[b] + {1} == {1};
      OpenConserves(s, sid, b, 1, true);
    } else {
      SomeDifference(s.tables[b], {});
      var h :| (h in s.tables[b]) != (h in {});
      assert s.Live(Desc(b, h)) && Owned(s, Desc(b, h));
      var a :| s.Holds(a, Desc(b, h));
      var was, now := s.sessions[sid].All(), u.sessions[sid].All();
      assert now == [Desc(b, 1)] + was;
      assert u.Holds(a, Desc(b, h)) && u.Holds(sid, Desc(b, 1));
      if h == 1 && a == sid {
        var i :| 0 <= i < |was| && was[i] == Desc(b, 1);
        assert now[0] == now[i + 1];
      }
    }
  }

  /** A close of one of the client's own on the new driver's empty table. */
  lemma CloseAfterLoss(s: State, sid: Sid, b: int, h: int)
    requires s.Shaped() && Conserved(s) && IsBoard(b) && sid in s.sessions && Desc(b, h) in s.sessions[sid].descs
    ensures Conserved(Forgotten(WithTable(s, b, {}), sid, Desc(b, h))) <==> s.tables[b] == {h}
  {
    var u := Forgotten(WithTable(s, b, {}), sid, Desc(b, h));
    assert s.Holds(sid, Desc(b, h)) && s.Live(Desc(b, h));
    if s.tables[b] == {h} {
      assert s.tables[b] - {h} == {};
      CloseConserves(s, sid, b, h, true);
    } else {
      SomeDifference(s.tables[b], {h});
      var g :| (g in s.tables[b]) != (g in {h});
      assert g != h && s.Live(Desc(b, g)) && Owned(s, Desc(b, g));
      var a :| s.Holds(a, Desc(b, g));
      DescsDistinct(s.sessions[sid]);
      WithoutFirstMembers(s.sessions[sid].descs, Desc(b, h));
      assert u.Holds(a, Desc(b, g)) && !u.Live(Desc(b, g));
    }
  }

  /** A new driver behind a dead connection, exactly: the descriptors stay conserved if and
      only if the loss goes unnoticed. */
  lemma LostTable(s: State, sid: Sid, r: Request, e: Env)
    requires s.Shaped() && Conserved(s) && Loses(s, r, e)
    ensures Conserved(Handled(s, sid, r, e)) <==> Survives(s, sid, r, e)
  {
    var t, b := Handled(s, sid, r, e), BoardOf(r.board);
    LossEffect(s, sid, r, e);
    if e.first == Gone(true) && e.again && e.second.Served? {
      var a := Drive({}, r, Served);
      var u := Tracked(WithTable(s, b, a.table), sid, b, r, a);
      SameHoldings(t, u);
      RetryAfterLoss(s, u, sid, b, r, a);
    } else {
      TableSwapped(s, t, b, {});
    }
  }

  lemma RetryAfterLoss(s: State, u: State, sid: Sid, b: int, r: Request, a: Answer)
    requires s.Shaped() && Conserved(s) && IsBoard(b) && a == Drive({}, r, Served)
    requires u == Tracked(WithTable(s, b, a.table), sid, b, r, a) && !r.op.Probe? && !r.op.ListBoards?
    requires b == BoardOf(r.board)
    ensures Conserved(u) <==> s.tables[b] == MadeUp(s, sid, r)
  {
    FirstFreeIs({}, 1);
    if r.op.OpenDescriptor? && r.inSize >= OPEN_IN {
      assert a.table == {1} && a.handle == 1;
      if r.cap >= OPEN_OUT && sid in s.sessions {
        OpenAfterLoss(s, sid, b);
      } else {
        TableSwapped(s, u, b, {1});
      }
    } else {
      assert a.table == {};
      if r.op.CloseDescriptor? && r.inSize >= HANDLE_IN && r.cap > 0 && sid in s.sessions {
        if Desc(b, r.handle) in s.sessions[sid].descs {
          CloseAfterLoss(s, sid, b, r.handle);
        } else {
          DescsDistinct(s.sessions[sid]);
          WithoutFirstMembers(s.sessions[sid].descs, Desc(b, r.handle));
          assert u.sessions == s.sessions;
          TableSwapped(s, u, b, {});
        }
      } else {
        TableSwapped(s, u, b, {});
      }
    }
  }

  /** After the driver's answer the descriptor is closed and no other is. */
  predicate Closes(s: State, d: Desc, reply: Reply)
    requires IsBoard(d.board) && s.Shaped()
  {
    reply.Served? || (reply == Gone(true) && s.tables[d.board] == {d.handle})
  }

  /** `d` is the next handle a clean-up closes. */
  predicate NextToReap(s: State, sid: Sid, d: Desc) {
    && sid in s.sessions && s.sessions[sid].stage.Reaping?
    && s.sessions[sid].stage.list != [] && s.sessions[sid].stage.list[0] == d
  }

  lemma ReapedDesc(s: State, sid: Sid, d: Desc)
    requires s.Shaped() && Conserved(s) && NextToReap(s, sid, d)
    ensures IsBoard(d.board) && s.Holds(sid, d) && s.Live(d) && d !in s.sessions[sid].stage.list[1..]
    ensures s.sessions[sid].stage.list == [d] + s.sessions[sid].stage.list[1..]
  {
    var list := s.sessions[sid].stage.list;
    assert d in s.sessions[sid].All();
    assert s.Holds(sid, d) && s.Live(d);
    DescsDistinct(s.sessions[sid]);
    assert list == [d] + list[1..];
  }

  lemma ReapCloses(s: State, sid: Sid, d: Desc, e: Env)
    requires s.Shaped() && Conserved(s) && NextToReap(s, sid, d)
    requires Reachable(s, d.board, e.attached) && Closes(s, d, e.first)
    ensures Conserved(Reaped(s, sid, d, e))
  {
    var u := Reaped(s, sid, d, e);
    ReapedDesc(s, sid, d);
    DescsDistinct(s.sessions[sid]);
    assert forall x :: u.Live(x) <==> s.Live(x) && x != d;
    DistinctJoin(u.sessions[sid].descs, u.sessions[sid].stage.list);
    HoldingsWithout(s, u, sid, d);
  }

  lemma ReapLosesMore(s: State, sid: Sid, d: Desc, e: Env)
    requires s.Shaped() && Conserved(s) && NextToReap(s, sid, d)
    requires Reachable(s, d.board, e.attached) && e.first == Gone(true) && s.tables[d.board] != {d.handle}
    ensures !Conserved(Reaped(s, sid, d, e))
  {
    var u := Reaped(s, sid, d, e);
    ReapedDesc(s, sid, d);
    SomeDifference(s.tables[d.board], {d.handle});
    var h :| (h in s.tables[d.board]) != (h in {d.handle});
    assert s.Live(Desc(d.board, h)) && Owned(s, Desc(d.board, h));
    var a :| s.Holds(a, Desc(d.board, h));
    assert u.Holds(a, Desc(d.board, h)) && !u.Live(Desc(d.board, h));
  }

  lemma ReapMisses(s: State, sid: Sid, d: Desc, e: Env)
    requires s.Shaped() && Conserved(s) && NextToReap(s, sid, d)
    requires !Reachable(s, d.board, e.attached) || (!e.first.Served? && e.first != Gone(true))
    ensures !Conserved(Reaped(s, sid, d, e))
  {
    var u := Reaped(s, sid, d, e);
    ReapedDesc(s, sid, d);
    DescsDistinct(s.sessions[sid]);
    assert u.tables == s.tables;
    assert u.Live(d);
    if Owned(u, d) {
      var a :| u.Holds(a, d);
      assert s.Holds(a, d);
    }
  }

  /** One close job of a clean-up, exactly: the descriptors stay conserved if and only if the
      driver serves it, or has lost a table with nothing else in it; the record goes either way. */
  lemma ReapConserves(s: State, sid: Sid, d: Desc, e: Env)
    requires s.Shaped() && Conserved(s) && NextToReap(s, sid, d)
    ensures Conserved(Reaped(s, sid, d, e)) <==> Reachable(s, d.board, e.attached) && Closes(s, d, e.first)
  {
    ReapedDesc(s, sid, d);
    if !Reachable(s, d.board, e.attached) || (!e.first.Served? && e.first != Gone(true)) {
      ReapMisses(s, sid, d, e);
    } else if Closes(s, d, e.first) {
      ReapCloses(s, sid, d, e);
    } else {
      ReapLosesMore(s, sid, d, e);
    }
  }

  // ----- All runs -----

  predicate Pending(s: State, q: nat, j: Job) {
    q < |s.queues| && j in s.queues[q]
  }

  predicate AwaitsClose(s: State, sid: Sid, d: Desc) {
    && sid in s.sessions && s.sessions[sid].stage.Reaping?
    && s.sessions[sid].stage.list != [] && s.sessions[sid].stage.list[0] == d && s.sessions[sid].stage.waiting
  }

  /** No queued request of a session outlives the start of its clean-up, and a clean-up has at
      most one close job queued, on its board's queue, for the head of its list. */
  ghost predicate Valid(s: State) {
    && s.Shaped()
    && (forall sid :: sid in s.sessions ==> sid < s.next)
    && (forall q, j :: Pending(s, q, j) && j.Handle? ==> j.sid in s.sessions && !s.sessions[j.sid].stage.Reaping?)
    && (forall q, j :: Pending(s, q, j) && j.ReapClose? ==> AwaitsClose(s, j.sid, j.desc) && q == QueueOf(j.desc.board))
    && (forall q, i, k :: 0 <= q < |s.queues| && 0 <= i < k < |s.queues[q]| && s.queues[q][i].ReapClose? ==>
          s.queues[q][i] != s.queues[q][k])
    && (forall sid, d :: AwaitsClose(s, sid, d) ==> Pending(s, QueueOf(d.board), ReapClose(sid, d)))
    && (forall sid :: sid in s.sessions && s.sessions[sid].stage.Reaping? && s.sessions[sid].stage.waiting ==>
          s.sessions[sid].stage.list != [])
    && (forall sid :: sid in s.sessions && s.sessions[sid].stage.Reaping? ==> s.sessions[sid].descs == [])
  }

  ghost predicate Drained(s: State, sid: Sid) {
    forall q, j :: Pending(s, q, j) && j.Handle? ==> j.sid != sid
  }

  /** The hypotheses on a step: requests are accounted for, no board loses its table, a
      clean-up starts once its session's queued requests are done, and its closes are served. */
  ghost predicate Courteous(s: State, t: Step)
    requires s.Shaped() && Enabled(s, t)
  {
    match t
    case StartReap(sid) => Drained(s, sid)
    case RunJob(q, e) =>
      var j := s.queues[q][0];
      if j.Handle? then !Loses(s, j.request, e) && Accounted(s, j.sid, j.request, e)
      else Reachable(s, j.desc.board, e.attached) && e.first.Served?
    case _ => true
  }

  ghost predicate Inv(s: State) {
    Valid(s) && Conserved(s)
  }

  lemma QueuedPending(s: State, b: int, j: Job)
    requires s.Shaped()
    ensures forall q, i :: Pending(Queued(s, b, j), q, i) <==> Pending(s, q, i) || (q == QueueOf(b) && i == j)
  {
  }

  lemma MessageKeeps(s: State, sid: Sid, r: Request)
    requires Valid(s) && Enabled(s, Message(sid, r))
    ensures Valid(After(s, Message(sid, r)))
  {
    QueuedPending(s, BoardOf(r.board), Handle(sid, r));
  }

  lemma QueueCloseKeeps(s: State, sid: Sid)
    requires Valid(s) && Enabled(s, QueueClose(sid))
    ensures Valid(After(s, QueueClose(sid)))
  {
    var list := s.sessions[sid].stage.list;
    var s0 := Staged(s, sid, Reaping(list, true));
    var t := After(s, QueueClose(sid));
    QueuedPending(s0, list[0].board, ReapClose(sid, list[0]));
    assert forall q, j :: Pending(s0, q, j) == Pending(s, q, j);
    assert forall q, j :: Pending(s, q, j) && j.ReapClose? ==> j.sid != sid;
    assert forall a, d :: AwaitsClose(t, a, d) ==> AwaitsClose(s, a, d) || (a == sid && d == list[0]);
    forall q, i, k | 0 <= q < |t.queues| && 0 <= i < k < |t.queues[q]| && t.queues[q][i].ReapClose?
      ensures t.queues[q][i] != t.queues[q][k]
    {
      assert i < |s.queues[q]| && t.queues[q][i] == s.queues[q][i];
      assert Pending(s, q, s.queues[q][i]);
    }
  }

  lemma StageKeeps(s: State, t: Step)
    requires Valid(s) && Enabled(s, t) && Courteous(s, t)
    requires t.Arrive? || t.Invalid? || t.StartReap? || t.EndReap?
    ensures Valid(After(s, t))
  {
    var u := After(s, t);
    assert forall q, j :: Pending(u, q, j) == Pending(s, q, j);
    assert forall sid, d :: AwaitsClose(u, sid, d) == AwaitsClose(s, sid, d);
  }

  function Dequeued(s: State, q: nat): State
    requires s.Shaped() && q < MAX_BOARDS && s.queues[q] != []
  {
    s.(queues := s.queues[q := s.queues[q][1..]])
  }

  lemma DequeuedPending(s: State, q: nat)
    requires Valid(s) && q < MAX_BOARDS && s.queues[q] != []
    ensures var s0, head := Dequeued(s, q), s.queues[q][0];
            && s0.Shaped() && Pending(s, q, head)
            && (forall p, j :: Pending(s0, p, j) ==> Pending(s, p, j))
            && (forall p, j :: Pending(s, p, j) ==> Pending(s0, p, j) || (p == q && j == head))
            && (head.ReapClose? ==> !Pending(s0, q, head))
            && (forall p, i, k :: 0 <= p < |s0.queues| && 0 <= i < k < |s0.queues[p]| && s0.queues[p][i].ReapClose? ==>
                  s0.queues[p][i] != s0.queues[p][k])
  {
    var s0, head := Dequeued(s, q), s.queues[q][0];
    assert s.queues[q] == [head] + s0.queues[q];
    forall p, i, k | 0 <= p < |s0.queues| && 0 <= i < k < |s0.queues[p]| && s0.queues[p][i].ReapClose?
      ensures s0.queues[p][i] != s0.queues[p][k]
    {
      if p == q {
        assert s0.queues[q][i] == s.queues[q][i + 1] && s0.queues[q][k] == s.queues[q][k + 1];
      }
    }
  }

  /** A request changes no session's stage and starts or ends none. */
  lemma HandledStages(s: State, sid: Sid, r: Request, e: Env)
    requires s.Shaped() && !Loses(s, r, e)
    ensures var t := Handled(s, sid, r, e);
            forall a ::
              (a in t.sessions <==> a in s.sessions) && (a in s.sessions ==> t.sessions[a].stage == s.sessions[a].stage)
              && (a in s.sessions && a != sid ==> t.sessions[a] == s.sessions[a])
    ensures forall a, d :: AwaitsClose(Handled(s, sid, r, e), a, d) == AwaitsClose(s, a, d)
  {
    HandledEffect(s, sid, r, e);
  }

  lemma RequestJobKeeps(s: State, q: nat, e: Env)
    requires Valid(s) && Enabled(s, RunJob(q, e)) && s.queues[q][0].Handle? && !Loses(s, s.queues[q][0].request, e)
    ensures Valid(After(s, RunJob(q, e)))
  {
    var s0, j := Dequeued(s, q), s.queues[q][0];
    DequeuedPending(s, q);
    HandledStages(s0, j.sid, j.request, e);
    HandledEffect(s0, j.sid, j.request, e);
    var t := Handled(s0, j.sid, j.request, e);
    assert t == After(s, RunJob(q, e));
    assert forall p, i :: Pending(t, p, i) == Pending(s0, p, i);
    assert forall a, d :: AwaitsClose(s0, a, d) == AwaitsClose(s, a, d);
  }

  lemma ReapJobKeeps(s: State, q: nat, e: Env)
    requires Valid(s) && Enabled(s, RunJob(q, e)) && s.queues[q][0].ReapClose?
    ensures Valid(After(s, RunJob(q, e)))
  {
    var s0, j := Dequeued(s, q), s.queues[q][0];
    DequeuedPending(s, q);
    var t := Reaped(s0, j.sid, j.desc, e);
    assert t == After(s, RunJob(q, e));
    assert t.queues == s0.queues && t.sessions == Popped(s0, j.sid).sessions;
    assert forall p, i :: Pending(t, p, i) == Pending(s0, p, i);
    assert AwaitsClose(s, j.sid, j.desc);
    assert forall a, d :: AwaitsClose(t, a, d) <==> AwaitsClose(s, a, d) && a != j.sid;
    forall p, i | Pending(t, p, i) && i.ReapClose?
      ensures i.sid != j.sid
    {
      assert AwaitsClose(s, i.sid, i.desc) && p == QueueOf(i.desc.board);
    }
  }

  /** Steps that only move descriptors between a session's list and its clean-up. */
  lemma StageConserves(s: State, t: Step)
    requires Valid(s) && Conserved(s) && Enabled(s, t) && !t.RunJob?
    ensures Conserved(After(s, t))
  {
    var u := After(s, t);
    forall sid
      ensures Records(u, sid) == Records(s, sid)
    {
      StageRecords(s, t, sid);
    }
    SameRecords(s, u);
  }

  /** Everything recorded for a session, none for one that does not exist. */
  function Records(s: State, sid: Sid): seq<Desc> {
    if sid in s.sessions then s.sessions[sid].All() else []
  }

  lemma StageRecords(s: State, t: Step, sid: Sid)
    requires Valid(s) && Enabled(s, t) && !t.RunJob?
    ensures Records(After(s, t), sid) == Records(s, sid) && After(s, t).tables == s.tables
  {
    if t.StartReap? && t.sid == sid {
      assert [] + s.sessions[sid].descs == s.sessions[sid].descs;
    }
  }

  lemma SameRecords(s: State, u: State)
    requires Conserved(s) && u.tables == s.tables && forall sid :: Records(u, sid) == Records(s, sid)
    ensures Conserved(u)
  {
    assert forall sid, d :: s.Holds(sid, d) <==> d in Records(s, sid);
    assert forall sid, d :: u.Holds(sid, d) <==> d in Records(u, sid);
    forall d | u.Live(d)
      ensures Owned(u, d)
    {
      assert s.Live(d) && Owned(s, d);
      var sid :| s.Holds(sid, d);
      assert u.Holds(sid, d);
    }
    forall sid | sid in u.sessions
      ensures Distinct(u.sessions[sid].All())
    {
      assert u.sessions[sid].All() == Records(s, sid);
    }
  }

  /** Every courteous step keeps every descriptor in exactly one place. */
  lemma StepKeeps(s: State, t: Step)
    requires Inv(s) && Enabled(s, t) && Courteous(s, t)
    ensures Inv(After(s, t))
  {
    match t
    case Message(sid, r) => MessageKeeps(s, sid, r); StageConserves(s, t);
    case QueueClose(sid) => QueueCloseKeeps(s, sid); StageConserves(s, t);
    case RunJob(q, e) =>
      var s0, j := Dequeued(s, q), s.queues[q][0];
      SameHoldings(s, s0);
      assert Pending(s, q, j);
      if j.Handle? {
        RequestJobKeeps(s, q, e);
        RequestConserves(s0, j.sid, j.request, e);
      } else {
        ReapJobKeeps(s, q, e);
        ReapConserves(s0, j.sid, j.desc, e);
      }
    case _ => StageKeeps(s, t); StageConserves(s, t);
  }

  const IDLE := State(map[], 0, seq(MAX_BOARDS, _ => []), seq(MAX_BOARDS, _ => false), seq(MAX_BOARDS, _ => {}), [])

  predicate Run(s: State, steps: seq<Step>)
    decreases |steps|
  {
    s.Shaped() && (steps != [] ==> Enabled(s, steps[0]) && Run(After(s, steps[0]), steps[1..]))
  }

  function Final(s: State, steps: seq<Step>): State
    requires Run(s, steps)
    decreases |steps|
  {
    if steps == [] then s else Final(After(s, steps[0]), steps[1..])
  }

  ghost predicate CourteousRun(s: State, steps: seq<Step>)
    requires Run(s, steps)
    decreases |steps|
  {
    steps != [] ==> Courteous(s, steps[0]) && CourteousRun(After(s, steps[0]), steps[1..])
  }

  /** Ownership conservation, over every interleaving. */
  lemma {:induction false} RunKeeps(s: State, steps: seq<Step>)
    requires Inv(s) && Run(s, steps) && CourteousRun(s, steps)
    ensures Inv(Final(s, steps))
    decreases |steps|
  {
    if steps != [] {
      StepKeeps(s, steps[0]);
      RunKeeps(After(s, steps[0]), steps[1..]);
    }
  }

  // ----- What a request does, whatever happens -----

  /** Is board `b` connected after a request? One that answered keeps or gets a connection, and
      one whose port was found dead has one exactly if the retry found it alive. */
  predicate StaysConnected(s: State, b: nat, r: Request, e: Env)
    requires s.Shaped() && b < MAX_BOARDS
  {
    if b != r.board % 0x1_0000_0000 || r.cap > 0x10_0000 || r.op.ListBoards? || !(s.conn[b] || e.attached)
    then s.conn[b]
    else r.op.Probe? || !e.first.Gone? || (e.again && !e.second.Gone?)
  }

  lemma RetriedConnections(s: State, sid: Sid, b: int, r: Request, e: Env)
    requires s.Shaped() && IsBoard(b)
    ensures var t := Retried(s, sid, b, r, e);
            && t.Shaped() && t.queues == s.queues && t.next == s.next && t.closed == s.closed
            && t.conn == s.conn[b := e.again && !e.second.Gone?]
  {
    var s0 := Dropped(s, b);
    var a := Drive(s0.tables[b], r, e.second);
    var s1 := WithTable(Connected(s0, b, true), b, a.table);
    TrackedFrame(s1, if a.dead then Dropped(s1, b) else s1, sid, b, r, a);
    assert s0.conn[b := true][b := false] == s0.conn;
  }

  lemma HandledConnections(s: State, sid: Sid, r: Request, e: Env)
    requires s.Shaped()
    ensures var t := Handled(s, sid, r, e);
            && t.Shaped() && t.queues == s.queues && t.next == s.next && t.closed == s.closed
            && forall b :: 0 <= b < MAX_BOARDS ==> (t.conn[b] <==> StaysConnected(s, b, r, e))
  {
    var b := BoardOf(r.board);
    if Reachable(s, b, e.attached) {
      var s0 := Connected(s, b, e.attached);
      var a := Drive(s0.tables[b], r, e.first);
      var s1 := WithTable(s0, b, a.table);
      if a.dead {
        RetriedConnections(s1, sid, b, r, e);
      } else {
        TrackedFrame(s1, s1, sid, b, r, a);
      }
    }
  }

  /** A clean-up's call caches a connection that it opens, and drops none. */
  lemma ReapedConnections(s: State, sid: Sid, d: Desc, e: Env)
    requires s.Shaped()
    ensures var t := Reaped(s, sid, d, e);
            && t.Shaped() && t.queues == s.queues && t.next == s.next
            && forall b :: 0 <= b < 16 ==> t.conn[b] == (s.conn[b] || (b == d.board && e.attached))
  {
  }

  /** A served open: the handle is the lowest free slot, live from now on, and the newest in
      its client's list. */
  lemma ServedOpen(s: State, sid: Sid, r: Request, e: Env)
    requires s.Shaped() && FullOpen(r) && sid in s.sessions && e.first.Served?
    requires var b := r.board % 0x1_0000_0000; (s.conn[b] || e.attached) && FirstFree(s.tables[b]) >= 0
    ensures var t, b := Handled(s, sid, r, e), r.board % 0x1_0000_0000;
            var h := FirstFree(s.tables[b]);
            && t.tables == s.tables[b := s.tables[b] + {h}]
            && t.sessions == s.sessions[sid := s.sessions[sid].(descs := [Desc(b, h)] + s.sessions[sid].descs)]
  {
  }

  /** A served close of the client's own handle: it is dead, and gone from the list in which
      all others keep their places. */
  lemma ServedClose(s: State, sid: Sid, r: Request, e: Env, newer: seq<Desc>, older: seq<Desc>)
    requires s.Shaped() && sid in s.sessions && e.first.Served?
    requires r.op.CloseDescriptor? && 0 < r.cap <= 0x10_0000 && r.inSize >= 8
    requires var b := r.board % 0x1_0000_0000;
             && b < 16 && (s.conn[b] || e.attached)
             && s.sessions[sid].descs == newer + [Desc(b, r.handle)] + older && Desc(b, r.handle) !in newer
    ensures var t, b := Handled(s, sid, r, e), r.board % 0x1_0000_0000;
            && t.tables == s.tables[b := s.tables[b] - {r.handle}]
            && t.sessions == s.sessions[sid := s.sessions[sid].(descs := newer + older)]
  {
    WithoutFirstAt(newer, Desc(r.board % 0x1_0000_0000, r.handle), older);
  }

  lemma {:induction false} WithoutFirstAt(newer: seq<Desc>, d: Desc, older: seq<Desc>)
    requires d !in newer
    ensures WithoutFirst(newer + [d] + older, d) == newer + older
  {
    var list := newer + [d] + older;
    if newer == [] {
      assert list[1..] == older;
    } else {
      assert list[1..] == newer[1..] + [d] + older;
      WithoutFirstAt(newer[1..], d, older);
      assert [newer[0]] + (newer[1..] + older) == newer + older;
    }
  }

  /** The client does not notice that the port was dead, if the adapter is there again. */
  lemma RetryIsTransparent(s: State, sid: Sid, r: Request, attached: bool, again: bool, second: Reply)
    requires s.Shaped()
    ensures Handled(s, sid, r, Env(attached, Gone(false), true, Served)) ==
            Handled(s, sid, r, Env(attached, Served, again, second))
  {
    var b := BoardOf(r.board);
    if Reachable(s, b, attached) {
      var s0 := Connected(s, b, attached);
      assert s0.tables[b := s0.tables[b]] == s0.tables;
      assert s0.conn[b := false][b := true] == s0.conn;
    }
  }

  // ----- First in, first out -----

  /** Boards that do not exist share the first queue. */
  predicate ServedBy(board: int, q: nat) {
    if 0 <= board < 16 then board == q else q == 0
  }

  /** The job that a step sends to queue `q`, if it sends one there. */
  function Sends(s: State, t: Step, q: nat): seq<Job>
    requires s.Shaped() && Enabled(s, t)
  {
    match t
    case Message(sid, r) => if ServedBy(r.board % 0x1_0000_0000, q) then [Handle(sid, r)] else []
    case QueueClose(sid) =>
      var d := s.sessions[sid].stage.list[0];
      if ServedBy(d.board, q) then [ReapClose(sid, d)] else []
    case _ => []
  }

  /** The job that a step takes from queue `q` to carry it out. */
  function Takes(s: State, t: Step, q: nat): seq<Job>
    requires s.Shaped() && Enabled(s, t)
  {
    if t.RunJob? && t.q == q then [s.queues[q][0]] else []
  }

  function Arrivals(s: State, steps: seq<Step>, q: nat): seq<Job>
    requires Run(s, steps)
    decreases |steps|
  {
    if steps == [] then [] else Sends(s, steps[0], q) + Arrivals(After(s, steps[0]), steps[1..], q)
  }

  function Departures(s: State, steps: seq<Step>, q: nat): seq<Job>
    requires Run(s, steps)
    decreases |steps|
  {
    if steps == [] then [] else Takes(s, steps[0], q) + Departures(After(s, steps[0]), steps[1..], q)
  }

  lemma StepInOrder(s: State, t: Step, q: nat)
    requires s.Shaped() && Enabled(s, t) && q < MAX_BOARDS
    ensures var u := After(s, t);
            u.Shaped() && Takes(s, t, q) + u.queues[q] == s.queues[q] + Sends(s, t, q)
  {
    if t.RunJob? {
      var s0, j := Dequeued(s, t.q), s.queues[t.q][0];
      if j.Handle? {
        HandledConnections(s0, j.sid, j.request, t.env);
      } else {
        ReapedConnections(s0, j.sid, j.desc, t.env);
      }
    }
  }

  lemma OneTurn(was: seq<Job>, sent: seq<Job>, taken: seq<Job>, now: seq<Job>,
                arrivals: seq<Job>, departures: seq<Job>, end: seq<Job>)
    requires taken + now == was + sent && departures + end == now + arrivals
    ensures taken + departures + end == was + (sent + arrivals)
  {
    assert taken + departures + end == taken + (departures + end);
    assert taken + (now + arrivals) == taken + now + arrivals;
    assert was + sent + arrivals == was + (sent + arrivals);
  }

  /** Over every run: the jobs a board's queue has given out, followed by those that still wait
      in it, are the jobs that were there and then those sent to it, in that order. */
  lemma {:induction false} FirstInFirstOut(s: State, steps: seq<Step>, q: nat)
    requires Run(s, steps) && q < MAX_BOARDS
    ensures Final(s, steps).Shaped()
    ensures Departures(s, steps, q) + Final(s, steps).queues[q] == s.queues[q] + Arrivals(s, steps, q)
    decreases |steps|
  {
    if steps != [] {
      var u := After(s, steps[0]);
      StepInOrder(s, steps[0], q);
      FirstInFirstOut(u, steps[1..], q);
      OneTurn(s.queues[q], Sends(s, steps[0], q), Takes(s, steps[0], q), u.queues[q],
              Arrivals(u, steps[1..], q), Departures(u, steps[1..], q), Final(s, steps).queues[q]);
    }
  }

  /** What the order is worth: of two clients' opens in a row the first gets the lower slot. */
  lemma OpensInOrder(s: State, q: nat, first: Sid, second: Sid, r: Request, rest: seq<Job>)
    requires s.Shaped() && first in s.sessions && second in s.sessions && first != second
    requires FullOpen(r) && q == r.board % 0x1_0000_0000
    requires s.queues[q] == [Handle(first, r), Handle(second, r)] + rest
    requires FirstFree(s.tables[q]) >= 0 && FirstFree(s.tables[q] + {FirstFree(s.tables[q])}) >= 0
    ensures var t := RunJob(q, ALL_WELL);
            && Run(s, [t, t])
            && var h, u := FirstFree(s.tables[q]), Final(s, [t, t]);
               && u.Shaped() && first in u.sessions && second in u.sessions
               && u.sessions[first].descs == [Desc(q, h)] + s.sessions[first].descs
               && u.sessions[second].descs ==
                    [Desc(q, FirstFree(s.tables[q] + {h}))] + s.sessions[second].descs
               && u.queues[q] == rest
  {
    var t := RunJob(q, ALL_WELL);
    var s0, s1 := Dequeued(s, q), After(s, t);
    ServedOpen(s0, first, r, ALL_WELL);
    HandledConnections(s0, first, r, ALL_WELL);
    assert s1.queues[q] == [Handle(second, r)] + rest;
    var s2 := Dequeued(s1, q);
    ServedOpen(s2, second, r, ALL_WELL);
    HandledConnections(s2, second, r, ALL_WELL);
    RunCons(s1, t, []);
    RunCons(s, t, [t]);
    assert [t] + [t] == [t, t];
  }

  lemma IdleIsGood()
    ensures Inv(IDLE)
  {
    assert forall q, j :: !Pending(IDLE, q, j);
    assert forall d :: !IDLE.Live(d);
  }

  // ----- What a clean-up closes -----

  function ClosedBy(log: seq<Closing>, sid: Sid): seq<Desc> {
    if log == [] then []
    else
      var last := log[|log| - 1];
      ClosedBy(log[..|log| - 1], sid) + if last.reaper == sid then [last.desc] else []
  }

  function StillToClose(s: State, sid: Sid): seq<Desc> {
    if sid in s.sessions && s.sessions[sid].stage.Reaping? then s.sessions[sid].stage.list else []
  }

  /** A session that the clean-up has detached, or that is gone altogether. */
  predicate Departed(s: State, sid: Sid) {
    sid < s.next && (sid in s.sessions ==> s.sessions[sid].stage.Reaping?)
  }

  lemma ClosedByReapJob(s: State, q: nat, e: Env, sid: Sid)
    requires Valid(s) && Enabled(s, RunJob(q, e)) && Courteous(s, RunJob(q, e)) && s.queues[q][0].ReapClose?
    ensures var u := After(s, RunJob(q, e));
            && u.next == s.next && (Departed(s, sid) ==> Departed(u, sid))
            && ClosedBy(u.closed, sid) + StillToClose(u, sid) == ClosedBy(s.closed, sid) + StillToClose(s, sid)
  {
    var u, j := After(s, RunJob(q, e)), s.queues[q][0];
    assert Pending(s, q, j) && AwaitsClose(s, j.sid, j.desc);
    assert u.closed == s.closed + [Closing(j.sid, j.desc)];
    assert u.closed[..|u.closed| - 1] == s.closed;
    if j.sid == sid {
      var list := s.sessions[sid].stage.list;
      assert list == [j.desc] + list[1..];
      assert ClosedBy(u.closed, sid) == ClosedBy(s.closed, sid) + [j.desc];
      assert StillToClose(u, sid) == list[1..];
    } else {
      assert ClosedBy(u.closed, sid) == ClosedBy(s.closed, sid);
      assert StillToClose(u, sid) == StillToClose(s, sid);
    }
  }

  lemma ClosedByStep(s: State, t: Step, sid: Sid)
    requires Valid(s) && Enabled(s, t) && Courteous(s, t) && Departed(s, sid)
    ensures var u := After(s, t);
            && Departed(u, sid)
            && ClosedBy(u.closed, sid) + StillToClose(u, sid) == ClosedBy(s.closed, sid) + StillToClose(s, sid)
  {
    var u := After(s, t);
    if t.RunJob? {
      var s0, j := Dequeued(s, t.q), s.queues[t.q][0];
      if j.Handle? {
        HandledEffect(s0, j.sid, j.request, t.env);
        HandledStages(s0, j.sid, j.request, t.env);
        assert u == Handled(s0, j.sid, j.request, t.env);
      } else {
        ClosedByReapJob(s, t.q, t.env, sid);
      }
    } else {
      assert u.closed == s.closed;
      assert StillToClose(u, sid) == StillToClose(s, sid);
    }
  }

  lemma {:induction false} ClosedByRun(s: State, steps: seq<Step>, sid: Sid)
    requires Inv(s) && Run(s, steps) && CourteousRun(s, steps) && Departed(s, sid)
    ensures var u := Final(s, steps);
            && Departed(u, sid)
            && ClosedBy(u.closed, sid) + StillToClose(u, sid) == ClosedBy(s.closed, sid) + StillToClose(s, sid)
    decreases |steps|
  {
    if steps != [] {
      ClosedByStep(s, steps[0], sid);
      StepKeeps(s, steps[0]);
      ClosedByRun(After(s, steps[0]), steps[1..], sid);
    }
  }

  /** However the rest of the system interleaves with it, a clean-up that has finished closed
      exactly the handles its client had left open, each once, in the order of its list. */
  lemma FinishedReap(s: State, sid: Sid, steps: seq<Step>)
    requires Inv(s) && Enabled(s, StartReap(sid)) && Courteous(s, StartReap(sid))
    requires var s0 := After(s, StartReap(sid));
             Run(s0, steps) && CourteousRun(s0, steps) && sid !in Final(s0, steps).sessions
    ensures var u := Final(After(s, StartReap(sid)), steps);
            ClosedBy(u.closed, sid) == ClosedBy(s.closed, sid) + s.sessions[sid].descs
  {
    StepKeeps(s, StartReap(sid));
    ClosedByRun(After(s, StartReap(sid)), steps, sid);
  }

  /** A client that is connected and has no request on its way. */
  ghost predicate Bystander(s: State, sid: Sid) {
    sid in s.sessions && s.sessions[sid].stage.Serving? && Drained(s, sid)
  }

  predicate Involves(t: Step, sid: Sid) {
    (t.Message? || t.Invalid?) && t.sid == sid
  }

  lemma BystanderStep(s: State, t: Step, sid: Sid)
    requires Inv(s) && Enabled(s, t) && Courteous(s, t) && Bystander(s, sid) && !Involves(t, sid)
    ensures Bystander(After(s, t), sid) && After(s, t).sessions[sid] == s.sessions[sid]
  {
    match t
    case Message(from, r) => QueuedPending(s, BoardOf(r.board), Handle(from, r));
    case QueueClose(other) =>
      var list := s.sessions[other].stage.list;
      QueuedPending(Staged(s, other, Reaping(list, true)), list[0].board, ReapClose(other, list[0]));
      assert forall q, j :: Pending(Staged(s, other, Reaping(list, true)), q, j) == Pending(s, q, j);
    case RunJob(q, e) => BystanderJob(s, q, e, sid);
    case _ => assert forall q, j :: Pending(After(s, t), q, j) == Pending(s, q, j);
  }

  lemma BystanderJob(s: State, q: nat, e: Env, sid: Sid)
    requires Valid(s) && Enabled(s, RunJob(q, e)) && Courteous(s, RunJob(q, e)) && Bystander(s, sid)
    ensures Bystander(After(s, RunJob(q, e)), sid) && After(s, RunJob(q, e)).sessions[sid] == s.sessions[sid]
  {
    var u := After(s, RunJob(q, e));
    var s0, j := Dequeued(s, q), s.queues[q][0];
    DequeuedPending(s, q);
    if j.Handle? {
      HandledEffect(s0, j.sid, j.request, e);
    } else {
      assert AwaitsClose(s, j.sid, j.desc);
    }
    assert forall p, i :: Pending(u, p, i) == Pending(s0, p, i);
  }

  /** Nothing that other clients do, and no clean-up, closes a handle of a client that is idle. */
  lemma {:induction false} OthersKeepTheirs(s: State, steps: seq<Step>, sid: Sid)
    requires Inv(s) && Run(s, steps) && CourteousRun(s, steps) && Bystander(s, sid)
    requires forall i :: 0 <= i < |steps| ==> !Involves(steps[i], sid)
    ensures var u := Final(s, steps);
            && Bystander(u, sid) && u.sessions[sid] == s.sessions[sid]
            && forall d :: d in s.sessions[sid].descs ==> u.Live(d)
    decreases |steps|
  {
    if steps == [] {
      assert forall d :: d in s.sessions[sid].descs ==> s.Holds(sid, d);
    } else {
      BystanderStep(s, steps[0], sid);
      StepKeeps(s, steps[0]);
      OthersKeepTheirs(After(s, steps[0]), steps[1..], sid);
    }
  }

  /** A clean-up never gets stuck: it can finish, or queue its next close, or that close is in
      a board's queue. */
  lemma ReapProceeds(s: State, sid: Sid)
    requires Valid(s) && sid in s.sessions && s.sessions[sid].stage.Reaping?
    ensures Enabled(s, EndReap(sid)) || Enabled(s, QueueClose(sid))
         || (s.sessions[sid].stage.list != []
             && ReapClose(sid, s.sessions[sid].stage.list[0]) in s.queues[QueueOf(s.sessions[sid].stage.list[0].board)])
  {
    var stage := s.sessions[sid].stage;
    if stage.list != [] && stage.waiting {
      assert AwaitsClose(s, sid, stage.list[0]);
      assert Pending(s, QueueOf(stage.list[0].board), ReapClose(sid, stage.list[0]));
    }
  }

  // ----- Why a clean-up has to wait for the queue -----

  const FULL_OPEN := Request(OpenDescriptor, 0, OPEN_OUT, OPEN_IN, 0)
  const ALL_WELL := Env(true, Served, false, Served)

  lemma LateOpen(s: State)
    requires s.Shaped() && s.queues[0] == [Handle(0, FULL_OPEN)] && s.tables[0] == {} && s.sessions == map[]
    ensures var u := After(s, RunJob(0, ALL_WELL)); u.Shaped() && u.sessions == map[] && u.Live(Desc(0, 1))
  {
    var s0 := Dequeued(s, 0);
    FirstFreeIs({}, 1);
    HandledEffect(s0, 0, FULL_OPEN, ALL_WELL);
    assert After(s, RunJob(0, ALL_WELL)) == Handled(s0, 0, FULL_OPEN, ALL_WELL);
  }

  /** The first client asks for an open and goes away before it is served. */
  lemma ClientGoes() returns (s1: State, s2: State, s3: State)
    ensures Enabled(IDLE, Arrive) && s1 == After(IDLE, Arrive) && s1.Shaped()
    ensures Enabled(s1, Message(0, FULL_OPEN)) && s2 == After(s1, Message(0, FULL_OPEN)) && s2.Shaped()
    ensures Enabled(s2, Invalid(0)) && s3 == After(s2, Invalid(0)) && s3.Shaped()
    ensures s3.sessions == map[0 := Session([], Leaving)]
    ensures s3.queues[0] == [Handle(0, FULL_OPEN)] && s3.tables[0] == {}
  {
    s1 := After(IDLE, Arrive);
    s2 := After(s1, Message(0, FULL_OPEN));
    s3 := After(s2, Invalid(0));
  }

  /** The clean-up starts and ends at once, and the open follows. */
  lemma TooEarly(s: State)
    requires s.Shaped() && s.sessions == map[0 := Session([], Leaving)]
    requires s.queues[0] == [Handle(0, FULL_OPEN)] && s.tables[0] == {}
    ensures var steps := [StartReap(0), EndReap(0), RunJob(0, ALL_WELL)];
            Run(s, steps) && Final(s, steps).sessions == map[] && Final(s, steps).Live(Desc(0, 1))
  {
    var s4 := After(s, StartReap(0));
    var s5 := After(s4, EndReap(0));
    assert s5.sessions == map[];
    LateOpen(s5);
    RunCons(s5, RunJob(0, ALL_WELL), []);
    RunCons(s4, EndReap(0), [RunJob(0, ALL_WELL)]);
    RunCons(s, StartReap(0), [EndReap(0), RunJob(0, ALL_WELL)]);
    assert [StartReap(0)] + [EndReap(0), RunJob(0, ALL_WELL)] == [StartReap(0), EndReap(0), RunJob(0, ALL_WELL)];
  }

  /** Nothing in the agent makes a clean-up wait for the requests already queued. If it
      overtakes a queued open, the handle that the open gets is live in nobody's list. */
  lemma OvertakenOpenStrands()
    ensures var steps := [Arrive, Message(0, FULL_OPEN), Invalid(0), StartReap(0), EndReap(0), RunJob(0, ALL_WELL)];
            Run(IDLE, steps) && Final(IDLE, steps).sessions == map[] && Final(IDLE, steps).Live(Desc(0, 1))
  {
    var s1, s2, s3 := ClientGoes();
    var rest := [StartReap(0), EndReap(0), RunJob(0, ALL_WELL)];
    TooEarly(s3);
    RunCons(s2, Invalid(0), rest);
    RunCons(s1, Message(0, FULL_OPEN), [Invalid(0)] + rest);
    RunCons(IDLE, Arrive, [Message(0, FULL_OPEN)] + ([Invalid(0)] + rest));
    assert [Arrive] + ([Message(0, FULL_OPEN)] + ([Invalid(0)] + rest)) ==
           [Arrive, Message(0, FULL_OPEN), Invalid(0), StartReap(0), EndReap(0), RunJob(0, ALL_WELL)];
  }

  lemma RunCons(s: State, t: Step, rest: seq<Step>)
    requires s.Shaped() && Enabled(s, t) && Run(After(s, t), rest)
    ensures Run(s, [t] + rest) && Final(s, [t] + rest) == Final(After(s, t), rest)
  {
    assert ([t] + rest)[1..] == rest;
  }

  // ----- And why it always has to -----

  /** Requests are turned down and the closes of a clean-up are served. */
  function Polite(j: Job): Env {
    if j.Handle? then Env(true, Refused, false, Refused) else ALL_WELL
  }

  ghost predicate CourteousBut(s: State, steps: seq<Step>, sid: Sid)
    requires Run(s, steps)
    decreases |steps|
  {
    steps != [] ==>
      && (steps[0] == StartReap(sid) || Courteous(s, steps[0]))
      && CourteousBut(After(s, steps[0]), steps[1..], sid)
  }

  lemma CourteousCons(s: State, t: Step, rest: seq<Step>, sid: Sid)
    requires s.Shaped() && Enabled(s, t) && Run(After(s, t), rest) && CourteousBut(After(s, t), rest, sid)
    requires t == StartReap(sid) || Courteous(s, t)
    ensures Run(s, [t] + rest) && CourteousBut(s, [t] + rest, sid)
    ensures Final(s, [t] + rest) == Final(After(s, t), rest)
  {
    RunCons(s, t, rest);
    assert ([t] + rest)[1..] == rest;
  }

  /** No clean-up will close `d`, and every close that is queued is of some board's handle. */
  ghost predicate Spares(s: State, d: Desc) {
    forall q, j :: Pending(s, q, j) && j.ReapClose? ==> j.desc != d && IsBoard(j.desc.board)
  }

  /** `d` is live and recorded only for a session that is being cleaned up, past the list that
      the clean-up works on. */
  ghost predicate Doomed(s: State, sid: Sid, d: Desc) {
    && s.Shaped() && s.Live(d) && Spares(s, d)
    && sid in s.sessions && s.sessions[sid].stage.Reaping?
    && (forall a :: a != sid ==> !s.Holds(a, d))
    && (forall x :: x in s.sessions[sid].stage.list ==> x != d && IsBoard(x.board))
    && (s.sessions[sid].stage.waiting ==>
          && s.sessions[sid].stage.list != []
          && var head := s.sessions[sid].stage.list[0];
             Pending(s, QueueOf(head.board), ReapClose(sid, head)))
  }

  /** A job that is turned down or closes something else dooms `d` all the same. */
  lemma DoomedJob(s: State, sid: Sid, d: Desc, q: nat)
    requires Doomed(s, sid, d) && q < MAX_BOARDS && s.queues[q] != []
    ensures var j := s.queues[q][0]; var u := After(s, RunJob(q, Polite(j)));
            && Courteous(s, RunJob(q, Polite(j))) && u.queues == Dequeued(s, q).queues
            && sid in u.sessions && u.sessions[sid].stage.Reaping?
            && if j.ReapClose? && j.sid == sid && s.sessions[sid].stage.list != []
               then u.sessions[sid].stage == Reaping(s.sessions[sid].stage.list[1..], false)
               else u.sessions[sid] == s.sessions[sid]
    ensures var u := After(s, RunJob(q, Polite(s.queues[q][0])));
            && u.Live(d) && Spares(u, d) && forall a :: a != sid ==> !u.Holds(a, d)
  {
    var j, s0 := s.queues[q][0], Dequeued(s, q);
    var u := After(s, RunJob(q, Polite(j)));
    assert Pending(s, q, j);
    assert s.queues[q] == [j] + s0.queues[q];
    assert forall p, i :: Pending(s0, p, i) ==> Pending(s, p, i);
    if j.Handle? {
      HandledEffect(s0, j.sid, j.request, Polite(j));
      assert u.sessions == s.sessions && u.tables == s.tables;
    } else {
      assert u.sessions == Popped(s0, j.sid).sessions;
    }
    assert forall p, i :: Pending(u, p, i) == Pending(s0, p, i);
    assert forall a, x :: u.Holds(a, x) ==> s.Holds(a, x);
  }

  lemma DoomedClose(s: State, sid: Sid, d: Desc)
    requires Doomed(s, sid, d) && Enabled(s, QueueClose(sid))
    ensures var u, list := After(s, QueueClose(sid)), s.sessions[sid].stage.list;
            Doomed(u, sid, d) && u.sessions[sid].stage == Reaping(list, true)
  {
    var list := s.sessions[sid].stage.list;
    var s0, u := Staged(s, sid, Reaping(list, true)), After(s, QueueClose(sid));
    QueuedPending(s0, list[0].board, ReapClose(sid, list[0]));
    assert forall q, j :: Pending(s0, q, j) == Pending(s, q, j);
    assert list[0] in list;
    forall a | a != sid
      ensures !u.Holds(a, d)
    {
      assert !s.Holds(a, d);
    }
  }

  lemma DoomedEnd(s: State, sid: Sid, d: Desc)
    requires Doomed(s, sid, d) && Enabled(s, EndReap(sid))
    ensures var u := After(s, EndReap(sid)); sid !in u.sessions && u.Live(d) && !Owned(u, d)
  {
    var u := After(s, EndReap(sid));
    forall a
      ensures !u.Holds(a, d)
    {
      assert a != sid ==> !s.Holds(a, d);
    }
  }

  /** From there on everybody can be courteous, and the handle is stranded. */
  lemma {:induction false} DoomedStrands(s: State, sid: Sid, d: Desc) returns (steps: seq<Step>)
    requires Doomed(s, sid, d)
    ensures Run(s, steps) && CourteousBut(s, steps, sid)
    ensures var u := Final(s, steps); sid !in u.sessions && u.Live(d) && !Owned(u, d)
    decreases |s.sessions[sid].stage.list|, if s.sessions[sid].stage.waiting then 0 else 1,
              if s.sessions[sid].stage.list == [] then 0 else |s.queues[QueueOf(s.sessions[sid].stage.list[0].board)]|
  {
    var stage := s.sessions[sid].stage;
    var t, rest;
    if stage.waiting {
      var q := QueueOf(stage.list[0].board);
      t := RunJob(q, Polite(s.queues[q][0]));
      DoomedJob(s, sid, d, q);
      rest := DoomedStrands(After(s, t), sid, d);
    } else if stage.list != [] {
      t := QueueClose(sid);
      DoomedClose(s, sid, d);
      rest := DoomedStrands(After(s, t), sid, d);
    } else {
      t := EndReap(sid);
      rest := [];
      DoomedEnd(s, sid, d);
    }
    steps := [t] + rest;
    CourteousCons(s, t, rest, sid);
  }

  /** An open that will be served with room for its whole reply. */
  predicate FullOpen(r: Request) {
    r.op.OpenDescriptor? && OPEN_OUT <= r.cap <= MAX_OUT && r.inSize >= OPEN_IN && IsBoard(BoardOf(r.board))
  }

  /** The clean-up starts with the open at the head of its queue, and the open follows. */
  lemma OvertakenIsDoomed(s: State, sid: Sid, q: nat, r: Request) returns (d: Desc)
    requires Inv(s) && Enabled(s, StartReap(sid)) && q < MAX_BOARDS && s.queues[q] != []
    requires s.queues[q][0] == Handle(sid, r) && FullOpen(r) && FirstFree(s.tables[BoardOf(r.board)]) >= 0
    ensures var s1 := After(s, StartReap(sid));
            && Courteous(s1, RunJob(q, ALL_WELL)) && Doomed(After(s1, RunJob(q, ALL_WELL)), sid, d)
  {
    var b, s1 := BoardOf(r.board), After(s, StartReap(sid));
    d := Desc(b, FirstFree(s.tables[b]));
    assert !s.Live(d);
    assert forall a :: !s.Holds(a, d);
    var s2, u := Dequeued(s1, q), After(s1, RunJob(q, ALL_WELL));
    assert forall p, j :: Pending(s1, p, j) == Pending(s, p, j);
    assert s1.queues[q] == [Handle(sid, r)] + s2.queues[q];
    assert forall p, j :: Pending(s2, p, j) ==> Pending(s, p, j);
    HandledEffect(s2, sid, r, ALL_WELL);
    assert u == Handled(s2, sid, r, ALL_WELL);
    assert u.sessions[sid] == Session([d], Reaping(s.sessions[sid].descs, false));
    forall x | x in s.sessions[sid].descs
      ensures x != d && IsBoard(x.board)
    {
      assert s.Holds(sid, x) && s.Live(x);
    }
    forall p, j | Pending(u, p, j) && j.ReapClose?
      ensures j.desc != d && IsBoard(j.desc.board)
    {
      assert Pending(s2, p, j) && Pending(s, p, j);
      assert AwaitsClose(s, j.sid, j.desc) && s.Holds(j.sid, j.desc) && s.Live(j.desc);
    }
    forall a | a != sid
      ensures !u.Holds(a, d)
    {
      assert !s.Holds(a, d);
    }
  }

  lemma FewerTaken(fewer: set<int>, live: set<int>)
    requires fewer <= live && FirstFree(live) >= 0
    ensures FirstFree(fewer) >= 0
  {
    assert FirstFree(live) !in fewer;
  }

  lemma PoliteEffect(s: State, sid: Sid, q: nat)
    requires Valid(s) && Conserved(s) && Enabled(s, StartReap(sid)) && q < MAX_BOARDS && s.queues[q] != []
    ensures var t := RunJob(q, Polite(s.queues[q][0])); var u := After(s, t);
            && Courteous(s, t) && u.Shaped() && Enabled(u, StartReap(sid)) && u.queues[q] == s.queues[q][1..]
            && forall b :: 0 <= b < MAX_BOARDS ==> u.tables[b] <= s.tables[b]
  {
    var j, s0 := s.queues[q][0], Dequeued(s, q);
    assert Pending(s, q, j);
    if j.Handle? {
      HandledEffect(s0, j.sid, j.request, Polite(j));
    } else {
      assert AwaitsClose(s, j.sid, j.desc) && s.Holds(j.sid, j.desc) && s.Live(j.desc);
    }
  }

  /** One job of others out of the way: the departing client and the free slots stay. */
  lemma PoliteJob(s: State, sid: Sid, q: nat)
    requires Inv(s) && Enabled(s, StartReap(sid)) && q < MAX_BOARDS && s.queues[q] != []
    ensures var t := RunJob(q, Polite(s.queues[q][0])); var u := After(s, t);
            && Courteous(s, t) && Inv(u) && Enabled(u, StartReap(sid)) && u.queues[q] == s.queues[q][1..]
            && forall b :: 0 <= b < MAX_BOARDS && FirstFree(s.tables[b]) >= 0 ==> FirstFree(u.tables[b]) >= 0
  {
    var t := RunJob(q, Polite(s.queues[q][0]));
    PoliteEffect(s, sid, q);
    StepKeeps(s, t);
    forall b | 0 <= b < MAX_BOARDS && FirstFree(s.tables[b]) >= 0
      ensures FirstFree(After(s, t).tables[b]) >= 0
    {
      FewerTaken(After(s, t).tables[b], s.tables[b]);
    }
  }

  /** Waiting for the queue is necessary: whenever a departing client has a full open queued on
      a board with a free slot, the clean-up can start too early so that, although everything
      else is courteous, the client is forgotten with a handle live in nobody's list. */
  lemma {:induction false} UndrainedStrands(s: State, sid: Sid, q: nat, k: nat, r: Request)
    returns (steps: seq<Step>, d: Desc)
    requires Inv(s) && Enabled(s, StartReap(sid)) && q < MAX_BOARDS && k < |s.queues[q]|
    requires s.queues[q][k] == Handle(sid, r) && FullOpen(r) && FirstFree(s.tables[BoardOf(r.board)]) >= 0
    ensures Run(s, steps) && CourteousBut(s, steps, sid)
    ensures var u := Final(s, steps); sid !in u.sessions && u.Live(d) && !Owned(u, d)
    decreases k
  {
    var rest;
    if k == 0 {
      var s1 := After(s, StartReap(sid));
      d := OvertakenIsDoomed(s, sid, q, r);
      rest := DoomedStrands(After(s1, RunJob(q, ALL_WELL)), sid, d);
      CourteousCons(s1, RunJob(q, ALL_WELL), rest, sid);
      rest := [RunJob(q, ALL_WELL)] + rest;
      CourteousCons(s, StartReap(sid), rest, sid);
      steps := [StartReap(sid)] + rest;
    } else {
      var t := RunJob(q, Polite(s.queues[q][0]));
      PoliteJob(s, sid, q);
      rest, d := UndrainedStrands(After(s, t), sid, q, k - 1, r);
      CourteousCons(s, t, rest, sid);
      steps := [t] + rest;
    }
  }

  // ----- The agent itself -----

  class Agent {
    var sessions: map<Sid, Session>
    var next: Sid
    var queues: seq<seq<Job>>
    var conn: seq<bool>
    var tables: seq<set<int>>
    var closed: seq<Closing>

    function Now(): State
      reads this
    {
      State(sessions, next, queues, conn, tables, closed)
    }

    constructor ()
      ensures Now() == IDLE && Inv(Now())
    {
      sessions, next, closed := map[], 0, [];
      queues := seq(MAX_BOARDS, _ => []);
      conn, tables := seq(MAX_BOARDS, _ => false), seq(MAX_BOARDS, _ => {});
      new;
      IdleIsGood();
      assert Now() == IDLE;
    }

    method SessionAddDesc(sid: Sid, board: int, handle: int)
      modifies this`sessions
      ensures Now() == Added(old(Now()), sid, Desc(board, handle))
    {
      if sid !in sessions || handle < 0 {
        return;
      }
      var s := sessions[sid];
      sessions := sessions[sid := s.(descs := [Desc(board, handle)] + s.descs)];
    }

    method SessionForgetDesc(sid: Sid, board: int, handle: int)
      modifies this`sessions
      ensures Now() == Forgotten(old(Now()), sid, Desc(board, handle))
    {
      if sid !in sessions {
        return;
      }
      var s := sessions[sid];
      var i := 0;
      while i < |s.descs|
        invariant i <= |s.descs| && sessions == old(sessions)
        invariant
          WithoutFirst(s.descs, Desc(board, handle)) == s.descs[..i] + WithoutFirst(s.descs[i..], Desc(board, handle))
      {
        if s.descs[i].board == board && s.descs[i].handle == handle {
          assert s.descs[i..][1..] == s.descs[i + 1..];
          sessions := sessions[sid := s.(descs := s.descs[..i] + s.descs[i + 1..])];
          return;
        }
        SkipOne(s.descs, i, Desc(board, handle));
        i := i + 1;
      }
      assert s.(descs := s.descs[..i] + []) == s;
      assert sessions == sessions[sid := s];
    }

    method ConnectionForBoard(board: int, attached: bool) returns (ok: bool)
      requires Now().Shaped()
      modifies this`conn
      ensures ok == Reachable(old(Now()), board, attached) && Now() == Connected(old(Now()), board, attached)
    {
      if board < 0 || board >= MAX_BOARDS {
        return false;
      }
      if conn[board] {
        assert conn[board := true] == conn;
        return true;
      }
      if !attached {
        return false;
      }
      conn := conn[board := true];
      return true;
    }

    method DropBoard(board: int)
      requires Now().Shaped()
      modifies this`conn
      ensures Now() == Dropped(old(Now()), board)
    {
      if 0 <= board < MAX_BOARDS {
        if !conn[board] {
          assert conn[board := false] == conn;
        }
        conn := conn[board := false];
      }
    }

    /** The call into the driver: its table changes, and it answers. */
    method CallDriver(board: int, r: Request, reply: Reply) returns (a: Answer)
      requires Now().Shaped() && IsBoard(board)
      modifies this`tables
      ensures a == Drive(old(tables)[board], r, reply) && Now() == WithTable(old(Now()), board, a.table)
    {
      a := Drive(tables[board], r, reply);
      tables := tables[board := a.table];
    }

    method HandleRequest(sid: Sid, r: Request, e: Env)
      requires Now().Shaped()
      modifies this`sessions, this`conn, this`tables
      ensures Now() == Handled(old(Now()), sid, r, e)
    {
      var board := BoardOf(r.board);
      if r.cap > MAX_OUT {
        return;
      }
      if r.op == ListBoards {
        return;
      }
      var ok := ConnectionForBoard(board, e.attached);
      if !ok || r.op == Probe {
        return;
      }
      var a := CallDriver(board, r, e.first);
      if a.dead {
        DropBoard(board);
        ok := ConnectionForBoard(board, e.again);
        if ok {
          a := CallDriver(board, r, e.second);
        }
        if a.dead {
          DropBoard(board);
        }
      }
      if a.ok && r.cap > 0 {
        if r.op == OpenDescriptor && r.cap >= OPEN_OUT {
          if a.handle >= 0 {
            SessionAddDesc(sid, board, a.handle);
          }
        } else if r.op == CloseDescriptor && r.inSize >= HANDLE_IN {
          SessionForgetDesc(sid, board, r.handle);
        }
      }
    }

    /** One close of a clean-up, on the board's queue. */
    method CloseForReap(sid: Sid, d: Desc, e: Env)
      requires Now().Shaped()
      modifies this`sessions, this`conn, this`tables, this`closed
      ensures Now() == Reaped(old(Now()), sid, d, e)
    {
      var ok := ConnectionForBoard(d.board, e.attached);
      if ok {
        var a := CallDriver(d.board, CloseRequest(d), e.first);
        if a.ok {
          closed := closed + [Closing(sid, d)];
        }
      }
      if sid in sessions && sessions[sid].stage.Reaping? && sessions[sid].stage.list != [] {
        sessions := sessions[sid := sessions[sid].(stage := Reaping(sessions[sid].stage.list[1..], false))];
      }
    }

    method Enqueue(board: int, j: Job)
      requires Now().Shaped()
      modifies this`queues
      ensures Now() == Queued(old(Now()), board, j)
      ensures var q := if 0 <= board < 16 then board else 0; queues == old(queues)[q := old(queues)[q] + [j]]
    {
      var q := if board < 0 || board >= MAX_BOARDS then 0 else board;
      queues := queues[q := queues[q] + [j]];
    }

    method RunNext(q: nat, e: Env)
      requires Now().Shaped() && Enabled(Now(), RunJob(q, e))
      modifies this
      ensures Now() == After(old(Now()), RunJob(q, e))
    {
      var j := queues[q][0];
      queues := queues[q := queues[q][1..]];
      match j
      case Handle(sid, r) => HandleRequest(sid, r, e);
      case ReapClose(sid, d) => CloseForReap(sid, d, e);
    }

    method Take(t: Step)
      requires Now().Shaped() && Enabled(Now(), t)
      modifies this
      ensures Now() == After(old(Now()), t) && Now().Shaped()
      ensures forall q :: 0 <= q < MAX_BOARDS ==>
        Takes(old(Now()), t, q) + queues[q] == old(queues[q]) + Sends(old(Now()), t, q)
    {
      forall q | 0 <= q < MAX_BOARDS
        ensures After(Now(), t).Shaped()
        ensures Takes(Now(), t, q) + After(Now(), t).queues[q] == Now().queues[q] + Sends(Now(), t, q)
      {
        StepInOrder(Now(), t, q);
      }
      match t
      case Arrive =>
        sessions, next := sessions[next := Session([], Serving)], next + 1;
      case Message(sid, r) =>
        Enqueue(BoardOf(r.board), Handle(sid, r));
      case Invalid(sid) =>
        sessions := sessions[sid := sessions[sid].(stage := Leaving)];
      case StartReap(sid) =>
        sessions := sessions[sid := Session([], Reaping(sessions[sid].descs, false))];
      case QueueClose(sid) =>
        var list := sessions[sid].stage.list;
        sessions := sessions[sid := sessions[sid].(stage := Reaping(list, true))];
        Enqueue(list[0].board, ReapClose(sid, list[0]));
      case RunJob(q, e) =>
        RunNext(q, e);
      case EndReap(sid) =>
        sessions := sessions - {sid};
    }

    method RunSteps(steps: seq<Step>)
      requires Run(Now(), steps)
      modifies this
      ensures Now() == Final(old(Now()), steps) && Now().Shaped()
      ensures forall q :: 0 <= q < MAX_BOARDS ==>
        Departures(old(Now()), steps, q) + queues[q] == old(queues[q]) + Arrivals(old(Now()), steps, q)
      ensures old(Inv(Now())) && CourteousRun(old(Now()), steps) ==> Inv(Now())
    {
      ghost var s := Now();
      var i := 0;
      while i < |steps|
        invariant i <= |steps| && Run(Now(), steps[i..]) && Final(s, steps) == Final(Now(), steps[i..])
      {
        assert steps[i..][1..] == steps[i + 1..];
        Take(steps[i]);
        i := i + 1;
      }
      forall q | 0 <= q < MAX_BOARDS
        ensures Departures(s, steps, q) + queues[q] == s.queues[q] + Arrivals(s, steps, q)
      {
        FirstInFirstOut(s, steps, q);
      }
      if Inv(s) && CourteousRun(s, steps) {
        RunKeeps(s, steps);
      }
    }
  }
}
