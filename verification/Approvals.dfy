/** The approval service: request life cycle, audit log, and what every run keeps. */
module Approvals {
  import opened Common

  datatype Status = Pending | Approved | Denied | Expired | BreakGlass

  /** A decision record. Break-glass decisions carry the trimmed length of their
      justification. */
  datatype Decision = Decision(actor: string, verdict: Status, at: int, breakGlass: bool, justification: nat)

  datatype Request = Request(
    id: string, action: string, tenant: string, requester: string, required: int, twoPerson: bool,
    delegated: seq<string>, expiresAt: int, status: Status, approvals: seq<Decision>)

  datatype Event = Created | ApprovalGiven | StatusApproved | DenialGiven | GlassBroken | TimedOut

  datatype Entry = Entry(id: string, event: Event, actor: string, needsReview: bool)

  /** Requests by identifier, their insertion order, and the append-only log. */
  datatype Service = Service(requests: map<string, Request>, order: seq<string>, log: seq<Entry>)

  datatype Outcome = Done | NotFound | AlreadyFinal | Unauthorized | SelfApproval | WeakJustification

  // ----- the operations as state transformers

  function Approvers(decisions: seq<Decision>): set<string> {
    set i | 0 <= i < |decisions| && decisions[i].verdict == Approved :: decisions[i].actor
  }

  predicate Stale(r: Request, now: int) {
    r.status == Pending && r.expiresAt < now
  }

  predicate Authorized(r: Request, actor: string) {
    r.delegated == [] || actor in r.delegated
  }

  function Update(s: Service, id: string, r: Request, entries: seq<Entry>): Service {
    s.(requests := s.requests[id := r], log := s.log + entries)
  }

  /** The request is filed under its identifier, replacing any previous holder. */
  function Create(s: Service, r: Request): Service {
    Service(s.requests[r.id := r], if r.id in s.requests then s.order else s.order + [r.id],
            s.log + [Entry(r.id, Created, r.requester, false)])
  }

  function ExpireOne(s: Service, id: string, now: int): Service {
    if id in s.requests && Stale(s.requests[id], now) then
      Update(s, id, s.requests[id].(status := Expired), [Entry(id, TimedOut, "system", false)])
    else s
  }

  function ExpireAll(s: Service, ids: seq<string>, now: int): Service {
    if ids == [] then s
    else ExpireOne(ExpireAll(s, ids[..|ids| - 1], now), ids[|ids| - 1], now)
  }

  /** The request after recording an approval, and what is logged for it. */
  function Grant(r: Request, id: string, actor: string, now: int): (Request, seq<Entry>) {
    var approvals := r.approvals + [Decision(actor, Approved, now, false, 0)];
    var given := Entry(id, ApprovalGiven, actor, false);
    if |Approvers(approvals)| >= r.required then
      (r.(approvals := approvals, status := Approved), [given, Entry(id, StatusApproved, "system", false)])
    else
      (r.(approvals := approvals), [given])
  }

  function Approve(s: Service, id: string, actor: string, now: int): (Service, Outcome) {
    if id !in s.requests then (s, NotFound)
    else
      var s1 := ExpireOne(s, id, now);
      var r := s1.requests[id];
      if r.status != Pending then (s1, AlreadyFinal)
      else if !Authorized(r, actor) then (s1, Unauthorized)
      else if actor == r.requester then (s1, SelfApproval)
      else
        var (r', entries) := Grant(r, id, actor, now);
        (Update(s1, id, r', entries), Done)
  }

  function Deny(s: Service, id: string, actor: string, now: int): (Service, Outcome) {
    if id !in s.requests then (s, NotFound)
    else
      var s1 := ExpireOne(s, id, now);
      var r := s1.requests[id];
      if r.status != Pending then (s1, AlreadyFinal)
      else if !Authorized(r, actor) then (s1, Unauthorized)
      else
        (Update(s1, id, r.(approvals := r.approvals + [Decision(actor, Denied, now, false, 0)], status := Denied),
                [Entry(id, DenialGiven, actor, false)]), Done)
  }

  /** Emergency override from any status; only the trimmed length of the
      justification matters. */
  function Override(s: Service, id: string, actor: string, strippedLength: nat, now: int): (Service, Outcome) {
    if id !in s.requests then (s, NotFound)
    else
      var r := s.requests[id];
      if actor == r.requester then (s, SelfApproval)
      else if strippedLength < 20 then (s, WeakJustification)
      else
        (Update(s, id, r.(approvals := r.approvals + [Decision(actor, Approved, now, true, strippedLength)],
                         status := BreakGlass),
                [Entry(id, GlassBroken, actor, true)]), Done)
  }

  datatype Op =
    | OpCreate(r: Request)
    | OpApprove(id: string, actor: string, now: int)
    | OpDeny(id: string, actor: string, now: int)
    | OpBreakGlass(id: string, actor: string, strippedLength: nat, now: int)
    | OpExpire(now: int)

  /** A pending request without decisions. */
  predicate Blank(r: Request) {
    r.status == Pending && r.approvals == []
  }

  predicate IsFresh(s: Service, r: Request) {
    r.id !in s.requests && Blank(r)
  }

  function Apply(s: Service, op: Op): Service {
    match op
    case OpCreate(r) => Create(s, r)
    case OpApprove(id, actor, now) => Approve(s, id, actor, now).0
    case OpDeny(id, actor, now) => Deny(s, id, actor, now).0
    case OpBreakGlass(id, actor, len, now) => Override(s, id, actor, len, now).0
    case OpExpire(now) => ExpireAll(s, s.order, now)
  }

  function Run(s: Service, ops: seq<Op>): Service {
    if ops == [] then s else Apply(Run(s, ops[..|ops| - 1]), ops[|ops| - 1])
  }

  function Empty(): Service {
    Service(map[], [], [])
  }

  predicate BlankOp(op: Op) {
    op.OpCreate? ==> Blank(op.r)
  }

  /** Whatever the run creates starts out pending and undecided, under new or used
      identifiers. */
  predicate AllBlank(ops: seq<Op>) {
    forall i :: 0 <= i < |ops| ==> BlankOp(ops[i])
  }

  predicate FreshOp(s: Service, op: Op) {
    op.OpCreate? ==> IsFresh(s, op.r)
  }

  /** Moreover no identifier is used twice. */
  predicate FreshRun(s: Service, ops: seq<Op>) {
    forall k :: 0 <= k < |ops| ==> FreshOp(Run(s, ops[..k]), ops[k])
  }

  // ----- replaying the audit log

  /** What the log says about one request. */
  datatype View = View(status: Status, approvers: set<string>)

  function React(v: Option<View>, e: Entry): Option<View> {
    match e.event
    case Created => Some(View(Pending, {}))
    case ApprovalGiven => if v.Some? then Some(v.value.(approvers := v.value.approvers + {e.actor})) else None
    case StatusApproved => if v.Some? then Some(v.value.(status := Approved)) else None
    case DenialGiven => if v.Some? then Some(v.value.(status := Denied)) else None
    case GlassBroken => if v.Some? then Some(View(BreakGlass, v.value.approvers + {e.actor})) else None
    case TimedOut => if v.Some? then Some(v.value.(status := Expired)) else None
  }

  function Replay(v: Option<View>, log: seq<Entry>, id: string): Option<View> {
    if log == [] then v
    else
      var before := Replay(v, log[..|log| - 1], id);
      if log[|log| - 1].id == id then React(before, log[|log| - 1]) else before
  }

  lemma {:induction false} ReplayConcat(v: Option<View>, a: seq<Entry>, b: seq<Entry>, id: string)
    ensures Replay(v, a + b, id) == Replay(Replay(v, a, id), b, id)
  {
    if b == [] {
      assert a + b == a;
    } else {
      assert (a + b)[..|a + b| - 1] == a + b[..|b| - 1];
      ReplayConcat(v, a, b[..|b| - 1], id);
    }
  }

  lemma {:induction false} ReplayOthers(v: Option<View>, log: seq<Entry>, id: string)
    requires forall i :: 0 <= i < |log| ==> log[i].id != id
    ensures Replay(v, log, id) == v
  {
    if log != [] {
      ReplayOthers(v, log[..|log| - 1], id);
    }
  }

  function ViewOf(r: Request): View {
    View(r.status, Approvers(r.approvals))
  }

  // ----- invariants

  /** No approval by the requester; ordinary decisions are delegated and in time,
      break-glass ones justified in at least 20 characters. */
  predicate InOrder(r: Request, d: Decision) {
    && (d.verdict == Approved ==> d.actor != r.requester)
    && (if d.breakGlass then d.justification >= 20 else Authorized(r, d.actor) && d.at <= r.expiresAt)
  }

  ghost predicate RequestOk(r: Request) {
    && (forall i :: 0 <= i < |r.approvals| ==> InOrder(r, r.approvals[i]))
    && (r.status == Pending || r.status == Approved ==>
          forall i :: 0 <= i < |r.approvals| ==> r.approvals[i].verdict == Approved && !r.approvals[i].breakGlass)
    && (r.status == Pending ==> r.approvals == [] || |Approvers(r.approvals)| < r.required)
    && (r.status == Approved ==> r.approvals != [] && |Approvers(r.approvals)| >= r.required)
    && (r.status == BreakGlass <==> exists i :: 0 <= i < |r.approvals| && r.approvals[i].breakGlass)
  }

  ghost predicate Consistent(s: Service, id: string) {
    if id in s.requests then
      && s.requests[id].id == id && RequestOk(s.requests[id])
      && Replay(None, s.log, id) == Some(ViewOf(s.requests[id]))
    else
      Replay(None, s.log, id) == None
  }

  /** The log rebuilds every request, and every request is in order. */
  ghost predicate Inv(s: Service) {
    && (forall id :: Consistent(s, id))
    && (forall id :: id in s.order <==> id in s.requests)
    && Reviewed(s.log)
  }

  /** Exactly the break-glass entries are marked for post-hoc review. */
  ghost predicate Reviewed(log: seq<Entry>) {
    forall i :: 0 <= i < |log| ==> (log[i].needsReview <==> log[i].event == GlassBroken)
  }

  /** PENDING may become final, anything may become BREAK_GLASS, nothing else moves. */
  predicate Moves(a: Status, b: Status) {
    a == b || b == BreakGlass || (a == Pending && b != Pending)
  }

  /** Later versions of a request keep its terms and extend its decisions. */
  ghost predicate Follows(r: Request, r': Request) {
    && Moves(r.status, r'.status)
    && r' == r.(status := r'.status, approvals := r'.approvals)
    && r.approvals <= r'.approvals
  }

  /** Requests are never dropped and the log is append-only. */
  ghost predicate Grows(s: Service, s': Service) {
    && s.log <= s'.log
    && forall id :: id in s.requests ==> id in s'.requests && Follows(s.requests[id], s'.requests[id])
  }

  lemma GrowsReflexive(s: Service)
    ensures Grows(s, s)
  {
  }

  lemma GrowsTransitive(s: Service, t: Service, u: Service)
    requires Grows(s, t) && Grows(t, u)
    ensures Grows(s, u)
  {
  }

  /** Replacing one request together with log entries that say so. */
  lemma UpdateKeeps(s: Service, id: string, r: Request, entries: seq<Entry>)
    requires Inv(s) && id in s.requests
    requires r.id == id && RequestOk(r) && Follows(s.requests[id], r)
    requires forall i :: 0 <= i < |entries| ==> entries[i].id == id
    requires Replay(Some(ViewOf(s.requests[id])), entries, id) == Some(ViewOf(r)) && Reviewed(entries)
    ensures Inv(Update(s, id, r, entries)) && Grows(s, Update(s, id, r, entries))
  {
    hide RequestOk, Approvers, Follows;
    var s' := Update(s, id, r, entries);
    forall k
      ensures Consistent(s', k)
    {
      assert Consistent(s, k);
      ReplayConcat(None, s.log, entries, k);
      if k != id {
        ReplayOthers(Replay(None, s.log, k), entries, k);
      }
    }
    forall k | k in s.requests
      ensures Follows(s.requests[k], s'.requests[k])
    {
      FollowsReflexive(s.requests[k]);
    }
  }

  lemma FollowsReflexive(r: Request)
    ensures Follows(r, r)
  {
  }

  lemma CreateKeeps(s: Service, r: Request)
    requires Inv(s) && Blank(r)
    ensures Inv(Create(s, r))
    ensures r.id !in s.requests ==> Grows(s, Create(s, r))
  {
    var s' := Create(s, r);
    assert Approvers(r.approvals) == {};
    forall id
      ensures Consistent(s', id)
    {
      assert Consistent(s, id);
      assert s'.log[..|s.log|] == s.log;
    }
    if r.id !in s.requests {
      forall id | id in s.requests
        ensures Follows(s.requests[id], s'.requests[id])
      {
        FollowsReflexive(s.requests[id]);
      }
    }
  }

  /** Any request can be filed, but the log still accounts for the requests if and
      only if the new one is pending and undecided. */
  lemma CreateKeepsIff(s: Service, r: Request)
    requires Inv(s)
    ensures Inv(Create(s, r)) <==> Blank(r)
  {
    var s' := Create(s, r);
    if Blank(r) {
      CreateKeeps(s, r);
    } else {
      assert s'.log[..|s.log|] == s.log;
      if r.status == Pending && RequestOk(r) {
        DecidedHasApprover(r);
      }
      assert !Consistent(s', r.id);
    }
  }

  lemma DecidedHasApprover(r: Request)
    requires r.status == Pending && RequestOk(r) && r.approvals != []
    ensures Approvers(r.approvals) != {}
  {
    assert r.approvals[0].actor in Approvers(r.approvals);
  }

  lemma ReplayOne(v: Option<View>, e: Entry)
    ensures Replay(v, [e], e.id) == React(v, e)
  {
    assert [e][..0] == [];
  }

  lemma ExpireOneKeeps(s: Service, id: string, now: int)
    requires Inv(s)
    ensures Inv(ExpireOne(s, id, now)) && Grows(s, ExpireOne(s, id, now))
    ensures ExpireOne(s, id, now).requests.Keys == s.requests.Keys && ExpireOne(s, id, now).order == s.order
  {
    GrowsReflexive(s);
    if id in s.requests && Stale(s.requests[id], now) {
      assert Consistent(s, id);
      var r := s.requests[id].(status := Expired);
      ReplayOne(Some(ViewOf(s.requests[id])), Entry(id, TimedOut, "system", false));
      UpdateKeeps(s, id, r, [Entry(id, TimedOut, "system", false)]);
    }
  }

  lemma {:induction false} ExpireAllKeeps(s: Service, ids: seq<string>, now: int)
    requires Inv(s)
    ensures Inv(ExpireAll(s, ids, now)) && Grows(s, ExpireAll(s, ids, now))
  {
    hide Inv, Grows;
    if ids == [] {
      GrowsReflexive(s);
    } else {
      var t := ExpireAll(s, ids[..|ids| - 1], now);
      ExpireAllKeeps(s, ids[..|ids| - 1], now);
      ExpireOneKeeps(t, ids[|ids| - 1], now);
      GrowsTransitive(s, t, ExpireOne(t, ids[|ids| - 1], now));
    }
  }

  lemma ApproversAppend(ds: seq<Decision>, d: Decision)
    ensures Approvers(ds + [d]) == Approvers(ds) + (if d.verdict == Approved then {d.actor} else {})
  {
    var longer := ds + [d];
    assert longer[|ds|] == d;
    forall a | a in Approvers(ds)
      ensures a in Approvers(longer)
    {
      var i :| 0 <= i < |ds| && ds[i].verdict == Approved && ds[i].actor == a;
      assert longer[i] == ds[i];
    }
    forall a | a in Approvers(longer)
      ensures a in Approvers(ds) || (d.verdict == Approved && a == d.actor)
    {
      var i :| 0 <= i < |longer| && longer[i].verdict == Approved && longer[i].actor == a;
      assert i < |ds| ==> longer[i] == ds[i];
    }
  }

  /** The log entries of a grant tell what it did. */
  lemma GrantReplay(r: Request, id: string, actor: string, now: int)
    ensures var (r', entries) := Grant(r, id, actor, now);
            && (forall i :: 0 <= i < |entries| ==> entries[i].id == id) && Reviewed(entries)
            && Replay(Some(ViewOf(r)), entries, id) == Some(ViewOf(r'))
  {
    var (r', entries) := Grant(r, id, actor, now);
    ApproversAppend(r.approvals, Decision(actor, Approved, now, false, 0));
    hide Approvers;
    ReplayOne(Some(ViewOf(r)), entries[0]);
    assert entries[..1] == [entries[0]];
    if |entries| == 2 {
      assert Replay(Some(ViewOf(r)), entries[..1], id) == Some(View(r.status, Approvers(r'.approvals)));
    } else {
      assert entries == entries[..1];
    }
  }

  lemma GrantOk(r: Request, id: string, actor: string, now: int)
    requires RequestOk(r) && r.status == Pending
    requires Authorized(r, actor) && actor != r.requester && now <= r.expiresAt
    ensures var r' := Grant(r, id, actor, now).0;
            RequestOk(r') && Follows(r, r') && r'.id == r.id
  {
    var r' := Grant(r, id, actor, now).0;
    var d := Decision(actor, Approved, now, false, 0);
    hide Approvers;
    assert r'.approvals == r.approvals + [d] && InOrder(r', d);
    OrderKept(r, r', d);
    assert forall i :: 0 <= i < |r.approvals| ==> r'.approvals[i] == r.approvals[i];
    assert r'.approvals[|r.approvals|] == d;
  }

  /** Earlier decisions stay in order when a request gains another. */
  lemma OrderKept(r: Request, r': Request, d: Decision)
    requires r' == r.(status := r'.status, approvals := r.approvals + [d]) && InOrder(r, d)
    requires forall i :: 0 <= i < |r.approvals| ==> InOrder(r, r.approvals[i])
    ensures forall i :: 0 <= i < |r'.approvals| ==> InOrder(r', r'.approvals[i])
  {
    forall i | 0 <= i < |r'.approvals|
      ensures InOrder(r', r'.approvals[i])
    {
      assert i < |r.approvals| ==> InOrder(r, r.approvals[i]);
    }
  }

  lemma DecideReplay(r: Request, id: string, d: Decision, status: Status, e: Entry)
    requires e.id == id && e.actor == d.actor
    requires || (status == Denied && d.verdict == Denied && e.event == DenialGiven)
             || (status == BreakGlass && d.verdict == Approved && e.event == GlassBroken)
    ensures Replay(Some(ViewOf(r)), [e], id) == Some(ViewOf(r.(approvals := r.approvals + [d], status := status)))
  {
    ApproversAppend(r.approvals, d);
    hide Approvers;
    assert Approvers(r.approvals) + {} == Approvers(r.approvals);
    ReplayOne(Some(ViewOf(r)), e);
  }

  lemma DecideOk(r: Request, d: Decision, status: Status)
    requires RequestOk(r) && InOrder(r, d)
    requires || (status == Denied && !d.breakGlass && r.status == Pending)
             || (status == BreakGlass && d.breakGlass)
    ensures var r' := r.(approvals := r.approvals + [d], status := status);
            RequestOk(r') && Follows(r, r')
  {
    var r' := r.(approvals := r.approvals + [d], status := status);
    hide Approvers;
    OrderKept(r, r', d);
    assert forall i :: 0 <= i < |r.approvals| ==> r'.approvals[i] == r.approvals[i];
    assert r'.approvals[|r.approvals|] == d;
  }

  lemma ApproveKeeps(s: Service, id: string, actor: string, now: int)
    requires Inv(s)
    ensures Inv(Approve(s, id, actor, now).0) && Grows(s, Approve(s, id, actor, now).0)
  {
    GrowsReflexive(s);
    if id in s.requests {
      var s1 := ExpireOne(s, id, now);
      ExpireOneKeeps(s, id, now);
      assert Consistent(s1, id);
      var r := s1.requests[id];
      if r.status == Pending && Authorized(r, actor) && actor != r.requester {
        GrantOk(r, id, actor, now);
        GrantReplay(r, id, actor, now);
        var (r', entries) := Grant(r, id, actor, now);
        hide Grant, Follows, RequestOk;
        UpdateKeeps(s1, id, r', entries);
        GrowsTransitive(s, s1, Update(s1, id, r', entries));
      }
    }
  }

  lemma DenyKeeps(s: Service, id: string, actor: string, now: int)
    requires Inv(s)
    ensures Inv(Deny(s, id, actor, now).0) && Grows(s, Deny(s, id, actor, now).0)
  {
    GrowsReflexive(s);
    if id in s.requests {
      var s1 := ExpireOne(s, id, now);
      ExpireOneKeeps(s, id, now);
      assert Consistent(s1, id);
      var r := s1.requests[id];
      if r.status == Pending && Authorized(r, actor) {
        var d, e := Decision(actor, Denied, now, false, 0), Entry(id, DenialGiven, actor, false);
        DecideOk(r, d, Denied);
        DecideReplay(r, id, d, Denied, e);
        hide Follows, RequestOk;
        var r' := r.(approvals := r.approvals + [d], status := Denied);
        UpdateKeeps(s1, id, r', [e]);
        GrowsTransitive(s, s1, Update(s1, id, r', [e]));
      }
    }
  }

  lemma OverrideKeeps(s: Service, id: string, actor: string, strippedLength: nat, now: int)
    requires Inv(s)
    ensures Inv(Override(s, id, actor, strippedLength, now).0)
    ensures Grows(s, Override(s, id, actor, strippedLength, now).0)
  {
    GrowsReflexive(s);
    if id in s.requests && actor != s.requests[id].requester && strippedLength >= 20 {
      assert Consistent(s, id);
      var r := s.requests[id];
      var d, e := Decision(actor, Approved, now, true, strippedLength), Entry(id, GlassBroken, actor, true);
      DecideOk(r, d, BreakGlass);
      DecideReplay(r, id, d, BreakGlass, e);
      hide Follows, RequestOk;
      UpdateKeeps(s, id, r.(approvals := r.approvals + [d], status := BreakGlass), [e]);
    }
  }

  lemma ApplyKeeps(s: Service, op: Op)
    requires Inv(s) && BlankOp(op)
    ensures Inv(Apply(s, op)) && (FreshOp(s, op) ==> Grows(s, Apply(s, op)))
  {
    GrowsReflexive(s);
    match op
    case OpCreate(r) => CreateKeeps(s, r);
    case OpApprove(id, actor, now) => ApproveKeeps(s, id, actor, now);
    case OpDeny(id, actor, now) => DenyKeeps(s, id, actor, now);
    case OpBreakGlass(id, actor, len, now) => OverrideKeeps(s, id, actor, len, now);
    case OpExpire(now) => ExpireAllKeeps(s, s.order, now);
  }

  /** Every run keeps the log a faithful account of the requests and, if no identifier
      is used twice, moves statuses only as allowed and never drops a request, a
      decision or a log entry. */
  lemma {:induction false} RunKeeps(s: Service, ops: seq<Op>)
    requires Inv(s) && AllBlank(ops)
    ensures Inv(Run(s, ops)) && (FreshRun(s, ops) ==> Grows(s, Run(s, ops)))
  {
    hide Inv, Grows, Apply, BlankOp, FreshOp;
    if ops == [] {
      GrowsReflexive(s);
    } else {
      var n := |ops| - 1;
      var t := Run(s, ops[..n]);
      RunKeeps(s, ops[..n]);
      ApplyKeeps(t, ops[n]);
      if FreshRun(s, ops) {
        FreshPrefix(s, ops);
        GrowsTransitive(s, t, Apply(t, ops[n]));
      }
    }
  }

  lemma FreshPrefix(s: Service, ops: seq<Op>)
    requires ops != [] && FreshRun(s, ops)
    ensures FreshRun(s, ops[..|ops| - 1]) && FreshOp(Run(s, ops[..|ops| - 1]), ops[|ops| - 1])
  {
    hide Run, FreshOp;
    var shorter := ops[..|ops| - 1];
    forall k | 0 <= k < |shorter|
      ensures FreshOp(Run(s, shorter[..k]), shorter[k])
    {
      assert shorter[..k] == ops[..k];
      assert FreshOp(Run(s, ops[..k]), ops[k]);
    }
  }

  /** The log accounts for the requests after every step of a run if and only if
      whatever the run creates starts out pending and undecided. */
  lemma AccountedIff(s: Service, ops: seq<Op>)
    requires Inv(s)
    ensures (forall k :: 0 <= k <= |ops| ==> Inv(Run(s, ops[..k]))) <==> AllBlank(ops)
  {
    hide Inv, Apply, Run;
    if AllBlank(ops) {
      forall k | 0 <= k <= |ops|
        ensures Inv(Run(s, ops[..k]))
      {
        RunKeeps(s, ops[..k]);
      }
    } else {
      var k :| 0 <= k < |ops| && !BlankOp(ops[k]);
      if Inv(Run(s, ops[..k])) {
        RunStep(s, ops, k);
        CreateKeepsIff(Run(s, ops[..k]), ops[k].r);
        assert !Inv(Run(s, ops[..k + 1]));
      }
    }
  }

  lemma RunStep(s: Service, ops: seq<Op>, k: nat)
    requires k < |ops|
    ensures Run(s, ops[..k + 1]) == Apply(Run(s, ops[..k]), ops[k])
    ensures ops[k].OpCreate? ==> Run(s, ops[..k + 1]) == Create(Run(s, ops[..k]), ops[k].r)
  {
    assert ops[..k + 1][..k] == ops[..k];
  }

  lemma EmptyOk()
    ensures Inv(Empty())
  {
  }

  /** In every run from an empty service, folding the audit log gives each request's
      status and approver set, and nothing for unknown identifiers. */
  lemma LogRebuildsState(ops: seq<Op>, id: string)
    requires AllBlank(ops)
    ensures var s := Run(Empty(), ops);
            Replay(None, s.log, id)
            == if id in s.requests then Some(View(s.requests[id].status, Approvers(s.requests[id].approvals))) else None
  {
    EmptyOk();
    RunKeeps(Empty(), ops);
    assert Consistent(Run(Empty(), ops), id);
  }

  /** An APPROVED request has enough distinct approvers, each delegated, none the
      requester, none recorded after expiry. */
  lemma ApprovedMeans(ops: seq<Op>, id: string)
    requires AllBlank(ops)
    requires id in Run(Empty(), ops).requests && Run(Empty(), ops).requests[id].status == Approved
    ensures var r := Run(Empty(), ops).requests[id];
            && |Approvers(r.approvals)| >= r.required && Approvers(r.approvals) != {}
            && r.requester !in Approvers(r.approvals)
            && (forall a :: a in Approvers(r.approvals) ==> Authorized(r, a))
            && (forall i :: 0 <= i < |r.approvals| ==> r.approvals[i].at <= r.expiresAt)
  {
    EmptyOk();
    RunKeeps(Empty(), ops);
    var s := Run(Empty(), ops);
    assert Consistent(s, id);
    ApprovedRequest(s.requests[id]);
  }

  // ----- how many approvers an approved request is sure to have

  /** A request reached by some run, approved, asking for q approvers. */
  ghost predicate ApprovedAsking(ops: seq<Op>, id: string, q: int) {
    && AllBlank(ops) && id in Run(Empty(), ops).requests
    && Run(Empty(), ops).requests[id].status == Approved && Run(Empty(), ops).requests[id].required == q
  }

  ghost predicate SureOf(q: int, wanted: int) {
    forall ops, id :: ApprovedAsking(ops, id, q) ==> |Approvers(Run(Empty(), ops).requests[id].approvals)| >= wanted
  }

  /** Every approved request that asked for q approvers has `wanted` distinct ones, in
      every run, if and only if `wanted` is at most q, or at most 1. */
  lemma SureOfIff(q: int, wanted: int)
    ensures SureOf(q, wanted) <==> wanted <= MaxInt(1, q)
  {
    hide Run, Approvers;
    forall ops, id | ApprovedAsking(ops, id, q)
      ensures |Approvers(Run(Empty(), ops).requests[id].approvals)| >= MaxInt(1, q)
    {
      ApprovedMeans(ops, id);
    }
    var blank := Request("r", "", "", "", q, false, [], 0, Pending, []);
    VotesRun(blank, MaxInt(1, q));
    BallotsDistinct(MaxInt(1, q), 0);
    VotesBlank(blank, MaxInt(1, q));
    assert ApprovedAsking(Votes(blank, MaxInt(1, q)), "r", q);
  }

  function Name(k: nat): string {
    seq(k, i => 'x')
  }

  /** The first n names vote, one after the other. */
  function Votes(r: Request, n: nat): seq<Op> {
    if n == 0 then [OpCreate(r)] else Votes(r, n - 1) + [OpApprove(r.id, Name(n), r.expiresAt)]
  }

  lemma {:induction false} VotesBlank(r: Request, n: nat)
    requires Blank(r)
    ensures AllBlank(Votes(r, n))
  {
    if n > 0 {
      VotesBlank(r, n - 1);
    }
  }

  function Ballots(n: nat, at: int): (r: seq<Decision>)
    ensures |r| == n
  {
    if n == 0 then [] else Ballots(n - 1, at) + [Decision(Name(n), Approved, at, false, 0)]
  }

  lemma {:induction false} BallotsDistinct(n: nat, at: int)
    ensures |Approvers(Ballots(n, at))| == n
    ensures forall a :: a in Approvers(Ballots(n, at)) ==> 0 < |a| <= n
  {
    if n > 0 {
      BallotsDistinct(n - 1, at);
      ApproversAppend(Ballots(n - 1, at), Decision(Name(n), Approved, at, false, 0));
    }
  }

  /** The request after n votes: approved exactly if it has all it asked for. */
  function Voted(r: Request, n: nat): Request {
    r.(approvals := Ballots(n, r.expiresAt), status := if n == MaxInt(1, r.required) then Approved else Pending)
  }

  lemma VoteStep(s: Service, r: Request, n: nat)
    requires r.requester == "" && r.delegated == [] && 0 < n <= MaxInt(1, r.required)
    requires r.id in s.requests && s.requests[r.id] == Voted(r, n - 1)
    ensures var s' := Approve(s, r.id, Name(n), r.expiresAt).0;
            r.id in s'.requests && s'.requests[r.id] == Voted(r, n)
  {
    BallotsDistinct(n, r.expiresAt);
    hide Approvers;
  }

  lemma {:induction false} VotesRun(r: Request, n: nat)
    requires IsFresh(Empty(), r) && r.requester == "" && r.delegated == [] && n <= MaxInt(1, r.required)
    ensures var s := Run(Empty(), Votes(r, n)); r.id in s.requests && s.requests[r.id] == Voted(r, n)
  {
    hide Approve, Ballots, Approvers;
    if n == 0 {
      CreatedRun(r);
    } else {
      VotesRun(r, n - 1);
      VoteStep(Run(Empty(), Votes(r, n - 1)), r, n);
      assert Votes(r, n)[..|Votes(r, n)| - 1] == Votes(r, n - 1);
    }
  }

  lemma CreatedRun(r: Request)
    requires IsFresh(Empty(), r)
    ensures var s := Run(Empty(), Votes(r, 0)); r.id in s.requests && s.requests[r.id] == Voted(r, 0)
  {
    assert Votes(r, 0)[..0] == [];
    assert Run(Empty(), []) == Empty();
  }

  // ----- enough approvals do approve

  /** Different people other than the requester, each entitled and in time. */
  ghost predicate Willing(r: Request, actors: seq<string>, times: seq<int>) {
    && |times| == |actors|
    && (forall i, j :: 0 <= i < j < |actors| ==> actors[i] != actors[j])
    && (forall i :: 0 <= i < |actors| ==>
          actors[i] != r.requester && (r.delegated == [] || actors[i] in r.delegated) && times[i] <= r.expiresAt)
  }

  function ApproveAll(id: string, actors: seq<string>, times: seq<int>): (r: seq<Op>)
    requires |times| == |actors|
    ensures |r| == |actors|
  {
    seq(|actors|, i requires 0 <= i < |actors| => OpApprove(id, actors[i], times[i]))
  }

  function Among(actors: seq<string>, n: nat): set<string>
    requires n <= |actors|
  {
    set i | 0 <= i < n :: actors[i]
  }

  /** A new request after the first n of them have approved. */
  ghost predicate ApprovedBy(s: Service, id: string, r: Request, actors: seq<string>, n: nat)
    requires n <= |actors|
  {
    && id in s.requests
    && var r' := s.requests[id];
       && r' == r.(status := r'.status, approvals := r'.approvals)
       && (r'.status == if n >= MaxInt(1, r.required) then Approved else Pending)
       && Approvers(r'.approvals) == Among(actors, n)
  }

  lemma AmongStep(actors: seq<string>, n: nat)
    requires 0 < n <= |actors| && forall i, j :: 0 <= i < j < |actors| ==> actors[i] != actors[j]
    ensures Among(actors, n) == Among(actors, n - 1) + {actors[n - 1]} && actors[n - 1] !in Among(actors, n - 1)
  {
  }

  lemma {:induction false} FirstActors(actors: seq<string>, n: nat)
    requires n <= |actors| && forall i, j :: 0 <= i < j < |actors| ==> actors[i] != actors[j]
    ensures |Among(actors, n)| == n
    ensures n > 0 ==> Among(actors, n) == Among(actors, n - 1) + {actors[n - 1]}
  {
    if n > 0 {
      FirstActors(actors, n - 1);
      AmongStep(actors, n);
      hide Among;
    }
  }

  lemma NextApproval(s: Service, id: string, r: Request, actors: seq<string>, times: seq<int>, n: nat)
    requires Willing(r, actors, times) && n < |actors| <= MaxInt(1, r.required)
    requires ApprovedBy(s, id, r, actors, n)
    ensures ApprovedBy(Approve(s, id, actors[n], times[n]).0, id, r, actors, n + 1)
  {
    hide Approve, Approvers, Among, TurnedAway;
    FirstActors(actors, n);
    FirstActors(actors, n + 1);
    var actor := actors[n];
    assert actor != r.requester && (r.delegated == [] || actor in r.delegated) && times[n] <= r.expiresAt;
    assert Open(s, id, times[n]);
    ApproveExact(s, id, actor, times[n]);
  }

  /** Once as many different people as it asks for, and at least one, have approved a
      new request in time, it is APPROVED, and not before. */
  lemma {:induction false} EnoughApprove(s: Service, id: string, actors: seq<string>, times: seq<int>, n: nat)
    requires id in s.requests && Blank(s.requests[id]) && Willing(s.requests[id], actors, times)
    requires n <= |actors| <= MaxInt(1, s.requests[id].required)
    ensures ApprovedBy(Run(s, ApproveAll(id, actors, times)[..n]), id, s.requests[id], actors, n)
  {
    var ops := ApproveAll(id, actors, times);
    if n == 0 {
      assert ops[..0] == [];
      FirstActors(actors, n);
    } else {
      EnoughApprove(s, id, actors, times, n - 1);
      hide Approve, ApprovedBy, Willing;
      var m := n - 1;
      NextApproval(Run(s, ops[..m]), id, s.requests[id], actors, times, m);
      RunStep(s, ops, m);
    }
  }

  // ----- who may have approved

  /** A request of this requester and delegation, reached by some run and approved. */
  ghost predicate ApprovedFor(ops: seq<Op>, id: string, requester: string, delegated: seq<string>) {
    && AllBlank(ops) && id in Run(Empty(), ops).requests
    && var r := Run(Empty(), ops).requests[id];
       r.status == Approved && r.requester == requester && r.delegated == delegated
  }

  ghost predicate NeverApproves(requester: string, delegated: seq<string>, actor: string) {
    forall ops, id :: ApprovedFor(ops, id, requester, delegated) ==>
      actor !in Approvers(Run(Empty(), ops).requests[id].approvals)
  }

  /** Someone is sure not to be among the approvers if and only if it is the requester,
      or approval is delegated to others. */
  lemma NeverApprovesIff(requester: string, delegated: seq<string>, actor: string)
    ensures NeverApproves(requester, delegated, actor) <==>
            actor == requester || (delegated != [] && actor !in delegated)
  {
    hide Run, Approvers;
    if actor == requester || (delegated != [] && actor !in delegated) {
      forall ops, id | ApprovedFor(ops, id, requester, delegated)
        ensures actor !in Approvers(Run(Empty(), ops).requests[id].approvals)
      {
        ApprovedMeans(ops, id);
      }
    } else {
      OneVote(SoleRequest(requester, delegated), actor);
      assert ApprovedFor(OneVoteOps(SoleRequest(requester, delegated), actor), "r", requester, delegated);
    }
  }

  /** A request that asks for one approver. */
  function SoleRequest(requester: string, delegated: seq<string>): Request {
    Request("r", "", "", requester, 1, false, delegated, 0, Pending, [])
  }

  function OneVoteOps(r: Request, actor: string): seq<Op> {
    [OpCreate(r), OpApprove(r.id, actor, r.expiresAt)]
  }

  lemma OneVote(r: Request, actor: string)
    requires Blank(r) && r.required == 1 && actor != r.requester && Authorized(r, actor)
    ensures AllBlank(OneVoteOps(r, actor))
    ensures var s := Run(Empty(), OneVoteOps(r, actor));
            && r.id in s.requests && Approvers(s.requests[r.id].approvals) == {actor}
            && s.requests[r.id] == r.(status := Approved, approvals := s.requests[r.id].approvals)
  {
    var ops := OneVoteOps(r, actor);
    RunStep(Empty(), ops, 0);
    RunStep(Empty(), ops, 1);
    assert ops[..0] == [] && ops[..2] == ops;
    var d := Decision(actor, Approved, r.expiresAt, false, 0);
    ApproversAppend([], d);
    assert [] + [d] == [d];
    assert Approvers([]) == {};
    hide Approvers;
    ApproveExact(Run(Empty(), ops[..1]), r.id, actor, r.expiresAt);
    assert |{actor}| == 1;
  }

  lemma ApprovedRequest(r: Request)
    requires RequestOk(r) && r.status == Approved
    ensures |Approvers(r.approvals)| >= r.required && Approvers(r.approvals) != {}
    ensures r.requester !in Approvers(r.approvals)
    ensures forall a :: a in Approvers(r.approvals) ==> Authorized(r, a)
    ensures forall i :: 0 <= i < |r.approvals| ==> r.approvals[i].at <= r.expiresAt
  {
    assert InOrder(r, r.approvals[0]);
    assert r.approvals[0].actor in Approvers(r.approvals);
    forall i | 0 <= i < |r.approvals|
      ensures r.approvals[i].actor != r.requester && Authorized(r, r.approvals[i].actor)
      ensures r.approvals[i].at <= r.expiresAt
    {
      assert InOrder(r, r.approvals[i]);
    }
  }

  /** A repeated approval by the same actor counts once: it cannot complete a request
      that was still waiting. */
  lemma RepeatCountsOnce(s: Service, id: string, actor: string, now: int)
    requires Inv(s) && id in s.requests && s.requests[id].status == Pending
    requires actor in Approvers(s.requests[id].approvals)
    ensures var s' := Approve(s, id, actor, now).0;
            && Approvers(s'.requests[id].approvals) == Approvers(s.requests[id].approvals)
            && s'.requests[id].status != Approved
  {
    assert Consistent(s, id);
    ApproversAppend(s.requests[id].approvals, Decision(actor, Approved, now, false, 0));
  }

  /** Sweeping a list of identifiers expires exactly the stale requests on it. */
  lemma {:induction false} ExpireAllAt(s: Service, ids: seq<string>, now: int, id: string)
    ensures id in ExpireAll(s, ids, now).requests <==> id in s.requests
    ensures id in s.requests ==>
              ExpireAll(s, ids, now).requests[id]
              == if id in ids && Stale(s.requests[id], now) then s.requests[id].(status := Expired) else s.requests[id]
  {
    if ids != [] {
      var n := |ids| - 1;
      ExpireAllAt(s, ids[..n], now, id);
      assert id in ids <==> id in ids[..n] || id == ids[n];
    }
  }

  /** After a sweep nothing pending is past its expiry, and nothing else changed. */
  lemma SweepIsExact(s: Service, now: int, id: string)
    requires Inv(s) && id in s.requests
    ensures var s' := Apply(s, OpExpire(now));
            && id in s'.requests && !(s'.requests[id].status == Pending && s'.requests[id].expiresAt < now)
            && s'.requests[id]
               == if s.requests[id].status == Pending && s.requests[id].expiresAt < now
                  then s.requests[id].(status := Expired) else s.requests[id]
  {
    ExpireAllAt(s, s.order, now, id);
  }

  /** The request exists, is pending and has not expired. */
  predicate Open(s: Service, id: string, now: int) {
    id in s.requests && s.requests[id].status == Pending && now <= s.requests[id].expiresAt
  }

  /** What approving or denying does to a request that is not open: an overdue one is
      marked EXPIRED, anything else is left alone. */
  ghost predicate TurnedAway(s: Service, id: string, now: int, s': Service, o: Outcome) {
    if id !in s.requests then o == NotFound && s' == s
    else if s.requests[id].status == Pending then
      o == AlreadyFinal && s' == Service(s.requests[id := s.requests[id].(status := Expired)], s.order,
                                         s.log + [Entry(id, TimedOut, "system", false)])
    else o == AlreadyFinal && s' == s
  }

  /** An approval or denial as such: who may give it, and what is then recorded. */
  ghost predicate Recorded(s: Service, id: string, d: Decision, status: Status, entries: seq<Entry>, s': Service)
    requires id in s.requests
  {
    s' == Service(s.requests[id := s.requests[id].(approvals := s.requests[id].approvals + [d], status := status)],
                  s.order, s.log + entries)
  }

  /** Exactly when an approval is recorded, exactly when it completes the request, what
      is logged, and how it is refused otherwise. */
  ghost predicate ApproveEffect(s: Service, id: string, actor: string, now: int, s': Service, o: Outcome) {
    if !Open(s, id, now) then TurnedAway(s, id, now, s', o)
    else
      var r := s.requests[id];
      if r.delegated != [] && actor !in r.delegated then o == Unauthorized && s' == s
      else if actor == r.requester then o == SelfApproval && s' == s
      else
        var complete := |Approvers(r.approvals) + {actor}| >= r.required;
        var given := Entry(id, ApprovalGiven, actor, false);
        && o == Done
        && Recorded(s, id, Decision(actor, Approved, now, false, 0), if complete then Approved else Pending,
                    if complete then [given, Entry(id, StatusApproved, "system", false)] else [given], s')
        && Approvers(s'.requests[id].approvals) == Approvers(r.approvals) + {actor}
  }

  lemma ApproveExact(s: Service, id: string, actor: string, now: int)
    ensures ApproveEffect(s, id, actor, now, Approve(s, id, actor, now).0, Approve(s, id, actor, now).1)
  {
    if id in s.requests {
      ApproversAppend(s.requests[id].approvals, Decision(actor, Approved, now, false, 0));
    }
    hide Approvers;
  }

  /** Exactly when a denial is recorded, what is logged, and how it is refused otherwise.
      The requester may deny. */
  ghost predicate DenyEffect(s: Service, id: string, actor: string, now: int, s': Service, o: Outcome) {
    if !Open(s, id, now) then TurnedAway(s, id, now, s', o)
    else if s.requests[id].delegated != [] && actor !in s.requests[id].delegated then o == Unauthorized && s' == s
    else
      && o == Done
      && Recorded(s, id, Decision(actor, Denied, now, false, 0), Denied, [Entry(id, DenialGiven, actor, false)], s')
  }

  lemma DenyExact(s: Service, id: string, actor: string, now: int)
    ensures DenyEffect(s, id, actor, now, Deny(s, id, actor, now).0, Deny(s, id, actor, now).1)
  {
  }

  /** Exactly when an override succeeds: from every status, past expiry and without
      delegation, but not for the requester and not on a short justification. */
  ghost predicate OverrideEffect(s: Service, id: string, actor: string, strippedLength: nat, now: int, s': Service,
                                 o: Outcome)
  {
    if id !in s.requests then o == NotFound && s' == s
    else if actor == s.requests[id].requester then o == SelfApproval && s' == s
    else if strippedLength < 20 then o == WeakJustification && s' == s
    else
      && o == Done
      && Recorded(s, id, Decision(actor, Approved, now, true, strippedLength), BreakGlass,
                  [Entry(id, GlassBroken, actor, true)], s')
  }

  lemma OverrideExact(s: Service, id: string, actor: string, strippedLength: nat, now: int)
    ensures var (s', o) := Override(s, id, actor, strippedLength, now);
            OverrideEffect(s, id, actor, strippedLength, now, s', o)
  {
  }

  /** The request has been denied, and possibly broken open since. */
  predicate Refused(s: Service, id: string) {
    id in s.requests && s.requests[id].status in {Denied, BreakGlass}
  }

  lemma RefusalStays(s: Service, op: Op, id: string)
    requires Refused(s, id) && !(op.OpCreate? && op.r.id == id)
    ensures Refused(Apply(s, op), id)
  {
    hide Grant, Approvers;
    if op.OpExpire? {
      ExpireAllAt(s, s.order, op.now, id);
      hide ExpireAll;
    }
  }

  lemma {:induction false} RefusedForever(s: Service, ops: seq<Op>, id: string)
    requires Refused(s, id)
    requires forall i :: 0 <= i < |ops| ==> !(ops[i].OpCreate? && ops[i].r.id == id)
    ensures Refused(Run(s, ops), id)
  {
    if ops != [] {
      RefusedForever(s, ops[..|ops| - 1], id);
      RefusalStays(Run(s, ops[..|ops| - 1]), ops[|ops| - 1], id);
    }
  }

  /** After a denial has been given no run that does not reuse the identifier ever
      approves the request: it stays DENIED unless it is broken open. */
  lemma DenialIsFinal(s: Service, id: string, actor: string, now: int, ops: seq<Op>)
    requires Deny(s, id, actor, now).1 == Done
    requires forall i :: 0 <= i < |ops| ==> !(ops[i].OpCreate? && ops[i].r.id == id)
    ensures var s' := Run(Deny(s, id, actor, now).0, ops);
            id in s'.requests && s'.requests[id].status in {Denied, BreakGlass}
  {
    RefusedForever(Deny(s, id, actor, now).0, ops, id);
  }

  /** The request has been approved or broken open. */
  predicate Consented(s: Service, id: string) {
    id in s.requests && s.requests[id].status in {Approved, BreakGlass}
  }

  lemma ConsentStays(s: Service, op: Op, id: string)
    requires Consented(s, id) && !(op.OpCreate? && op.r.id == id)
    ensures Consented(Apply(s, op), id)
  {
    hide Grant, Approvers;
    if op.OpExpire? {
      ExpireAllAt(s, s.order, op.now, id);
      hide ExpireAll;
    }
  }

  /** Once APPROVED or BREAK_GLASS, always one of the two, in every run that does not
      file another request under the same identifier. */
  lemma {:induction false} ApprovalIsForever(s: Service, ops: seq<Op>, id: string)
    requires Consented(s, id)
    requires forall i :: 0 <= i < |ops| ==> !(ops[i].OpCreate? && ops[i].r.id == id)
    ensures Consented(Run(s, ops), id)
  {
    if ops != [] {
      ApprovalIsForever(s, ops[..|ops| - 1], id);
      ConsentStays(Run(s, ops[..|ops| - 1]), ops[|ops| - 1], id);
    }
  }

  // ----- the service object

  class ApprovalService {
    var requests: map<string, Request>
    var order: seq<string>
    var log: seq<Entry>

    function Value(): Service
      reads this
    {
      Service(requests, order, log)
    }

    constructor ()
      ensures Value() == Empty()
    {
      requests, order, log := map[], [], [];
    }

    method Audit(e: Entry)
      modifies this`log
      ensures log == old(log) + [e]
    {
      log := log + [e];
    }

    method CreateRequest(r: Request)
      modifies this
      ensures Value() == Create(old(Value()), r)
    {
      if r.id !in requests {
        order := order + [r.id];
      }
      requests := requests[r.id := r];
      Audit(Entry(r.id, Created, r.requester, false));
    }

    /** Expires the request if it is stale; finds it active or reports why not. */
    method GetActive(id: string, now: int) returns (r: Option<Request>, why: Outcome)
      modifies this
      ensures id !in old(requests) ==> Value() == old(Value()) && r == None && why == NotFound
      ensures id in old(requests) ==>
                && Value() == ExpireOne(old(Value()), id, now)
                && (if requests[id].status == Pending then r == Some(requests[id])
                    else r == None && why == AlreadyFinal)
    {
      if id !in requests {
        return None, NotFound;
      }
      if Stale(requests[id], now) {
        requests := requests[id := requests[id].(status := Expired)];
        Audit(Entry(id, TimedOut, "system", false));
      }
      if requests[id].status != Pending {
        return None, AlreadyFinal;
      }
      return Some(requests[id]), Done;
    }

    method ApproveRequest(id: string, actor: string, now: int) returns (outcome: Outcome)
      modifies this
      ensures (Value(), outcome) == Approve(old(Value()), id, actor, now)
      ensures ApproveEffect(old(Value()), id, actor, now, Value(), outcome)
    {
      ApproveExact(Value(), id, actor, now);
      hide ApproveEffect;
      var active, why := GetActive(id, now);
      if active == None {
        return why;
      }
      var r := active.value;
      if !Authorized(r, actor) {
        return Unauthorized;
      }
      if actor == r.requester {
        return SelfApproval;
      }
      ghost var before := Value();
      r := r.(approvals := r.approvals + [Decision(actor, Approved, now, false, 0)]);
      requests := requests[id := r];
      Audit(Entry(id, ApprovalGiven, actor, false));
      if |Approvers(r.approvals)| >= r.required {
        r := r.(status := Approved);
        requests := requests[id := r];
        Audit(Entry(id, StatusApproved, "system", false));
        assert requests == before.requests[id := r];
        assert log == before.log + [Entry(id, ApprovalGiven, actor, false), Entry(id, StatusApproved, "system", false)];
      }
      return Done;
    }

    method DenyRequest(id: string, actor: string, now: int) returns (outcome: Outcome)
      modifies this
      ensures (Value(), outcome) == Deny(old(Value()), id, actor, now)
      ensures DenyEffect(old(Value()), id, actor, now, Value(), outcome)
    {
      DenyExact(Value(), id, actor, now);
      hide DenyEffect;
      var active, why := GetActive(id, now);
      if active == None {
        return why;
      }
      var r := active.value;
      if !Authorized(r, actor) {
        return Unauthorized;
      }
      requests := requests[id := r.(approvals := r.approvals + [Decision(actor, Denied, now, false, 0)],
                                   status := Denied)];
      Audit(Entry(id, DenialGiven, actor, false));
      return Done;
    }

    method BreakGlassRequest(id: string, actor: string, strippedLength: nat, now: int) returns (outcome: Outcome)
      modifies this
      ensures (Value(), outcome) == Override(old(Value()), id, actor, strippedLength, now)
      ensures OverrideEffect(old(Value()), id, actor, strippedLength, now, Value(), outcome)
    {
      OverrideExact(Value(), id, actor, strippedLength, now);
      hide OverrideEffect;
      if id !in requests {
        return NotFound;
      }
      var r := requests[id];
      if actor == r.requester {
        return SelfApproval;
      }
      if strippedLength < 20 {
        return WeakJustification;
      }
      requests := requests[id := r.(approvals := r.approvals + [Decision(actor, Approved, now, true, strippedLength)],
                                   status := BreakGlass)];
      Audit(Entry(id, GlassBroken, actor, true));
      return Done;
    }

    method ExpireStale(now: int) returns (expired: seq<string>)
      modifies this
      ensures Value() == ExpireAll(old(Value()), old(order), now)
      ensures forall id :: id in expired <==>
                && id in old(order) && id in old(requests)
                && old(requests)[id].status == Pending && old(requests)[id].expiresAt < now
    {
      expired := [];
      for k := 0 to |order|
        invariant order == old(order) && k <= |order|
        invariant Value() == ExpireAll(old(Value()), order[..k], now)
        invariant forall id :: id in expired <==>
                    id in order[..k] && id in old(requests) && Stale(old(requests)[id], now)
      {
        var id := order[k];
        ExpireAllAt(old(Value()), order[..k], now, id);
        assert order[..k + 1][..k] == order[..k];
        assert forall x :: x in order[..k + 1] <==> x in order[..k] || x == id;
        if id in requests && Stale(requests[id], now) {
          requests := requests[id := requests[id].(status := Expired)];
          Audit(Entry(id, TimedOut, "system", false));
          expired := expired + [id];
        }
      }
      assert order[..|order|] == order;
    }
  }
}
