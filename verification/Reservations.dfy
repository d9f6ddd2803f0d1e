/** Shared resource budget: reserve, commit and release, first as objects and then
    as a concurrent protocol stepped at lock granularity. */
module Reservations {
  import opened Common

  datatype Estimate = Estimate(cost: real, count: int)

  datatype Measurement = Measurement(cost: real, count: int, seconds: real)

  /** The counters guarded by the lock. */
  datatype Ledger = Ledger(
    spent: real, replays: int, elapsed: real, reservedUsd: real, reservedCount: int)

  // ----- the three critical sections

  function Admit(l: Ledger, budget: real, e: Estimate): Option<Ledger> {
    if l.spent + l.reservedUsd + e.cost > budget then None
    else Some(l.(reservedUsd := l.reservedUsd + e.cost, reservedCount := l.reservedCount + e.count))
  }

  function Free(l: Ledger, e: Estimate): Ledger {
    l.(reservedUsd := l.reservedUsd - e.cost, reservedCount := l.reservedCount - e.count)
  }

  function Charge(l: Ledger, e: Estimate, m: Measurement): Ledger {
    var freed := Free(l, e);
    freed.(spent := l.spent + m.cost, replays := l.replays + m.count, elapsed := l.elapsed + m.seconds)
  }

  // ----- the objects

  class ResourceContext {
    const budget: real
    var spent: real
    var replays: int
    var elapsed: real
    var reservedUsd: real
    var reservedCount: int

    ghost function Value(): Ledger
      reads this
    {
      Ledger(spent, replays, elapsed, reservedUsd, reservedCount)
    }

    constructor (budget: real)
      ensures this.budget == budget && Value() == Ledger(0.0, 0, 0.0, 0.0, 0)
    {
      this.budget := budget;
      spent, replays, elapsed, reservedUsd, reservedCount := 0.0, 0, 0.0, 0.0, 0;
    }

    method Reserve(e: Estimate) returns (r: ResourceReservation?)
      modifies this
      ensures r != null <==> old(spent) + old(reservedUsd) + e.cost <= budget
      ensures r == null ==> Value() == old(Value())
      ensures r != null ==>
                && fresh(r) && r.context == this && r.estimate == e && !r.committed && !r.released
                && Some(Value()) == Admit(old(Value()), budget, e)
                && reservedUsd == old(reservedUsd) + e.cost && reservedCount == old(reservedCount) + e.count
                && spent == old(spent) && replays == old(replays) && elapsed == old(elapsed)
    {
      if spent + reservedUsd + e.cost > budget {
        return null;
      }
      reservedUsd := reservedUsd + e.cost;
      reservedCount := reservedCount + e.count;
      r := new ResourceReservation(e, this);
    }

    method Reconcile(e: Estimate, m: Measurement)
      modifies this
      ensures Value() == Charge(old(Value()), e, m)
    {
      reservedUsd := reservedUsd - e.cost;
      reservedCount := reservedCount - e.count;
      spent := spent + m.cost;
      replays := replays + m.count;
      elapsed := elapsed + m.seconds;
    }

    method Release(e: Estimate)
      modifies this
      ensures Value() == Free(old(Value()), e)
    {
      reservedUsd := reservedUsd - e.cost;
      reservedCount := reservedCount - e.count;
    }
  }

  class ResourceReservation {
    const estimate: Estimate
    const context: ResourceContext?
    var committed: bool
    var released: bool

    constructor (estimate: Estimate, context: ResourceContext?)
      ensures this.estimate == estimate && this.context == context && !committed && !released
    {
      this.estimate, this.context := estimate, context;
      committed, released := false, false;
    }

    predicate Settleable()
      reads this
    {
      !committed && !released && context != null
    }

    /** Only the first of any commits and releases has an effect. */
    method Commit(m: Measurement)
      modifies this, context
      ensures !old(Settleable()) ==>
                && committed == old(committed) && released == old(released)
                && (context != null ==> context.Value() == old(context.Value()))
      ensures old(Settleable()) ==>
                && context.Value() == Charge(old(context.Value()), estimate, m) && committed && !released
                && context.reservedUsd == old(context.reservedUsd) - estimate.cost
                && context.reservedCount == old(context.reservedCount) - estimate.count
                && context.spent == old(context.spent) + m.cost && context.replays == old(context.replays) + m.count
                && context.elapsed == old(context.elapsed) + m.seconds
    {
      if Settleable() {
        context.Reconcile(estimate, m);
        committed := true;
      }
    }

    method Release()
      modifies this, context
      ensures !old(Settleable()) ==>
                && committed == old(committed) && released == old(released)
                && (context != null ==> context.Value() == old(context.Value()))
      ensures old(Settleable()) ==>
                && context.Value() == Free(old(context.Value()), estimate) && released && !committed
                && context.reservedUsd == old(context.reservedUsd) - estimate.cost
                && context.reservedCount == old(context.reservedCount) - estimate.count
                && context.spent == old(context.spent) && context.replays == old(context.replays)
                && context.elapsed == old(context.elapsed)
    {
      if Settleable() {
        context.Release(estimate);
        released := true;
      }
    }
  }

  // ----- the concurrent protocol

  datatype Settlement = ByCommit(m: Measurement) | ByRelease

  /** A reservation handle. `settlements` records every critical section that has
      settled it, so that settling twice is visible. */
  datatype Handle = Handle(estimate: Estimate, committed: bool, released: bool, settlements: seq<Settlement>)

  /** A thread inside commit or release: past the flag check, then past the lock. */
  datatype Call = Call(handle: nat, kind: Settlement, applied: bool)

  datatype State = State(budget: real, ledger: Ledger, handles: seq<Handle>, calls: map<nat, Call>)

  datatype Action =
    | TryReserve(thread: nat, e: Estimate)
    | Check(thread: nat, handle: nat, kind: Settlement)
    | Lock(thread: nat)
    | SetFlag(thread: nat)

  /** Which threads settle which handle: the caller's discipline, as the class itself
      turns no thread away. */
  type Users = (nat, nat) -> bool

  ghost predicate SoleUsers(users: Users) {
    forall h, t, t' :: users(h, t) && users(h, t') ==> t == t'
  }

  function Init(budget: real): State {
    State(budget, Ledger(0.0, 0, 0.0, 0.0, 0), [], map[])
  }

  function Settle(l: Ledger, e: Estimate, kind: Settlement): Ledger {
    match kind
    case ByCommit(m) => Charge(l, e, m)
    case ByRelease => Free(l, e)
  }

  /** One step of one thread; `handle` is settled only by its users. */
  function Next(s: State, a: Action, users: Users): State {
    match a
    case TryReserve(t, e) =>
      if t in s.calls then s
      else (
        match Admit(s.ledger, s.budget, e)
        case Some(l) => s.(ledger := l, handles := s.handles + [Handle(e, false, false, [])])
        case None => s)
    case Check(t, h, kind) =>
      if t in s.calls || h >= |s.handles| || !users(h, t) then s
      else if s.handles[h].committed || s.handles[h].released then s
      else s.(calls := s.calls[t := Call(h, kind, false)])
    case Lock(t) =>
      if t !in s.calls || s.calls[t].applied || s.calls[t].handle >= |s.handles| then s
      else
        var c := s.calls[t];
        var h := s.handles[c.handle];
        s.(ledger := Settle(s.ledger, h.estimate, c.kind),
           handles := s.handles[c.handle := h.(settlements := h.settlements + [c.kind])],
           calls := s.calls[t := c.(applied := true)])
    case SetFlag(t) =>
      if t !in s.calls || !s.calls[t].applied || s.calls[t].handle >= |s.handles| then s
      else
        var c := s.calls[t];
        var h := s.handles[c.handle];
        s.(handles := s.handles[c.handle := if c.kind.ByCommit? then h.(committed := true) else h.(released := true)],
           calls := s.calls - {t})
  }

  function Run(s: State, actions: seq<Action>, users: Users): State {
    if actions == [] then s
    else Next(Run(s, actions[..|actions| - 1], users), actions[|actions| - 1], users)
  }

  // ----- what the counters must equal

  function Owed(h: Handle): Ledger {
    if h.settlements == [] then Ledger(0.0, 0, 0.0, h.estimate.cost, h.estimate.count)
    else match h.settlements[0]
      case ByCommit(m) => Ledger(m.cost, m.count, m.seconds, 0.0, 0)
      case ByRelease => Ledger(0.0, 0, 0.0, 0.0, 0)
  }

  function Plus(a: Ledger, b: Ledger): Ledger {
    Ledger(a.spent + b.spent, a.replays + b.replays, a.elapsed + b.elapsed,
           a.reservedUsd + b.reservedUsd, a.reservedCount + b.reservedCount)
  }

  /** Sums over all handles: estimates of the unsettled ones and measurements of the
      committed ones. */
  function Tally(handles: seq<Handle>): Ledger {
    if handles == [] then Ledger(0.0, 0, 0.0, 0.0, 0)
    else Plus(Tally(handles[..|handles| - 1]), Owed(handles[|handles| - 1]))
  }

  lemma {:induction false} TallyUpdate(hs: seq<Handle>, i: nat, h: Handle)
    requires i < |hs|
    ensures Plus(Tally(hs[i := h]), Owed(hs[i])) == Plus(Tally(hs), Owed(h))
  {
    var n := |hs| - 1;
    var hs' := hs[i := h];
    if i < n {
      TallyUpdate(hs[..n], i, h);
      assert hs'[..n] == hs[..n][i := h] && hs'[n] == hs[n];
      hide Tally, Owed;
      PlusSwap(Tally(hs[..n][i := h]), Owed(hs[n]), Owed(hs[i]));
      PlusSwap(Tally(hs[..n]), Owed(hs[n]), Owed(h));
    } else {
      assert hs'[..n] == hs[..n];
      hide Tally, Owed;
      PlusSwap(Tally(hs[..n]), Owed(h), Owed(hs[n]));
    }
  }

  lemma PlusSwap(a: Ledger, b: Ledger, c: Ledger)
    ensures Plus(Plus(a, b), c) == Plus(Plus(a, c), b)
  {
  }

  predicate Pending(s: State, t: nat, i: nat) {
    t in s.calls && s.calls[t].handle == i
  }

  /** The relation between a handle's flags, its settlements and the pending calls on it. */
  ghost predicate HandleOk(s: State, i: nat)
    requires i < |s.handles|
  {
    var h := s.handles[i];
    && |h.settlements| <= 1
    && (h.committed ==> |h.settlements| == 1 && h.settlements[0].ByCommit? && !h.released)
    && (h.released ==> h.settlements == [ByRelease] && !h.committed)
    && (h.settlements != [] && !h.committed && !h.released ==>
          exists t :: Pending(s, t, i) && s.calls[t].applied && h.settlements == [s.calls[t].kind])
    && (forall t :: Pending(s, t, i) ==>
          !h.committed && !h.released && (s.calls[t].applied <==> h.settlements != []))
  }

  ghost predicate CallsOk(s: State, users: Users) {
    forall t :: t in s.calls ==> s.calls[t].handle < |s.handles| && users(s.calls[t].handle, t)
  }

  /** Nonnegative estimates, and no measurement above its estimate. */
  ghost predicate Honest(handles: seq<Handle>) {
    forall i :: 0 <= i < |handles| ==>
      && handles[i].estimate.cost >= 0.0
      && forall k :: 0 <= k < |handles[i].settlements| && handles[i].settlements[k].ByCommit? ==>
           handles[i].settlements[k].m.cost <= handles[i].estimate.cost
  }

  ghost predicate Inv(s: State, users: Users) {
    && CallsOk(s, users)
    && (forall i :: 0 <= i < |s.handles| ==> HandleOk(s, i))
    && s.ledger == Tally(s.handles)
    && (s.budget >= 0.0 && Honest(s.handles) ==> s.ledger.spent + s.ledger.reservedUsd <= s.budget)
  }

  /** A step that leaves a handle and the calls on it alone keeps it in order. */
  lemma HandleKept(s: State, s': State, i: nat)
    requires i < |s.handles| && i < |s'.handles| && HandleOk(s, i) && s'.handles[i] == s.handles[i]
    requires forall t :: Pending(s, t, i) || Pending(s', t, i) ==>
               t in s.calls && t in s'.calls && s'.calls[t] == s.calls[t]
    ensures HandleOk(s', i)
  {
    var h := s.handles[i];
    if h.settlements != [] && !h.committed && !h.released {
      var t :| Pending(s, t, i) && s.calls[t].applied && h.settlements == [s.calls[t].kind];
      assert Pending(s', t, i);
    }
    forall t | Pending(s', t, i)
      ensures !h.committed && !h.released && (s'.calls[t].applied <==> h.settlements != [])
    {
      assert Pending(s, t, i);
    }
  }

  lemma ReserveKeeps(s: State, t: nat, e: Estimate, users: Users)
    requires SoleUsers(users) && Inv(s, users)
    ensures Inv(Next(s, TryReserve(t, e), users), users)
  {
    var s' := Next(s, TryReserve(t, e), users);
    if s' != s {
      assert s'.handles[..|s.handles|] == s.handles;
      forall i | 0 <= i < |s'.handles|
        ensures HandleOk(s', i)
      {
        if i < |s.handles| {
          HandleKept(s, s', i);
        }
      }
      if s.budget >= 0.0 && Honest(s'.handles) {
        assert forall i :: 0 <= i < |s.handles| ==> s'.handles[i] == s.handles[i];
      }
    }
  }

  lemma CheckKeeps(s: State, t: nat, h: nat, kind: Settlement, users: Users)
    requires SoleUsers(users) && Inv(s, users)
    ensures Inv(Next(s, Check(t, h, kind), users), users)
  {
    var s' := Next(s, Check(t, h, kind), users);
    if s' != s {
      forall i | 0 <= i < |s'.handles|
        ensures HandleOk(s', i)
      {
        if i != h {
          HandleKept(s, s', i);
        } else {
          assert HandleOk(s, h);
          assert forall t' :: Pending(s', t', h) ==> users(h, t');
          assert forall t' :: !Pending(s, t', h);
        }
      }
    }
  }

  lemma LockLedger(s: State, t: nat, users: Users)
    requires SoleUsers(users) && Inv(s, users) && Next(s, Lock(t), users) != s
    ensures var s' := Next(s, Lock(t), users);
            && s'.ledger == Tally(s'.handles)
            && (s'.budget >= 0.0 && Honest(s'.handles) ==> s'.ledger.spent + s'.ledger.reservedUsd <= s'.budget)
  {
    var s' := Next(s, Lock(t), users);
    var c := s.calls[t];
    assert HandleOk(s, c.handle);
    assert s.handles[c.handle].settlements == [] && [] + [c.kind] == [c.kind];
    assert s'.handles == s.handles[c.handle := s.handles[c.handle].(settlements := [c.kind])];
    TallyUpdate(s.handles, c.handle, s'.handles[c.handle]);
    if s.budget >= 0.0 && Honest(s'.handles) {
      LockHonest(s.handles, c.handle, c.kind);
    }
  }

  lemma LockKeeps(s: State, t: nat, users: Users)
    requires SoleUsers(users) && Inv(s, users)
    ensures Inv(Next(s, Lock(t), users), users)
  {
    var s' := Next(s, Lock(t), users);
    if s' != s {
      LockLedger(s, t, users);
      hide Honest, Tally;
      var h := s.calls[t].handle;
      assert HandleOk(s, h) && Pending(s, t, h);
      forall i | 0 <= i < |s'.handles|
        ensures HandleOk(s', i)
      {
        if i != h {
          HandleKept(s, s', i);
        } else {
          assert Pending(s', t, h);
          assert forall t' :: Pending(s', t', h) ==> users(h, t');
        }
      }
    }
  }

  lemma LockHonest(hs: seq<Handle>, i: nat, kind: Settlement)
    requires i < |hs| && hs[i].settlements == []
    requires Honest(hs[i := hs[i].(settlements := [kind])])
    ensures Honest(hs)
    ensures hs[i].estimate.cost >= 0.0 && (kind.ByCommit? ==> kind.m.cost <= hs[i].estimate.cost)
  {
    var hs' := hs[i := hs[i].(settlements := [kind])];
    assert hs'[i].settlements[0] == kind;
    forall j | 0 <= j < |hs|
      ensures hs[j].estimate.cost >= 0.0
      ensures j != i ==> hs'[j] == hs[j]
    {
      assert hs'[j].estimate == hs[j].estimate;
    }
  }

  /** Raising a flag changes neither estimates nor settlements. */
  lemma SetFlagLedger(s: State, t: nat, users: Users)
    requires SoleUsers(users) && Inv(s, users) && Next(s, SetFlag(t), users) != s
    ensures var s' := Next(s, SetFlag(t), users);
            && s'.ledger == Tally(s'.handles)
            && (Honest(s'.handles) ==> Honest(s.handles))
  {
    var s' := Next(s, SetFlag(t), users);
    var i := s.calls[t].handle;
    TallyUpdate(s.handles, i, s'.handles[i]);
    assert forall j :: 0 <= j < |s.handles| ==>
      s'.handles[j].settlements == s.handles[j].settlements && s'.handles[j].estimate == s.handles[j].estimate;
  }

  lemma SetFlagKeeps(s: State, t: nat, users: Users)
    requires SoleUsers(users) && Inv(s, users)
    ensures Inv(Next(s, SetFlag(t), users), users)
  {
    var s' := Next(s, SetFlag(t), users);
    if s' != s {
      SetFlagLedger(s, t, users);
      hide Honest, Tally;
      var h := s.calls[t].handle;
      assert HandleOk(s, h) && Pending(s, t, h);
      forall i | 0 <= i < |s'.handles|
        ensures HandleOk(s', i)
      {
        if i != h {
          HandleKept(s, s', i);
        } else {
          assert forall t' :: Pending(s', t', h) ==> users(h, t');
          assert forall t' :: !Pending(s', t', h);
        }
      }
    }
  }

  /** Every reachable state keeps the invariant, whatever the threads and their
      interleaving, as long as no handle has two users. */
  lemma {:induction false} RunKeeps(budget: real, actions: seq<Action>, users: Users)
    requires SoleUsers(users)
    ensures Inv(Run(Init(budget), actions, users), users)
    ensures Run(Init(budget), actions, users).budget == budget
  {
    if actions != [] {
      RunKeeps(budget, actions[..|actions| - 1], users);
      var s := Run(Init(budget), actions[..|actions| - 1], users);
      match actions[|actions| - 1]
      case TryReserve(t, e) => ReserveKeeps(s, t, e, users);
      case Check(t, h, kind) => CheckKeeps(s, t, h, kind, users);
      case Lock(t) => LockKeeps(s, t, users);
      case SetFlag(t) => SetFlagKeeps(s, t, users);
    }
  }

  /** The counters are always the sums over the handles, and no handle is ever
      settled twice, whatever mix of commits and releases is attempted. */
  lemma Conservation(budget: real, actions: seq<Action>, users: Users)
    requires SoleUsers(users)
    ensures var s := Run(Init(budget), actions, users);
            && s.ledger == Tally(s.handles)
            && forall i :: 0 <= i < |s.handles| ==> |s.handles[i].settlements| <= 1
  {
    RunKeeps(budget, actions, users);
    var s := Run(Init(budget), actions, users);
    forall i | 0 <= i < |s.handles|
      ensures |s.handles[i].settlements| <= 1
    {
      assert HandleOk(s, i);
    }
  }

  /** Spent plus reserved never exceeds the budget under honest figures. */
  lemma NeverOverBudget(budget: real, actions: seq<Action>, users: Users)
    requires SoleUsers(users) && budget >= 0.0
    requires Honest(Run(Init(budget), actions, users).handles)
    ensures var s := Run(Init(budget), actions, users); s.ledger.spent + s.ledger.reservedUsd <= budget
  {
    RunKeeps(budget, actions, users);
  }

  /** A thread inside a settlement reserves nothing. An idle one is granted a handle if and only if spent plus
      reserved plus the estimate fits the budget, and a refusal changes nothing. */
  lemma GrantedIff(s: State, t: nat, e: Estimate, users: Users)
    ensures var s' := Next(s, TryReserve(t, e), users);
            if t in s.calls then s' == s
            else if s.ledger.spent + s.ledger.reservedUsd + e.cost <= s.budget
            then && s'.handles == s.handles + [Handle(e, false, false, [])] && s'.calls == s.calls
                 && s'.ledger == Ledger(s.ledger.spent, s.ledger.replays, s.ledger.elapsed,
                                        s.ledger.reservedUsd + e.cost, s.ledger.reservedCount + e.count)
            else s' == s
  {
  }

  /** A sole user that settles an open handle without being disturbed: the three steps
      amount to one settlement, of the kind it asked for. */
  lemma SettleAlone(s: State, t: nat, h: nat, kind: Settlement, users: Users)
    requires t !in s.calls && h < |s.handles| && users(h, t) && !s.handles[h].committed && !s.handles[h].released
    ensures var s' := Next(Next(Next(s, Check(t, h, kind), users), Lock(t), users), SetFlag(t), users);
            && s'.calls == s.calls && |s'.handles| == |s.handles|
            && (forall i :: 0 <= i < |s.handles| && i != h ==> s'.handles[i] == s.handles[i])
            && s'.handles[h].settlements == s.handles[h].settlements + [kind]
            && (s'.handles[h].committed <==> kind.ByCommit?) && (s'.handles[h].released <==> kind.ByRelease?)
            && s'.ledger.reservedUsd == s.ledger.reservedUsd - s.handles[h].estimate.cost
            && s'.ledger.spent == s.ledger.spent + (if kind.ByCommit? then kind.m.cost else 0.0)
  {
    var s1 := Next(s, Check(t, h, kind), users);
    var s2 := Next(s1, Lock(t), users);
    assert s1.calls[t] == Call(h, kind, false) && s2.calls[t] == Call(h, kind, true);
    assert s2.calls - {t} == s.calls;
  }

  // ----- what two users of one handle can do

  lemma RunSnoc(s: State, actions: seq<Action>, a: Action, users: Users)
    ensures Run(s, actions + [a], users) == Next(Run(s, actions, users), a, users)
  {
    assert (actions + [a])[..|actions|] == actions;
  }

  function Reserves(n: nat): (r: seq<Action>)
    ensures |r| == n
  {
    seq(n, i => TryReserve(0, Estimate(0.0, 1)))
  }

  function Unsettled(n: nat): (r: seq<Handle>)
    ensures |r| == n
  {
    seq(n, i => Handle(Estimate(0.0, 1), false, false, []))
  }

  lemma {:induction false} UnsettledTally(n: nat)
    ensures Tally(Unsettled(n)) == Ledger(0.0, 0, 0.0, 0.0, n)
  {
    if n > 0 {
      var m := n - 1;
      UnsettledTally(m);
      assert Unsettled(n)[..m] == Unsettled(m);
    }
  }

  lemma ReserveStep(n: nat, users: Users)
    ensures Next(State(0.0, Ledger(0.0, 0, 0.0, 0.0, n), Unsettled(n), map[]), TryReserve(0, Estimate(0.0, 1)), users)
         == State(0.0, Ledger(0.0, 0, 0.0, 0.0, n + 1), Unsettled(n + 1), map[])
  {
    assert Unsettled(n + 1) == Unsettled(n) + [Handle(Estimate(0.0, 1), false, false, [])];
  }

  lemma {:induction false} ReservesRun(n: nat, users: Users)
    ensures Run(Init(0.0), Reserves(n), users) == State(0.0, Ledger(0.0, 0, 0.0, 0.0, n), Unsettled(n), map[])
    ensures Tally(Unsettled(n)) == Ledger(0.0, 0, 0.0, 0.0, n)
  {
    UnsettledTally(n);
    hide Tally, Next;
    if n > 0 {
      var m := n - 1;
      ReservesRun(m, users);
      assert Reserves(n) == Reserves(m) + [TryReserve(0, Estimate(0.0, 1))];
      hide Run;
      RunSnoc(Init(0.0), Reserves(m), TryReserve(0, Estimate(0.0, 1)), users);
      ReserveStep(m, users);
    }
  }

  /** Both threads test the flags before either takes the lock. */
  function Race(h: nat, t: nat, t': nat): seq<Action> {
    Reserves(h + 1) + [Check(t, h, ByRelease)] + [Check(t', h, ByRelease)] + [Lock(t)] + [Lock(t')]
  }

  /** The race from any state in which the handle is fresh and the threads are idle. */
  lemma RaceSteps(s: State, users: Users, h: nat, t: nat, t': nat)
    requires users(h, t) && users(h, t') && t != t' && h < |s.handles| && t !in s.calls && t' !in s.calls
    requires s.handles[h] == Handle(Estimate(0.0, 1), false, false, [])
    ensures var s1 := Next(s, Check(t, h, ByRelease), users);
            var s2 := Next(s1, Check(t', h, ByRelease), users);
            var s4 := Next(Next(s2, Lock(t), users), Lock(t'), users);
            && s4.handles == s.handles[h := Handle(Estimate(0.0, 1), false, false, [ByRelease, ByRelease])]
            && s4.ledger.reservedCount == s.ledger.reservedCount - 2
  {
    var s1 := Next(s, Check(t, h, ByRelease), users);
    var s2 := Next(s1, Check(t', h, ByRelease), users);
    assert s2.calls[t] == Call(h, ByRelease, false) && s2.calls[t'] == Call(h, ByRelease, false);
    var s3 := Next(s2, Lock(t), users);
    assert s3.calls[t'] == s2.calls[t'] && s3.handles[h].settlements == [] + [ByRelease];
    var s4 := Next(s3, Lock(t'), users);
    assert [] + [ByRelease] + [ByRelease] == [ByRelease, ByRelease];
    assert s4.handles[h].settlements == [ByRelease, ByRelease];
  }

  /** Two users of one handle can free its estimate twice. */
  lemma RaceSettlesTwice(users: Users, h: nat, t: nat, t': nat)
    requires users(h, t) && users(h, t') && t != t'
    ensures var s := Run(Init(0.0), Race(h, t, t'), users);
            && |s.handles| == h + 1 && s.handles[h].settlements == [ByRelease, ByRelease]
            && s.ledger.reservedCount == h - 1 && Tally(s.handles).reservedCount == h
  {
    var a0 := Reserves(h + 1);
    var a1 := a0 + [Check(t, h, ByRelease)];
    var a2 := a1 + [Check(t', h, ByRelease)];
    ReservesRun(h + 1, users);
    RunSnoc(Init(0.0), a0, Check(t, h, ByRelease), users);
    RunSnoc(Init(0.0), a1, Check(t', h, ByRelease), users);
    RunSnoc(Init(0.0), a2, Lock(t), users);
    RunSnoc(Init(0.0), a2 + [Lock(t)], Lock(t'), users);
    RaceSteps(Run(Init(0.0), a0, users), users, h, t, t');
    hide Run, Tally, Next;
    TallyUpdate(Unsettled(h + 1), h, Handle(Estimate(0.0, 1), false, false, [ByRelease, ByRelease]));
  }

  ghost predicate SettlesOnce(users: Users) {
    forall budget, actions ::
      var s := Run(Init(budget), actions, users);
      forall i :: 0 <= i < |s.handles| ==> |s.handles[i].settlements| <= 1
  }

  ghost predicate CountersExact(users: Users) {
    forall budget, actions ::
      var s := Run(Init(budget), actions, users);
      s.ledger == Tally(s.handles)
  }

  /** Every run settles every handle at most once, and every run keeps the counters
      equal to the sums over the handles, if and only if no handle has two users. */
  lemma AtMostOnceIff(users: Users)
    ensures SettlesOnce(users) <==> SoleUsers(users)
    ensures CountersExact(users) <==> SoleUsers(users)
  {
    if SoleUsers(users) {
      forall budget, actions
        ensures var s := Run(Init(budget), actions, users);
                && s.ledger == Tally(s.handles)
                && forall i :: 0 <= i < |s.handles| ==> |s.handles[i].settlements| <= 1
      {
        Conservation(budget, actions, users);
      }
    } else {
      var h, t, t' :| users(h, t) && users(h, t') && t != t';
      RaceSettlesTwice(users, h, t, t');
    }
  }
}
