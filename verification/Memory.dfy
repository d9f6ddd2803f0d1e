/** The provenance memory store: quarantine, capability-checked access and the
    hash-chained audit log. */
module Memory {
  import opened Common

  datatype Capability = Capability(id: string, action: string, resource: string)

  datatype Context = Context(requester: string, tenant: string, expiresAt: int, capabilities: seq<Capability>)

  /** Signature, binding, expiry and revocation checks, as an arbitrary predicate. */
  type Verifier = (Capability, Context, string, string) -> bool

  datatype AnyAct = Write | Read | ForensicRead | Quarantine | Unquarantine | OtherAct(text: string)

  /** The text of an action column: one of the store's five, or any other. */
  type Act = a: AnyAct |
      a.OtherAct? ==> a.text !in {"WRITE", "READ", "FORENSIC_READ", "QUARANTINE", "UNQUARANTINE"}
    witness Write

  datatype AnyResult =
    Allowed | DeniedQuarantine | DeniedMissingCapability | Success | OtherResult(text: string)

  /** The text of a result column: one of the store's four, or any other. */
  type Result = r: AnyResult |
      r.OtherResult? ==> r.text !in {"ALLOWED", "DENIED_QUARANTINE", "DENIED_MISSING_CAPABILITY", "SUCCESS"}
    witness Allowed

  /** The columns of an audit row; capability is nullable, the timestamp is text. */
  datatype AuditEvent = AuditEvent(
    eventId: string, requester: string, tenant: string, partition: string, act: Act, capabilityId: Option<string>,
    timestamp: string, policyVersion: string, result: Result)

  datatype Row = Row(event: AuditEvent, eventHash: string, previousHash: string)

  /** Items are JSON documents. `quarantine` maps a partition to whether its entry is ACTIVE. */
  datatype Store = Store(partitions: map<string, seq<string>>, quarantine: map<string, bool>, audit: seq<Row>)

  /** The digest function, and how datetimes, which are numbered, are written and read. */
  datatype Codec = Codec(hash: string -> string, show: nat -> string, parse: string -> Option<nat>)

  /** What is written is read back. */
  ghost predicate Readable(codec: Codec) {
    forall t: nat :: codec.parse(codec.show(t)) == Some(t)
  }

  /** The fresh identifier and time of an audit event. */
  datatype Stamp = Stamp(eventId: string, at: nat)

  datatype Outcome = Accepted | Contents(items: seq<string>) | AuthorizationError | QuarantineViolation

  function ActName(a: Act): string {
    match a
    case Write => "WRITE"
    case Read => "READ"
    case ForensicRead => "FORENSIC_READ"
    case Quarantine => "QUARANTINE"
    case Unquarantine => "UNQUARANTINE"
    case OtherAct(text) => text
  }

  function ResultName(r: Result): string {
    match r
    case Allowed => "ALLOWED"
    case DeniedQuarantine => "DENIED_QUARANTINE"
    case DeniedMissingCapability => "DENIED_MISSING_CAPABILITY"
    case Success => "SUCCESS"
    case OtherResult(text) => text
  }

  /** Fields separated by bars. */
  function Joined(fields: seq<string>): string
    requires fields != []
  {
    if |fields| == 1 then fields[0] else fields[0] + "|" + Joined(fields[1..])
  }

  function Fields(e: AuditEvent, previousHash: string): seq<string> {
    ["DGX-AUDIT-EVENT-V1", previousHash, e.eventId, e.requester, e.tenant, e.partition, ActName(e.act),
     CapabilityText(e.capabilityId), e.policyVersion, ResultName(e.result), e.timestamp]
  }

  /** A missing capability is rendered like the text None. */
  function CapabilityText(c: Option<string>): string {
    if c.Some? then c.value else "None"
  }

  /** The text that is hashed for an audit event. */
  function Message(e: AuditEvent, previousHash: string): string {
    Joined(Fields(e, previousHash))
  }

  /** The event as the verifier rebuilds it: a readable timestamp is rewritten. */
  function Normal(codec: Codec, e: AuditEvent): AuditEvent {
    match codec.parse(e.timestamp)
    case Some(t) => e.(timestamp := codec.show(t))
    case None => e
  }

  function HeadAt(audit: seq<Row>, i: int): string
    requires 0 <= i <= |audit|
  {
    if i == 0 then "GENESIS-AUDIT" else audit[i - 1].eventHash
  }

  /** Some presented capability names the action and the resource and verifies. */
  predicate HasCapability(verify: Verifier, ctx: Context, action: string, resource: string) {
    exists i :: && 0 <= i < |ctx.capabilities|
                && ctx.capabilities[i].action == action
                && (ctx.capabilities[i].resource == "*" || ctx.capabilities[i].resource == resource)
                && verify(ctx.capabilities[i], ctx, action, resource)
  }

  method CheckCapability(verify: Verifier, ctx: Context, action: string, resource: string) returns (ok: bool)
    ensures ok <==> HasCapability(verify, ctx, action, resource)
    ensures ok <==> exists cap ::
              && cap in ctx.capabilities && cap.action == action && cap.resource in {"*", resource}
              && verify(cap, ctx, action, resource)
  {
    for i := 0 to |ctx.capabilities|
      invariant forall k :: 0 <= k < i ==>
                  !(ctx.capabilities[k].action == action
                    && (ctx.capabilities[k].resource == "*" || ctx.capabilities[k].resource == resource)
                    && verify(ctx.capabilities[k], ctx, action, resource))
    {
      var cap := ctx.capabilities[i];
      if cap.action == action && (cap.resource == "*" || cap.resource == resource) {
        if verify(cap, ctx, action, resource) {
          return true;
        }
      }
    }
    return false;
  }

  // ----- the operations as state transformers

  predicate Quarantined(s: Store, p: string) {
    p in s.quarantine && s.quarantine[p]
  }

  function ContentsOf(s: Store, p: string): seq<string> {
    if p in s.partitions then s.partitions[p] else []
  }

  /** The guard on data access: the partition's name starts with the tenant's prefix. */
  predicate OpenTo(tenant: string, p: string) {
    tenant + "_" <= p
  }

  function MakeEvent(codec: Codec, ctx: Context, p: string, act: Act, result: Result, stamp: Stamp): AuditEvent {
    AuditEvent(stamp.eventId, ctx.requester, ctx.tenant, p, act, None, codec.show(stamp.at), "v2", result)
  }

  function MakeRow(codec: Codec, audit: seq<Row>, e: AuditEvent): Row {
    var prev := HeadAt(audit, |audit|);
    Row(e, codec.hash(Message(e, prev)), prev)
  }

  function Log(codec: Codec, s: Store, e: AuditEvent): Store {
    s.(audit := s.audit + [MakeRow(codec, s.audit, e)])
  }

  function WriteStep(codec: Codec, s: Store, p: string, item: string, ctx: Context, now: int, stamp: Stamp)
      : (Store, Outcome)
  {
    if now > ctx.expiresAt || !OpenTo(ctx.tenant, p) then (s, AuthorizationError)
    else if Quarantined(s, p) then
      (Log(codec, s, MakeEvent(codec, ctx, p, Write, DeniedQuarantine, stamp)), QuarantineViolation)
    else
      (Log(codec, s.(partitions := s.partitions[p := ContentsOf(s, p) + [item]]),
           MakeEvent(codec, ctx, p, Write, Allowed, stamp)), Accepted)
  }

  function ReadStep(codec: Codec, s: Store, p: string, ctx: Context, verify: Verifier, now: int, stamp: Stamp)
      : (Store, Outcome)
  {
    if now > ctx.expiresAt || !OpenTo(ctx.tenant, p) then (s, AuthorizationError)
    else if !Quarantined(s, p) then
      (Log(codec, s, MakeEvent(codec, ctx, p, Read, Allowed, stamp)), Contents(ContentsOf(s, p)))
    else if HasCapability(verify, ctx, "FORENSIC_READ", p) then
      (Log(codec, s, MakeEvent(codec, ctx, p, ForensicRead, Allowed, stamp)), Contents(ContentsOf(s, p)))
    else
      (Log(codec, s, MakeEvent(codec, ctx, p, Read, DeniedMissingCapability, stamp)), QuarantineViolation)
  }

  function QuarantineStep(codec: Codec, s: Store, p: string, ctx: Context, verify: Verifier, now: int,
                          stamp: Stamp)
      : (Store, Outcome)
  {
    if now > ctx.expiresAt || !HasCapability(verify, ctx, "QUARANTINE", p) then (s, AuthorizationError)
    else
      (Log(codec, s.(quarantine := s.quarantine[p := true]),
           MakeEvent(codec, ctx, p, Quarantine, Success, stamp)), Accepted)
  }

  /** Releasing updates an existing entry only, but is logged in any case. */
  function ReleaseStep(codec: Codec, s: Store, p: string, ctx: Context, verify: Verifier, now: int,
                       stamp: Stamp)
      : (Store, Outcome)
  {
    if now > ctx.expiresAt || !HasCapability(verify, ctx, "UNQUARANTINE", p) then (s, AuthorizationError)
    else
      (Log(codec, if p in s.quarantine then s.(quarantine := s.quarantine[p := false]) else s,
           MakeEvent(codec, ctx, p, Unquarantine, Success, stamp)), Accepted)
  }

  datatype Op =
    | DoWrite(p: string, item: string, ctx: Context, now: int, stamp: Stamp)
    | DoRead(p: string, ctx: Context, verify: Verifier, now: int, stamp: Stamp)
    | DoQuarantine(p: string, ctx: Context, verify: Verifier, now: int, stamp: Stamp)
    | DoRelease(p: string, ctx: Context, verify: Verifier, now: int, stamp: Stamp)

  function Apply(codec: Codec, s: Store, op: Op): (Store, Outcome) {
    match op
    case DoWrite(p, item, ctx, now, stamp) => WriteStep(codec, s, p, item, ctx, now, stamp)
    case DoRead(p, ctx, verify, now, stamp) => ReadStep(codec, s, p, ctx, verify, now, stamp)
    case DoQuarantine(p, ctx, verify, now, stamp) => QuarantineStep(codec, s, p, ctx, verify, now, stamp)
    case DoRelease(p, ctx, verify, now, stamp) => ReleaseStep(codec, s, p, ctx, verify, now, stamp)
  }

  function Run(codec: Codec, s: Store, ops: seq<Op>): Store {
    if ops == [] then s else Apply(codec, Run(codec, s, ops[..|ops| - 1]), ops[|ops| - 1]).0
  }

  function Empty(): Store {
    Store(map[], map[], [])
  }

  // ----- what each operation answers and logs

  /** Valid in time, and within the tenant's prefix. */
  predicate Admitted(op: Op) {
    op.now <= op.ctx.expiresAt && (op.DoWrite? || op.DoRead? ==> op.ctx.tenant + "_" <= op.p)
  }

  /** Some presented capability for the action and the resource is verified. */
  ghost predicate Capable(op: Op, action: string)
    requires !op.DoWrite?
  {
    exists cap :: && cap in op.ctx.capabilities && cap.action == action && cap.resource in {"*", op.p}
                  && op.verify(cap, op.ctx, action, op.p)
  }

  lemma CapableIs(op: Op, action: string)
    requires !op.DoWrite?
    ensures Capable(op, action) <==> HasCapability(op.verify, op.ctx, action, op.p)
  {
    if cap :| && cap in op.ctx.capabilities && cap.action == action && cap.resource in {"*", op.p}
              && op.verify(cap, op.ctx, action, op.p) {
      var i :| 0 <= i < |op.ctx.capabilities| && op.ctx.capabilities[i] == cap;
    }
    if HasCapability(op.verify, op.ctx, action, op.p) {
      var i :| && 0 <= i < |op.ctx.capabilities|
               && op.ctx.capabilities[i].action == action
               && (op.ctx.capabilities[i].resource == "*" || op.ctx.capabilities[i].resource == op.p)
               && op.verify(op.ctx.capabilities[i], op.ctx, action, op.p);
      assert op.ctx.capabilities[i] in op.ctx.capabilities;
    }
  }

  /** The new state differs by one row, which names requester, tenant, partition, action,
      result, identifier and time, and continues the chain. */
  ghost predicate Logs(codec: Codec, s: Store, op: Op, s': Store, act: Act, result: Result) {
    && |s'.audit| == |s.audit| + 1 && s.audit <= s'.audit
    && var row := s'.audit[|s.audit|];
       var head := if s.audit == [] then "GENESIS-AUDIT" else s.audit[|s.audit| - 1].eventHash;
       && row.previousHash == head && row.eventHash == codec.hash(Message(row.event, head))
       && row.event.eventId == op.stamp.eventId && row.event.timestamp == codec.show(op.stamp.at)
       && row.event.requester == op.ctx.requester && row.event.tenant == op.ctx.tenant && row.event.partition == op.p
       && row.event.act == act && row.event.result == result
       && row.event.capabilityId == None && row.event.policyVersion == "v2"
  }

  /** Answer, row and state change of every operation, case by case. */
  lemma OperationIs(codec: Codec, s: Store, op: Op)
    ensures var (s', o) := Apply(codec, s, op);
            var held := if op.p in s.partitions then s.partitions[op.p] else [];
            var inside := op.p in s.quarantine && s.quarantine[op.p];
            if !Admitted(op) then o == AuthorizationError && s' == s
            else if op.DoWrite? then
              && s'.quarantine == s.quarantine
              && if inside then
                   && o == QuarantineViolation && s'.partitions == s.partitions
                   && Logs(codec, s, op, s', Write, DeniedQuarantine)
                 else
                   && o == Accepted && s'.partitions == s.partitions[op.p := held + [op.item]]
                   && Logs(codec, s, op, s', Write, Allowed)
            else if op.DoRead? then
              && s'.quarantine == s.quarantine && s'.partitions == s.partitions
              && if !inside then o == Contents(held) && Logs(codec, s, op, s', Read, Allowed)
                 else if Capable(op, "FORENSIC_READ") then
                   o == Contents(held) && Logs(codec, s, op, s', ForensicRead, Allowed)
                 else o == QuarantineViolation && Logs(codec, s, op, s', Read, DeniedMissingCapability)
            else if op.DoQuarantine? then
              && s'.partitions == s.partitions
              && if Capable(op, "QUARANTINE") then
                   && o == Accepted && s'.quarantine == s.quarantine[op.p := true]
                   && Logs(codec, s, op, s', Quarantine, Success)
                 else o == AuthorizationError && s' == s
            else
              && s'.partitions == s.partitions
              && if Capable(op, "UNQUARANTINE") then
                   && o == Accepted && Logs(codec, s, op, s', Unquarantine, Success)
                   && s'.quarantine == if op.p in s.quarantine then s.quarantine[op.p := false] else s.quarantine
                 else o == AuthorizationError && s' == s
  {
    hide Message, HasCapability, Capable;
    if op.DoRead? {
      CapableIs(op, "FORENSIC_READ");
    } else if op.DoQuarantine? {
      CapableIs(op, "QUARANTINE");
    } else if op.DoRelease? {
      CapableIs(op, "UNQUARANTINE");
    }
  }

  // ----- replaying the audit log

  /** Whether the last quarantine or release row for p is a quarantine. */
  function LogQuarantined(audit: seq<Row>, p: string): bool {
    if audit == [] then false
    else
      var e := audit[|audit| - 1].event;
      if e.partition == p && e.act == Quarantine then true
      else if e.partition == p && e.act == Unquarantine then false
      else LogQuarantined(audit[..|audit| - 1], p)
  }

  /** Number of allowed writes to p. */
  function LogWrites(audit: seq<Row>, p: string): nat {
    if audit == [] then 0
    else
      var e := audit[|audit| - 1].event;
      LogWrites(audit[..|audit| - 1], p) + (if e.partition == p && e.act == Write && e.result == Allowed then 1 else 0)
  }

  ghost predicate RowLinked(codec: Codec, audit: seq<Row>, i: int)
    requires 0 <= i < |audit|
  {
    && audit[i].previousHash == HeadAt(audit, i) && codec.parse(audit[i].event.timestamp).Some?
    && audit[i].eventHash == codec.hash(Message(Normal(codec, audit[i].event), HeadAt(audit, i)))
  }

  /** Each row names its predecessor's hash and carries its own. */
  ghost predicate Linked(codec: Codec, audit: seq<Row>) {
    forall i :: 0 <= i < |audit| ==> RowLinked(codec, audit, i)
  }

  /** What an event may report, given whether its partition was quarantined: plain
      access only outside quarantine, forensic access only inside, and data access
      only to partitions under the tenant's prefix. */
  predicate LawfulResult(e: AuditEvent, inside: bool) {
    && e.capabilityId == None && e.policyVersion == "v2"
    && match e.act
       case Write => OpenTo(e.tenant, e.partition) && e.result == if inside then DeniedQuarantine else Allowed
       case Read => OpenTo(e.tenant, e.partition) && e.result == if inside then DeniedMissingCapability else Allowed
       case ForensicRead => OpenTo(e.tenant, e.partition) && inside && e.result == Allowed
       case Quarantine => e.result == Success
       case Unquarantine => e.result == Success
       case OtherAct(_) => false
  }

  /** Each row is consistent with the quarantine status the log shows just before it. */
  ghost predicate RowLawful(audit: seq<Row>, i: int)
    requires 0 <= i < |audit|
  {
    LawfulResult(audit[i].event, LogQuarantined(audit[..i], audit[i].event.partition))
  }

  ghost predicate Lawful(audit: seq<Row>) {
    forall i :: 0 <= i < |audit| ==> RowLawful(audit, i)
  }

  /** The live state is what the log replays to. */
  ghost predicate Replays(s: Store) {
    forall p :: (Quarantined(s, p) <==> LogQuarantined(s.audit, p)) && |ContentsOf(s, p)| == LogWrites(s.audit, p)
  }

  ghost predicate Inv(codec: Codec, s: Store) {
    Readable(codec) && Linked(codec, s.audit) && Lawful(s.audit) && Replays(s)
  }

  /** The timestamp is written as the store writes it. */
  ghost predicate Timed(codec: Codec, e: AuditEvent) {
    codec.parse(e.timestamp).Some? && Normal(codec, e) == e
  }

  lemma LinkedAppend(codec: Codec, audit: seq<Row>, e: AuditEvent)
    requires Linked(codec, audit) && Timed(codec, e)
    ensures Linked(codec, audit + [MakeRow(codec, audit, e)])
  {
    hide Message;
    var longer := audit + [MakeRow(codec, audit, e)];
    forall i | 0 <= i < |longer|
      ensures RowLinked(codec, longer, i)
    {
      if i < |audit| {
        assert RowLinked(codec, audit, i);
      }
      assert HeadAt(longer, i) == HeadAt(audit, i);
    }
  }

  ghost predicate LawfulEvent(audit: seq<Row>, e: AuditEvent) {
    var row := Row(e, "", "");
    RowLawful(audit + [row], |audit|)
  }

  lemma LawfulAppend(audit: seq<Row>, row: Row)
    requires Lawful(audit) && LawfulEvent(audit, row.event)
    ensures Lawful(audit + [row])
  {
    hide LogQuarantined;
    var longer := audit + [row];
    forall i | 0 <= i < |longer|
      ensures RowLawful(longer, i)
    {
      assert longer[..i] == audit[..i];
      if i < |audit| {
        assert RowLawful(audit, i);
      } else {
        assert (audit + [Row(row.event, "", "")])[..i] == audit[..i];
      }
    }
  }

  /** One more row for the replay. */
  lemma ReplayAppend(audit: seq<Row>, row: Row, p: string)
    ensures LogQuarantined(audit + [row], p) ==
            if row.event.partition == p && row.event.act == Quarantine then true
            else if row.event.partition == p && row.event.act == Unquarantine then false
            else LogQuarantined(audit, p)
    ensures LogWrites(audit + [row], p) == LogWrites(audit, p)
            + (if row.event.partition == p && row.event.act == Write && row.event.result == Allowed then 1 else 0)
  {
    assert (audit + [row])[..|audit|] == audit;
  }

  /** Logging an event next to the state change it describes. */
  lemma LogKeeps(codec: Codec, s: Store, t: Store, e: AuditEvent)
    requires Inv(codec, s) && t.audit == s.audit && LawfulEvent(s.audit, e) && Timed(codec, e)
    requires forall p :: Quarantined(t, p) <==>
               (if e.partition == p && e.act == Quarantine then true
                else if e.partition == p && e.act == Unquarantine then false
                else Quarantined(s, p))
    requires forall p :: |ContentsOf(t, p)| == |ContentsOf(s, p)|
               + (if e.partition == p && e.act == Write && e.result == Allowed then 1 else 0)
    ensures Inv(codec, Log(codec, t, e))
  {
    hide Message, LawfulEvent, Lawful, Linked;
    var t' := Log(codec, t, e);
    LinkedAppend(codec, s.audit, e);
    LawfulAppend(s.audit, MakeRow(codec, s.audit, e));
    forall p
      ensures (Quarantined(t', p) <==> LogQuarantined(t'.audit, p)) && |ContentsOf(t', p)| == LogWrites(t'.audit, p)
    {
      ReplayAppend(s.audit, MakeRow(codec, s.audit, e), p);
      assert (Quarantined(s, p) <==> LogQuarantined(s.audit, p)) && |ContentsOf(s, p)| == LogWrites(s.audit, p);
      assert Quarantined(t', p) <==> Quarantined(t, p);
    }
  }

  lemma EventLawful(codec: Codec, s: Store, e: AuditEvent, at: nat)
    requires Inv(codec, s) && e.timestamp == codec.show(at)
    requires LawfulResult(e, Quarantined(s, e.partition))
    ensures LawfulEvent(s.audit, e) && Timed(codec, e)
  {
    hide LogQuarantined, Linked, Lawful;
    assert (s.audit + [Row(e, "", "")])[..|s.audit|] == s.audit;
    assert Quarantined(s, e.partition) <==> LogQuarantined(s.audit, e.partition);
  }

  lemma ApplyKeeps(codec: Codec, s: Store, op: Op)
    requires Inv(codec, s)
    ensures Inv(codec, Apply(codec, s, op).0)
  {
    match op
    case DoWrite(p, item, ctx, now, stamp) => WriteKeeps(codec, s, p, item, ctx, now, stamp);
    case DoRead(p, ctx, verify, now, stamp) => ReadKeeps(codec, s, p, ctx, verify, now, stamp);
    case DoQuarantine(p, ctx, verify, now, stamp) => QuarantineKeeps(codec, s, p, ctx, verify, now, stamp);
    case DoRelease(p, ctx, verify, now, stamp) => ReleaseKeeps(codec, s, p, ctx, verify, now, stamp);
  }

  lemma WriteKeeps(codec: Codec, s: Store, p: string, item: string, ctx: Context, now: int, stamp: Stamp)
    requires Inv(codec, s)
    ensures Inv(codec, WriteStep(codec, s, p, item, ctx, now, stamp).0)
  {
    hide Log, LawfulEvent;
    if now <= ctx.expiresAt && OpenTo(ctx.tenant, p) {
      var denied := Quarantined(s, p);
      var e := MakeEvent(codec, ctx, p, Write, if denied then DeniedQuarantine else Allowed, stamp);
      EventLawful(codec, s, e, stamp.at);
      hide Inv;
      LogKeeps(codec, s, if denied then s else s.(partitions := s.partitions[p := ContentsOf(s, p) + [item]]), e);
    }
  }

  lemma ReadKeeps(codec: Codec, s: Store, p: string, ctx: Context, verify: Verifier, now: int, stamp: Stamp)
    requires Inv(codec, s)
    ensures Inv(codec, ReadStep(codec, s, p, ctx, verify, now, stamp).0)
  {
    hide Log, LawfulEvent, HasCapability;
    if now <= ctx.expiresAt && OpenTo(ctx.tenant, p) {
      var e := if !Quarantined(s, p) then MakeEvent(codec, ctx, p, Read, Allowed, stamp)
               else if HasCapability(verify, ctx, "FORENSIC_READ", p)
               then MakeEvent(codec, ctx, p, ForensicRead, Allowed, stamp)
               else MakeEvent(codec, ctx, p, Read, DeniedMissingCapability, stamp);
      EventLawful(codec, s, e, stamp.at);
      hide Inv;
      LogKeeps(codec, s, s, e);
    }
  }

  lemma QuarantineKeeps(codec: Codec, s: Store, p: string, ctx: Context, verify: Verifier, now: int,
                        stamp: Stamp)
    requires Inv(codec, s)
    ensures Inv(codec, QuarantineStep(codec, s, p, ctx, verify, now, stamp).0)
  {
    hide Log, LawfulEvent, HasCapability;
    if now <= ctx.expiresAt && HasCapability(verify, ctx, "QUARANTINE", p) {
      var e := MakeEvent(codec, ctx, p, Quarantine, Success, stamp);
      EventLawful(codec, s, e, stamp.at);
      hide Inv;
      LogKeeps(codec, s, s.(quarantine := s.quarantine[p := true]), e);
    }
  }

  lemma ReleaseKeeps(codec: Codec, s: Store, p: string, ctx: Context, verify: Verifier, now: int,
                     stamp: Stamp)
    requires Inv(codec, s)
    ensures Inv(codec, ReleaseStep(codec, s, p, ctx, verify, now, stamp).0)
  {
    hide Log, LawfulEvent, HasCapability;
    if now <= ctx.expiresAt && HasCapability(verify, ctx, "UNQUARANTINE", p) {
      var e := MakeEvent(codec, ctx, p, Unquarantine, Success, stamp);
      EventLawful(codec, s, e, stamp.at);
      hide Inv;
      LogKeeps(codec, s, if p in s.quarantine then s.(quarantine := s.quarantine[p := false]) else s, e);
    }
  }

  /** In every run the log is chained and lawful, and replaying it gives the live
      quarantine status and the length of every partition. */
  lemma {:induction false} RunKeeps(codec: Codec, ops: seq<Op>)
    requires Readable(codec)
    ensures Inv(codec, Run(codec, Empty(), ops))
  {
    if ops != [] {
      hide Inv, Apply;
      RunKeeps(codec, ops[..|ops| - 1]);
      ApplyKeeps(codec, Run(codec, Empty(), ops[..|ops| - 1]), ops[|ops| - 1]);
    }
  }

  // ----- contents

  /** What one operation adds to partition p. */
  function Added(codec: Codec, s: Store, op: Op, p: string): seq<string> {
    if op.DoWrite? && op.p == p && Apply(codec, s, op).1 == Accepted then [op.item] else []
  }

  /** The items of the accepted writes to p, in order. */
  function Written(codec: Codec, s: Store, ops: seq<Op>, p: string): seq<string> {
    if ops == [] then []
    else
      var before := ops[..|ops| - 1];
      Written(codec, s, before, p) + Added(codec, Run(codec, s, before), ops[|ops| - 1], p)
  }

  lemma StepContents(codec: Codec, s: Store, op: Op, p: string)
    ensures ContentsOf(Apply(codec, s, op).0, p) == ContentsOf(s, p) + Added(codec, s, op, p)
  {
    hide MakeRow, HasCapability;
  }

  /** A partition holds exactly the accepted writes to it, in order. */
  lemma {:induction false} ContentsAreWrites(codec: Codec, s: Store, ops: seq<Op>, p: string)
    ensures ContentsOf(Run(codec, s, ops), p) == ContentsOf(s, p) + Written(codec, s, ops, p)
  {
    if ops != [] {
      hide Apply, ContentsOf, Added;
      var before, op := ops[..|ops| - 1], ops[|ops| - 1];
      var t := Run(codec, s, before);
      ContentsAreWrites(codec, s, before, p);
      StepContents(codec, t, op, p);
      assert Written(codec, s, ops, p) == Written(codec, s, before, p) + Added(codec, t, op, p);
      assert Run(codec, s, ops) == Apply(codec, t, op).0;
      hide Run, Written;
      assert ContentsOf(s, p) + (Written(codec, s, before, p) + Added(codec, t, op, p))
          == ContentsOf(s, p) + Written(codec, s, before, p) + Added(codec, t, op, p);
    }
  }

  // ----- quarantine freezes a partition

  /** Row i releases partition p. */
  predicate Releases(row: Row, p: string) {
    row.event.act == Unquarantine && row.event.partition == p
  }

  lemma StepFreezes(codec: Codec, s: Store, op: Op, p: string)
    requires Quarantined(s, p)
    ensures var (s', o) := Apply(codec, s, op);
            && s.audit <= s'.audit && ContentsOf(s', p) == ContentsOf(s, p)
            && (Quarantined(s', p) || (|s'.audit| == |s.audit| + 1 && Releases(s'.audit[|s.audit|], p)))
  {
    hide Message, HasCapability;
  }

  /** While a partition is quarantined, whatever is called, its contents stay as they
      are until a release row for it appears in the log. */
  lemma {:induction false} QuarantineFreezes(codec: Codec, s: Store, ops: seq<Op>, p: string)
    requires Quarantined(s, p)
    requires forall i :: |s.audit| <= i < |Run(codec, s, ops).audit| ==> !Releases(Run(codec, s, ops).audit[i], p)
    ensures s.audit <= Run(codec, s, ops).audit
    ensures Quarantined(Run(codec, s, ops), p) && ContentsOf(Run(codec, s, ops), p) == ContentsOf(s, p)
  {
    if ops != [] {
      var before := ops[..|ops| - 1];
      var t := Run(codec, s, before);
      LogOnlyGrows(codec, s, before);
      LogOnlyGrows(codec, t, [ops[|ops| - 1]]);
      assert [ops[|ops| - 1]][..0] == [];
      hide Apply, Quarantined, ContentsOf, Releases;
      forall i | |s.audit| <= i < |t.audit|
        ensures !Releases(t.audit[i], p)
      {
        assert Run(codec, s, ops).audit[i] == t.audit[i];
      }
      QuarantineFreezes(codec, s, before, p);
      StepFreezes(codec, t, ops[|ops| - 1], p);
    }
  }

  lemma StepLogs(codec: Codec, s: Store, op: Op)
    ensures s.audit <= Apply(codec, s, op).0.audit
  {
    hide MakeRow, HasCapability;
  }

  lemma {:induction false} LogOnlyGrows(codec: Codec, s: Store, ops: seq<Op>)
    ensures s.audit <= Run(codec, s, ops).audit
  {
    if ops != [] {
      LogOnlyGrows(codec, s, ops[..|ops| - 1]);
      StepLogs(codec, Run(codec, s, ops[..|ops| - 1]), ops[|ops| - 1]);
      hide Apply;
    }
  }

  /** After any run, access is decided by what the log replays to: writes succeed
      exactly outside quarantine, reads exactly outside quarantine or with a verified
      FORENSIC_READ capability, both only under the tenant's prefix, and a read returns
      exactly the accepted writes. */
  ghost predicate FollowsLog(codec: Codec, ops: seq<Op>, s: Store, op: Op, o: Outcome) {
    match op
    case DoWrite(p, item, ctx, now, stamp) =>
      o == Accepted <==> now <= ctx.expiresAt && OpenTo(ctx.tenant, p) && !LogQuarantined(s.audit, p)
    case DoRead(p, ctx, verify, now, stamp) =>
      var entitled := && now <= ctx.expiresAt && OpenTo(ctx.tenant, p)
                      && (LogQuarantined(s.audit, p) ==> HasCapability(verify, ctx, "FORENSIC_READ", p));
      if entitled then o == Contents(Written(codec, Empty(), ops, p)) else !o.Contents?
    case DoQuarantine(p, ctx, verify, now, stamp) =>
      o == Accepted <==> now <= ctx.expiresAt && HasCapability(verify, ctx, "QUARANTINE", p)
    case DoRelease(p, ctx, verify, now, stamp) =>
      o == Accepted <==> now <= ctx.expiresAt && HasCapability(verify, ctx, "UNQUARANTINE", p)
  }

  lemma AccessFollowsLog(codec: Codec, ops: seq<Op>, op: Op)
    requires Readable(codec)
    ensures var s := Run(codec, Empty(), ops); FollowsLog(codec, ops, s, op, Apply(codec, s, op).1)
  {
    var s := Run(codec, Empty(), ops);
    RunKeeps(codec, ops);
    hide MakeRow, HasCapability, Linked, Lawful, LogQuarantined, LogWrites;
    ContentsAreWrites(codec, Empty(), ops, op.p);
    assert ContentsOf(s, op.p) == Written(codec, Empty(), ops, op.p) by {
      assert ContentsOf(Empty(), op.p) == [];
    }
    assert Quarantined(s, op.p) <==> LogQuarantined(s.audit, op.p);
  }

  // ----- the chain verifier

  datatype Verification = Intact | Broken | Unreadable

  /** Row i is the first fault, and is reached: its predecessor hash is right but its
      timestamp cannot be read, which raises. */
  ghost predicate Raises(codec: Codec, audit: seq<Row>, i: int) {
    && 0 <= i < |audit| && (forall j :: 0 <= j < i ==> RowLinked(codec, audit, j))
    && audit[i].previousHash == HeadAt(audit, i) && codec.parse(audit[i].event.timestamp) == None
  }

  lemma FirstFault(codec: Codec, audit: seq<Row>, i: nat)
    requires i < |audit| && (forall j :: 0 <= j < i ==> RowLinked(codec, audit, j)) && !RowLinked(codec, audit, i)
    ensures !Linked(codec, audit)
    ensures (exists j :: Raises(codec, audit, j)) <==> Raises(codec, audit, i)
  {
    hide Message;
    forall j | Raises(codec, audit, j)
      ensures j == i
    {
      RaisesUnlinked(codec, audit, j);
    }
  }

  lemma RaisesUnlinked(codec: Codec, audit: seq<Row>, j: int)
    requires Raises(codec, audit, j)
    ensures !RowLinked(codec, audit, j) && !Linked(codec, audit)
  {
    hide Message;
    assert !RowLinked(codec, audit, j);
  }

  method VerifyAuditChain(codec: Codec, audit: seq<Row>) returns (v: Verification)
    ensures v == Intact <==> Linked(codec, audit)
    ensures v == Unreadable <==> exists i :: Raises(codec, audit, i)
  {
    hide Message;
    var expectedPrev := "GENESIS-AUDIT";
    for i := 0 to |audit|
      invariant expectedPrev == HeadAt(audit, i)
      invariant forall k :: 0 <= k < i ==> RowLinked(codec, audit, k)
    {
      var row := audit[i];
      if row.previousHash != expectedPrev {
        FirstFault(codec, audit, i);
        return Broken;
      }
      if codec.parse(row.event.timestamp) == None {
        FirstFault(codec, audit, i);
        return Unreadable;
      }
      if codec.hash(Message(Normal(codec, row.event), expectedPrev)) != row.eventHash {
        FirstFault(codec, audit, i);
        return Broken;
      }
      expectedPrev := row.eventHash;
    }
    forall j | Raises(codec, audit, j)
      ensures !Linked(codec, audit)
    {
      RaisesUnlinked(codec, audit, j);
    }
    return Intact;
  }

  /** The verifier accepts the log of every run. */
  method VerifyRun(codec: Codec, ops: seq<Op>) returns (v: Verification)
    requires Readable(codec)
    ensures v == Intact
  {
    var s := Run(codec, Empty(), ops);
    RunKeeps(codec, ops);
    hide Linked;
    v := VerifyAuditChain(codec, s.audit);
  }

  // ----- what tenants can see of each other

  /** A write of tenant t is read back by tenant u. */
  ghost predicate ReadsBack(codec: Codec, write: Op, read: Op, t: string, u: string) {
    && write.DoWrite? && read.DoRead? && write.ctx.tenant == t && read.ctx.tenant == u
    && Apply(codec, Run(codec, Empty(), [write]), read).1 == Contents([write.item])
  }

  /** The guard is a prefix test, so one tenant can read what another wrote if and only
      if the prefix of one of them is a prefix of the other's. */
  lemma ReadsBackIff(codec: Codec, t: string, u: string)
    ensures (exists write, read :: ReadsBack(codec, write, read, t, u)) <==> t + "_" <= u + "_" || u + "_" <= t + "_"
  {
    hide Message, HasCapability;
    if t + "_" <= u + "_" || u + "_" <= t + "_" {
      var p := if |t| < |u| then u + "_" else t + "_";
      var write := DoWrite(p, "", Context("", t, 0, []), 0, Stamp("", 0));
      var read := DoRead(p, Context("", u, 0, []), (c, x, a, r) => false, 0, Stamp("", 0));
      SoleOp(codec, write);
      assert OpenTo(t, p) && OpenTo(u, p);
      assert ContentsOf(Empty(), p) + [write.item] == [write.item];
      assert ReadsBack(codec, write, read, t, u);
    } else {
      forall write, read | ReadsBack(codec, write, read, t, u)
        ensures false
      {
        SoleOp(codec, write);
        CommonPrefix(t + "_", u + "_", read.p);
      }
    }
  }

  lemma SoleOp(codec: Codec, op: Op)
    ensures Run(codec, Empty(), [op]) == Apply(codec, Empty(), op).0
  {
    assert [op][..0] == [];
  }

  lemma CommonPrefix(a: string, b: string, s: string)
    requires a <= s && b <= s
    ensures a <= b || b <= a
  {
    if |a| <= |b| {
      assert a == s[..|a|] && b == s[..|b|] && b[..|a|] == s[..|a|];
    } else {
      assert a == s[..|a|] && b == s[..|b|] && a[..|b|] == s[..|b|];
    }
  }

  /** Tenant a reads what tenant a_b wrote. */
  lemma PrefixLeak(codec: Codec)
    ensures exists write, read :: ReadsBack(codec, write, read, "a_b", "a")
  {
    assert "a_b" + "_" == "a" + "_" + "b_";
    hide ReadsBack;
    ReadsBackIff(codec, "a_b", "a");
  }

  // ----- the hashed text

  /** The text hashed for an event, field by field. */
  lemma MessageText(e: AuditEvent, prev: string)
    ensures Message(e, prev) ==
            "DGX-AUDIT-EVENT-V1" + "|" + (prev + "|" + (e.eventId + "|" + (e.requester + "|" + (e.tenant + "|"
            + (e.partition + "|" + (ActName(e.act) + "|"
            + ((if e.capabilityId.Some? then e.capabilityId.value else "None") + "|"
            + (e.policyVersion + "|" + (ResultName(e.result) + "|" + e.timestamp)))))))))
  {
    hide Joined, ActName, ResultName;
    var fs := Fields(e, prev);
    assert fs[0..] == fs;
    TailText(fs);
  }

  lemma TailText(fs: seq<string>)
    requires |fs| == 11
    ensures Joined(fs[0..]) ==
            fs[0] + "|" + (fs[1] + "|" + (fs[2] + "|" + (fs[3] + "|" + (fs[4] + "|" + (fs[5] + "|" + (fs[6] + "|"
            + (fs[7] + "|" + (fs[8] + "|" + (fs[9] + "|" + fs[10])))))))))
  {
    hide Joined;
    JoinedTail(fs, 10);
    JoinedTail(fs, 9);
    JoinedTail(fs, 8);
    JoinedTail(fs, 7);
    JoinedTail(fs, 6);
    JoinedTail(fs, 5);
    JoinedTail(fs, 4);
    JoinedTail(fs, 3);
    JoinedTail(fs, 2);
    JoinedTail(fs, 1);
    JoinedTail(fs, 0);
  }

  lemma NamesAre()
    ensures ActName(Write) == "WRITE" && ActName(Read) == "READ" && ActName(ForensicRead) == "FORENSIC_READ"
    ensures ActName(Quarantine) == "QUARANTINE" && ActName(Unquarantine) == "UNQUARANTINE"
    ensures ResultName(Allowed) == "ALLOWED" && ResultName(DeniedQuarantine) == "DENIED_QUARANTINE"
    ensures ResultName(DeniedMissingCapability) == "DENIED_MISSING_CAPABILITY" && ResultName(Success) == "SUCCESS"
  {
  }

  lemma JoinedTail(fs: seq<string>, k: nat)
    requires k < |fs|
    ensures k < |fs| - 1 ==> Joined(fs[k..]) == fs[k] + "|" + Joined(fs[k + 1..])
    ensures k == |fs| - 1 ==> Joined(fs[k..]) == fs[k]
  {
    assert k < |fs| - 1 ==> fs[k..][1..] == fs[k + 1..];
  }

  // ----- what the audit head commits to

  ghost predicate NoBar(s: string) {
    '|' !in s
  }

  lemma FirstField(a: string, x: string, b: string, y: string)
    requires NoBar(a) && NoBar(b) && a + "|" + x == b + "|" + y
    ensures a == b && x == y
  {
    var m, n := a + "|" + x, b + "|" + y;
    assert m[|a|] == '|' && n[|b|] == '|';
    assert forall i :: 0 <= i < |a| ==> m[i] == a[i];
    assert forall i :: 0 <= i < |b| ==> n[i] == b[i];
    assert |a| == |b|;
    assert m[..|a|] == a && n[..|a|] == b;
    assert m[|a| + 1..] == x && n[|a| + 1..] == y;
  }

  lemma LastField(x: string, a: string, y: string, b: string)
    requires NoBar(a) && NoBar(b) && x + "|" + a == y + "|" + b
    ensures a == b && x == y
  {
    var m, n := x + "|" + a, y + "|" + b;
    LastBar(x, a);
    LastBar(y, b);
    assert |x| == |y|;
    assert m[..|x|] == x && n[..|x|] == y;
    assert m[|x| + 1..] == a && n[|x| + 1..] == b;
  }

  lemma LastBar(x: string, a: string)
    requires NoBar(a)
    ensures var m := x + "|" + a; m[|x|] == '|' && forall i :: |x| < i < |m| ==> m[i] != '|'
  {
    var m := x + "|" + a;
    forall i | |x| < i < |m|
      ensures m[i] in a
    {
      assert m[i] == a[i - |x| - 1];
    }
  }

  lemma {:induction false} JoinedLast(fs: seq<string>)
    requires |fs| > 1
    ensures Joined(fs) == Joined(fs[..|fs| - 1]) + "|" + fs[|fs| - 1]
  {
    var n := |fs| - 1;
    if n > 1 {
      JoinedLast(fs[1..]);
      assert fs[1..][..n - 1] == fs[..n][1..];
      assert fs[0] + "|" + (Joined(fs[..n][1..]) + "|" + fs[n]) == fs[0] + "|" + Joined(fs[..n][1..]) + "|" + fs[n];
    }
  }

  /** All fields but the one at position j are free of bars. */
  ghost predicate BarsOnlyAt(fields: seq<string>, j: nat) {
    forall i :: 0 <= i < |fields| && i != j ==> NoBar(fields[i])
  }

  /** Bar-separated text determines equally many fields if at most one of them, at a
      known position, contains bars. */
  lemma {:induction false} JoinedInjective(fs: seq<string>, gs: seq<string>, j: nat)
    requires j < |fs| == |gs| && BarsOnlyAt(fs, j) && BarsOnlyAt(gs, j) && Joined(fs) == Joined(gs)
    ensures fs == gs
    decreases |fs|
  {
    var n := |fs| - 1;
    if j > 0 {
      FirstField(fs[0], Joined(fs[1..]), gs[0], Joined(gs[1..]));
      JoinedInjective(fs[1..], gs[1..], j - 1);
      assert fs == [fs[0]] + fs[1..] && gs == [gs[0]] + gs[1..];
    } else if n > 0 {
      JoinedLast(fs);
      JoinedLast(gs);
      LastField(Joined(fs[..n]), fs[n], Joined(gs[..n]), gs[n]);
      JoinedInjective(fs[..n], gs[..n], 0);
      assert fs == fs[..n] + [fs[n]] && gs == gs[..n] + [gs[n]];
    }
  }

  ghost predicate Over(s: string, alphabet: set<char>) {
    forall c :: c in s ==> c in alphabet
  }

  /** What an event may hold: texts over the alphabet, and a capability from `caps`. */
  ghost predicate Spelled(e: AuditEvent, alphabet: set<char>, caps: iset<string>) {
    && Over(e.eventId, alphabet) && Over(e.requester, alphabet) && Over(e.tenant, alphabet)
    && Over(e.partition, alphabet) && Over(e.policyVersion, alphabet)
    && (e.act.OtherAct? ==> Over(e.act.text, alphabet)) && (e.result.OtherResult? ==> Over(e.result.text, alphabet))
    && (e.capabilityId.Some? ==> e.capabilityId.value in caps)
  }

  lemma FieldsBars(e: AuditEvent, previousHash: string, alphabet: set<char>, caps: iset<string>)
    requires Spelled(e, alphabet, caps) && '|' !in alphabet && NoBar(previousHash) && NoBar(e.timestamp)
    ensures BarsOnlyAt(Fields(e, previousHash), 7)
  {
    assert NoBar(ActName(e.act)) && NoBar(ResultName(e.result));
  }

  lemma MessageInjective(e: AuditEvent, prev: string, f: AuditEvent, prev': string,
                         alphabet: set<char>, caps: iset<string>)
    requires Spelled(e, alphabet, caps) && Spelled(f, alphabet, caps) && '|' !in alphabet && "None" !in caps
    requires NoBar(prev) && NoBar(prev') && NoBar(e.timestamp) && NoBar(f.timestamp)
    requires Message(e, prev) == Message(f, prev')
    ensures e == f && prev == prev'
  {
    FieldsBars(e, prev, alphabet, caps);
    FieldsBars(f, prev', alphabet, caps);
    var fs, gs := Fields(e, prev), Fields(f, prev');
    hide Joined, BarsOnlyAt;
    JoinedInjective(fs, gs, 7);
    assert fs[1] == gs[1] && fs[2] == gs[2] && fs[3] == gs[3] && fs[4] == gs[4] && fs[5] == gs[5];
    assert fs[6] == gs[6] && fs[7] == gs[7] && fs[8] == gs[8] && fs[9] == gs[9] && fs[10] == gs[10];
    NamesInjective(e.act, f.act, e.result, f.result);
  }

  lemma NamesInjective(a: Act, b: Act, r: Result, q: Result)
    ensures ActName(a) == ActName(b) ==> a == b
    ensures ResultName(r) == ResultName(q) ==> r == q
  {
    assert |ActName(a)| == |ActName(b)| && !a.OtherAct? && !b.OtherAct? ==> a == b;
    assert ResultName(Allowed)[0] == 'A' && ResultName(Success)[0] == 'S';
  }

  /** Digests are 64 characters long, and neither they nor written datetimes contain a
      bar; what is written is read back. */
  ghost predicate Sound(codec: Codec) {
    && Readable(codec)
    && (forall m :: |codec.hash(m)| == 64 && NoBar(codec.hash(m)))
    && (forall t: nat :: NoBar(codec.show(t)))
  }

  ghost function MessageAt(codec: Codec, audit: seq<Row>, i: nat): string
    requires i < |audit|
  {
    Message(Normal(codec, audit[i].event), HeadAt(audit, i))
  }

  /** No two different messages of the two logs share a hash. */
  ghost predicate NoClash(codec: Codec, a: seq<Row>, b: seq<Row>) {
    forall i: nat, j: nat ::
      i < |a| && j < |b| && codec.hash(MessageAt(codec, a, i)) == codec.hash(MessageAt(codec, b, j)) ==>
        MessageAt(codec, a, i) == MessageAt(codec, b, j)
  }

  ghost predicate AllSpelled(audit: seq<Row>, alphabet: set<char>, caps: iset<string>) {
    forall i :: 0 <= i < |audit| ==> Spelled(audit[i].event, alphabet, caps)
  }

  /** Two accepted logs with one head, and no collision to blame. */
  ghost predicate SameHead(codec: Codec, a: seq<Row>, b: seq<Row>, alphabet: set<char>, caps: iset<string>) {
    && Sound(codec) && NoClash(codec, a, b) && Linked(codec, a) && Linked(codec, b)
    && AllSpelled(a, alphabet, caps) && AllSpelled(b, alphabet, caps)
    && HeadAt(a, |a|) == HeadAt(b, |b|)
  }

  function NormalRow(codec: Codec, row: Row): Row {
    row.(event := Normal(codec, row.event))
  }

  /** The same rows, up to how a timestamp is written. */
  ghost predicate SameLog(codec: Codec, a: seq<Row>, b: seq<Row>) {
    |a| == |b| && forall i :: 0 <= i < |a| ==> NormalRow(codec, a[i]) == NormalRow(codec, b[i])
  }

  lemma PrefixLinked(codec: Codec, a: seq<Row>, n: nat)
    requires Linked(codec, a) && n <= |a|
    ensures Linked(codec, a[..n])
    ensures forall i: nat :: i < n ==> MessageAt(codec, a[..n], i) == MessageAt(codec, a, i)
  {
    hide Message;
    forall i: nat | i < n
      ensures RowLinked(codec, a[..n], i) && MessageAt(codec, a[..n], i) == MessageAt(codec, a, i)
    {
      assert RowLinked(codec, a, i) && HeadAt(a[..n], i) == HeadAt(a, i);
    }
  }

  lemma HeadNoBar(codec: Codec, a: seq<Row>, i: nat)
    requires Sound(codec) && Linked(codec, a) && i <= |a|
    ensures NoBar(HeadAt(a, i)) && (i == 0 <==> |HeadAt(a, i)| != 64)
  {
    hide Message;
    if i > 0 {
      var k := i - 1;
      assert RowLinked(codec, a, k);
    }
  }

  /** The last rows of two such logs are the same, and so are the heads before them. */
  lemma LastRow(codec: Codec, a: seq<Row>, b: seq<Row>, alphabet: set<char>, caps: iset<string>)
    requires SameHead(codec, a, b, alphabet, caps) && a != [] && b != [] && '|' !in alphabet && "None" !in caps
    ensures NormalRow(codec, a[|a| - 1]) == NormalRow(codec, b[|b| - 1])
    ensures HeadAt(a, |a| - 1) == HeadAt(b, |b| - 1)
  {
    hide Message;
    var n, m := |a| - 1, |b| - 1;
    HeadNoBar(codec, a, n);
    HeadNoBar(codec, b, m);
    assert RowLinked(codec, a, n) && RowLinked(codec, b, m);
    assert codec.hash(MessageAt(codec, a, n)) == codec.hash(MessageAt(codec, b, m));
    var e, f := Normal(codec, a[n].event), Normal(codec, b[m].event);
    MessageInjective(e, HeadAt(a, n), f, HeadAt(b, m), alphabet, caps);
  }

  lemma SameHeadPrefix(codec: Codec, a: seq<Row>, b: seq<Row>, n: nat, m: nat,
                       alphabet: set<char>, caps: iset<string>)
    requires SameHead(codec, a, b, alphabet, caps) && n <= |a| && m <= |b| && HeadAt(a, n) == HeadAt(b, m)
    ensures SameHead(codec, a[..n], b[..m], alphabet, caps)
  {
    PrefixLinked(codec, a, n);
    PrefixLinked(codec, b, m);
    hide Sound, Linked, MessageAt, Spelled;
    assert HeadAt(a[..n], n) == HeadAt(a, n) && HeadAt(b[..m], m) == HeadAt(b, m);
  }

  /** Bars only within capabilities, and none of these spelled None: one head means one
      log, up to how timestamps are written. */
  lemma {:induction false} SameHeadSameLog(codec: Codec, a: seq<Row>, b: seq<Row>,
                                           alphabet: set<char>, caps: iset<string>)
    requires SameHead(codec, a, b, alphabet, caps) && '|' !in alphabet && "None" !in caps
    ensures SameLog(codec, a, b)
    decreases |a|
  {
    hide Sound, Linked, MessageAt, NormalRow, NoClash, AllSpelled;
    HeadNoBar(codec, a, |a|);
    HeadNoBar(codec, b, |b|);
    if a != [] {
      var n, m := |a| - 1, |b| - 1;
      LastRow(codec, a, b, alphabet, caps);
      SameHeadPrefix(codec, a, b, n, m, alphabet, caps);
      hide SameHead, HeadAt;
      SameHeadSameLog(codec, a[..n], b[..m], alphabet, caps);
      forall i | 0 <= i < n
        ensures NormalRow(codec, a[i]) == NormalRow(codec, b[i])
      {
        assert a[..n][i] == a[i] && b[..m][i] == b[i];
      }
    }
  }

  /** The head determines the log, whatever the codec. */
  ghost predicate HeadDetermines(alphabet: set<char>, caps: iset<string>) {
    forall codec, a, b :: SameHead(codec, a, b, alphabet, caps) ==> SameLog(codec, a, b)
  }

  /** The row the verifier accepts first, for a readable event. */
  function FirstRow(codec: Codec, e: AuditEvent): Row {
    Row(e, codec.hash(Message(Normal(codec, e), "GENESIS-AUDIT")), "GENESIS-AUDIT")
  }

  lemma OneRowEach(codec: Codec, e: AuditEvent, f: AuditEvent, alphabet: set<char>, caps: iset<string>)
    requires Sound(codec) && codec.parse(e.timestamp).Some? && codec.parse(f.timestamp).Some?
    requires Spelled(e, alphabet, caps) && Spelled(f, alphabet, caps)
    requires Message(Normal(codec, e), "GENESIS-AUDIT") == Message(Normal(codec, f), "GENESIS-AUDIT")
    ensures SameHead(codec, [FirstRow(codec, e)], [FirstRow(codec, f)], alphabet, caps)
  {
    hide Message, Spelled, Normal, Sound;
    var a, b := [FirstRow(codec, e)], [FirstRow(codec, f)];
    assert RowLinked(codec, a, 0) && RowLinked(codec, b, 0);
  }

  /** A constant digest, and datetimes written in unary. */
  function UnaryCodec(): Codec {
    Codec(m => seq(64, i => '0'), (t: nat) => seq(t, i => '0'), s => Some(|s|))
  }

  lemma UnarySound()
    ensures Sound(UnaryCodec())
  {
  }

  /** Two different events with one message, both written as the store writes them. */
  lemma ConfusedHeads(e: AuditEvent, f: AuditEvent, alphabet: set<char>, caps: iset<string>)
    requires e != f && e.timestamp == f.timestamp == UnaryCodec().show(0)
    requires Spelled(e, alphabet, caps) && Spelled(f, alphabet, caps)
    requires Message(e, "GENESIS-AUDIT") == Message(f, "GENESIS-AUDIT")
    ensures !HeadDetermines(alphabet, caps)
  {
    hide Message, SameHead, Spelled, Sound;
    var codec := UnaryCodec();
    UnarySound();
    assert Normal(codec, e) == e && Normal(codec, f) == f;
    OneRowEach(codec, e, f, alphabet, caps);
    var a, b := [FirstRow(codec, e)], [FirstRow(codec, f)];
    assert NormalRow(codec, a[0]).event == e && NormalRow(codec, b[0]).event == f;
    assert !SameLog(codec, a, b);
  }

  /** Fields are joined unescaped and a missing capability is rendered as None, so the
      head determines the log, short of a hash collision, if and only if no field but
      the capability may contain the separator and no capability is spelled None. */
  lemma HeadDeterminesIff(alphabet: set<char>, caps: iset<string>)
    ensures HeadDetermines(alphabet, caps) <==> '|' !in alphabet && "None" !in caps
  {
    if '|' in alphabet {
      BarConfuses(Blank(), "", "", "", alphabet, caps);
    } else if "None" in caps {
      NoneConfuses(Blank(), alphabet, caps);
    } else {
      forall codec, a, b | SameHead(codec, a, b, alphabet, caps)
        ensures SameLog(codec, a, b)
      {
        SameHeadSameLog(codec, a, b, alphabet, caps);
      }
    }
  }

  function Blank(): AuditEvent {
    AuditEvent("", "", "", "", Quarantine, None, UnaryCodec().show(0), "", Success)
  }

  lemma BarConfuses(e: AuditEvent, x: string, y: string, z: string, alphabet: set<char>, caps: iset<string>)
    requires e.timestamp == UnaryCodec().show(0)
    requires Spelled(e.(requester := x + "|" + y, tenant := z), alphabet, caps)
    requires Spelled(e.(requester := x, tenant := y + "|" + z), alphabet, caps)
    ensures !HeadDetermines(alphabet, caps)
  {
    hide Message, HeadDetermines, Spelled;
    ShiftedBar(e, "GENESIS-AUDIT", x, y, z);
    assert |z| != |y + "|" + z|;
    ConfusedHeads(e.(requester := x + "|" + y, tenant := z), e.(requester := x, tenant := y + "|" + z), alphabet, caps);
  }

  lemma NoneConfuses(e: AuditEvent, alphabet: set<char>, caps: iset<string>)
    requires e.timestamp == UnaryCodec().show(0) && "None" in caps && Spelled(e, alphabet, caps)
    ensures !HeadDetermines(alphabet, caps)
  {
    MissingIsNone(e, "GENESIS-AUDIT");
    hide Message, HeadDetermines;
    ConfusedHeads(e.(capabilityId := None), e.(capabilityId := Some("None")), alphabet, caps);
  }

  /** A missing capability and one spelled None hash the same text. */
  lemma MissingIsNone(e: AuditEvent, prev: string)
    ensures Message(e.(capabilityId := None), prev) == Message(e.(capabilityId := Some("None")), prev)
  {
    hide Joined;
    assert Fields(e.(capabilityId := None), prev) == Fields(e.(capabilityId := Some("None")), prev);
  }

  /** No two texts are read as the same datetime. */
  ghost predicate OneSpelling(codec: Codec) {
    forall s, s' :: codec.parse(s).Some? && codec.parse(s) == codec.parse(s') ==> s == s'
  }

  /** The head determines the very texts of the timestamps if and only if no datetime
      can be written in two ways. */
  lemma TimestampsDeterminedIff(codec: Codec, alphabet: set<char>, caps: iset<string>)
    requires Sound(codec) && '|' !in alphabet && "None" !in caps
    ensures (forall a, b :: SameHead(codec, a, b, alphabet, caps) ==> a == b) <==> OneSpelling(codec)
  {
    if OneSpelling(codec) {
      forall a, b | SameHead(codec, a, b, alphabet, caps)
        ensures a == b
      {
        SameHeadSameLog(codec, a, b, alphabet, caps);
        SameTexts(codec, a, b);
      }
    } else {
      var s, s' :| codec.parse(s).Some? && codec.parse(s) == codec.parse(s') && s != s';
      var e, f := Blank().(timestamp := s), Blank().(timestamp := s');
      assert Normal(codec, e) == Normal(codec, f);
      OneRowEach(codec, e, f, alphabet, caps);
      hide SameHead, Message, Sound;
      var a, b := [FirstRow(codec, e)], [FirstRow(codec, f)];
      assert a[0].event.timestamp != b[0].event.timestamp;
    }
  }

  lemma SameTexts(codec: Codec, a: seq<Row>, b: seq<Row>)
    requires Readable(codec) && OneSpelling(codec) && SameLog(codec, a, b)
    requires Linked(codec, a) && Linked(codec, b)
    ensures a == b
  {
    hide Message;
    forall i | 0 <= i < |a|
      ensures a[i] == b[i]
    {
      assert RowLinked(codec, a, i) && RowLinked(codec, b, i);
      var s, s' := a[i].event.timestamp, b[i].event.timestamp;
      assert NormalRow(codec, a[i]) == NormalRow(codec, b[i]);
      assert codec.show(codec.parse(s).value) == codec.show(codec.parse(s').value);
      assert codec.parse(s) == codec.parse(s');
    }
  }

  lemma {:induction false} JoinedSuffix(fs: seq<string>, gs: seq<string>, k: nat)
    requires k < |fs| && k < |gs| && fs[..k] == gs[..k] && Joined(fs[k..]) == Joined(gs[k..])
    ensures Joined(fs) == Joined(gs)
    decreases k
  {
    if k == 0 {
      assert fs[0..] == fs && gs[0..] == gs;
    } else {
      assert fs[0] == fs[..k][0] && gs[0] == gs[..k][0];
      assert fs[1..][..k - 1] == fs[..k][1..] && gs[1..][..k - 1] == gs[..k][1..];
      assert fs[1..][k - 1..] == fs[k..] && gs[1..][k - 1..] == gs[k..];
      JoinedSuffix(fs[1..], gs[1..], k - 1);
    }
  }

  /** Text moved across the bar between requester and tenant goes unseen. */
  lemma ShiftedBar(template: AuditEvent, prev: string, x: string, y: string, z: string)
    ensures Message(template.(requester := x + "|" + y, tenant := z), prev)
         == Message(template.(requester := x, tenant := y + "|" + z), prev)
  {
    var e, f := template.(requester := x + "|" + y, tenant := z), template.(requester := x, tenant := y + "|" + z);
    var fs, gs := Fields(e, prev), Fields(f, prev);
    assert fs[3..][1..][1..] == fs[5..] == gs[5..] == gs[3..][1..][1..];
    var rest := Joined(fs[5..]);
    assert Joined(fs[3..]) == x + "|" + y + "|" + (z + "|" + rest);
    assert Joined(gs[3..]) == x + "|" + (y + "|" + z + "|" + rest);
    hide Joined;
    assert Joined(fs[3..]) == Joined(gs[3..]);
    assert fs[..3] == gs[..3];
    JoinedSuffix(fs, gs, 3);
  }

  // ----- the store object

  class ProvenanceMemoryStore {
    const codec: Codec
    var partitions: map<string, seq<string>>
    var quarantine: map<string, bool>
    var audit: seq<Row>

    ghost function Value(): Store
      reads this
    {
      Store(partitions, quarantine, audit)
    }

    constructor (codec: Codec)
      ensures this.codec == codec && Value() == Empty()
    {
      this.codec, partitions, quarantine, audit := codec, map[], map[], [];
    }

    method LogAudit(e: AuditEvent)
      modifies this`audit
      ensures audit == old(audit) + [MakeRow(codec, old(audit), e)]
    {
      hide Message;
      var previous := if audit == [] then "GENESIS-AUDIT" else audit[|audit| - 1].eventHash;
      audit := audit + [Row(e, codec.hash(Message(e, previous)), previous)];
    }

    method WriteItem(p: string, item: string, ctx: Context, now: int, stamp: Stamp) returns (o: Outcome)
      modifies this
      ensures (Value(), o) == WriteStep(codec, old(Value()), p, item, ctx, now, stamp)
    {
      hide Message;
      if now > ctx.expiresAt || !OpenTo(ctx.tenant, p) {
        return AuthorizationError;
      }
      if p in quarantine && quarantine[p] {
        LogAudit(MakeEvent(codec, ctx, p, Write, DeniedQuarantine, stamp));
        return QuarantineViolation;
      }
      if p !in partitions {
        partitions := partitions[p := []];
      }
      partitions := partitions[p := partitions[p] + [item]];
      assert partitions == old(partitions)[p := ContentsOf(old(Value()), p) + [item]];
      LogAudit(MakeEvent(codec, ctx, p, Write, Allowed, stamp));
      return Accepted;
    }

    method ReadItems(p: string, ctx: Context, verify: Verifier, now: int, stamp: Stamp) returns (o: Outcome)
      modifies this
      ensures (Value(), o) == ReadStep(codec, old(Value()), p, ctx, verify, now, stamp)
    {
      hide Message, HasCapability;
      if now > ctx.expiresAt || !OpenTo(ctx.tenant, p) {
        return AuthorizationError;
      }
      if p in quarantine && quarantine[p] {
        var capable := CheckCapability(verify, ctx, "FORENSIC_READ", p);
        if !capable {
          LogAudit(MakeEvent(codec, ctx, p, Read, DeniedMissingCapability, stamp));
          return QuarantineViolation;
        }
        LogAudit(MakeEvent(codec, ctx, p, ForensicRead, Allowed, stamp));
      } else {
        LogAudit(MakeEvent(codec, ctx, p, Read, Allowed, stamp));
      }
      return Contents(if p in partitions then partitions[p] else []);
    }

    method QuarantinePartition(p: string, ctx: Context, verify: Verifier, now: int, stamp: Stamp) returns (o: Outcome)
      modifies this
      ensures (Value(), o) == QuarantineStep(codec, old(Value()), p, ctx, verify, now, stamp)
    {
      hide Message, HasCapability;
      var capable := CheckCapability(verify, ctx, "QUARANTINE", p);
      if now > ctx.expiresAt || !capable {
        return AuthorizationError;
      }
      quarantine := quarantine[p := true];
      LogAudit(MakeEvent(codec, ctx, p, Quarantine, Success, stamp));
      return Accepted;
    }

    method UnquarantinePartition(p: string, ctx: Context, verify: Verifier, now: int, stamp: Stamp) returns (o: Outcome)
      modifies this
      ensures (Value(), o) == ReleaseStep(codec, old(Value()), p, ctx, verify, now, stamp)
    {
      hide Message, HasCapability;
      var capable := CheckCapability(verify, ctx, "UNQUARANTINE", p);
      if now > ctx.expiresAt || !capable {
        return AuthorizationError;
      }
      if p in quarantine {
        quarantine := quarantine[p := false];
      }
      LogAudit(MakeEvent(codec, ctx, p, Unquarantine, Success, stamp));
      return Accepted;
    }
  }
}
