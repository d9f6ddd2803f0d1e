/** The hash-chained transparency table: appending, both verifiers, concurrent
    writers, and what one head hash commits to. */
module Ledger {
  import opened Common
  import opened Framing

  /** A ledger payload: a certificate commit, or any other JSON document, which may
      happen to carry a `commit_hash` key of its own. */
  datatype Payload =
    | Commit(timestamp: Bytes, commitHash: Bytes, merkleRoot: Bytes, certificateCount: nat,
             policySnapshot: Bytes, canaryPassed: bool)
    | Other(json: Bytes, commitKey: Option<Bytes>)

  /** The hash (as a hex digest) and the canonical JSON form, both uninterpreted. */
  datatype Crypto = Crypto(sha: Bytes -> Bytes, canon: Payload -> Bytes)

  datatype Row = Row(seqNo: int, timestamp: Bytes, prev: Bytes, payloadHash: Bytes, entryHash: Bytes, payload: Payload)

  /** The table in ascending order of its primary key. */
  type Table = seq<Row>

  /** The table's constraints: primary key and unique entry hash. */
  ghost predicate Stored(t: Table) {
    && (forall i, j :: 0 <= i < j < |t| ==> t[i].seqNo < t[j].seqNo)
    && (forall i, j :: 0 <= i < j < |t| ==> t[i].entryHash != t[j].entryHash)
  }

  function PayloadMessage(c: Crypto, p: Payload): Bytes {
    PayloadDomain() + c.canon(p)
  }

  /** Payload hash and entry hash recomputed from the row agree with the row. */
  predicate Intact(c: Crypto, r: Row) {
    && c.sha(PayloadMessage(c, r.payload)) == r.payloadHash
    && Packable(r.seqNo, r.prev, r.payloadHash)
    && c.sha(EntryMessage(r.seqNo, r.prev, r.payloadHash)) == r.entryHash
  }

  /** The hash that row i must point back to. */
  function HeadAt(t: Table, i: int): Bytes
    requires 0 <= i <= |t|
  {
    if i == 0 then Genesis() else t[i - 1].entryHash
  }

  /** A gapless chain from genesis. */
  ghost predicate Chained(c: Crypto, t: Table) {
    forall i :: 0 <= i < |t| ==> RowAt(c, t, i)
  }

  ghost predicate RowAt(c: Crypto, t: Table, i: int)
    requires 0 <= i < |t|
  {
    t[i].seqNo == i && t[i].prev == HeadAt(t, i) && Intact(c, t[i])
  }

  /** The full forward pass accepts exactly the gapless chains. */
  method VerifyFullChain(c: Crypto, t: Table) returns (ok: bool)
    ensures ok <==> Chained(c, t)
  {
    hide Intact, Genesis;
    var expectedPrev := Genesis();
    for i := 0 to |t|
      invariant expectedPrev == HeadAt(t, i)
      invariant forall k :: 0 <= k < i ==> RowAt(c, t, k)
    {
      var row := t[i];
      if row.seqNo != i || row.prev != expectedPrev || !Intact(c, row) {
        assert !RowAt(c, t, i);
        return false;
      }
      expectedPrev := row.entryHash;
    }
    return true;
  }

  // ----- the backward verifier

  function Find(t: Table, h: Bytes): (r: Option<Row>)
    ensures r.Some? ==> r.value in t && r.value.entryHash == h
    ensures r == None ==> forall i :: 0 <= i < |t| ==> t[i].entryHash != h
  {
    if t == [] then None
    else if t[0].entryHash == h then Some(t[0])
    else Find(t[1..], h)
  }

  lemma {:induction false} FindStored(t: Table, i: nat)
    requires Stored(t) && i < |t|
    ensures Find(t, t[i].entryHash) == Some(t[i])
  {
    if i > 0 {
      FindStored(t[1..], i - 1);
    }
  }

  datatype Outcome = Verified(trail: seq<Row>) | Raised | Unfinished

  /** The backward walk, at most `fuel` rows long. */
  function Walk(c: Crypto, t: Table, h: Bytes, fuel: nat): Outcome
    decreases fuel
  {
    if fuel == 0 then Unfinished
    else
      match Find(t, h)
      case None => Raised
      case Some(row) =>
        if !Intact(c, row) then Raised
        else if row.seqNo == 0 then (if row.prev != Genesis() then Raised else Verified([row]))
        else
          match Walk(c, t, row.prev, fuel - 1)
          case Verified(trail) => Verified([row] + trail)
          case Raised => Raised
          case Unfinished => Unfinished
  }

  /** A linked list of intact stored rows from the hash back to genesis. */
  ghost predicate Trail(c: Crypto, t: Table, h: Bytes, trail: seq<Row>) {
    && trail != [] && trail[0].entryHash == h
    && (forall i :: 0 <= i < |trail| ==> trail[i] in t && Intact(c, trail[i]))
    && (forall i :: 0 <= i < |trail| - 1 ==> trail[i].prev == trail[i + 1].entryHash && trail[i].seqNo != 0)
    && trail[|trail| - 1].seqNo == 0 && trail[|trail| - 1].prev == Genesis()
  }

  /** Success is never reported without such a list. */
  lemma {:induction false} WalkSound(c: Crypto, t: Table, h: Bytes, fuel: nat)
    requires Walk(c, t, h, fuel).Verified?
    ensures Trail(c, t, h, Walk(c, t, h, fuel).trail)
    decreases fuel
  {
    hide Intact, Genesis;
    var row := Find(t, h).value;
    if row.seqNo != 0 {
      WalkSound(c, t, row.prev, fuel - 1);
    }
  }

  /** And with such a list, given enough fuel, it is always reported. */
  lemma {:induction false} WalkComplete(c: Crypto, t: Table, h: Bytes, trail: seq<Row>, fuel: nat)
    requires Stored(t) && Trail(c, t, h, trail) && fuel >= |trail|
    ensures Walk(c, t, h, fuel) == Verified(trail)
    decreases |trail|
  {
    hide Intact, Genesis;
    var i :| 0 <= i < |t| && t[i] == trail[0];
    FindStored(t, i);
    if |trail| > 1 {
      assert trail[0].prev == trail[1].entryHash;
      var rest := trail[1..];
      assert Trail(c, t, trail[0].prev, rest) by {
        forall k | 0 <= k < |rest| - 1
          ensures rest[k].prev == rest[k + 1].entryHash && rest[k].seqNo != 0
        {
          assert trail[k + 1].prev == trail[k + 2].entryHash;
        }
      }
      WalkComplete(c, t, trail[0].prev, rest, fuel - 1);
      assert trail == [trail[0]] + rest;
    } else {
      assert trail == [trail[0]];
    }
  }

  /** The rows s, s - 1, ..., 0. */
  ghost function Down(t: Table, s: int): (r: seq<Row>)
    requires 0 <= s < |t|
    ensures |r| == s + 1
  {
    seq(s + 1, i requires 0 <= i <= s => t[s - i])
  }

  /** On an accepted table the walk from any stored entry visits every earlier
      sequence number once, in descending order, and succeeds. */
  lemma ChainedWalks(c: Crypto, t: Table, s: int, fuel: nat)
    requires Stored(t) && Chained(c, t) && 0 <= s < |t| && fuel > s
    ensures Walk(c, t, t[s].entryHash, fuel) == Verified(Down(t, s))
    ensures forall i :: 0 <= i <= s ==> Down(t, s)[i].seqNo == s - i
  {
    hide Intact, Genesis, Walk;
    var trail := Down(t, s);
    forall i | 0 <= i < |trail|
      ensures trail[i] in t && Intact(c, trail[i]) && trail[i].seqNo == s - i
    {
      assert RowAt(c, t, s - i);
    }
    forall i | 0 <= i < |trail| - 1
      ensures trail[i].prev == trail[i + 1].entryHash
    {
      assert RowAt(c, t, s - i);
    }
    assert RowAt(c, t, 0);
    assert Trail(c, t, t[s].entryHash, trail);
    WalkComplete(c, t, t[s].entryHash, trail, fuel);
  }

  // ----- the walk on arbitrary tables

  /** Where the walk goes next from a hash, if it goes on. */
  function Hop(c: Crypto, t: Table, h: Bytes): Option<Bytes> {
    match Find(t, h)
    case None => None
    case Some(row) => if !Intact(c, row) || row.seqNo == 0 then None else Some(row.prev)
  }

  function After(c: Crypto, t: Table, h: Bytes, k: nat): Option<Bytes>
    decreases k
  {
    if k == 0 then Some(h)
    else match Hop(c, t, h)
      case None => None
      case Some(next) => After(c, t, next, k - 1)
  }

  lemma {:induction false} UnfinishedIff(c: Crypto, t: Table, h: Bytes, fuel: nat)
    ensures Walk(c, t, h, fuel).Unfinished? <==> After(c, t, h, fuel).Some?
    decreases fuel
  {
    hide Intact, Genesis;
    if fuel > 0 && Hop(c, t, h).Some? {
      UnfinishedIff(c, t, Hop(c, t, h).value, fuel - 1);
    }
  }

  lemma {:induction false} AfterAdd(c: Crypto, t: Table, h: Bytes, i: nat, k: nat)
    ensures After(c, t, h, i + k)
         == if After(c, t, h, i).Some? then After(c, t, After(c, t, h, i).value, k) else None
    decreases i
  {
    hide Hop;
    if i > 0 && Hop(c, t, h).Some? {
      AfterAdd(c, t, Hop(c, t, h).value, i - 1, k);
    }
  }

  /** A walk that meets a hash again never ends. */
  lemma {:induction false} RepeatsForever(c: Crypto, t: Table, h: Bytes, i: nat, j: nat, n: nat)
    requires i < j && After(c, t, h, j).Some? && After(c, t, h, i) == After(c, t, h, j)
    ensures After(c, t, h, n).Some?
    decreases n
  {
    if n < j {
      AfterAdd(c, t, h, n, j - n);
    } else {
      AfterAdd(c, t, h, j, n - j);
      AfterAdd(c, t, h, i, n - j);
      RepeatsForever(c, t, h, i, j, i + (n - j));
    }
  }

  lemma {:induction false} RepeatedRow(rows: seq<Row>, t: Table)
    requires |rows| > |t| && forall i :: 0 <= i < |rows| ==> rows[i] in t
    ensures exists i, j :: 0 <= i < j < |rows| && rows[i] == rows[j]
  {
    if forall i, j :: 0 <= i < j < |rows| ==> rows[i] != rows[j] {
      DistinctRows(rows);
      RowSetBound(t);
      SubsetSize(set r | r in rows, set r | r in t);
    }
  }

  lemma {:induction false} DistinctRows(rows: seq<Row>)
    requires forall i, j :: 0 <= i < j < |rows| ==> rows[i] != rows[j]
    ensures |set r | r in rows| == |rows|
  {
    if rows != [] {
      DistinctRows(rows[1..]);
      assert (set r | r in rows) == (set r | r in rows[1..]) + {rows[0]};
    }
  }

  lemma {:induction false} RowSetBound(t: Table)
    ensures |set r | r in t| <= |t|
  {
    if t != [] {
      RowSetBound(t[1..]);
      assert (set r | r in t) == (set r | r in t[1..]) + {t[0]};
    }
  }

  /** Row found at each of the first n hops. */
  ghost function Visited(c: Crypto, t: Table, h: Bytes, n: nat): (r: seq<Row>)
    requires After(c, t, h, n).Some?
    ensures |r| == n
    ensures forall k :: 0 <= k < n ==> r[k] in t && After(c, t, h, k) == Some(r[k].entryHash)
    decreases n
  {
    if n == 0 then []
    else
      var row := Find(t, h).value;
      var rest := Visited(c, t, row.prev, n - 1);
      var r := [row] + rest;
      assert forall k :: 0 < k < n ==> r[k] == rest[k - 1] && After(c, t, h, k) == After(c, t, row.prev, k - 1);
      r
  }

  /** One row more than the table holds decides the matter: a walk still unfinished
      then would never end, and any other outcome no longer changes. */
  lemma BoundDecides(c: Crypto, t: Table, h: Bytes, fuel: nat)
    requires fuel > |t|
    ensures Walk(c, t, h, fuel) == Walk(c, t, h, |t| + 1)
  {
    UnfinishedIff(c, t, h, |t| + 1);
    UnfinishedIff(c, t, h, fuel);
    hide Walk, Hop;
    if After(c, t, h, |t| + 1).Some? {
      var rows := Visited(c, t, h, |t| + 1);
      RepeatedRow(rows, t);
      var i, j :| 0 <= i < j < |rows| && rows[i] == rows[j];
      RepeatsForever(c, t, h, i, j, fuel);
    } else {
      WalkStable(c, t, h, |t| + 1, fuel);
    }
  }

  lemma {:induction false} WalkStable(c: Crypto, t: Table, h: Bytes, fuel: nat, more: nat)
    requires fuel <= more && !Walk(c, t, h, fuel).Unfinished?
    ensures Walk(c, t, h, more) == Walk(c, t, h, fuel)
    decreases fuel
  {
    hide Intact, Genesis;
    var found := Find(t, h);
    if found.Some? && Intact(c, found.value) && found.value.seqNo != 0 {
      WalkStable(c, t, found.value.prev, fuel - 1, more - 1);
    }
  }

  /** The backward loop. The source's loop has no bound; here it stops after one row
      more than the table holds, when it could only go on forever. */
  method VerifyChain(c: Crypto, t: Table, target: Bytes) returns (r: Outcome)
    ensures forall fuel: nat :: fuel > |t| ==> r == Walk(c, t, target, fuel)
  {
    hide Intact, Genesis;
    var current, left := target, |t| + 1;
    var trail: seq<Row> := [];
    forall fuel: nat | fuel > |t|
      ensures Walk(c, t, target, fuel) == Walk(c, t, target, |t| + 1)
    {
      BoundDecides(c, t, target, fuel);
    }
    while left > 0
      invariant 0 <= left <= |t| + 1
      invariant Walk(c, t, target, |t| + 1) == Prepend(trail, Walk(c, t, current, left))
    {
      var found := Find(t, current);
      if found == None || !Intact(c, found.value) {
        return Raised;
      }
      var row := found.value;
      if row.seqNo == 0 {
        if row.prev != Genesis() {
          return Raised;
        }
        return Verified(trail + [row]);
      }
      PrependStep(trail, row, Walk(c, t, row.prev, left - 1));
      trail := trail + [row];
      current, left := row.prev, left - 1;
    }
    return Unfinished;
  }

  function Prepend(rows: seq<Row>, o: Outcome): Outcome {
    match o
    case Verified(trail) => Verified(rows + trail)
    case Raised => Raised
    case Unfinished => Unfinished
  }

  lemma PrependStep(rows: seq<Row>, row: Row, o: Outcome)
    ensures Prepend(rows, Prepend([row], o)) == Prepend(rows + [row], o)
  {
    if o.Verified? {
      assert rows + ([row] + o.trail) == rows + [row] + o.trail;
    }
  }

  // ----- appending

  /** What a writer learns from the last row. */
  datatype Held = Held(seqNo: int, prev: Bytes)

  function ReadHead(t: Table): Held {
    if t == [] then Held(0, Genesis())
    else Held(t[|t| - 1].seqNo + 1, t[|t| - 1].entryHash)
  }

  function MakeRow(c: Crypto, held: Held, p: Payload, timestamp: Bytes): Option<Row> {
    var payloadHash := c.sha(PayloadMessage(c, p));
    if !Packable(held.seqNo, held.prev, payloadHash) then None
    else Some(Row(held.seqNo, timestamp, held.prev, payloadHash,
                  c.sha(EntryMessage(held.seqNo, held.prev, payloadHash)), p))
  }

  function Place(t: Table, r: Row): Table {
    if t == [] || t[|t| - 1].seqNo < r.seqNo then t + [r]
    else Place(t[..|t| - 1], r) + [t[|t| - 1]]
  }

  /** INSERT under the primary key and the unique hash; None is an integrity error. */
  function Insert(t: Table, r: Row): Option<Table> {
    if exists i :: 0 <= i < |t| && (t[i].seqNo == r.seqNo || t[i].entryHash == r.entryHash) then None
    else Some(Place(t, r))
  }

  lemma {:induction false} PlaceAdds(t: Table, r: Row)
    ensures multiset(Place(t, r)) == multiset(t) + multiset{r}
    ensures forall x :: x in Place(t, r) <==> x in t || x == r
  {
    if t != [] && !(t[|t| - 1].seqNo < r.seqNo) {
      var n := |t| - 1;
      PlaceAdds(t[..n], r);
      assert t == t[..n] + [t[n]];
      hide Place;
    }
  }

  lemma StoredAppend(t: Table, r: Row)
    requires Stored(t) && forall x :: x in t ==> x.seqNo < r.seqNo && x.entryHash != r.entryHash
    ensures Stored(t + [r])
  {
    assert forall i :: 0 <= i < |t| ==> t[i] in t;
  }

  lemma StoredFront(t: Table)
    requires Stored(t) && t != []
    ensures Stored(t[..|t| - 1])
    ensures forall x :: x in t[..|t| - 1] ==> x.seqNo < t[|t| - 1].seqNo && x.entryHash != t[|t| - 1].entryHash
  {
  }

  lemma {:induction false} PlaceStored(t: Table, r: Row)
    requires Stored(t) && forall x :: x in t ==> x.seqNo != r.seqNo && x.entryHash != r.entryHash
    ensures Stored(Place(t, r))
  {
    if t == [] {
      assert t + [r] == [r];
    } else {
      var n := |t| - 1;
      StoredFront(t);
      assert t[n] in t;
      assert forall x :: x in t[..n] ==> x in t;
      assert forall x :: x in t ==> x in t[..n] || x == t[n];
      hide Stored;
      if t[n].seqNo < r.seqNo {
        StoredAppend(t, r);
      } else {
        PlaceStored(t[..n], r);
        PlaceAdds(t[..n], r);
        StoredAppend(Place(t[..n], r), t[n]);
      }
    }
  }

  /** An insert adds exactly its row and keeps the table's constraints, wherever the key
      falls; it fails exactly on a used key or hash. */
  lemma InsertIs(t: Table, r: Row)
    requires Stored(t)
    ensures Insert(t, r) == None <==> exists x :: x in t && (x.seqNo == r.seqNo || x.entryHash == r.entryHash)
    ensures Insert(t, r).Some? ==>
              Stored(Insert(t, r).value) && multiset(Insert(t, r).value) == multiset(t) + multiset{r}
  {
    assert forall i :: 0 <= i < |t| ==> t[i] in t;
    if Insert(t, r).Some? {
      PlaceStored(t, r);
      PlaceAdds(t, r);
      hide Place, Stored;
    }
  }

  /** A head that was current at some length of the table. */
  ghost predicate WasHead(t: Table, held: Held) {
    0 <= held.seqNo <= |t| && held.prev == HeadAt(t, held.seqNo)
  }

  lemma ReadHeadIsHead(c: Crypto, t: Table)
    requires Chained(c, t)
    ensures WasHead(t, ReadHead(t)) && ReadHead(t).seqNo == |t|
  {
    hide Intact, Genesis;
    assert t != [] ==> RowAt(c, t, |t| - 1);
  }

  lemma MadeRow(c: Crypto, held: Held, p: Payload, timestamp: Bytes)
    requires MakeRow(c, held, p, timestamp).Some?
    ensures var r := MakeRow(c, held, p, timestamp).value;
            Intact(c, r) && r.seqNo == held.seqNo && r.prev == held.prev && r.payload == p
  {
  }

  /** The row an append of p to the table is to add, in full. */
  ghost predicate Continues(c: Crypto, t: Table, p: Payload, timestamp: Bytes, r: Row) {
    && r.payload == p && r.timestamp == timestamp && r.seqNo == |t|
    && r.prev == (if t == [] then Ascii("GENESIS-DGX-LEDGER-V1") else t[|t| - 1].entryHash)
    && r.payloadHash == c.sha(Ascii("DGX-LEDGER-PAYLOAD-V1") + c.canon(p))
    && Packable(r.seqNo, r.prev, r.payloadHash) && r.entryHash == c.sha(EntryMessage(r.seqNo, r.prev, r.payloadHash))
  }

  lemma MakeRowIs(c: Crypto, t: Table, held: Held, p: Payload, timestamp: Bytes, r: Row)
    requires WasHead(t, held) && held.seqNo == |t|
    ensures MakeRow(c, held, p, timestamp) == Some(r) <==> Continues(c, t, p, timestamp, r)
  {
    hide Pow256, EntryMessage, Ascii;
  }

  /** No row can be appended: the entry cannot be packed or its hash is taken. */
  ghost predicate Refused(c: Crypto, t: Table, p: Payload, timestamp: Bytes) {
    !exists r :: Continues(c, t, p, timestamp, r) && forall i :: 0 <= i < |t| ==> t[i].entryHash != r.entryHash
  }

  lemma ChainedExtend(c: Crypto, t: Table, r: Row)
    requires Chained(c, t) && Intact(c, r) && r.seqNo == |t| && r.prev == HeadAt(t, |t|)
    ensures Chained(c, t + [r])
  {
    hide Intact, Genesis;
    var t' := t + [r];
    forall i | 0 <= i < |t'|
      ensures RowAt(c, t', i)
    {
      if i < |t| {
        assert RowAt(c, t, i);
      }
    }
  }

  lemma StaleInsert(c: Crypto, t: Table, r: Row)
    requires Chained(c, t) && 0 <= r.seqNo < |t|
    ensures Insert(t, r) == None
  {
    hide Intact, Genesis;
    assert RowAt(c, t, r.seqNo);
  }

  /** Inserting against the current head extends the chain; against a stale head it
      fails on the primary key. */
  lemma InsertExtends(c: Crypto, t: Table, held: Held, p: Payload, timestamp: Bytes, r: Row)
    requires Stored(t) && Chained(c, t) && WasHead(t, held)
    requires MakeRow(c, held, p, timestamp) == Some(r)
    ensures held.seqNo < |t| ==> Insert(t, r) == None
    ensures Insert(t, r).Some? ==>
              held.seqNo == |t| && Insert(t, r).value == t + [r] && Stored(t + [r]) && Chained(c, t + [r])
    ensures r.payload == p && r.seqNo == held.seqNo
  {
    MadeRow(c, held, p, timestamp);
    if held.seqNo < |t| {
      StaleInsert(c, t, r);
    } else {
      hide Intact, Genesis, MakeRow;
      ChainedExtend(c, t, r);
      assert t != [] ==> RowAt(c, t, |t| - 1);
      assert forall i :: 0 <= i < |t| ==> RowAt(c, t, i);
    }
  }

  // ----- concurrent writers

  datatype Pending = Pending(held: Held, payload: Payload)

  datatype Win = Win(writer: nat, seqNo: int)

  /** The table, the writers between their read and their insert, and the log of
      successful inserts. */
  datatype State = State(table: Table, writers: map<nat, Pending>, wins: seq<Win>)

  datatype Event = Read(writer: nat, payload: Payload) | Write(writer: nat, timestamp: Bytes)

  function Next(c: Crypto, s: State, e: Event): State {
    match e
    case Read(w, p) =>
      if w in s.writers then s else s.(writers := s.writers[w := Pending(ReadHead(s.table), p)])
    case Write(w, timestamp) =>
      if w !in s.writers then s
      else
        var gone := s.(writers := s.writers - {w});
        match MakeRow(c, s.writers[w].held, s.writers[w].payload, timestamp)
        case None => gone
        case Some(row) =>
          match Insert(s.table, row)
          case None => gone
          case Some(t) => gone.(table := t, wins := s.wins + [Win(w, row.seqNo)])
  }

  function Run(c: Crypto, s: State, events: seq<Event>): State {
    if events == [] then s
    else Next(c, Run(c, s, events[..|events| - 1]), events[|events| - 1])
  }

  ghost predicate Inv(c: Crypto, s: State) {
    && Stored(s.table) && Chained(c, s.table)
    && forall w :: w in s.writers ==> WasHead(s.table, s.writers[w].held)
  }

  /** How a state may grow: rows are only added at the end, one per win, and the
      wins carry consecutive sequence numbers. */
  ghost predicate Grows(s: State, s': State) {
    && s.table <= s'.table && s.wins <= s'.wins
    && |s'.table| - |s.table| == |s'.wins| - |s.wins|
    && forall i :: |s.wins| <= i < |s'.wins| ==> s'.wins[i].seqNo == |s.table| + i - |s.wins|
  }

  lemma WasHeadGrows(t: Table, t': Table, held: Held)
    requires WasHead(t, held) && t <= t'
    ensures WasHead(t', held)
  {
  }

  lemma NextKeeps(c: Crypto, s: State, e: Event)
    requires Inv(c, s)
    ensures Inv(c, Next(c, s, e)) && Grows(s, Next(c, s, e))
  {
    hide Intact, Genesis, MakeRow, Insert, Chained, Stored;
    var s' := Next(c, s, e);
    match e
    case Read(w, p) => ReadHeadIsHead(c, s.table);
    case Write(w, timestamp) =>
      if w in s.writers {
        var row := MakeRow(c, s.writers[w].held, s.writers[w].payload, timestamp);
        if row.Some? {
          InsertExtends(c, s.table, s.writers[w].held, s.writers[w].payload, timestamp, row.value);
          forall v | v in s'.writers
            ensures WasHead(s'.table, s'.writers[v].held)
          {
            WasHeadGrows(s.table, s'.table, s.writers[v].held);
          }
        }
      }
  }

  /** Any number of writers in any interleaving leave a gapless chain that the full
      verifier accepts, and the k-th success got the k-th free sequence number: at
      most one writer per head wins. */
  lemma {:induction false} WritersSafe(c: Crypto, s: State, events: seq<Event>)
    requires Inv(c, s)
    ensures Inv(c, Run(c, s, events)) && Grows(s, Run(c, s, events))
  {
    hide Inv, Next;
    if events != [] {
      WritersSafe(c, s, events[..|events| - 1]);
      NextKeeps(c, Run(c, s, events[..|events| - 1]), events[|events| - 1]);
    }
  }

  /** A writer holding a stale head fails without changing the table; one holding
      the current head succeeds unless its new hash is already taken or the entry
      cannot be packed. */
  lemma WriteOutcome(c: Crypto, s: State, w: nat, timestamp: Bytes)
    requires Inv(c, s) && w in s.writers
    ensures s.writers[w].held.seqNo < |s.table| ==> Next(c, s, Write(w, timestamp)).table == s.table
    ensures s.writers[w].held.seqNo == |s.table| ==>
              var t, p := Next(c, s, Write(w, timestamp)).table, s.writers[w].payload;
              if Refused(c, s.table, p, timestamp) then t == s.table
              else |t| == |s.table| + 1 && s.table <= t && Continues(c, s.table, p, timestamp, t[|s.table|])
    ensures var s' := Next(c, s, Write(w, timestamp));
            && s'.writers == s.writers - {w}
            && s'.wins == if s'.table == s.table then s.wins else s.wins + [Win(w, |s.table|)]
  {
    hide Intact, Genesis, Chained, Stored, Continues;
    var held, p := s.writers[w].held, s.writers[w].payload;
    var row := MakeRow(c, held, p, timestamp);
    if row.Some? {
      InsertExtends(c, s.table, held, p, timestamp, row.value);
    }
    hide MakeRow;
    if held.seqNo == |s.table| {
      CurrentInsert(c, s.table, held, p, timestamp);
    }
  }

  /** A current writer's row goes in unless it cannot be made or its hash is taken. */
  lemma CurrentInsert(c: Crypto, t: Table, held: Held, p: Payload, timestamp: Bytes)
    requires Stored(t) && Chained(c, t) && WasHead(t, held) && held.seqNo == |t|
    ensures var row := MakeRow(c, held, p, timestamp);
            && (Refused(c, t, p, timestamp) <==> row == None || Insert(t, row.value) == None)
            && (row.Some? ==> Continues(c, t, p, timestamp, row.value))
  {
    hide Intact, Genesis, Chained, Stored, Continues, WasHead;
    var row := MakeRow(c, held, p, timestamp);
    forall r
      ensures row == Some(r) <==> Continues(c, t, p, timestamp, r)
    {
      MakeRowIs(c, t, held, p, timestamp, r);
    }
    if row.Some? {
      MadeRow(c, held, p, timestamp);
      hide MakeRow, Insert;
      FreshInsert(c, t, row.value);
    }
  }

  /** An idle writer learns the current head; if nobody comes in between, its write is
      an append. */
  lemma ReadThenWrite(c: Crypto, s: State, w: nat, p: Payload, timestamp: Bytes)
    requires Inv(c, s) && w !in s.writers
    ensures var t := Next(c, Next(c, s, Read(w, p)), Write(w, timestamp)).table;
            if Refused(c, s.table, p, timestamp) then t == s.table
            else |t| == |s.table| + 1 && s.table <= t && Continues(c, s.table, p, timestamp, t[|s.table|])
  {
    var s1 := Next(c, s, Read(w, p));
    NextKeeps(c, s, Read(w, p));
    ReadHeadIsHead(c, s.table);
    hide Inv, Refused, Continues, Chained;
    assert s1.writers[w] == Pending(ReadHead(s.table), p) && s1.table == s.table;
    WriteOutcome(c, s1, w, timestamp);
  }

  lemma FreshInsert(c: Crypto, t: Table, r: Row)
    requires Chained(c, t) && r.seqNo == |t|
    ensures Insert(t, r).Some? <==> forall i :: 0 <= i < |t| ==> t[i].entryHash != r.entryHash
  {
    hide Intact, Genesis;
    forall i | 0 <= i < |t|
      ensures t[i].seqNo != r.seqNo
    {
      assert RowAt(c, t, i);
    }
  }

  // ----- what the head commits to

  /** The messages whose hashes the table relies on. */
  ghost predicate Hashed(c: Crypto, t: Table, m: Bytes) {
    exists i :: 0 <= i < |t| &&
      (m == PayloadMessage(c, t[i].payload)
       || (Packable(t[i].seqNo, t[i].prev, t[i].payloadHash)
           && m == EntryMessage(t[i].seqNo, t[i].prev, t[i].payloadHash)))
  }

  /** The two tables do not exhibit a hash collision between them. */
  ghost predicate CollisionFree(c: Crypto, t: Table, t': Table) {
    forall m, m' ::
      (Hashed(c, t, m) || Hashed(c, t', m)) && (Hashed(c, t, m') || Hashed(c, t', m')) && c.sha(m) == c.sha(m') ==>
        m == m'
  }

  /** Digests are 64 hex characters and canonical JSON is faithful. */
  ghost predicate Faithful(c: Crypto) {
    && (forall m :: |c.sha(m)| == 64)
    && (forall p, q :: c.canon(p) == c.canon(q) ==> p == q)
  }

  /** Every hashed column; the timestamp is not hashed. */
  ghost predicate SameContent(r: Row, r': Row) {
    && r.seqNo == r'.seqNo && r.prev == r'.prev && r.payloadHash == r'.payloadHash
    && r.entryHash == r'.entryHash && r.payload == r'.payload
  }

  lemma SameRow(c: Crypto, t: Table, t': Table, i: int, j: int)
    requires Faithful(c) && CollisionFree(c, t, t')
    requires 0 <= i < |t| && 0 <= j < |t'|
    requires Intact(c, t[i]) && Intact(c, t'[j]) && t[i].entryHash == t'[j].entryHash
    ensures SameContent(t[i], t'[j])
  {
    hide Pow256, Genesis, EntryDomain, PayloadDomain;
    var r, r' := t[i], t'[j];
    var m, m' := EntryMessage(r.seqNo, r.prev, r.payloadHash), EntryMessage(r'.seqNo, r'.prev, r'.payloadHash);
    assert Hashed(c, t, m) && Hashed(c, t', m');
    EntryMessageInjective(r.seqNo, r.prev, r.payloadHash, r'.seqNo, r'.prev, r'.payloadHash);
    var n, n' := PayloadMessage(c, r.payload), PayloadMessage(c, r'.payload);
    assert Hashed(c, t, n) && Hashed(c, t', n');
    assert n[|PayloadDomain()|..] == c.canon(r.payload) && n'[|PayloadDomain()|..] == c.canon(r'.payload);
  }

  lemma {:induction false} SameHeadAt(c: Crypto, t: Table, t': Table, i: nat, j: nat)
    requires Faithful(c) && CollisionFree(c, t, t')
    requires Chained(c, t) && Chained(c, t') && i <= |t| && j <= |t'|
    requires HeadAt(t, i) == HeadAt(t', j)
    ensures i == j
    ensures forall k :: 0 <= k < i ==> SameContent(t[k], t'[k])
  {
    hide CollisionFree, SameContent, Chained, RowAt, Faithful;
    if i > 0 {
      RowMeans(c, t, i - 1);
    }
    if j > 0 {
      RowMeans(c, t', j - 1);
    }
    hide Genesis, Intact;
    if i > 0 && j > 0 {
      SameRow(c, t, t', i - 1, j - 1);
      SameContentMeans(t[i - 1], t'[j - 1]);
      SameHeadAt(c, t, t', i - 1, j - 1);
    }
  }

  lemma RowMeans(c: Crypto, t: Table, i: nat)
    requires Chained(c, t) && i < |t|
    ensures t[i].seqNo == i && t[i].prev == HeadAt(t, i) && Intact(c, t[i])
    ensures Faithful(c) ==> |t[i].entryHash| == 64
  {
    hide Genesis, EntryMessage, PayloadMessage, Pow256;
    assert RowAt(c, t, i);
  }

  lemma SameContentMeans(r: Row, r': Row)
    requires SameContent(r, r')
    ensures r.seqNo == r'.seqNo && r.prev == r'.prev
  {
  }

  /** Two accepted tables with the same head agree in length and in every hashed
      column of every row. */
  lemma SameHeadSameTable(c: Crypto, t: Table, t': Table)
    requires Faithful(c) && CollisionFree(c, t, t')
    requires Chained(c, t) && Chained(c, t')
    requires HeadAt(t, |t|) == HeadAt(t', |t'|)
    ensures |t| == |t'|
    ensures forall k :: 0 <= k < |t| ==> SameContent(t[k], t'[k])
  {
    hide CollisionFree, Faithful, Chained, SameContent, Genesis;
    SameHeadAt(c, t, t', |t|, |t'|);
  }

  // ----- the store object

  class TransparencyStore {
    const crypto: Crypto
    var table: Table

    ghost predicate Valid()
      reads this
    {
      Stored(table) && Chained(crypto, table)
    }

    constructor (crypto: Crypto)
      ensures this.crypto == crypto && table == [] && Valid()
    {
      this.crypto, table := crypto, [];
    }

    /** One uncontended append: read the head, build the row, insert it. */
    method Append(payload: Payload, timestamp: Bytes) returns (entryHash: Option<Bytes>)
      requires Valid()
      modifies this
      ensures Valid()
      ensures entryHash == None <==> Refused(crypto, old(table), payload, timestamp)
      ensures entryHash == None ==> table == old(table)
      ensures entryHash.Some? ==>
                && |table| == |old(table)| + 1 && old(table) <= table
                && Continues(crypto, old(table), payload, timestamp, table[|table| - 1])
                && table[|table| - 1].entryHash == entryHash.value
    {
      hide Intact, Genesis, Chained, Stored, Refused, Continues;
      var held := ReadHead(table);
      ReadHeadIsHead(crypto, table);
      var row := MakeRow(crypto, held, payload, timestamp);
      CurrentInsert(crypto, table, held, payload, timestamp);
      if row == None {
        return None;
      }
      InsertExtends(crypto, table, held, payload, timestamp, row.value);
      hide MakeRow;
      var inserted := Insert(table, row.value);
      if inserted == None {
        return None;
      }
      table := inserted.value;
      return Some(row.value.entryHash);
    }
  }
}
