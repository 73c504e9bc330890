/** How the in-memory and the PostgreSQL store relate, although they check in a different order and record expiry
    differently: exactly when they grant the same executions. */
module StoreAgreement {
  import opened Text
  import opened Assistant

  function MemoryRun(ops: seq<Op>): (s: Memory) {
    if ops == [] then Memory(map[], map[]) else MemoryStep(MemoryRun(ops[..|ops| - 1]), ops[|ops| - 1]).0
  }

  function PostgresRun(ops: seq<Op>): (s: Postgres) {
    if ops == [] then Postgres(map[], map[]) else PostgresStep(PostgresRun(ops[..|ops| - 1]), ops[|ops| - 1]).0
  }

  /** What the service guarantees of every call: new proposals await confirmation under an ID no earlier
      proposal carries, and confirmation keys are not blank. */
  predicate WellFormed(earlier: seq<Op>, op: Op) {
    match op
    case Create(p, _, _) =>
      p.status == Awaiting && p.consumedAt == None && forall e :: e in earlier && e.Create? ==> e.proposal.id != p.id
    case Begin(_, _, _, key, _) => key != ""
    case Finish(_, _, _, _) => true
  }

  /** Every call of the run is well formed; nothing is asked of the clock stamps, which overlapping requests may
      bring to the store in any order. */
  predicate Orderly(ops: seq<Op>) {
    ops == [] || (Orderly(ops[..|ops| - 1]) && WellFormed(ops[..|ops| - 1], ops[|ops| - 1]))
  }

  // ----- what decides -----

  /** The proposal created under the ID. */
  function Offer(ops: seq<Op>, id: int): (p: Option<Proposal>) {
    if ops == [] then None
    else if Offer(ops[..|ops| - 1], id).Some? then Offer(ops[..|ops| - 1], id)
    else
      var op := ops[|ops| - 1];
      if op.Create? && op.proposal.id == id then Some(op.proposal) else None
  }

  /** A Begin call by the owner of the proposal that is stamped at or after its expiry. */
  predicate LateCall(earlier: seq<Op>, op: Op, id: int) {
    && op.Begin? && op.id == id
    && Offer(earlier, id).Some? && OwnedBy(Offer(earlier, id).value, op.who) && Offer(earlier, id).value.expiresAt <= op.now
  }

  /** Such a call, with whatever token, came before. */
  predicate Late(ops: seq<Op>, id: int) { exists i :: 0 <= i < |ops| && LateCall(ops[..i], ops[i], id) }

  lemma LateAppend(ops: seq<Op>, op: Op, id: int)
    ensures Late(ops + [op], id) <==> Late(ops, id) || LateCall(ops, op, id)
  {
    var all := ops + [op];
    assert all[..|ops|] == ops && all[|ops|] == op;
    if Late(ops, id) {
      var i :| 0 <= i < |ops| && LateCall(ops[..i], ops[i], id);
      assert all[..i] == ops[..i] && all[i] == ops[i];
    }
    if Late(all, id) {
      var i :| 0 <= i < |all| && LateCall(all[..i], all[i], id);
      if i < |ops| { assert all[..i] == ops[..i] && all[i] == ops[i]; }
    }
  }

  lemma OfferAppend(ops: seq<Op>, op: Op, id: int)
    ensures Offer(ops + [op], id) == if Offer(ops, id).Some? then Offer(ops, id)
                                     else if op.Create? && op.proposal.id == id then Some(op.proposal) else None
  {
    assert (ops + [op])[..|ops|] == ops;
  }

  /** Nothing is offered, hence nothing late, under an ID that no call has created. */
  lemma {:induction false} NotOffered(ops: seq<Op>, id: int)
    requires forall e :: e in ops && e.Create? ==> e.proposal.id != id
    ensures Offer(ops, id).None? && !Late(ops, id)
  {
    if ops != [] {
      var earlier, op := ops[..|ops| - 1], ops[|ops| - 1];
      assert ops == earlier + [op] && op in ops;
      NotOffered(earlier, id);
      LateAppend(earlier, op, id);
    }
  }

  // ----- the relation between the stores -----

  /** What is true of every row of the table. */
  predicate SoundRow(row: Row) {
    && (row.confirmationKey.Some? ==> row.confirmationKey.value != "")
    && (row.confirmationKey.None? <==> row.proposal.status == Awaiting || row.proposal.status == Expired)
    && (row.proposal.status == Executing ==> row.proposal.consumedAt.Some?)
  }

  /** Equal, unless a late call made the memory store expire a proposal that the table, whose token check comes
      first, went on listing as awaiting; from there the table may take it anywhere. */
  predicate RelatedRow(r: Record, row: Row, late: bool) {
    && SoundRow(row) && SameOffer(r.proposal, row.proposal)
    && (r.proposal.status == row.proposal.status ==>
          r.proposal == row.proposal && r.confirmationKey == (match row.confirmationKey case None => "" case Some(k) => k))
    && (r.proposal.status != row.proposal.status ==> r.proposal.status == Expired && r.confirmationKey == "")
    && (row.proposal.status == Awaiting ==> r.proposal.(status := Awaiting) == row.proposal)
    && (r.proposal.status == Awaiting ==> !late)
    && (r.proposal.status == Expired ==> late)
  }

  ghost predicate RelatedAt(m: Memory, p: Postgres, ops: seq<Op>, id: int) {
    id in m.values ==>
      && id in p.rows && RelatedRow(m.values[id], p.rows[id], Late(ops, id))
      && Offer(ops, id).Some? && SameOffer(Offer(ops, id).value, m.values[id].proposal)
  }

  ghost predicate Related(m: Memory, p: Postgres, ops: seq<Op>) {
    && m.values.Keys == p.rows.Keys && m.creates.Keys == p.idempotency.Keys
    && (forall id :: RelatedAt(m, p, ops, id))
  }

  /** One Begin call on related records: the memory store never grants more than the table, and grants less exactly
      after a late call. */
  lemma BeginRelated(r: Record, row: Row, late: bool, op: Op)
    requires RelatedRow(r, row, late) && op.Begin? && op.key != ""
    ensures var m := MemoryBegin(r, op.who, op.token, op.key, op.now);
            var p := PostgresBegin(row, op.who, op.token, op.key, op.now);
            && RelatedRow(m.0, p.0, late || (OwnedBy(r.proposal, op.who) && r.proposal.expiresAt <= op.now))
            && SameOffer(r.proposal, m.0.proposal)
            && (m.1.Granted? ==> p.1 == m.1)
            && (p.1.Granted? ==> (m.1.Granted? <==> !late))
            && (m.1.Replayed? ==> if op.token == row.proposal.token then p.1 == m.1 else p.1 == Refused(Invalid))
            && (p.1.Replayed? ==> p.1 == m.1 || r.proposal.status == Expired)
  {
  }

  lemma FinishRelated(r: Record, row: Row, late: bool, status: Status, result: Outcome, at: int)
    requires RelatedRow(r, row, late)
    ensures MemoryFinish(r, status, result, at).Some? ==> PostgresFinish(row, status, result).Some?
    ensures var r' := match MemoryFinish(r, status, result, at) case None => r case Some(x) => x;
            var row' := match PostgresFinish(row, status, result) case None => row case Some(x) => x;
            RelatedRow(r', row', late) && SameOffer(r.proposal, r'.proposal)
  {
  }

  lemma CreateRelated(m: Memory, p: Postgres, ops: seq<Op>, op: Op, id: int)
    requires Related(m, p, ops) && WellFormed(ops, op) && op.Create?
    ensures RelatedAt(MemoryStep(m, op).0, PostgresStep(p, op).0, ops + [op], id)
    ensures op.proposal.id !in m.values
  {
    hide Late, Offer, RelatedRow;
    NewID(m, p, ops, op);
    assert RelatedAt(m, p, ops, id);
    LateAppend(ops, op, id);
    OfferAppend(ops, op, id);
    FreshRelated(op.proposal, op.digest);
    assert !LateCall(ops, op, id);
  }

  lemma NewID(m: Memory, p: Postgres, ops: seq<Op>, op: Op)
    requires Related(m, p, ops) && WellFormed(ops, op) && op.Create?
    ensures op.proposal.id !in m.values && Offer(ops, op.proposal.id).None? && !Late(ops, op.proposal.id)
  {
    NotOffered(ops, op.proposal.id);
    hide Late, Offer, RelatedRow;
    assert RelatedAt(m, p, ops, op.proposal.id);
  }

  lemma FreshRelated(p: Proposal, digest: Digest)
    requires p.status == Awaiting
    ensures RelatedRow(Record(p, digest, ""), Row(p, None), false)
  {
  }

  /** Every row stays related, whichever call was made. */
  lemma RowRelated(m: Memory, p: Postgres, ops: seq<Op>, op: Op, id: int)
    requires Related(m, p, ops) && WellFormed(ops, op) && !op.Create?
    ensures RelatedAt(MemoryStep(m, op).0, PostgresStep(p, op).0, ops + [op], id)
  {
    hide Late, Offer, RelatedRow, SameOffer, MemoryBegin, PostgresBegin, MemoryFinish, PostgresFinish;
    assert RelatedAt(m, p, ops, id);
    LateAppend(ops, op, id);
    OfferAppend(ops, op, id);
    if id in m.values && id == op.id {
      var r, row, late := m.values[id], p.rows[id], Late(ops, id);
      SameTerms(Offer(ops, id).value, r.proposal, MemoryStep(m, op).0.values[id].proposal);
      if op.Begin? {
        BeginRelated(r, row, late, op);
      } else {
        FinishRelated(r, row, late, op.status, op.result, op.at);
      }
    }
  }

  lemma SameTerms(offer: Proposal, p: Proposal, q: Proposal)
    requires SameOffer(offer, p)
    ensures offer.workspace == p.workspace && offer.actor == p.actor && offer.expiresAt == p.expiresAt
    ensures SameOffer(p, q) ==> SameOffer(offer, q)
  {
  }

  lemma StepRelated(m: Memory, p: Postgres, ops: seq<Op>, op: Op)
    requires Related(m, p, ops) && WellFormed(ops, op)
    ensures Related(MemoryStep(m, op).0, PostgresStep(p, op).0, ops + [op])
  {
    hide RelatedAt, MemoryBegin, PostgresBegin, MemoryFinish, PostgresFinish;
    forall id ensures RelatedAt(MemoryStep(m, op).0, PostgresStep(p, op).0, ops + [op], id) {
      if op.Create? { CreateRelated(m, p, ops, op, id); } else { RowRelated(m, p, ops, op, id); }
    }
    if op.Create? { CreateRelated(m, p, ops, op, 0); } else { SameKeys(m, p, op); }
  }

  lemma SameKeys(m: Memory, p: Postgres, op: Op)
    requires !op.Create?
    ensures MemoryStep(m, op).0.values.Keys == m.values.Keys && PostgresStep(p, op).0.rows.Keys == p.rows.Keys
    ensures MemoryStep(m, op).0.creates == m.creates && PostgresStep(p, op).0.idempotency == p.idempotency
  {
    hide MemoryBegin, PostgresBegin, MemoryFinish, PostgresFinish;
  }

  lemma {:induction false} RunsRelated(ops: seq<Op>)
    requires Orderly(ops)
    ensures Related(MemoryRun(ops), PostgresRun(ops), ops)
  {
    if ops == [] {
      forall id ensures RelatedAt(MemoryRun(ops), PostgresRun(ops), ops, id) {}
    } else {
      hide Related, WellFormed, MemoryStep, PostgresStep;
      var earlier, op := ops[..|ops| - 1], ops[|ops| - 1];
      assert ops == earlier + [op];
      RunsRelated(earlier);
      StepRelated(MemoryRun(earlier), PostgresRun(earlier), earlier, op);
    }
  }

  /** The i-th call of the run got the proposal from the table. */
  predicate TableGrants(ops: seq<Op>, i: int, id: int)
    requires 0 <= i < |ops|
  {
    ops[i].Begin? && ops[i].id == id && PostgresStep(PostgresRun(ops[..i]), ops[i]).1.Grant?
  }

  /** The table granted the proposal after a late call. */
  predicate Outrun(ops: seq<Op>, id: int) { exists i :: 0 <= i < |ops| && TableGrants(ops, i, id) && Late(ops[..i], id) }

  lemma OutrunAppend(ops: seq<Op>, op: Op, id: int)
    ensures Outrun(ops + [op], id) <==>
            Outrun(ops, id) || (op.Begin? && op.id == id && PostgresStep(PostgresRun(ops), op).1.Grant? && Late(ops, id))
  {
    hide Late, PostgresStep, PostgresRun;
    var all := ops + [op];
    assert all[..|ops|] == ops && all[|ops|] == op;
    if Outrun(ops, id) {
      var i :| 0 <= i < |ops| && TableGrants(ops, i, id) && Late(ops[..i], id);
      assert all[..i] == ops[..i] && TableGrants(all, i, id);
    }
    if Outrun(all, id) {
      var i :| 0 <= i < |all| && TableGrants(all, i, id) && Late(all[..i], id);
      if i < |ops| { assert all[..i] == ops[..i] && TableGrants(ops, i, id); }
    } else {
      assert TableGrants(all, |ops|, id) <==> op.Begin? && op.id == id && PostgresStep(PostgresRun(ops), op).1.Grant?;
    }
  }

  /** The table took the proposal beyond the memory store, which holds it expired. */
  predicate Apart(m: Memory, p: Postgres, id: int) {
    && id in m.values && id in p.rows && p.rows[id].confirmationKey.Some?
    && m.values[id].proposal.status != p.rows[id].proposal.status
  }

  lemma {:induction false} OutrunIff(ops: seq<Op>, id: int)
    requires Orderly(ops)
    ensures Outrun(ops, id) <==> Apart(MemoryRun(ops), PostgresRun(ops), id)
  {
    if ops != [] {
      var earlier, op := ops[..|ops| - 1], ops[|ops| - 1];
      assert ops == earlier + [op];
      OutrunIff(earlier, id);
      RunsRelated(earlier);
      OutrunAppend(earlier, op, id);
      StepApart(MemoryRun(earlier), PostgresRun(earlier), earlier, op, id);
    }
  }

  lemma StepApart(m: Memory, p: Postgres, ops: seq<Op>, op: Op, id: int)
    requires Related(m, p, ops) && WellFormed(ops, op)
    ensures Apart(MemoryStep(m, op).0, PostgresStep(p, op).0, id) <==>
            Apart(m, p, id) || (op.Begin? && op.id == id && PostgresStep(p, op).1.Grant? && Late(ops, id))
  {
    hide Late, Offer;
    assert RelatedAt(m, p, ops, id);
    if op.Create? { CreateRelated(m, p, ops, op, id); }
    if op.Begin? && op.id == id && id in m.values { BeginApart(m.values[id], p.rows[id], Late(ops, id), op); }
    if op.Finish? && op.id == id && id in m.values { FinishRelated(m.values[id], p.rows[id], Late(ops, id), op.status, op.result, op.at); }
  }

  lemma BeginApart(r: Record, row: Row, late: bool, op: Op)
    requires RelatedRow(r, row, late) && op.Begin? && op.key != ""
    ensures var m := MemoryBegin(r, op.who, op.token, op.key, op.now);
            var p := PostgresBegin(row, op.who, op.token, op.key, op.now);
            p.0.confirmationKey.Some? && m.0.proposal.status != p.0.proposal.status <==>
              (row.confirmationKey.Some? && r.proposal.status != row.proposal.status) || (p.1.Granted? && late)
  {
  }

  /** The exact relation, for every run: what the memory store grants the table grants too, with the same proposal;
      what the table grants the memory store grants if and only if no late call came before. The memory store repeats
      an outcome that the table repeats only to a caller with the token, and what the table repeats the memory store
      repeats if and only if no late call preceded the table's grant. */
  lemma GrantsExactly(ops: seq<Op>, op: Op)
    requires Orderly(ops + [op])
    ensures var m, p := MemoryStep(MemoryRun(ops), op).1, PostgresStep(PostgresRun(ops), op).1;
            && (m.Grant? ==> p == m)
            && (p.Grant? ==> (m.Grant? <==> !Late(ops, op.id)))
            && (m.Replay? ==> if op.token == m.proposal.token then p == m else p == Nothing)
            && (p.Replay? ==> (m == p <==> !Outrun(ops, op.id)))
            && (p.Replay? && m != p ==> m == Nothing && Late(ops, op.id))
  {
    assert (ops + [op])[..|ops|] == ops;
    RunsRelated(ops);
    if op.Begin? {
      assert RelatedAt(MemoryRun(ops), PostgresRun(ops), ops, op.id);
      OutrunIff(ops, op.id);
      hide Late, Outrun, Offer, MemoryRun, PostgresRun, Orderly;
      if op.id in MemoryRun(ops).values {
        BeginRelated(MemoryRun(ops).values[op.id], PostgresRun(ops).rows[op.id], Late(ops, op.id), op);
      }
    }
  }

  // ----- calls that reach the store in the order of their stamps -----

  predicate NotBefore(ops: seq<Op>, now: int) { forall op :: op in ops && op.Begin? ==> op.now <= now }

  /** An orderly run whose calls were not overtaken between reading the clock and reaching the store. */
  predicate Admissible(ops: seq<Op>) {
    ops == [] ||
    var earlier, op := ops[..|ops| - 1], ops[|ops| - 1];
    Admissible(earlier) && WellFormed(earlier, op) && (op.Begin? ==> NotBefore(earlier, op.now))
  }

  lemma {:induction false} AdmissibleIsOrderly(ops: seq<Op>)
    requires Admissible(ops)
    ensures Orderly(ops)
  {
    if ops != [] { AdmissibleIsOrderly(ops[..|ops| - 1]); }
  }

  /** After a late call no call in stamp order is in time. */
  lemma LateIsOver(ops: seq<Op>, op: Op)
    requires op.Begin? && NotBefore(ops, op.now) && Late(ops, op.id)
    requires RelatedAt(MemoryRun(ops), PostgresRun(ops), ops, op.id) && op.id in MemoryRun(ops).values
    ensures MemoryRun(ops).values[op.id].proposal.expiresAt <= op.now
  {
    var i :| 0 <= i < |ops| && LateCall(ops[..i], ops[i], op.id);
    OfferStays(ops, i, op.id);
    assert ops[i] in ops;
  }

  lemma {:induction false} OfferStays(ops: seq<Op>, i: nat, id: int)
    requires i <= |ops| && Offer(ops[..i], id).Some?
    ensures Offer(ops, id) == Offer(ops[..i], id)
    decreases |ops|
  {
    if i < |ops| {
      var earlier := ops[..|ops| - 1];
      assert earlier[..i] == ops[..i];
      OfferStays(earlier, i, id);
    } else {
      assert ops[..i] == ops;
    }
  }

  /** In stamp order the stores differ at most in the expiry of an awaiting proposal. */
  ghost predicate InStep(m: Memory, p: Postgres, id: int) {
    id in m.values && id in p.rows ==>
      m.values[id].proposal.status == p.rows[id].proposal.status || p.rows[id].proposal.status == Awaiting
  }

  lemma {:induction false} AdmissibleInStep(ops: seq<Op>, id: int)
    requires Admissible(ops)
    ensures InStep(MemoryRun(ops), PostgresRun(ops), id)
  {
    if ops != [] {
      var earlier, op := ops[..|ops| - 1], ops[|ops| - 1];
      AdmissibleInStep(earlier, id);
      AdmissibleIsOrderly(earlier);
      RunsRelated(earlier);
      StaysInStep(earlier, op, id);
    }
  }

  lemma StaysInStep(ops: seq<Op>, op: Op, id: int)
    requires Related(MemoryRun(ops), PostgresRun(ops), ops) && InStep(MemoryRun(ops), PostgresRun(ops), id)
    requires WellFormed(ops, op) && (op.Begin? ==> NotBefore(ops, op.now))
    ensures InStep(MemoryStep(MemoryRun(ops), op).0, PostgresStep(PostgresRun(ops), op).0, id)
  {
    var m, p := MemoryRun(ops), PostgresRun(ops);
    assert RelatedAt(m, p, ops, id);
    if op.Create? { CreateRelated(m, p, ops, op, id); }
    if op.Begin? && id == op.id && id in m.values && Late(ops, id) { LateIsOver(ops, op); }
  }

  /** Corollary: when calls reach the stores in the order of their stamps, the next one is granted by one store
      exactly when it is granted by the other, with the same proposal; and the table replays a stored outcome exactly
      when the memory store does and the caller also shows the right token. */
  lemma GrantsAgree(ops: seq<Op>, op: Op)
    requires Admissible(ops + [op])
    ensures var m, p := MemoryStep(MemoryRun(ops), op).1, PostgresStep(PostgresRun(ops), op).1;
            && (m.Grant? <==> p.Grant?) && (m.Grant? ==> m == p)
            && (p.Replay? ==> m == p)
            && (p.Replay? <==> m.Replay? && op.Begin? && m.proposal.token == op.token)
  {
    assert (ops + [op])[..|ops|] == ops;
    AdmissibleIsOrderly(ops + [op]);
    AdmissiblePrefix(ops, op);
    OnlyBegin(MemoryRun(ops), PostgresRun(ops), op);
    hide *;
    GrantsExactly(ops, op);
    if op.Begin? {
      NotOutrun(ops, op.id);
      if PostgresStep(PostgresRun(ops), op).1.Grant? { GrantNotLate(ops, op); }
    }
  }

  lemma AdmissiblePrefix(ops: seq<Op>, op: Op)
    requires Admissible(ops + [op])
    ensures Admissible(ops) && (op.Begin? ==> NotBefore(ops, op.now))
  {
    assert (ops + [op])[..|ops|] == ops;
  }

  lemma OnlyBegin(m: Memory, p: Postgres, op: Op)
    ensures !op.Begin? ==> MemoryStep(m, op).1 == Nothing && PostgresStep(p, op).1 == Nothing
  {
  }

  lemma NotOutrun(ops: seq<Op>, id: int)
    requires Admissible(ops)
    ensures !Outrun(ops, id)
  {
    AdmissibleIsOrderly(ops);
    OutrunIff(ops, id);
    AdmissibleInStep(ops, id);
    RunsRelated(ops);
    hide Outrun, Late, Offer, MemoryRun, PostgresRun;
    assert RelatedAt(MemoryRun(ops), PostgresRun(ops), ops, id);
  }

  lemma GrantNotLate(ops: seq<Op>, op: Op)
    requires Admissible(ops) && op.Begin? && NotBefore(ops, op.now) && PostgresStep(PostgresRun(ops), op).1.Grant?
    ensures !Late(ops, op.id)
  {
    AdmissibleIsOrderly(ops);
    RunsRelated(ops);
    hide Late, Offer, MemoryRun, PostgresRun, NotBefore;
    assert RelatedAt(MemoryRun(ops), PostgresRun(ops), ops, op.id);
    if Late(ops, op.id) { LateIsOver(ops, op); }
  }

  /** Without the token the stores differ: the memory store repeats a finished outcome that the table refuses. */
  lemma ReplayNeedsToken()
    ensures exists r: Record, row: Row, who: Principal, token: Digest, key: string, now: int ::
              && RelatedRow(r, row, false) && MemoryBegin(r, who, token, key, now).1.Replayed?
              && PostgresBegin(row, who, token, key, now).1 == Refused(Invalid)
  {
    var p := Proposal(1, 1, 1, 1, Executed, RepositoryAdd(1, 1, "https://github.com/a/b", "core"), 1, 10, 7, Some(1), Outcome(2, 3));
    var r, row, who := Record(p, 0, "k"), Row(p, Some("k")), Principal(1, 1, 1, true);
    assert RelatedRow(r, row, false) && MemoryBegin(r, who, 8, "k", 2).1.Replayed?
           && PostgresBegin(row, who, 8, "k", 2).1 == Refused(Invalid);
  }
}
