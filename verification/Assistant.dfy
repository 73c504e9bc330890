/** The two proposal stores of the assistant: the mutex-guarded map of
    internal/analysis/agent/memory_store.go and the row-locking transactions of
    internal/platform/assistantstore/store.go. Digests are opaque values compared for equality. */
module Assistant {
  import opened Text

  type Digest = int

  datatype Status = Awaiting | Executing | Executed | Failed | Expired

  datatype Outcome = Outcome(repositoryID: int, auditEventID: int)

  datatype RepositoryAdd = RepositoryAdd(projectID: int, projectVersion: int, url: string, role: string)

  datatype Principal = Principal(workspace: int, actor: int, version: int, mayWrite: bool)

  datatype Proposal = Proposal(id: int, workspace: int, actor: int, actorVersion: int, status: Status, inputs: RepositoryAdd,
                               quotaCost: int, expiresAt: int, token: Digest, consumedAt: Option<int>, result: Outcome)

  datatype Error = NotFound | PermissionDenied | Invalid | AlreadyUsed | ExpiredError | StateChanged | KeyReused
                 | BadCompletion | QuotaExceeded | Conflict

  datatype BeginResult = Granted(proposal: Proposal) | Replayed(proposal: Proposal) | Refused(error: Error)

  datatype CreateResult = Created(proposal: Proposal) | Existing(proposal: Proposal) | Rejected(error: Error)

  /** What identifies a creation request: workspace, actor and idempotency key. */
  datatype Identity = Identity(workspace: int, actor: int, key: string)

  predicate Terminal(s: Status) { s == Executed || s == Failed || s == Expired }

  predicate Completed(s: Status) { s == Executed || s == Failed }

  /** The same offer, whatever became of it: what never changes about a proposal. */
  predicate SameOffer(p: Proposal, q: Proposal) {
    p.(status := q.status, consumedAt := q.consumedAt, result := q.result) == q
  }

  predicate OwnedBy(p: Proposal, who: Principal) { p.workspace == who.workspace && p.actor == who.actor }

  // ----- the in-memory store -----

  /** An empty confirmation key means that the proposal was never confirmed. */
  datatype Record = Record(proposal: Proposal, createDigest: Digest, confirmationKey: string)

  function MemoryBegin(r: Record, who: Principal, token: Digest, key: string, now: int): (out: (Record, BeginResult)) {
    var p := r.proposal;
    if !OwnedBy(p, who) then (r, Refused(PermissionDenied))
    else if r.confirmationKey == key && Completed(p.status) then (r, Replayed(p))
    else if r.confirmationKey != "" || p.status != Awaiting then (r, Refused(AlreadyUsed))
    else if p.expiresAt <= now then (r.(proposal := p.(status := Expired)), Refused(ExpiredError))
    else if p.token != token then (r, Refused(PermissionDenied))
    else
      var q := p.(status := Executing, consumedAt := Some(now));
      (r.(proposal := q, confirmationKey := key), Granted(q))
  }

  function MemoryFinish(r: Record, status: Status, result: Outcome, at: int): (out: Option<Record>) {
    var p := r.proposal;
    if p.status != Executing || !Completed(status) then None
    else Some(r.(proposal := p.(status := status, result := result,
                                consumedAt := if p.consumedAt.None? then Some(at) else p.consumedAt)))
  }

  // ----- what each store answers when -----

  /** The in-memory store answers by owner, key, state, time and token, in this order of precedence. */
  lemma MemoryAnswers(r: Record, who: Principal, token: Digest, key: string, now: int)
    ensures var out := MemoryBegin(r, who, token, key, now).1; var p := r.proposal;
            var mine := p.workspace == who.workspace && p.actor == who.actor;
            var done := r.confirmationKey == key && p.status in {Executed, Failed};
            var open := r.confirmationKey == "" && p.status == Awaiting;
            && (out.Replayed? <==> mine && done)
            && (out == Refused(AlreadyUsed) <==> mine && !done && !open)
            && (out == Refused(ExpiredError) <==> mine && open && !done && p.expiresAt <= now)
            && (out == Refused(PermissionDenied) <==> !mine || (open && !done && now < p.expiresAt && p.token != token))
            && (out.Granted? <==> mine && open && !done && now < p.expiresAt && p.token == token)
  {
  }

  /** The table answers by owner, token, key, time and state, in this order of precedence. */
  lemma PostgresAnswers(row: Row, who: Principal, token: Digest, key: string, now: int)
    ensures var out := PostgresBegin(row, who, token, key, now).1; var p := row.proposal;
            var mine := p.workspace == who.workspace && p.actor == who.actor;
            var done := row.confirmationKey == Some(key) && p.status in {Executed, Failed};
            var open := row.confirmationKey == None && p.status == Awaiting;
            && (out == Refused(NotFound) <==> !mine)
            && (out == Refused(Invalid) <==> mine && p.token != token)
            && (out.Replayed? <==> mine && p.token == token && done)
            && (out == Refused(ExpiredError) <==> mine && p.token == token && !done && p.expiresAt <= now)
            && (out == Refused(AlreadyUsed) <==> mine && p.token == token && !done && now < p.expiresAt && !open)
            && (out.Granted? <==> mine && p.token == token && now < p.expiresAt && open)
  {
  }

  // ----- the stores as tables, one call at a time -----

  datatype Memory = Memory(values: map<int, Record>, creates: map<Identity, int>)

  datatype Postgres = Postgres(rows: map<int, Row>, idempotency: map<Identity, (Digest, int)>)

  datatype Op =
    | Create(proposal: Proposal, key: string, digest: Digest)
    | Begin(id: int, who: Principal, token: Digest, key: string, now: int)
    | Finish(id: int, status: Status, result: Outcome, at: int)

  /** The answer to a Begin call; every other call and every refusal count as Nothing. */
  datatype Answer = Grant(proposal: Proposal) | Replay(proposal: Proposal) | Nothing

  function AnswerOf(r: BeginResult): (a: Answer) {
    match r
    case Granted(p) => Grant(p)
    case Replayed(p) => Replay(p)
    case Refused(_) => Nothing
  }

  function MemoryStep(s: Memory, op: Op): (out: (Memory, Answer)) {
    match op
    case Create(p, key, digest) =>
      var k := Identity(p.workspace, p.actor, key);
      (if k in s.creates then s
       else Memory(s.values[p.id := Record(p, digest, "")], s.creates[k := p.id]), Nothing)
    case Begin(id, who, token, key, now) =>
      if id !in s.values then (s, Nothing)
      else
        var out := MemoryBegin(s.values[id], who, token, key, now);
        (s.(values := s.values[id := out.0]), AnswerOf(out.1))
    case Finish(id, status, result, at) =>
      if id !in s.values then (s, Nothing)
      else
        match MemoryFinish(s.values[id], status, result, at)
        case None => (s, Nothing)
        case Some(r) => (s.(values := s.values[id := r]), Nothing)
  }

  function PostgresStep(s: Postgres, op: Op): (out: (Postgres, Answer)) {
    match op
    case Create(p, key, digest) =>
      var k := Identity(p.workspace, p.actor, key);
      (if k in s.idempotency || p.id in s.rows then s
       else Postgres(s.rows[p.id := Row(p, None)], s.idempotency[k := (digest, p.id)]), Nothing)
    case Begin(id, who, token, key, now) =>
      if id !in s.rows then (s, Nothing)
      else
        var out := PostgresBegin(s.rows[id], who, token, key, now);
        (s.(rows := s.rows[id := out.0]), AnswerOf(out.1))
    case Finish(id, status, result, _) =>
      if id !in s.rows then (s, Nothing)
      else
        match PostgresFinish(s.rows[id], status, result)
        case None => (s, Nothing)
        case Some(row) => (s.(rows := s.rows[id := row]), Nothing)
  }

  class MemoryStore {
    var values: map<int, Record>
    var creates: map<Identity, int>

    constructor ()
      ensures values == map[] && creates == map[]
    {
      values, creates := map[], map[];
    }

    ghost predicate Valid()
      reads this
    {
      forall k :: k in creates ==> creates[k] in values
    }

    function Table(): (m: Memory)
      reads this
    {
      Memory(values, creates)
    }

    method Create(proposal: Proposal, key: string, digest: Digest) returns (r: CreateResult)
      requires Valid()
      modifies this
      ensures Valid()
      ensures var k := Identity(proposal.workspace, proposal.actor, key);
              if k in old(creates) then
                && values == old(values) && creates == old(creates)
                && r == var stored := values[creates[k]];
                        if stored.createDigest != digest then Rejected(StateChanged) else Existing(stored.proposal)
              else
                && values == old(values)[proposal.id := Record(proposal, digest, "")]
                && creates == old(creates)[k := proposal.id] && r == Created(proposal)
      ensures Table() == MemoryStep(old(Table()), Op.Create(proposal, key, digest)).0
    {
      var k := Identity(proposal.workspace, proposal.actor, key);
      if k in creates {
        var stored := values[creates[k]];
        if stored.createDigest != digest { return Rejected(StateChanged); }
        return Existing(stored.proposal);
      }
      values := values[proposal.id := Record(proposal, digest, "")];
      creates := creates[k := proposal.id];
      return Created(proposal);
    }

    method Begin(id: int, who: Principal, token: Digest, key: string, now: int) returns (r: BeginResult)
      requires Valid()
      modifies this`values
      ensures Valid()
      ensures id !in old(values) ==> values == old(values) && r == Refused(NotFound)
      ensures id in old(values) ==>
                var out := MemoryBegin(old(values)[id], who, token, key, now);
                values == old(values)[id := out.0] && r == out.1
      ensures (Table(), AnswerOf(r)) == MemoryStep(old(Table()), Op.Begin(id, who, token, key, now))
    {
      if id !in values { return Refused(NotFound); }
      var record := values[id];
      assert values == values[id := record];
      if record.proposal.workspace != who.workspace || record.proposal.actor != who.actor { return Refused(PermissionDenied); }
      if record.confirmationKey == key && (record.proposal.status == Executed || record.proposal.status == Failed) {
        return Replayed(record.proposal);
      }
      if record.confirmationKey != "" || record.proposal.status != Awaiting { return Refused(AlreadyUsed); }
      if !(now < record.proposal.expiresAt) {
        record := record.(proposal := record.proposal.(status := Expired));
        values := values[id := record];
        return Refused(ExpiredError);
      }
      if record.proposal.token != token { return Refused(PermissionDenied); }
      record := record.(confirmationKey := key, proposal := record.proposal.(status := Executing, consumedAt := Some(now)));
      values := values[id := record];
      return Granted(record.proposal);
    }

    method Finish(id: int, status: Status, result: Outcome, at: int) returns (r: Result<Proposal, Error>)
      requires Valid()
      modifies this`values
      ensures Valid()
      ensures id !in old(values) ==> values == old(values) && r == Err(NotFound)
      ensures id in old(values) ==>
                match MemoryFinish(old(values)[id], status, result, at)
                case None => values == old(values) && r == Err(BadCompletion)
                case Some(record) => values == old(values)[id := record] && r == Ok(record.proposal)
      ensures Table() == MemoryStep(old(Table()), Op.Finish(id, status, result, at)).0
    {
      if id !in values { return Err(NotFound); }
      var record := values[id];
      if record.proposal.status != Executing || (status != Executed && status != Failed) { return Err(BadCompletion); }
      record := record.(proposal := record.proposal.(status := status, result := result));
      if record.proposal.consumedAt == None {
        record := record.(proposal := record.proposal.(consumedAt := Some(at)));
      }
      values := values[id := record];
      return Ok(record.proposal);
    }
  }

  // ----- the PostgreSQL store -----

  datatype Row = Row(proposal: Proposal, confirmationKey: Option<string>)

  function PostgresBegin(row: Row, who: Principal, token: Digest, key: string, now: int): (out: (Row, BeginResult)) {
    var p := row.proposal;
    if !OwnedBy(p, who) then (row, Refused(NotFound))
    else if p.token != token then (row, Refused(Invalid))
    else if row.confirmationKey == Some(key) && Completed(p.status) then (row, Replayed(p))
    else if p.expiresAt <= now then
      (if p.status == Awaiting then row.(proposal := p.(status := Expired)) else row, Refused(ExpiredError))
    else if p.status != Awaiting || row.confirmationKey.Some? then (row, Refused(AlreadyUsed))
    else
      var q := p.(status := Executing, consumedAt := Some(now));
      (Row(q, Some(key)), Granted(q))
  }

  function PostgresFinish(row: Row, status: Status, result: Outcome): (out: Option<Row>) {
    if !Completed(status) || row.proposal.status != Executing then None
    else Some(row.(proposal := row.proposal.(status := status, result := result)))
  }

  class PostgresStore {
    var rows: map<int, Row>
    var idempotency: map<Identity, (Digest, int)>

    constructor ()
      ensures rows == map[] && idempotency == map[]
    {
      rows, idempotency := map[], map[];
    }

    ghost predicate Valid()
      reads this
    {
      forall k :: k in idempotency ==> idempotency[k].1 in rows
    }

    function Table(): (p: Postgres)
      reads this
    {
      Postgres(rows, idempotency)
    }

    /** The primary key refuses a second row for one proposal ID. */
    method Create(proposal: Proposal, key: string, digest: Digest) returns (r: CreateResult)
      requires Valid()
      modifies this
      ensures Valid()
      ensures var k := Identity(proposal.workspace, proposal.actor, key);
              if k in old(idempotency) then
                && rows == old(rows) && idempotency == old(idempotency)
                && r == if idempotency[k].0 != digest then Rejected(KeyReused) else Existing(rows[idempotency[k].1].proposal)
              else if proposal.id in old(rows) then
                rows == old(rows) && idempotency == old(idempotency) && r == Rejected(Conflict)
              else
                && rows == old(rows)[proposal.id := Row(proposal, None)]
                && idempotency == old(idempotency)[k := (digest, proposal.id)] && r == Created(proposal)
      ensures Table() == PostgresStep(old(Table()), Op.Create(proposal, key, digest)).0
    {
      var k := Identity(proposal.workspace, proposal.actor, key);
      if k in idempotency {
        if idempotency[k].0 != digest { return Rejected(KeyReused); }
        return Existing(rows[idempotency[k].1].proposal);
      }
      if proposal.id in rows { return Rejected(Conflict); }
      rows := rows[proposal.id := Row(proposal, None)];
      idempotency := idempotency[k := (digest, proposal.id)];
      return Created(proposal);
    }

    method Begin(id: int, who: Principal, token: Digest, key: string, now: int) returns (r: BeginResult)
      requires Valid()
      modifies this`rows
      ensures Valid()
      ensures id !in old(rows) ==> rows == old(rows) && r == Refused(NotFound)
      ensures id in old(rows) ==>
                var out := PostgresBegin(old(rows)[id], who, token, key, now);
                rows == old(rows)[id := out.0] && r == out.1
      ensures (Table(), AnswerOf(r)) == PostgresStep(old(Table()), Op.Begin(id, who, token, key, now))
    {
      if id !in rows || rows[id].proposal.workspace != who.workspace || rows[id].proposal.actor != who.actor {
        if id in rows { assert rows == rows[id := rows[id]]; }
        return Refused(NotFound);
      }
      var value, confirmationKey := rows[id].proposal, rows[id].confirmationKey;
      assert rows == rows[id := rows[id]];
      if value.token != token { return Refused(Invalid); }
      if confirmationKey.Some? && confirmationKey.value == key && (value.status == Executed || value.status == Failed) {
        return Replayed(value);
      }
      if !(now < value.expiresAt) {
        if value.status == Awaiting { rows := rows[id := rows[id].(proposal := value.(status := Expired))]; }
        return Refused(ExpiredError);
      }
      if value.status != Awaiting || confirmationKey.Some? { return Refused(AlreadyUsed); }
      value := value.(status := Executing, consumedAt := Some(now));
      rows := rows[id := Row(value, Some(key))];
      return Granted(value);
    }

    method Finish(id: int, status: Status, result: Outcome) returns (r: Result<Proposal, Error>)
      requires Valid()
      modifies this`rows
      ensures Valid()
      ensures !Completed(status) ==> rows == old(rows) && r == Err(Invalid)
      ensures Completed(status) && (id !in old(rows) || PostgresFinish(old(rows)[id], status, result).None?) ==>
                rows == old(rows) && r == Err(AlreadyUsed)
      ensures id in old(rows) && PostgresFinish(old(rows)[id], status, result).Some? ==>
                var row := PostgresFinish(old(rows)[id], status, result).value;
                rows == old(rows)[id := row] && r == Ok(row.proposal)
      ensures forall at :: Table() == PostgresStep(old(Table()), Op.Finish(id, status, result, at)).0
    {
      if status != Executed && status != Failed { return Err(Invalid); }
      if id !in rows || rows[id].proposal.status != Executing { return Err(AlreadyUsed); }
      rows := rows[id := rows[id].(proposal := rows[id].proposal.(status := status, result := result))];
      return Ok(rows[id].proposal);
    }
  }
}
