/** The confirmation protocol of the assistant (internal/analysis/agent/service.go) as a state machine:
    any number of Confirm calls interleave at every store access, snapshot, execution and clock reading,
    over either proposal store, while other requests edit projects. */
module Confirmation {
  import opened Text
  import opened Assistant
  import opened Catalog

  // ----- either store -----

  datatype Store = MemoryTable(values: map<int, Record>) | PostgresTable(rows: map<int, Row>)
  {
    function Lookup(id: int): (p: Option<Proposal>) {
      match this
      case MemoryTable(values) => if id in values then Some(values[id].proposal) else None
      case PostgresTable(rows) => if id in rows then Some(rows[id].proposal) else None
    }

    /** The key under which the proposal was confirmed, if it was. */
    function Key(id: int): (k: Option<string>) {
      match this
      case MemoryTable(values) => if id in values && values[id].confirmationKey != "" then Some(values[id].confirmationKey) else None
      case PostgresTable(rows) => if id in rows then rows[id].confirmationKey else None
    }

    function Create(p: Proposal): (s: Store) {
      match this
      case MemoryTable(values) => MemoryTable(values[p.id := Record(p, 0, "")])
      case PostgresTable(rows) => PostgresTable(rows[p.id := Row(p, None)])
    }

    function Begin(id: int, who: Principal, token: Digest, key: string, now: int): (out: (Store, BeginResult)) {
      match this
      case MemoryTable(values) =>
        if id !in values then (this, Refused(NotFound))
        else var out := MemoryBegin(values[id], who, token, key, now); (MemoryTable(values[id := out.0]), out.1)
      case PostgresTable(rows) =>
        if id !in rows then (this, Refused(NotFound))
        else var out := PostgresBegin(rows[id], who, token, key, now); (PostgresTable(rows[id := out.0]), out.1)
    }

    /** The proposal after completion, or None when the completion is refused. */
    function Finish(id: int, status: Status, result: Outcome, at: int): (out: (Store, Option<Proposal>)) {
      match this
      case MemoryTable(values) =>
        if id !in values || MemoryFinish(values[id], status, result, at).None? then (this, None)
        else var r := MemoryFinish(values[id], status, result, at).value; (MemoryTable(values[id := r]), Some(r.proposal))
      case PostgresTable(rows) =>
        if id !in rows || PostgresFinish(rows[id], status, result).None? then (this, None)
        else var r := PostgresFinish(rows[id], status, result).value; (PostgresTable(rows[id := r]), Some(r.proposal))
    }

    predicate Valid() {
      match this
      case MemoryTable(values) => forall id :: id in values ==> values[id].proposal.id == id
      case PostgresTable(rows) => forall id :: id in rows ==> rows[id].proposal.id == id
    }
  }

  /** The contract both stores meet. */
  lemma BeginContract(s: Store, id: int, who: Principal, token: Digest, key: string, now: int)
    requires s.Valid()
    ensures var out := s.Begin(id, who, token, key, now);
            && out.0.Valid()
            && (forall other :: other != id ==> out.0.Lookup(other) == s.Lookup(other))
            && (out.1.Granted? ==>
                  && s.Lookup(id).Some?
                  && var p := s.Lookup(id).value;
                     && p.status == Awaiting && OwnedBy(p, who) && p.token == token && now < p.expiresAt
                     && out.1.proposal.status == Executing && SameOffer(p, out.1.proposal)
                     && out.0.Lookup(id) == Some(out.1.proposal))
            && (out.1.Replayed? ==> s.Lookup(id) == Some(out.1.proposal) && Completed(out.1.proposal.status) && out.0 == s)
            && (out.1.Refused? ==>
                  || out.0.Lookup(id) == s.Lookup(id)
                  || (s.Lookup(id).Some? && s.Lookup(id).value.status == Awaiting && out.0.Lookup(id).Some?
                      && SameOffer(s.Lookup(id).value, out.0.Lookup(id).value) && out.0.Lookup(id).value.status == Expired))
  {
    match s
    case MemoryTable(values) => if id in values { assert values[id := values[id]] == values; }
    case PostgresTable(rows) => if id in rows { assert rows[id := rows[id]] == rows; }
  }

  lemma FinishContract(s: Store, id: int, status: Status, result: Outcome, at: int)
    requires s.Valid()
    ensures var out := s.Finish(id, status, result, at);
            && out.0.Valid()
            && (forall other :: other != id ==> out.0.Lookup(other) == s.Lookup(other))
            && (out.1.None? ==> out.0 == s)
            && (out.1.Some? <==> s.Lookup(id).Some? && s.Lookup(id).value.status == Executing && Completed(status))
            && (out.1.Some? ==>
                  && out.0.Lookup(id) == out.1 && SameOffer(s.Lookup(id).value, out.1.value)
                  && out.1.value.status == status && out.1.value.result == result)
  {
  }

  // ----- the protocol -----

  datatype Request = Request(who: Principal, id: int, token: Digest, key: string)

  datatype Reply = Returned(proposal: Proposal) | Error(error: Error)

  /** Where one Confirm call stands; the last three positions before Finishing hold the grant. */
  datatype Position =
    | Called(req: Request)
    | Timed(req: Request, now: int)
    | Begun(req: Request, now: int, proposal: Proposal)
    | ActorChecked(req: Request, now: int, proposal: Proposal)
    | SnapshotChecked(req: Request, now: int, proposal: Proposal)
    | Finishing(req: Request, proposal: Proposal, status: Status, result: Outcome, cause: Option<Error>)
    | Done(reply: Reply)

  /** One invocation of AddRepository. */
  datatype Execution = Execution(caller: int, req: Request, now: int, proposal: Proposal)

  /** One committed change of a project, against the version it was made on. The executor reports an error for a
      commit whose acknowledgement was lost. */
  datatype Commit = Commit(projectID: int, version: int, repositoryID: int, proposalID: int, acknowledged: bool)

  datatype State = State(store: Store, projects: map<int, ProjectRow>, clock: int, calls: map<int, Position>,
                         executions: seq<Execution>, commits: seq<Commit>)

  datatype Action =
    | Propose(proposal: Proposal)
    | Call(caller: int, req: Request)
    | ReadClock(caller: int)
    | BeginStep(caller: int)
    | CheckActor(caller: int)
    | Snapshot(caller: int, readable: bool)
    | Execute(caller: int, setting: Setting, auditID: int)
    | FinishStep(caller: int)
    | Tick(elapsed: nat)
    | EditProject(id: int, row: ProjectRow)

  predicate Enabled(s: State, a: Action) {
    match a
    case Propose(p) => s.store.Lookup(p.id).None? && p.status == Awaiting
    case Call(c, req) => c !in s.calls && req.who.mayWrite && req.id > 0 && req.key != ""
    case ReadClock(c) => c in s.calls && s.calls[c].Called?
    case BeginStep(c) => c in s.calls && s.calls[c].Timed?
    case CheckActor(c) => c in s.calls && s.calls[c].Begun?
    case Snapshot(c, _) => c in s.calls && s.calls[c].ActorChecked?
    case Execute(c, _, _) => c in s.calls && s.calls[c].SnapshotChecked?
    case FinishStep(c) => c in s.calls && s.calls[c].Finishing?
    case Tick(_) => true
    case EditProject(id, row) => id in s.projects ==> s.projects[id].version < row.version
  }

  function FailWith(req: Request, p: Proposal, e: Error): (pos: Position) {
    Finishing(req, p, Failed, Outcome(0, 0), Some(e))
  }

  /** The re-check against the project as it is now. */
  function CheckedPosition(pos: Position, projects: map<int, ProjectRow>, readable: bool): (r: Position)
    requires pos.ActorChecked?
  {
    var p := pos.proposal;
    if !readable || p.inputs.projectID !in projects || projects[p.inputs.projectID].workspace != pos.req.who.workspace
    then FailWith(pos.req, p, NotFound)
    else
      var row := projects[p.inputs.projectID];
      if row.state != "active" || row.version != p.inputs.projectVersion then FailWith(pos.req, p, StateChanged)
      else if |row.repositories| + p.quotaCost > MAX_REPOSITORIES then FailWith(pos.req, p, QuotaExceeded)
      else SnapshotChecked(pos.req, pos.now, p)
  }

  /** One enabled action. */
  function Step(s: State, a: Action): (s': State)
    requires Enabled(s, a)
  {
    match a
    case Propose(p) => s.(store := s.store.Create(p))
    case Call(c, req) => s.(calls := s.calls[c := Called(req)])
    case ReadClock(c) => s.(calls := s.calls[c := Timed(s.calls[c].req, s.clock)])
    case BeginStep(c) =>
      var Timed(req, now) := s.calls[c];
      var out := s.store.Begin(req.id, req.who, req.token, req.key, now);
      s.(store := out.0, calls := s.calls[c :=
        match out.1
        case Granted(p) => Begun(req, now, p)
        case Replayed(p) => Done(Returned(p))
        case Refused(e) => Done(Error(e))])
    case CheckActor(c) =>
      var Begun(req, now, p) := s.calls[c];
      s.(calls := s.calls[c :=
        if req.who.version != p.actorVersion then FailWith(req, p, StateChanged) else ActorChecked(req, now, p)])
    case Snapshot(c, readable) =>
      s.(calls := s.calls[c := CheckedPosition(s.calls[c], s.projects, readable)])
    case Execute(c, setting, auditID) =>
      var SnapshotChecked(req, now, p) := s.calls[c];
      var invoked := s.(executions := s.executions + [Execution(c, req, now, p)]);
      (match AddRepository(s.projects, req.who.workspace, p.inputs, setting)
       case Err(e) => invoked.(calls := s.calls[c := FailWith(req, p, e)])
       case Ok(projects) =>
         var k := Commit(p.inputs.projectID, p.inputs.projectVersion, setting.repositoryID, p.id, setting.acknowledged);
         invoked.(projects := projects, commits := s.commits + [k],
                  calls := s.calls[c := if setting.acknowledged
                                        then Finishing(req, p, Executed, Outcome(setting.repositoryID, auditID), None)
                                        else FailWith(req, p, Conflict)]))
    case FinishStep(c) =>
      var Finishing(req, p, status, result, error) := s.calls[c];
      var out := s.store.Finish(p.id, status, result, s.clock);
      s.(store := out.0, calls := s.calls[c :=
        Done(match error
             case Some(e) => Error(e)
             case None => if out.1.Some? then Returned(out.1.value) else Error(AlreadyUsed))])
    case Tick(elapsed) => s.(clock := s.clock + elapsed)
    case EditProject(id, row) => s.(projects := s.projects[id := row])
  }

  ghost predicate Initial(s: State) {
    && s.store.Valid() && (forall id :: s.store.Lookup(id).None?)
    && s.calls == map[] && s.executions == [] && s.commits == []
  }

  /** A run: consecutive states linked by enabled actions. */
  ghost predicate IsRun(states: seq<State>, actions: seq<Action>) {
    && |states| == |actions| + 1 && Initial(states[0])
    && forall i {:trigger actions[i]} :: 0 <= i < |actions| ==> Enabled(states[i], actions[i]) && states[i + 1] == Step(states[i], actions[i])
  }

  // ----- invariants -----

  predicate HasGrant(pos: Position) { pos.Begun? || pos.ActorChecked? || pos.SnapshotChecked? || pos.Finishing? }

  predicate Holds(pos: Position, id: int) { HasGrant(pos) && pos.proposal.id == id }

  /** The caller may still invoke the executor. */
  predicate MayExecute(pos: Position) { pos.Begun? || pos.ActorChecked? || pos.SnapshotChecked? }

  /** A caller entitled to the proposal it was granted. */
  predicate Entitled(req: Request, now: int, p: Proposal) {
    req.id == p.id && OwnedBy(p, req.who) && p.token == req.token && now < p.expiresAt
  }

  /** The stored proposal that a holder works on is executing and is the same offer. */
  ghost predicate HolderFacts(s: State, c: int)
    requires c in s.calls
  {
    var pos := s.calls[c];
    && (HasGrant(pos) ==>
          && s.store.Lookup(pos.proposal.id).Some?
          && s.store.Lookup(pos.proposal.id).value.status == Executing
          && SameOffer(s.store.Lookup(pos.proposal.id).value, pos.proposal))
    && (MayExecute(pos) ==> Entitled(pos.req, pos.now, pos.proposal) && forall e :: e in s.executions ==> e.proposal.id != pos.proposal.id)
    && ((pos.ActorChecked? || pos.SnapshotChecked?) ==> pos.req.who.version == pos.proposal.actorVersion)
    && (pos.Finishing? ==> Completed(pos.status))
    && (pos.Done? && pos.reply.Returned? ==>
          Completed(pos.reply.proposal.status) && s.store.Lookup(pos.reply.proposal.id) == Some(pos.reply.proposal))
  }

  /** An execution was justified, and its proposal has left the awaiting state for good. */
  ghost predicate ExecutionFacts(s: State, e: Execution) {
    && Entitled(e.req, e.now, e.proposal) && e.req.who.version == e.proposal.actorVersion
    && s.store.Lookup(e.proposal.id).Some?
    && s.store.Lookup(e.proposal.id).value.status in {Executing, Executed, Failed}
    && SameOffer(s.store.Lookup(e.proposal.id).value, e.proposal)
  }

  ghost predicate Safe(s: State) {
    && s.store.Valid()
    && (forall c :: c in s.calls ==> HolderFacts(s, c))
    && (forall c, d, id :: c in s.calls && d in s.calls && Holds(s.calls[c], id) && Holds(s.calls[d], id) ==> c == d)
    && (forall e :: e in s.executions ==> ExecutionFacts(s, e))
    && (forall i, j :: 0 <= i < j < |s.executions| ==> s.executions[i].proposal.id != s.executions[j].proposal.id)
    && (forall i, j :: 0 <= i < j < |s.commits| ==> !SameVersion(s.commits[i], s.commits[j]))
    && (forall k :: k in s.commits ==> k.projectID in s.projects && k.version < s.projects[k.projectID].version)
  }

  predicate SameVersion(k: Commit, m: Commit) { k.projectID == m.projectID && k.version == m.version }

  /** Terminal proposals never change, offers never change, and nothing falls back to awaiting. */
  predicate Advances(before: Option<Proposal>, after: Option<Proposal>) {
    before.Some? ==>
      && after.Some? && SameOffer(before.value, after.value)
      && (Terminal(before.value.status) ==> after == before)
      && (before.value.status == Executing ==> after.value.status in {Executing, Executed, Failed})
  }

  lemma StepAdvances(s: State, a: Action, id: int)
    requires s.store.Valid() && Enabled(s, a)
    ensures Step(s, a).store.Valid()
    ensures Advances(s.store.Lookup(id), Step(s, a).store.Lookup(id))
  {
    if a.BeginStep? {
      var Timed(req, now) := s.calls[a.caller];
      BeginContract(s.store, req.id, req.who, req.token, req.key, now);
    } else if a.FinishStep? {
      var Finishing(req, p, status, result, error) := s.calls[a.caller];
      FinishContract(s.store, p.id, status, result, s.clock);
    }
  }

  /** A call that did not move keeps its facts: nobody else can complete the proposal it holds. */
  lemma OthersKeep(s: State, a: Action, d: int)
    requires Safe(s) && Enabled(s, a) && d in s.calls
    requires a.Propose? || a.Tick? || a.EditProject? || a.caller != d
    ensures d in Step(s, a).calls && HolderFacts(Step(s, a), d)
  {
    var s', pos := Step(s, a), s.calls[d];
    assert HolderFacts(s, d) && s'.calls[d] == pos;
    if HasGrant(pos) { StepAdvances(s, a, pos.proposal.id); }
    if pos.Done? && pos.reply.Returned? { StepAdvances(s, a, pos.reply.proposal.id); }
    if a.FinishStep? {
      assert HolderFacts(s, a.caller);
      var Finishing(req, p, status, result, error) := s.calls[a.caller];
      assert Holds(s.calls[a.caller], p.id);
      assert HasGrant(pos) ==> Holds(pos, pos.proposal.id);
      FinishContract(s.store, p.id, status, result, s.clock);
    }
    if a.Execute? {
      assert Holds(s.calls[a.caller], s.calls[a.caller].proposal.id);
      assert HasGrant(pos) ==> Holds(pos, pos.proposal.id);
    }
  }

  /** The call that moved has the facts of its new position. */
  lemma MoverKeeps(s: State, a: Action)
    requires Safe(s) && Enabled(s, a) && !a.Propose? && !a.Tick? && !a.EditProject?
    ensures a.caller in Step(s, a).calls && HolderFacts(Step(s, a), a.caller)
  {
    var c, s' := a.caller, Step(s, a);
    if a.BeginStep? {
      var Timed(req, now) := s.calls[c];
      BeginContract(s.store, req.id, req.who, req.token, req.key, now);
      forall e | e in s.executions ensures e.proposal.id == req.id ==> !s'.calls[c].Begun? {
        assert ExecutionFacts(s, e);
      }
    } else if !a.Call? {
      assert HolderFacts(s, c);
      if a.FinishStep? {
        var Finishing(req, p, status, result, error) := s.calls[c];
        FinishContract(s.store, p.id, status, result, s.clock);
      }
    }
  }

  /** At most one call holds a proposal: a grant needs an awaiting proposal, and a held one is executing. */
  lemma OneHolder(s: State, a: Action, c: int, d: int, id: int)
    requires Safe(s) && Enabled(s, a)
    requires c in Step(s, a).calls && d in Step(s, a).calls
    requires Holds(Step(s, a).calls[c], id) && Holds(Step(s, a).calls[d], id)
    ensures c == d
  {
    if a.BeginStep? {
      var Timed(req, now) := s.calls[a.caller];
      BeginContract(s.store, req.id, req.who, req.token, req.key, now);
      if c in s.calls { assert HolderFacts(s, c); }
      if d in s.calls { assert HolderFacts(s, d); }
    } else {
      assert c in s.calls && Holds(s.calls[c], id) by { assert HolderFacts(s, c); }
      assert d in s.calls && Holds(s.calls[d], id);
    }
  }

  lemma ExecutionsKeep(s: State, a: Action)
    requires Safe(s) && Enabled(s, a)
    ensures var s' := Step(s, a);
            && (forall e :: e in s'.executions ==> ExecutionFacts(s', e))
            && (forall i, j :: 0 <= i < j < |s'.executions| ==> s'.executions[i].proposal.id != s'.executions[j].proposal.id)
  {
    var s' := Step(s, a);
    forall e | e in s'.executions ensures ExecutionFacts(s', e) {
      StepAdvances(s, a, e.proposal.id);
      if e in s.executions { assert ExecutionFacts(s, e); } else { assert HolderFacts(s, a.caller); }
    }
    if a.Execute? {
      assert HolderFacts(s, a.caller);
      forall i | 0 <= i < |s.executions| ensures s.executions[i].proposal.id != s.calls[a.caller].proposal.id {
        assert s.executions[i] in s.executions;
      }
    }
  }

  lemma CommitsKeep(s: State, a: Action)
    requires Safe(s) && Enabled(s, a)
    ensures var s' := Step(s, a);
            && (forall i, j :: 0 <= i < j < |s'.commits| ==> !SameVersion(s'.commits[i], s'.commits[j]))
            && (forall k :: k in s'.commits ==> k.projectID in s'.projects && k.version < s'.projects[k.projectID].version)
  {
    var s' := Step(s, a);
    if a.Execute? {
      var SnapshotChecked(req, now, p) := s.calls[a.caller];
      AddRepositoryKeeps(s.projects, req.who.workspace, p.inputs, a.setting);
      forall i | 0 <= i < |s.commits| && |s'.commits| > |s.commits|
        ensures !SameVersion(s.commits[i], s'.commits[|s.commits|])
      {
        assert s.commits[i] in s.commits;
      }
    }
  }

  lemma StepSafe(s: State, a: Action)
    requires Safe(s) && Enabled(s, a)
    ensures Safe(Step(s, a))
  {
    var s' := Step(s, a);
    StepAdvances(s, a, 0);
    forall c | c in s'.calls ensures HolderFacts(s', c) {
      if (a.Propose? || a.Tick? || a.EditProject?) || a.caller != c { OthersKeep(s, a, c); } else { MoverKeeps(s, a); }
    }
    forall c, d, id | c in s'.calls && d in s'.calls && Holds(s'.calls[c], id) && Holds(s'.calls[d], id) ensures c == d {
      OneHolder(s, a, c, d, id);
    }
    ExecutionsKeep(s, a);
    CommitsKeep(s, a);
  }

  // ----- outcomes tell the truth -----

  /** A commit under the proposal's own terms that added the repository of the result. */
  predicate Fulfils(k: Commit, p: Proposal, result: Outcome) {
    ForProposal(k, p) && k.repositoryID == result.repositoryID && k.acknowledged
  }

  predicate ForProposal(k: Commit, p: Proposal) {
    k.proposalID == p.id && k.projectID == p.inputs.projectID && k.version == p.inputs.projectVersion
  }

  ghost predicate Committed(s: State, p: Proposal, result: Outcome) { exists k :: k in s.commits && Fulfils(k, p, result) }

  ghost predicate Ran(s: State, id: int) { exists e :: e in s.executions && e.proposal.id == id }

  /** A call that is about to report success has committed; one that is about to report failure has not, unless the
      acknowledgement was lost. */
  ghost predicate TruthfulCall(s: State, pos: Position) {
    pos.Finishing? ==>
      && (pos.status == Executed ==> Committed(s, pos.proposal, pos.result))
      && (pos.status != Executed ==> forall k :: k in s.commits && k.acknowledged ==> k.proposalID != pos.proposal.id)
      && (pos.status == Executed ==> forall k :: k in s.commits && k.proposalID == pos.proposal.id ==> k.acknowledged)
  }

  ghost predicate TruthfulEntry(s: State, id: int) {
    var p := s.store.Lookup(id);
    p.Some? && p.value.status == Executed ==> Committed(s, p.value, p.value.result)
  }

  /** A commit belongs to a proposal whose executor ran and which is recorded, if at all, as the executor reported. */
  ghost predicate TruthfulCommit(s: State, k: Commit) {
    && Ran(s, k.proposalID)
    && s.store.Lookup(k.proposalID).Some?
    && s.store.Lookup(k.proposalID).value.status in {Executing, if k.acknowledged then Executed else Failed}
    && ForProposal(k, s.store.Lookup(k.proposalID).value)
  }

  ghost predicate Truthful(s: State) {
    && (forall c :: c in s.calls ==> TruthfulCall(s, s.calls[c]))
    && (forall id :: TruthfulEntry(s, id))
    && (forall k :: k in s.commits ==> TruthfulCommit(s, k))
  }

  lemma CommitsGrow(s: State, a: Action)
    requires Enabled(s, a)
    ensures s.commits <= Step(s, a).commits && s.executions <= Step(s, a).executions
    ensures !a.Execute? ==> Step(s, a).commits == s.commits
  {
  }

  /** What the executor's turn does to the log, and where it leaves its caller. */
  lemma ExecuteCommits(s: State, a: Action)
    requires Enabled(s, a) && a.Execute?
    ensures var s', p := Step(s, a), s.calls[a.caller].proposal;
            && Ran(s', p.id) && s'.store == s.store && s'.calls[a.caller].Finishing? && s'.calls[a.caller].proposal == p
            && if s'.calls[a.caller].status == Executed
               then exists k :: s'.commits == s.commits + [k] && Fulfils(k, p, s'.calls[a.caller].result)
               else s'.commits == s.commits || exists k :: s'.commits == s.commits + [k] && ForProposal(k, p) && !k.acknowledged
  {
    var SnapshotChecked(req, now, p) := s.calls[a.caller];
    assert Execution(a.caller, req, now, p) in Step(s, a).executions;
    var k := Commit(p.inputs.projectID, p.inputs.projectVersion, a.setting.repositoryID, p.id, a.setting.acknowledged);
    assert ForProposal(k, p) && (k.acknowledged ==> Fulfils(k, p, Outcome(a.setting.repositoryID, a.auditID)));
  }

  lemma CommittedLater(s: State, s': State, p: Proposal, result: Outcome)
    requires s.commits <= s'.commits && Committed(s, p, result)
    ensures Committed(s', p, result)
  {
    var k :| k in s.commits && Fulfils(k, p, result);
    assert k in s'.commits;
  }

  /** A call that may still execute has no commit yet. */
  lemma NotYetCommitted(s: State, c: int, k: Commit)
    requires Safe(s) && Truthful(s) && c in s.calls && MayExecute(s.calls[c]) && k in s.commits
    ensures k.proposalID != s.calls[c].proposal.id
  {
    hide *;
    HolderHasNotRun(s, c);
    CommitRan(s, k);
  }

  lemma HolderHasNotRun(s: State, c: int)
    requires Safe(s) && c in s.calls && MayExecute(s.calls[c])
    ensures !Ran(s, s.calls[c].proposal.id)
  {
    assert HolderFacts(s, c);
  }

  lemma CommitRan(s: State, k: Commit)
    requires Truthful(s) && k in s.commits
    ensures Ran(s, k.proposalID)
  {
    assert TruthfulCommit(s, k);
  }

  lemma CallsStayTruthful(s: State, a: Action, c: int)
    requires Safe(s) && Truthful(s) && Enabled(s, a) && c in Step(s, a).calls
    ensures TruthfulCall(Step(s, a), Step(s, a).calls[c])
  {
    var s' := Step(s, a);
    var pos := s'.calls[c];
    CommitsGrow(s, a);
    if pos.Finishing? {
      if c in s.calls && s.calls[c] == pos {
        assert TruthfulCall(s, pos);
        if pos.status == Executed { CommittedLater(s, s', pos.proposal, pos.result); }
        if a.Execute? {
          ExecuteCommits(s, a);
          assert Holds(pos, pos.proposal.id) && Holds(s.calls[a.caller], s.calls[a.caller].proposal.id);
        }
      } else {
        NewlyFinishing(s, a, c);
      }
    }
  }

  lemma NewlyFinishing(s: State, a: Action, c: int)
    requires Safe(s) && Truthful(s) && Enabled(s, a) && c in Step(s, a).calls && Step(s, a).calls[c].Finishing?
    requires !(c in s.calls && s.calls[c] == Step(s, a).calls[c])
    ensures TruthfulCall(Step(s, a), Step(s, a).calls[c])
  {
    var s' := Step(s, a);
    assert (a.CheckActor? || a.Snapshot? || a.Execute?) && a.caller == c && MayExecute(s.calls[c]);
    forall k | k in s.commits ensures k.proposalID != s.calls[c].proposal.id { NotYetCommitted(s, c, k); }
    if a.Execute? {
      ExecuteCommits(s, a);
      if s'.calls[c].status == Executed {
        var k :| s'.commits == s.commits + [k] && Fulfils(k, s'.calls[c].proposal, s'.calls[c].result);
        assert k in s'.commits;
      }
    }
  }

  lemma EntriesStayTruthful(s: State, a: Action, id: int)
    requires Safe(s) && Truthful(s) && Enabled(s, a)
    ensures TruthfulEntry(Step(s, a), id)
  {
    var s' := Step(s, a);
    CommitsGrow(s, a);
    assert TruthfulEntry(s, id);
    hide Committed;
    if a.BeginStep? {
      var Timed(req, now) := s.calls[a.caller];
      BeginContract(s.store, req.id, req.who, req.token, req.key, now);
    } else if a.FinishStep? {
      assert HolderFacts(s, a.caller) && TruthfulCall(s, s.calls[a.caller]);
      var Finishing(req, p, status, result, error) := s.calls[a.caller];
      FinishContract(s.store, p.id, status, result, s.clock);
      if id == p.id && status == Executed { SameTerms(s, p, s'.store.Lookup(id).value, result); }
    }
    var q := s.store.Lookup(id);
    if q.Some? && q.value.status == Executed { CommittedLater(s, s', q.value, q.value.result); }
    var p' := s'.store.Lookup(id);
    if p'.Some? && Committed(s, p'.value, p'.value.result) { CommittedLater(s, s', p'.value, p'.value.result); }
  }

  lemma SameTerms(s: State, p: Proposal, q: Proposal, result: Outcome)
    requires Committed(s, p, result) && p.id == q.id && p.inputs == q.inputs
    ensures Committed(s, q, result)
  {
    var k :| k in s.commits && Fulfils(k, p, result);
    assert Fulfils(k, q, result);
  }

  lemma CommitsStayTruthful(s: State, a: Action, k: Commit)
    requires Safe(s) && Truthful(s) && Enabled(s, a) && k in Step(s, a).commits
    ensures TruthfulCommit(Step(s, a), k)
  {
    if k in s.commits {
      OldCommit(s, a, k);
    } else {
      CommitsGrow(s, a);
      assert HolderFacts(s, a.caller);
      ExecuteCommits(s, a);
    }
  }

  lemma OldCommit(s: State, a: Action, k: Commit)
    requires Safe(s) && Truthful(s) && Enabled(s, a) && k in s.commits
    ensures TruthfulCommit(Step(s, a), k)
  {
    assert TruthfulCommit(s, k);
    RanLater(s, a, k.proposalID);
    StepAdvances(s, a, k.proposalID);
    if a.FinishStep? {
      assert TruthfulCall(s, s.calls[a.caller]);
      var Finishing(req, p, status, result, error) := s.calls[a.caller];
      FinishContract(s.store, p.id, status, result, s.clock);
    }
  }

  lemma RanLater(s: State, a: Action, id: int)
    requires Enabled(s, a) && Ran(s, id)
    ensures Ran(Step(s, a), id)
  {
    CommitsGrow(s, a);
    var e :| e in s.executions && e.proposal.id == id;
    assert e in Step(s, a).executions;
  }

  lemma StepTruthful(s: State, a: Action)
    requires Safe(s) && Truthful(s) && Enabled(s, a)
    ensures Truthful(Step(s, a))
  {
    var s' := Step(s, a);
    hide TruthfulCall, TruthfulEntry, TruthfulCommit;
    forall c | c in s'.calls ensures TruthfulCall(s', s'.calls[c]) { CallsStayTruthful(s, a, c); }
    forall id ensures TruthfulEntry(s', id) { EntriesStayTruthful(s, a, id); }
    forall k | k in s'.commits ensures TruthfulCommit(s', k) { CommitsStayTruthful(s, a, k); }
  }

  // ----- whole runs -----

  lemma {:induction false} EveryStateSafe(states: seq<State>, actions: seq<Action>, k: nat)
    requires IsRun(states, actions) && k < |states|
    ensures Safe(states[k]) && Truthful(states[k])
  {
    if k > 0 {
      EveryStateSafe(states, actions, k - 1);
      hide Safe, Truthful;
      var a := actions[k - 1];
      StepSafe(states[k - 1], a);
      StepTruthful(states[k - 1], a);
    }
  }

  /** In every interleaving the executor runs at most once for a proposal, only for the actor and token the
      proposal was issued to, on a clock reading before expiry, with the actor's version unchanged; and
      no project version is committed against twice. */
  lemma ExecutedAtMostOnce(states: seq<State>, actions: seq<Action>, k: nat, i: nat, j: nat)
    requires IsRun(states, actions) && k < |states| && i < |states[k].executions| && j < |states[k].executions|
    ensures var s := states[k]; var e := s.executions[i];
            && (s.executions[i].proposal.id == s.executions[j].proposal.id ==> i == j)
            && e.req.id == e.proposal.id && OwnedBy(e.proposal, e.req.who) && e.req.token == e.proposal.token
            && e.now < e.proposal.expiresAt && e.req.who.version == e.proposal.actorVersion
            && (forall a, b :: 0 <= a < b < |s.commits| ==> !SameVersion(s.commits[a], s.commits[b]))
  {
    EveryStateSafe(states, actions, k);
    var s := states[k];
    assert s.executions[i] in s.executions;
    if i < j { assert s.executions[i].proposal.id != s.executions[j].proposal.id; }
    if j < i { assert s.executions[j].proposal.id != s.executions[i].proposal.id; }
  }

  /** The stored outcome is the truth in every state: for a proposal recorded as executed the repository of its
      result was committed under the terms of the proposal; for an expired or unconfirmed one nothing was committed;
      for a failed one something was committed only if the acknowledgement of that commit was lost; and nothing is
      ever committed twice for one proposal. */
  lemma OutcomeIsTruth(states: seq<State>, actions: seq<Action>, k: nat, id: int)
    requires IsRun(states, actions) && k < |states| && states[k].store.Lookup(id).Some?
    ensures var s, p := states[k], states[k].store.Lookup(id).value;
            && (p.status == Executed ==> Committed(s, p, p.result))
            && (p.status in {Awaiting, Expired} ==> forall m :: m in s.commits ==> m.proposalID != id)
            && (p.status == Failed ==> forall m :: m in s.commits && m.proposalID == id ==> !m.acknowledged)
            && (p.status == Executed ==> forall m :: m in s.commits && m.proposalID == id ==> m.acknowledged)
            && (forall i, j :: 0 <= i < j < |s.commits| ==> s.commits[i].proposalID != id || s.commits[j].proposalID != id)
  {
    EveryStateSafe(states, actions, k);
    var s := states[k];
    assert TruthfulEntry(s, id);
    assert s.store.Lookup(id).value.id == id;
    forall m | m in s.commits && m.proposalID == id ensures TruthfulCommit(s, m) {}
    forall i, j | 0 <= i < j < |s.commits| ensures s.commits[i].proposalID != id || s.commits[j].proposalID != id {
      assert TruthfulCommit(s, s.commits[i]) && TruthfulCommit(s, s.commits[j]);
      assert !SameVersion(s.commits[i], s.commits[j]);
    }
  }

  /** The project as the proposal saw it: active, at the proposed version, with room for the new repository. */
  predicate AsProposed(projects: map<int, ProjectRow>, p: Proposal) {
    && p.inputs.projectID in projects
    && var row := projects[p.inputs.projectID];
       && row.workspace == p.workspace && row.state == "active" && row.version == p.inputs.projectVersion
       && |row.repositories| + p.quotaCost <= MAX_REPOSITORIES
  }

  lemma {:induction false} SnapshotWasTaken(states: seq<State>, actions: seq<Action>, k: nat, c: int) returns (h: nat)
    requires IsRun(states, actions) && k < |states| && c in states[k].calls && states[k].calls[c].SnapshotChecked?
    ensures h < k && AsProposed(states[h].projects, states[k].calls[c].proposal)
    ensures c in states[h].calls && states[h].calls[c] == ActorChecked(states[k].calls[c].req, states[k].calls[c].now, states[k].calls[c].proposal)
  {
    var a := actions[k - 1];
    if a.Snapshot? && a.caller == c {
      h := k - 1;
      EveryStateSafe(states, actions, h);
      assert HolderFacts(states[h], c);
    } else {
      h := SnapshotWasTaken(states, actions, k - 1, c);
    }
  }

  /** The executor is only ever invoked after the project was seen, during that call, as the proposal states it. */
  lemma {:induction false} ExecutionWasChecked(states: seq<State>, actions: seq<Action>, k: nat, i: nat) returns (h: nat)
    requires IsRun(states, actions) && k < |states| && i < |states[k].executions|
    ensures var e := states[k].executions[i];
            && h < k && AsProposed(states[h].projects, e.proposal)
            && e.caller in states[h].calls && states[h].calls[e.caller] == ActorChecked(e.req, e.now, e.proposal)
  {
    var a := actions[k - 1];
    if i < |states[k - 1].executions| {
      CommitsGrow(states[k - 1], a);
      h := ExecutionWasChecked(states, actions, k - 1, i);
    } else {
      h := SnapshotWasTaken(states, actions, k - 1, a.caller);
    }
  }

  /** A terminal proposal is the same in every later state of the run. */
  lemma {:induction false} TerminalForever(states: seq<State>, actions: seq<Action>, i: nat, j: nat, id: int)
    requires IsRun(states, actions) && i <= j < |states|
    requires states[i].store.Lookup(id).Some? && Terminal(states[i].store.Lookup(id).value.status)
    ensures states[j].store.Lookup(id) == states[i].store.Lookup(id)
  {
    if i < j {
      TerminalForever(states, actions, i, j - 1, id);
      EveryStateSafe(states, actions, j - 1);
      StepAdvances(states[j - 1], actions[j - 1], id);
    }
  }

  /** Every successful reply about one proposal, first or replayed, is one and the same value, and it is
      what the store keeps from then on. */
  lemma OneOutcome(states: seq<State>, actions: seq<Action>, i: nat, j: nat, c: int, d: int)
    requires IsRun(states, actions) && i <= j < |states|
    requires c in states[i].calls && states[i].calls[c].Done? && states[i].calls[c].reply.Returned?
    requires d in states[j].calls && states[j].calls[d].Done? && states[j].calls[d].reply.Returned?
    requires states[i].calls[c].reply.proposal.id == states[j].calls[d].reply.proposal.id
    ensures states[i].calls[c].reply == states[j].calls[d].reply
    ensures states[j].store.Lookup(states[i].calls[c].reply.proposal.id) == Some(states[i].calls[c].reply.proposal)
  {
    EveryStateSafe(states, actions, i);
    EveryStateSafe(states, actions, j);
    assert HolderFacts(states[i], c) && HolderFacts(states[j], d);
    TerminalForever(states, actions, i, j, states[i].calls[c].reply.proposal.id);
  }

  /** The owner who repeats the confirmation under the same key, with the token, gets the stored outcome back
      from either store, at any time. */
  lemma SameKeyReplays(s: State, c: int)
    requires Safe(s) && Enabled(s, BeginStep(c))
    requires var req := s.calls[c].req;
             && s.store.Lookup(req.id).Some? && s.store.Key(req.id) == Some(req.key)
             && Completed(s.store.Lookup(req.id).value.status)
             && OwnedBy(s.store.Lookup(req.id).value, req.who) && s.store.Lookup(req.id).value.token == req.token
    ensures var s' := Step(s, BeginStep(c));
            && s'.calls[c] == Done(Returned(s.store.Lookup(s.calls[c].req.id).value))
            && s'.store == s.store && s'.executions == s.executions
  {
    var Timed(req, now) := s.calls[c];
    BeginContract(s.store, req.id, req.who, req.token, req.key, now);
  }

  /** A change that was made is recorded as a failure exactly when its acknowledgement was lost. */
  lemma LostAcknowledgement(s: State, c: int, setting: Setting, auditID: int)
    requires Safe(s) && Enabled(s, Execute(c, setting, auditID))
    requires AddRepository(s.projects, s.calls[c].req.who.workspace, s.calls[c].proposal.inputs, setting).Ok?
    ensures var p, s' := s.calls[c].proposal, Step(s, Execute(c, setting, auditID));
            && s'.commits != s.commits && s'.calls[c].Finishing?
            && var s'' := Step(s', FinishStep(c));
               && s''.store.Lookup(p.id).Some? && s''.commits == s'.commits
               && (s''.store.Lookup(p.id).value.status == Failed <==> !setting.acknowledged)
               && (s''.store.Lookup(p.id).value.status == Executed <==> setting.acknowledged)
  {
    assert HolderFacts(s, c);
    var s' := Step(s, Execute(c, setting, auditID));
    var Finishing(req, p, status, result, error) := s'.calls[c];
    FinishContract(s'.store, p.id, status, result, s'.clock);
  }

  /** A commit is made only against the very project version the proposal was written for. */
  lemma CommitOnProposedVersion(s: State, c: int, setting: Setting, auditID: int)
    requires Safe(s) && Enabled(s, Execute(c, setting, auditID))
    requires Step(s, Execute(c, setting, auditID)).commits != s.commits
    ensures var input := s.calls[c].proposal.inputs; var after := Step(s, Execute(c, setting, auditID)).projects;
            && input.projectID in s.projects && s.projects[input.projectID].version == input.projectVersion
            && s.projects[input.projectID].state == "active"
            && input.projectID in after && after[input.projectID].version == input.projectVersion + 1
            && |after[input.projectID].repositories| <= MAX_REPOSITORIES
  {
    var SnapshotChecked(req, now, p) := s.calls[c];
    AddRepositoryKeeps(s.projects, req.who.workspace, p.inputs, setting);
  }

  // ----- a confirmation in time is carried out -----

  /** A new proposal is stored under its ID, unconfirmed, and nothing else changes. */
  lemma ProposalStored(s: State, p: Proposal)
    requires s.store.Valid() && Enabled(s, Propose(p))
    ensures var s' := Step(s, Propose(p));
            && s'.store.Lookup(p.id) == Some(p) && s'.store.Key(p.id) == None && s' == s.(store := s'.store)
            && forall id :: id != p.id ==> s'.store.Lookup(id) == s.store.Lookup(id) && s'.store.Key(id) == s.store.Key(id)
  {
  }

  /** Either store grants exactly the owner, with the token, before expiry, of an awaiting proposal not yet confirmed,
      and takes the key and the time of the call. */
  lemma BeginGrantsIff(s: Store, id: int, who: Principal, token: Digest, key: string, now: int)
    requires s.Valid() && key != ""
    ensures var out := s.Begin(id, who, token, key, now);
            && (out.1.Granted? <==>
                  && s.Lookup(id).Some? && s.Key(id) == None
                  && var p := s.Lookup(id).value;
                     p.status == Awaiting && p.workspace == who.workspace && p.actor == who.actor && p.token == token && now < p.expiresAt)
            && (out.1.Granted? ==>
                  && out.1.proposal == s.Lookup(id).value.(status := Executing, consumedAt := Some(now))
                  && out.0.Lookup(id) == Some(out.1.proposal) && out.0.Key(id) == Some(key))
  {
  }

  /** The re-check passes exactly when the project can be read and is as proposed, and names the reason otherwise. */
  lemma RecheckIff(pos: Position, projects: map<int, ProjectRow>, readable: bool)
    requires pos.ActorChecked? && pos.proposal.workspace == pos.req.who.workspace
    ensures var r := CheckedPosition(pos, projects, readable); var p := pos.proposal;
            var found := readable && p.inputs.projectID in projects && projects[p.inputs.projectID].workspace == p.workspace;
            && (r.SnapshotChecked? <==> readable && AsProposed(projects, p))
            && (r.SnapshotChecked? ==> r == SnapshotChecked(pos.req, pos.now, p))
            && (!r.SnapshotChecked? ==>
                  && r.Finishing? && r.req == pos.req && r.proposal == p && r.status == Failed && r.result == Outcome(0, 0)
                  && r.cause == Some(if !found then NotFound
                                     else if projects[p.inputs.projectID].state == "active"
                                             && projects[p.inputs.projectID].version == p.inputs.projectVersion then QuotaExceeded
                                     else StateChanged))
  {
  }

  /** The project has room for the proposed repository and the executor's surroundings work. */
  predicate Ready(projects: map<int, ProjectRow>, p: Proposal, setting: Setting) {
    && AsProposed(projects, p) && |projects[p.inputs.projectID].repositories| < 20
    && p.inputs.role in {"primary", "core", "documentation", "examples", "sdk", "other"}
    && setting.canonical.Some? && setting.available && setting.acknowledged
  }

  /** What a call must be to succeed: its owner's, with the token and an unchanged actor version, on a clock reading
      before expiry, for an awaiting proposal not yet confirmed. */
  ghost predicate InTime(s: State, c: int, p: Proposal) {
    && c in s.calls && s.calls[c].Timed?
    && var Timed(req, now) := s.calls[c];
       && s.store.Lookup(req.id) == Some(p) && s.store.Key(req.id) == None && p.id == req.id && p.status == Awaiting
       && p.workspace == req.who.workspace && p.actor == req.who.actor && p.token == req.token && now < p.expiresAt
       && p.actorVersion == req.who.version && req.key != ""
  }

  lemma GrantedPosition(s: State, c: int, p: Proposal) returns (s1: State)
    requires s.store.Valid() && InTime(s, c, p)
    ensures Enabled(s, BeginStep(c)) && s1 == Step(s, BeginStep(c))
    ensures var Timed(req, now) := s.calls[c]; var q := p.(status := Executing, consumedAt := Some(now));
            && c in s1.calls && s1.calls[c] == Begun(req, now, q) && s1.store.Lookup(p.id) == Some(q)
            && s1.projects == s.projects && s1.commits == s.commits
  {
    var Timed(req, now) := s.calls[c];
    BeginGrantsIff(s.store, req.id, req.who, req.token, req.key, now);
    s1 := Step(s, BeginStep(c));
  }

  lemma CheckedCall(s: State, c: int) returns (s': State)
    requires c in s.calls && s.calls[c].Begun? && s.calls[c].req.who.version == s.calls[c].proposal.actorVersion
    requires s.calls[c].proposal.workspace == s.calls[c].req.who.workspace && AsProposed(s.projects, s.calls[c].proposal)
    ensures Enabled(s, CheckActor(c)) && Enabled(Step(s, CheckActor(c)), Snapshot(c, true))
    ensures s' == Step(Step(s, CheckActor(c)), Snapshot(c, true))
    ensures s'.calls == s.calls[c := SnapshotChecked(s.calls[c].req, s.calls[c].now, s.calls[c].proposal)]
    ensures s'.store == s.store && s'.projects == s.projects && s'.commits == s.commits
  {
    var s1 := Step(s, CheckActor(c));
    RecheckIff(s1.calls[c], s1.projects, true);
    s' := Step(s1, Snapshot(c, true));
  }

  lemma ExecutedCall(s: State, c: int, setting: Setting, auditID: int) returns (s': State)
    requires c in s.calls && s.calls[c].SnapshotChecked? && s.calls[c].proposal.workspace == s.calls[c].req.who.workspace
    requires Ready(s.projects, s.calls[c].proposal, setting)
    ensures Enabled(s, Execute(c, setting, auditID)) && s' == Step(s, Execute(c, setting, auditID))
    ensures var p := s.calls[c].proposal;
            && c in s'.calls && s'.calls[c] == Finishing(s.calls[c].req, p, Executed, Outcome(setting.repositoryID, auditID), None)
            && s'.store == s.store && p.inputs.projectID in s'.projects
            && s'.commits == s.commits + [Commit(p.inputs.projectID, p.inputs.projectVersion, setting.repositoryID, p.id, true)]
            && var was, now := s.projects[p.inputs.projectID].repositories, s'.projects[p.inputs.projectID].repositories;
               && |now| == |was| + 1 && Some(now[|was|].url) == setting.canonical && now[|was|].role == p.inputs.role
               && now[|was|].id == setting.repositoryID
  {
    var p := s.calls[c].proposal;
    AddRepositoryKeeps(s.projects, s.calls[c].req.who.workspace, p.inputs, setting);
    s' := Step(s, Execute(c, setting, auditID));
  }

  lemma FinishedCall(s: State, c: int) returns (s': State)
    requires s.store.Valid() && c in s.calls && s.calls[c].Finishing? && s.calls[c].cause == None && Completed(s.calls[c].status)
    requires s.store.Lookup(s.calls[c].proposal.id).Some? && s.store.Lookup(s.calls[c].proposal.id).value.status == Executing
    ensures Enabled(s, FinishStep(c)) && s' == Step(s, FinishStep(c))
    ensures c in s'.calls && s'.calls[c].Done? && s'.calls[c].reply.Returned?
    ensures var q := s'.calls[c].reply.proposal;
            && q.status == s.calls[c].status && q.result == s.calls[c].result && s'.store.Lookup(s.calls[c].proposal.id) == Some(q)
            && SameOffer(s.store.Lookup(s.calls[c].proposal.id).value, q) && s'.commits == s.commits && s'.projects == s.projects
  {
    var Finishing(req, p, status, result, error) := s.calls[c];
    FinishContract(s.store, p.id, status, result, s.clock);
    s' := Step(s, FinishStep(c));
  }

  /** The steps of one call, undisturbed. */
  function Undisturbed(c: int, setting: Setting, auditID: int): (actions: seq<Action>) {
    [BeginStep(c), CheckActor(c), Snapshot(c, true), Execute(c, setting, auditID), FinishStep(c)]
  }

  /** The actions lead from the one state to the other. */
  ghost predicate Leads(s: State, actions: seq<Action>, t: State)
    decreases |actions|
  {
    if actions == [] then s == t else Enabled(s, actions[0]) && Leads(Step(s, actions[0]), actions[1..], t)
  }

  /** A confirmation in time, of a proposal whose project is still as proposed, is granted, executed and returned:
      the repository is added and its identifiers are the recorded result. */
  lemma ConfirmSucceeds(s: State, c: int, p: Proposal, setting: Setting, auditID: int) returns (t: State)
    requires Safe(s) && InTime(s, c, p) && Ready(s.projects, p, setting)
    ensures Leads(s, Undisturbed(c, setting, auditID), t)
    ensures c in t.calls && t.calls[c].Done? && t.calls[c].reply.Returned?
    ensures var q := t.calls[c].reply.proposal;
            && q.status == Executed && q.result == Outcome(setting.repositoryID, auditID) && SameOffer(p, q)
            && t.store.Lookup(p.id) == Some(q)
            && t.commits == s.commits + [Commit(p.inputs.projectID, p.inputs.projectVersion, setting.repositoryID, p.id, true)]
            && p.inputs.projectID in t.projects
            && |t.projects[p.inputs.projectID].repositories| == |s.projects[p.inputs.projectID].repositories| + 1
  {
    var s1 := GrantedPosition(s, c, p);
    var s3 := CheckedCall(s1, c);
    var s4 := ExecutedCall(s3, c, setting, auditID);
    StepAdvances(s, BeginStep(c), 0);
    t := FinishedCall(s4, c);
    hide Enabled, Step;
    FiveSteps(s, Undisturbed(c, setting, auditID), s1, Step(s1, CheckActor(c)), s3, s4, t);
  }

  lemma FiveSteps(s: State, actions: seq<Action>, s1: State, s2: State, s3: State, s4: State, t: State)
    requires |actions| == 5
    requires Enabled(s, actions[0]) && s1 == Step(s, actions[0]) && Enabled(s1, actions[1]) && s2 == Step(s1, actions[1])
    requires Enabled(s2, actions[2]) && s3 == Step(s2, actions[2]) && Enabled(s3, actions[3]) && s4 == Step(s3, actions[3])
    requires Enabled(s4, actions[4]) && t == Step(s4, actions[4])
    ensures Leads(s, actions, t)
  {
    hide Enabled, Step;
    assert actions[1..][1..] == actions[2..] && actions[2..][1..] == actions[3..] && actions[3..][1..] == actions[4..];
    assert actions[4..][1..] == [];
    assert Leads(s4, actions[4..], t);
    assert Leads(s3, actions[3..], t);
    assert Leads(s2, actions[2..], t);
  }

  // ----- the two stores under overlapping calls -----

  lemma Then(states: seq<State>, actions: seq<Action>, a: Action) returns (states': seq<State>, actions': seq<Action>)
    requires IsRun(states, actions) && Enabled(states[|actions|], a)
    ensures states' == states + [Step(states[|actions|], a)] && actions' == actions + [a] && IsRun(states', actions')
  {
    states', actions' := states + [Step(states[|actions|], a)], actions + [a];
    forall i {:trigger actions'[i]} | 0 <= i < |actions'|
      ensures Enabled(states'[i], actions'[i]) && states'[i + 1] == Step(states'[i], actions'[i])
    {
      if i < |actions| { assert actions'[i] == actions[i]; }
    }
  }

  function Owner(): (who: Principal) { Principal(1, 1, 1, true) }

  /** A proposal that expires at instant 10, with token 7. */
  function Expiring(): (p: Proposal) {
    Proposal(1, 1, 1, 1, Awaiting, RepositoryAdd(1, 1, "https://github.com/a/b", "core"), 1, 10, 7, None, Outcome(0, 0))
  }

  function Start(store: Store): (s: State) { State(store, map[], 5, map[], [], []) }

  /** The first call reads the clock in time and is overtaken by a second one of the same owner, past expiry and with
      a wrong token, before it reaches the store. */
  function Overtaken(): (actions: seq<Action>) {
    [Propose(Expiring()), Call(1, Request(Owner(), 1, 7, "k")), ReadClock(1), Tick(15),
     Call(2, Request(Owner(), 1, 8, "j")), ReadClock(2), BeginStep(2), BeginStep(1)]
  }

  /** On a clock that only goes forward the table grants the overtaken call and the memory store refuses it. */
  lemma OverlappingCalls(store: Store) returns (states: seq<State>)
    requires store == MemoryTable(map[]) || store == PostgresTable(map[])
    ensures IsRun(states, Overtaken()) && states[0] == Start(store)
    ensures 1 in states[8].calls
    ensures states[8].calls[1] ==
            if store.MemoryTable? then Done(Error(AlreadyUsed))
            else Begun(Request(Owner(), 1, 7, "k"), 5, Expiring().(status := Executing, consumedAt := Some(5)))
  {
    hide IsRun, MemoryBegin, PostgresBegin, Store.Create, Store.Begin, CheckedPosition;
    states := BothTimed(store);
    var actions := Overtaken()[..6];
    LateCallFirst(store);
    states, actions := Then(states, actions, BeginStep(2));
    states, actions := Then(states, actions, BeginStep(1));
    assert actions == Overtaken();
  }

  lemma FirstTimed(store: Store) returns (states: seq<State>)
    requires store == MemoryTable(map[]) || store == PostgresTable(map[])
    ensures IsRun(states, Overtaken()[..3]) && states[0] == Start(store) && |states| == 4
    ensures states[3] == State(store.Create(Expiring()), map[], 5, map[1 := Timed(Request(Owner(), 1, 7, "k"), 5)], [], [])
  {
    var actions: seq<Action>;
    states, actions := [Start(store)], [];
    assert IsRun(states, actions);
    hide IsRun, Store.Create;
    states, actions := Then(states, actions, Propose(Expiring()));
    states, actions := Then(states, actions, Call(1, Request(Owner(), 1, 7, "k")));
    states, actions := Then(states, actions, ReadClock(1));
    assert actions == Overtaken()[..3];
  }

  lemma BothTimed(store: Store) returns (states: seq<State>)
    requires store == MemoryTable(map[]) || store == PostgresTable(map[])
    ensures IsRun(states, Overtaken()[..6]) && states[0] == Start(store) && |states| == 7
    ensures states[6] == State(store.Create(Expiring()), map[], 20,
                               map[1 := Timed(Request(Owner(), 1, 7, "k"), 5), 2 := Timed(Request(Owner(), 1, 8, "j"), 20)], [], [])
  {
    states := FirstTimed(store);
    hide IsRun, Store.Create;
    var actions := Overtaken()[..3];
    states, actions := Then(states, actions, Tick(15));
    states, actions := Then(states, actions, Call(2, Request(Owner(), 1, 8, "j")));
    states, actions := Then(states, actions, ReadClock(2));
    assert actions == Overtaken()[..6];
  }

  lemma LateCallFirst(store: Store)
    requires store == MemoryTable(map[]) || store == PostgresTable(map[])
    ensures var late := store.Create(Expiring()).Begin(1, Owner(), 8, "j", 20);
            var early := late.0.Begin(1, Owner(), 7, "k", 5);
            && late.1.Refused?
            && early.1 == if store.MemoryTable? then Refused(AlreadyUsed)
                          else Granted(Expiring().(status := Executing, consumedAt := Some(5)))
  {
  }
}
