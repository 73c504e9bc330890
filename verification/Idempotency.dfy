/** Once-only HTTP handling (internal/platform/accessapi/idempotency.go and serveIdempotent in api.go):
    requests interleave at every access to the cache. Digests and responses are opaque values. */
module Idempotency {
  type Key = string
  type Digest = int
  type Response = int

  /** `closes` counts how often the ready channel was closed; Go panics at the second time. */
  datatype Entry = Entry(digest: Digest, response: Response, complete: bool, closes: nat)

  datatype Begun = New | Replay(response: Response) | Wait | Conflict

  function CacheBegin(entries: map<Key, Entry>, key: Key, digest: Digest): (out: (map<Key, Entry>, Begun)) {
    if key !in entries then (entries[key := Entry(digest, 0, false, 0)], New)
    else if entries[key].digest != digest then (entries, Conflict)
    else if !entries[key].complete then (entries, Wait)
    else (entries, Replay(entries[key].response))
  }

  function CacheComplete(entries: map<Key, Entry>, key: Key, digest: Digest, response: Response): (r: map<Key, Entry>)
    requires key in entries
  {
    entries[key := Entry(digest, response, true, entries[key].closes + 1)]
  }

  class Cache {
    var entries: map<Key, Entry>

    constructor ()
      ensures entries == map[]
    {
      entries := map[];
    }

    method Begin(key: Key, digest: Digest) returns (r: Begun)
      modifies this
      ensures entries == CacheBegin(old(entries), key, digest).0 && r == CacheBegin(old(entries), key, digest).1
    {
      if key !in entries {
        entries := entries[key := Entry(digest, 0, false, 0)];
        return New;
      }
      var entry := entries[key];
      if entry.digest != digest { return Conflict; }
      if !entry.complete { return Wait; }
      return Replay(entry.response);
    }

    method Complete(key: Key, digest: Digest, response: Response)
      requires key in entries
      modifies this
      ensures entries == CacheComplete(old(entries), key, digest, response)
    {
      var entry := entries[key];
      entry := entry.(digest := digest, response := response, complete := true);
      entries := entries[key := entry.(closes := entry.closes + 1)];
    }
  }

  // ----- the protocol -----

  datatype Request = Request(key: Key, digest: Digest)

  datatype Reply = Replied(response: Response) | ConflictReply | NotCompleted | ClientGone

  datatype Position =
    | Arrived(req: Request)
    | Handling(req: Request)
    | Handled(req: Request, response: Response)
    | Waiting(req: Request)
    | Woken(req: Request)
    | Done(req: Request, reply: Reply)

  /** One run of the wrapped handler. */
  datatype HandlerRun = HandlerRun(req: Request, response: Response)

  datatype State = State(entries: map<Key, Entry>, calls: map<int, Position>, runs: seq<HandlerRun>)

  datatype Action =
    | Arrive(caller: int, req: Request)
    | BeginStep(caller: int)
    | Handle(caller: int, response: Response)
    | CompleteStep(caller: int)
    | Wake(caller: int)
    | Recheck(caller: int)
    | Disconnect(caller: int)

  predicate Enabled(s: State, a: Action) {
    match a
    case Arrive(c, _) => c !in s.calls
    case BeginStep(c) => c in s.calls && s.calls[c].Arrived?
    case Handle(c, _) => c in s.calls && s.calls[c].Handling?
    case CompleteStep(c) => c in s.calls && s.calls[c].Handled? && s.calls[c].req.key in s.entries
    case Wake(c) => c in s.calls && s.calls[c].Waiting? && s.calls[c].req.key in s.entries && s.entries[s.calls[c].req.key].closes > 0
    case Recheck(c) => c in s.calls && s.calls[c].Woken?
    case Disconnect(c) => c in s.calls && s.calls[c].Waiting?
  }

  function Step(s: State, a: Action): (s': State)
    requires Enabled(s, a)
  {
    match a
    case Arrive(c, req) => s.(calls := s.calls[c := Arrived(req)])
    case BeginStep(c) =>
      var req := s.calls[c].req;
      var out := CacheBegin(s.entries, req.key, req.digest);
      s.(entries := out.0, calls := s.calls[c :=
        match out.1
        case New => Handling(req)
        case Conflict => Done(req, ConflictReply)
        case Wait => Waiting(req)
        case Replay(response) => Done(req, Replied(response))])
    case Handle(c, response) =>
      var req := s.calls[c].req;
      s.(calls := s.calls[c := Handled(req, response)], runs := s.runs + [HandlerRun(req, response)])
    case CompleteStep(c) =>
      var Handled(req, response) := s.calls[c];
      s.(entries := CacheComplete(s.entries, req.key, req.digest, response), calls := s.calls[c := Done(req, Replied(response))])
    case Wake(c) => s.(calls := s.calls[c := Woken(s.calls[c].req)])
    case Recheck(c) =>
      var req := s.calls[c].req;
      var out := CacheBegin(s.entries, req.key, req.digest);
      s.(entries := out.0, calls := s.calls[c := Done(req, if out.1.Replay? then Replied(out.1.response) else NotCompleted)])
    case Disconnect(c) => s.(calls := s.calls[c := Done(s.calls[c].req, ClientGone)])
  }

  ghost predicate Initial(s: State) { s.entries == map[] && s.calls == map[] && s.runs == [] }

  ghost predicate IsRun(states: seq<State>, actions: seq<Action>) {
    && |states| == |actions| + 1 && Initial(states[0])
    && forall i {:trigger actions[i]} :: 0 <= i < |actions| ==> Enabled(states[i], actions[i]) && states[i + 1] == Step(states[i], actions[i])
  }

  // ----- invariants -----

  /** The request owns the unfinished entry of its key. */
  predicate Owns(pos: Position, key: Key) { (pos.Handling? || pos.Handled?) && pos.req.key == key }

  ghost predicate Ran(s: State, key: Key) { exists r :: r in s.runs && r.req.key == key }

  ghost predicate PositionFacts(s: State, pos: Position) {
    match pos
    case Arrived(_) => true
    case Handling(req) => Open(s, req) && !Ran(s, req.key)
    case Handled(req, response) => Open(s, req) && HandlerRun(req, response) in s.runs
    case Waiting(req) => req.key in s.entries && s.entries[req.key].digest == req.digest
    case Woken(req) => req.key in s.entries && s.entries[req.key].digest == req.digest && s.entries[req.key].complete
    case Done(req, reply) =>
      && reply != NotCompleted
      && (reply.Replied? ==>
            && req.key in s.entries && s.entries[req.key].complete
            && s.entries[req.key].digest == req.digest && s.entries[req.key].response == reply.response)
      && (reply == ConflictReply ==> req.key in s.entries && s.entries[req.key].digest != req.digest)
  }

  predicate Open(s: State, req: Request) {
    req.key in s.entries && s.entries[req.key].digest == req.digest && !s.entries[req.key].complete
  }

  ghost predicate EntryFacts(s: State, key: Key)
    requires key in s.entries
  {
    var e := s.entries[key];
    && e.closes == (if e.complete then 1 else 0)
    && (e.complete ==> HandlerRun(Request(key, e.digest), e.response) in s.runs)
  }

  ghost predicate Safe(s: State) {
    && (forall c :: c in s.calls ==> PositionFacts(s, s.calls[c]))
    && (forall c, d, key :: c in s.calls && d in s.calls && Owns(s.calls[c], key) && Owns(s.calls[d], key) ==> c == d)
    && (forall key :: key in s.entries ==> EntryFacts(s, key))
    && (forall r :: r in s.runs ==> r.req.key in s.entries && s.entries[r.req.key].digest == r.req.digest)
    && (forall i, j :: 0 <= i < j < |s.runs| ==> s.runs[i].req.key != s.runs[j].req.key)
  }

  /** What never changes: an entry keeps its digest, and a completed entry keeps everything. */
  predicate Grows(before: map<Key, Entry>, after: map<Key, Entry>) {
    forall key :: key in before ==>
      key in after && after[key].digest == before[key].digest && (before[key].complete ==> after[key] == before[key])
  }

  lemma StepGrows(s: State, a: Action)
    requires Safe(s) && Enabled(s, a)
    ensures Grows(s.entries, Step(s, a).entries)
    ensures s.runs <= Step(s, a).runs
  {
    if a.CompleteStep? { assert PositionFacts(s, s.calls[a.caller]); }
  }

  lemma OthersKeep(s: State, a: Action, d: int)
    requires Safe(s) && Enabled(s, a) && d in s.calls && a.caller != d
    ensures d in Step(s, a).calls && PositionFacts(Step(s, a), s.calls[d]) && Step(s, a).calls[d] == s.calls[d]
  {
    StepGrows(s, a);
    var pos := s.calls[d];
    assert PositionFacts(s, pos);
    if a.CompleteStep? || a.Handle? {
      var key := s.calls[a.caller].req.key;
      assert Owns(s.calls[a.caller], key);
      assert PositionFacts(s, s.calls[a.caller]);
      assert !Owns(pos, key);
    }
  }

  lemma MoverKeeps(s: State, a: Action)
    requires Safe(s) && Enabled(s, a)
    ensures PositionFacts(Step(s, a), Step(s, a).calls[a.caller])
  {
    var s' := Step(s, a);
    if !a.Arrive? {
      assert PositionFacts(s, s.calls[a.caller]);
      var key := s.calls[a.caller].req.key;
      if key in s.entries { assert EntryFacts(s, key); }
      if a.Handle? { assert s'.runs[|s.runs|] in s'.runs; }
    }
  }

  lemma OneOwner(s: State, a: Action, c: int, d: int, key: Key)
    requires Safe(s) && Enabled(s, a)
    requires c in Step(s, a).calls && d in Step(s, a).calls
    requires Owns(Step(s, a).calls[c], key) && Owns(Step(s, a).calls[d], key)
    ensures c == d
  {
    if c in s.calls { assert PositionFacts(s, s.calls[c]); }
    if d in s.calls { assert PositionFacts(s, s.calls[d]); }
    if !a.BeginStep? { assert Owns(s.calls[c], key) && Owns(s.calls[d], key); }
  }

  lemma EntriesKeep(s: State, a: Action, key: Key)
    requires Safe(s) && Enabled(s, a) && key in Step(s, a).entries
    ensures EntryFacts(Step(s, a), key)
  {
    StepGrows(s, a);
    if key in s.entries { assert EntryFacts(s, key); }
    if a.CompleteStep? { assert PositionFacts(s, s.calls[a.caller]); }
  }

  lemma RunsKeep(s: State, a: Action)
    requires Safe(s) && Enabled(s, a)
    ensures var s' := Step(s, a);
            && (forall r :: r in s'.runs ==> r.req.key in s'.entries && s'.entries[r.req.key].digest == r.req.digest)
            && (forall i, j :: 0 <= i < j < |s'.runs| ==> s'.runs[i].req.key != s'.runs[j].req.key)
  {
    StepGrows(s, a);
    if a.Handle? {
      assert PositionFacts(s, s.calls[a.caller]);
      forall i | 0 <= i < |s.runs| ensures s.runs[i].req.key != s.calls[a.caller].req.key { assert s.runs[i] in s.runs; }
    }
  }

  lemma StepSafe(s: State, a: Action)
    requires Safe(s) && Enabled(s, a)
    ensures Safe(Step(s, a))
  {
    var s' := Step(s, a);
    hide PositionFacts, EntryFacts;
    forall c | c in s'.calls ensures PositionFacts(s', s'.calls[c]) {
      if c == a.caller { MoverKeeps(s, a); } else { OthersKeep(s, a, c); }
    }
    forall c, d, key | c in s'.calls && d in s'.calls && Owns(s'.calls[c], key) && Owns(s'.calls[d], key) ensures c == d {
      OneOwner(s, a, c, d, key);
    }
    forall key | key in s'.entries ensures EntryFacts(s', key) { EntriesKeep(s, a, key); }
    RunsKeep(s, a);
  }

  lemma {:induction false} EveryStateSafe(states: seq<State>, actions: seq<Action>, k: nat)
    requires IsRun(states, actions) && k < |states|
    ensures Safe(states[k])
  {
    if k > 0 {
      EveryStateSafe(states, actions, k - 1);
      hide Safe;
      var a := actions[k - 1];
      StepSafe(states[k - 1], a);
    }
  }

  /** In every interleaving: the handler runs at most once per key; the ready channel of a key is closed at most
      once, and exactly once when its response is recorded; every reply is the recorded response, given only to
      requests with the recorded digest; a conflict is reported only to a different digest, which never runs; and the
      branch "the original request did not complete" is never taken. */
  lemma HandledOnce(states: seq<State>, actions: seq<Action>, k: nat)
    requires IsRun(states, actions) && k < |states|
    ensures var s := states[k];
            && (forall i, j :: 0 <= i < |s.runs| && 0 <= j < |s.runs| && s.runs[i].req.key == s.runs[j].req.key ==> i == j)
            && (forall key :: key in s.entries ==> s.entries[key].closes == if s.entries[key].complete then 1 else 0)
            && (forall c :: c in s.calls && s.calls[c].Done? ==> s.calls[c].reply != NotCompleted)
            && (forall c :: c in s.calls && s.calls[c].Done? && s.calls[c].reply.Replied? ==>
                  HandlerRun(s.calls[c].req, s.calls[c].reply.response) in s.runs)
            && (forall c :: c in s.calls && s.calls[c].Done? && s.calls[c].reply == ConflictReply ==>
                  s.calls[c].req.key in s.entries && s.entries[s.calls[c].req.key].digest != s.calls[c].req.digest)
            && (forall r :: r in s.runs ==> r.req.key in s.entries && r.req.digest == s.entries[r.req.key].digest)
  {
    EveryStateSafe(states, actions, k);
    var s := states[k];
    forall key | key in s.entries ensures EntryFacts(s, key) {}
    forall c | c in s.calls && s.calls[c].Done? ensures s.calls[c].reply != NotCompleted
                            ensures s.calls[c].reply.Replied? ==> HandlerRun(s.calls[c].req, s.calls[c].reply.response) in s.runs
                            ensures s.calls[c].reply == ConflictReply ==>
                                      s.calls[c].req.key in s.entries && s.entries[s.calls[c].req.key].digest != s.calls[c].req.digest
    {
      assert PositionFacts(s, s.calls[c]);
      if s.calls[c].reply.Replied? { assert EntryFacts(s, s.calls[c].req.key); }
    }
  }

  /** A completed entry is the same in every later state. */
  lemma {:induction false} CompletedForever(states: seq<State>, actions: seq<Action>, i: nat, j: nat, key: Key)
    requires IsRun(states, actions) && i <= j < |states|
    requires key in states[i].entries && states[i].entries[key].complete
    ensures key in states[j].entries && states[j].entries[key] == states[i].entries[key]
  {
    if i < j {
      CompletedForever(states, actions, i, j - 1, key);
      EveryStateSafe(states, actions, j - 1);
      var a := actions[j - 1];
      StepGrows(states[j - 1], a);
    }
  }

  /** Two replies under one key are the same response, whenever and to whomever they were given. */
  lemma OneResponse(states: seq<State>, actions: seq<Action>, i: nat, j: nat, c: int, d: int)
    requires IsRun(states, actions) && i <= j < |states|
    requires c in states[i].calls && states[i].calls[c].Done? && states[i].calls[c].reply.Replied?
    requires d in states[j].calls && states[j].calls[d].Done? && states[j].calls[d].reply.Replied?
    requires states[i].calls[c].req.key == states[j].calls[d].req.key
    ensures states[i].calls[c].reply == states[j].calls[d].reply && states[i].calls[c].req == states[j].calls[d].req
  {
    EveryStateSafe(states, actions, i);
    EveryStateSafe(states, actions, j);
    assert PositionFacts(states[i], states[i].calls[c]) && PositionFacts(states[j], states[j].calls[d]);
    CompletedForever(states, actions, i, j, states[i].calls[c].req.key);
  }
}
