/** The Project aggregate (internal/project/project.go). Case folding is ASCII. The functions say what an operation
    returns; the methods `...InPlace` run on the repository slice that the caller's own value still refers to. */
module Projects {
  import opened Text

  datatype State = Active | Paused | Archived | Deleting | Deleted

  datatype Repository = Repository(id: int, projectID: int, url: string, role: string, version: int)

  datatype Project = Project(id: int, workspaceID: int, name: string, slug: string, state: State, version: int, repositories: seq<Repository>)

  datatype Error = ErrInvalid | ErrConflict | ErrVersionConflict | ErrPermissionDenied | ErrNotFound

  const PRIMARY := "primary"

  predicate ValidRole(role: string) { role in {"primary", "core", "documentation", "examples", "sdk", "other"} }

  function Max(a: int, b: int): (r: int) { if a < b then b else a }

  // ----- validity -----

  predicate ValidRepository(r: Repository, projectID: int) {
    r.id > 0 && r.projectID == projectID && ValidRole(r.role) && !Blank(r.url)
  }

  predicate CaseDistinct(rs: seq<Repository>) {
    forall i, j :: 0 <= i < j < |rs| ==> Lower(rs[i].url) != Lower(rs[j].url)
  }

  function Primaries(rs: seq<Repository>): (n: nat)
    ensures n <= |rs|
  {
    if rs == [] then 0 else Primaries(rs[..|rs| - 1]) + if rs[|rs| - 1].role == PRIMARY then 1 else 0
  }

  predicate WellIdentified(p: Project) { p.id > 0 && p.workspaceID > 0 && !Blank(p.name) && !Blank(p.slug) && p.version > 0 }

  /** Identified, well-formed repositories with case-distinct URLs, and exactly one primary until deleted. */
  predicate Valid(p: Project) {
    && WellIdentified(p)
    && (forall i :: 0 <= i < |p.repositories| ==> ValidRepository(p.repositories[i], p.id))
    && CaseDistinct(p.repositories)
    && (p.state != Deleted ==> Primaries(p.repositories) == 1)
  }

  /** `Project.Validate` with its loop. */
  method Validate(p: Project) returns (ok: bool)
    ensures ok <==> Valid(p)
  {
    hide Blank, Lower, ValidRole, ValidRepository, WellIdentified;
    if !WellIdentified(p) { return false; }
    var primary, seen: set<string> := 0, {};
    var rs := p.repositories;
    for i := 0 to |rs|
      invariant forall k :: 0 <= k < i ==> ValidRepository(rs[k], p.id)
      invariant CaseDistinct(rs[..i]) && primary == Primaries(rs[..i])
      invariant forall s :: s in seen <==> exists k :: 0 <= k < i && Lower(rs[k].url) == s
    {
      if !ValidRepository(rs[i], p.id) { return false; }
      var canonical := Lower(rs[i].url);
      if canonical in seen { return false; }
      seen := seen + {canonical};
      assert rs[..i + 1][..i] == rs[..i];
      if rs[i].role == PRIMARY { primary := primary + 1; }
    }
    assert rs[..|rs|] == rs;
    return p.state == Deleted || primary == 1;
  }

  // ----- demotion -----

  function Demoted(r: Repository): (d: Repository) { if r.role == PRIMARY then r.(role := "core", version := r.version + 1) else r }

  function Demote(rs: seq<Repository>): (r: seq<Repository>)
    ensures |r| == |rs| && forall i :: 0 <= i < |rs| ==> r[i] == Demoted(rs[i])
  {
    seq(|rs|, i requires 0 <= i < |rs| => Demoted(rs[i]))
  }

  /** The loop that turns every primary of the slice into a core repository, in place. */
  method DemoteInPlace(a: array<Repository>)
    modifies a
    ensures a[..] == Demote(old(a[..]))
  {
    for i := 0 to a.Length
      invariant forall k :: 0 <= k < i ==> a[k] == Demoted(old(a[..])[k])
      invariant forall k :: i <= k < a.Length ==> a[k] == old(a[..])[k]
    {
      if a[i].role == PRIMARY { a[i] := a[i].(role := "core", version := a[i].version + 1); }
    }
  }

  lemma {:induction false} DemoteLeavesNone(rs: seq<Repository>)
    ensures Primaries(Demote(rs)) == 0
  {
    if rs != [] {
      var n := |rs| - 1;
      assert Demote(rs)[..n] == Demote(rs[..n]);
      DemoteLeavesNone(rs[..n]);
    }
  }

  lemma PrimariesAppend(rs: seq<Repository>, r: Repository)
    ensures Primaries(rs + [r]) == Primaries(rs) + if r.role == PRIMARY then 1 else 0
  {
    assert (rs + [r])[..|rs|] == rs;
  }

  lemma {:induction false} PrimariesConcat(a: seq<Repository>, b: seq<Repository>)
    ensures Primaries(a + b) == Primaries(a) + Primaries(b)
  {
    if b == [] {
      assert a + b == a;
    } else {
      assert (a + b)[..|a + b| - 1] == a + b[..|b| - 1];
      PrimariesConcat(a, b[..|b| - 1]);
    }
  }

  /** Replacing one repository changes the number of primaries by that repository alone. */
  lemma PrimariesUpdate(rs: seq<Repository>, i: nat, r: Repository)
    requires i < |rs|
    ensures Primaries(rs[i := r]) == Primaries(rs) - (if rs[i].role == PRIMARY then 1 else 0) + (if r.role == PRIMARY then 1 else 0)
    ensures Primaries(rs[..i] + rs[i + 1..]) == Primaries(rs) - if rs[i].role == PRIMARY then 1 else 0
  {
    var front, back := rs[..i], rs[i + 1..];
    PrimariesAppend(front, rs[i]);
    PrimariesAppend(front, r);
    PrimariesConcat(front + [rs[i]], back);
    PrimariesConcat(front + [r], back);
    PrimariesConcat(front, back);
    assert rs == front + [rs[i]] + back && rs[i := r] == front + [r] + back;
  }

  // ----- operations -----

  function New(id: int, workspaceID: int, name: string, slug: string, primary: Repository): (r: Result<Project, Error>) {
    if id <= 0 || workspaceID <= 0 || Blank(name) || Blank(slug) then Err(ErrInvalid)
    else if primary.id <= 0 || primary.projectID != id || primary.role != PRIMARY || Blank(primary.url) then Err(ErrInvalid)
    else Ok(Project(id, workspaceID, TrimSpace(name), TrimSpace(slug), Active, 1, [primary.(version := Max(primary.version, 1))]))
  }

  predicate Allowed(from: State, to: State) {
    match from
    case Active => to in {Paused, Archived, Deleting}
    case Paused => to in {Active, Archived, Deleting}
    case Archived => to in {Active, Paused, Deleting}
    case Deleting => to == Deleted
    case Deleted => false
  }

  function Transition(p: Project, to: State, expectedVersion: int, admin: bool): (r: Result<Project, Error>) {
    if !admin then Err(ErrPermissionDenied)
    else if expectedVersion != p.version then Err(ErrVersionConflict)
    else if p.state == to && (to == Paused || to == Archived) then Ok(p)
    else if !Allowed(p.state, to) then Err(ErrConflict)
    else
      var moved := p.(state := to, version := p.version + 1);
      Ok(if to == Deleted then moved.(repositories := []) else moved)
  }

  predicate ReadOnly(p: Project) { p.state == Archived || p.state == Deleting || p.state == Deleted }

  function Checked(p: Project): (r: Result<Project, Error>) { if Valid(p) then Ok(p) else Err(ErrConflict) }

  /** The project with the repository attached, before the closing validation. */
  function Attached(p: Project, r: Repository): (q: Project) {
    var kept := if r.role == PRIMARY then Demote(p.repositories) else p.repositories;
    p.(repositories := kept + [r.(version := Max(r.version, 1))], version := p.version + 1)
  }

  predicate SameUrl(a: Repository, b: Repository) { Lower(a.url) == Lower(b.url) }

  function AddRepository(p: Project, r: Repository, limit: int): (q: Result<Project, Error>) {
    if ReadOnly(p) then Err(ErrConflict)
    else if limit > 0 && |p.repositories| >= limit then Err(ErrConflict)
    else if !ValidRepository(r, p.id) then Err(ErrInvalid)
    else if exists i :: 0 <= i < |p.repositories| && SameUrl(p.repositories[i], r) then Ok(p)
    else Checked(Attached(p, r))
  }

  function IndexOf(rs: seq<Repository>, id: int): (i: int)
    ensures -1 <= i < |rs|
    ensures i >= 0 ==> rs[i].id == id && forall k :: 0 <= k < i ==> rs[k].id != id
    ensures i < 0 ==> forall k :: 0 <= k < |rs| ==> rs[k].id != id
  {
    if rs == [] then -1
    else
      var front := IndexOf(rs[..|rs| - 1], id);
      if front >= 0 then front else if rs[|rs| - 1].id == id then |rs| - 1 else -1
  }

  /** The project with one role changed, before the closing validation. */
  function Recast(p: Project, i: nat, role: string): (q: Project)
    requires i < |p.repositories|
  {
    var kept := if role == PRIMARY then Demote(p.repositories) else p.repositories;
    p.(repositories := kept[i := kept[i].(role := role, version := kept[i].version + 1)], version := p.version + 1)
  }

  function ChangeRepositoryRole(p: Project, id: int, role: string): (q: Result<Project, Error>) {
    if ReadOnly(p) then Err(ErrConflict)
    else if !ValidRole(role) then Err(ErrInvalid)
    else
      var i := IndexOf(p.repositories, id);
      if i < 0 then Err(ErrNotFound)
      else if p.repositories[i].role == role then Ok(p)
      else if role != PRIMARY && p.repositories[i].role == PRIMARY then Err(ErrConflict)
      else Checked(Recast(p, i, role))
  }

  function Detached(p: Project, i: nat): (q: Project)
    requires i < |p.repositories|
  {
    p.(repositories := p.repositories[..i] + p.repositories[i + 1..], version := p.version + 1)
  }

  function RemoveRepository(p: Project, id: int): (q: Result<Project, Error>) {
    if ReadOnly(p) then Err(ErrConflict)
    else
      var i := IndexOf(p.repositories, id);
      if i < 0 then Ok(p)
      else if p.repositories[i].role == PRIMARY then Err(ErrConflict)
      else Checked(Detached(p, i))
  }

  // ----- the operations on the shared slice -----

  /** AddRepository gets as far as attaching. */
  predicate Attaches(p: Project, r: Repository, limit: int) {
    && !ReadOnly(p) && !(limit > 0 && |p.repositories| >= limit) && ValidRepository(r, p.id)
    && forall i :: 0 <= i < |p.repositories| ==> !SameUrl(p.repositories[i], r)
  }

  method AddRepositoryInPlace(p: Project, slice: array<Repository>, r: Repository, limit: int) returns (q: Result<Project, Error>)
    requires p.repositories == slice[..]
    modifies slice
    ensures q == AddRepository(p, r, limit)
    ensures slice[..] == LeftBehind(p, OpAdd(r, limit))
  {
    hide ValidRepository, Valid, SameUrl;
    if ReadOnly(p) { return Err(ErrConflict); }
    if limit > 0 && slice.Length >= limit { return Err(ErrConflict); }
    if !ValidRepository(r, p.id) { return Err(ErrInvalid); }
    for i := 0 to slice.Length
      invariant slice[..] == p.repositories && forall k :: 0 <= k < i ==> !SameUrl(p.repositories[k], r)
    {
      if SameUrl(slice[i], r) { return Ok(p); }
    }
    if r.role == PRIMARY { DemoteInPlace(slice); }
    var attached := p.(repositories := slice[..] + [r.(version := Max(r.version, 1))], version := p.version + 1);
    var ok := Validate(attached);
    return if ok then Ok(attached) else Err(ErrConflict);
  }

  /** ChangeRepositoryRole gets as far as changing. */
  predicate Recasts(p: Project, id: int, role: string) {
    && !ReadOnly(p) && ValidRole(role) && IndexOf(p.repositories, id) >= 0
    && p.repositories[IndexOf(p.repositories, id)].role != role
    && (role != PRIMARY ==> p.repositories[IndexOf(p.repositories, id)].role != PRIMARY)
  }

  method ChangeRepositoryRoleInPlace(p: Project, slice: array<Repository>, id: int, role: string) returns (q: Result<Project, Error>)
    requires p.repositories == slice[..]
    modifies slice
    ensures q == ChangeRepositoryRole(p, id, role)
    ensures slice[..] == LeftBehind(p, OpRole(id, role))
  {
    hide ValidRole, Valid;
    if ReadOnly(p) { return Err(ErrConflict); }
    if !ValidRole(role) { return Err(ErrInvalid); }
    var i := IndexOf(slice[..], id);
    if i < 0 { return Err(ErrNotFound); }
    if slice[i].role == role { return Ok(p); }
    if role == PRIMARY { DemoteInPlace(slice); } else if slice[i].role == PRIMARY { return Err(ErrConflict); }
    slice[i] := slice[i].(role := role, version := slice[i].version + 1);
    var recast := p.(repositories := slice[..], version := p.version + 1);
    assert recast == Recast(p, i, role);
    var ok := Validate(recast);
    return if ok then Ok(recast) else Err(ErrConflict);
  }

  const ZERO := Repository(0, 0, "", "", 0)

  /** RemoveRepository gets as far as removing. */
  predicate Detaches(p: Project, id: int) {
    !ReadOnly(p) && IndexOf(p.repositories, id) >= 0 && p.repositories[IndexOf(p.repositories, id)].role != PRIMARY
  }

  /** `slices.Delete` moves the later repositories down and clears the place that becomes free. */
  method DeleteInPlace(slice: array<Repository>, i: nat)
    requires i < slice.Length
    modifies slice
    ensures slice[..] == old(slice[..i] + slice[i + 1..]) + [ZERO]
  {
    ghost var before := slice[..];
    var last := slice.Length - 1;
    for k := i to last
      invariant slice[..k] == before[..i] + before[i + 1..k + 1] && slice[k..] == before[k..]
    {
      ghost var tail := slice[k..];
      assert slice[k + 1] == tail[1] == before[k + 1] && slice[k + 1..] == tail[1..];
      slice[k] := slice[k + 1];
    }
    ghost var kept := slice[..last];
    assert kept == before[..i] + before[i + 1..];
    slice[last] := ZERO;
    assert slice[..last] == kept && slice[..] == slice[..last] + [slice[last]];
  }

  method RemoveRepositoryInPlace(p: Project, slice: array<Repository>, id: int) returns (q: Result<Project, Error>)
    requires p.repositories == slice[..]
    modifies slice
    ensures q == RemoveRepository(p, id)
    ensures slice[..] == LeftBehind(p, OpRemove(id))
  {
    hide Valid;
    if ReadOnly(p) { return Err(ErrConflict); }
    var i := IndexOf(slice[..], id);
    if i < 0 { return Ok(p); }
    if slice[i].role == PRIMARY { return Err(ErrConflict); }
    DeleteInPlace(slice, i);
    var detached := p.(repositories := slice[..slice.Length - 1], version := p.version + 1);
    assert detached == Detached(p, i);
    var ok := Validate(detached);
    return if ok then Ok(detached) else Err(ErrConflict);
  }

  /** What an operation leaves in the slice of the value it was called on. */
  function LeftBehind(p: Project, op: Op): (rs: seq<Repository>) {
    match op
    case OpTransition(_, _, _) => p.repositories
    case OpAdd(r, limit) => if Attaches(p, r, limit) && r.role == PRIMARY then Demote(p.repositories) else p.repositories
    case OpRole(id, role) => if Recasts(p, id, role) then Recast(p, IndexOf(p.repositories, id), role).repositories else p.repositories
    case OpRemove(id) =>
      if Detaches(p, id) then Detached(p, IndexOf(p.repositories, id)).repositories + [ZERO] else p.repositories
  }

  /** The operation takes effect in a way that its caller's own value does not survive. */
  predicate Spoils(p: Project, op: Op) {
    (op.OpAdd? && Attaches(p, op.repository, op.limit) && op.repository.role == PRIMARY) || (op.OpRemove? && Detaches(p, op.id))
  }

  /** A caller who keeps using the value it called the method on finds it changed through the slice, and it is still
      valid if and only if the call neither attached a primary nor detached a repository. */
  lemma CallerValueValidIff(p: Project, op: Op)
    requires Valid(p)
    ensures Valid(p.(repositories := LeftBehind(p, op))) <==> !Spoils(p, op)
  {
    hide Blank, Lower, ValidRole;
    match op
    case OpTransition(_, _, _) =>
    case OpAdd(r, limit) => DemoteLeavesNone(p.repositories);
    case OpRole(id, role) =>
      if Recasts(p, id, role) {
        RecastIsValid(p, IndexOf(p.repositories, id), role);
        OtherVersion(Recast(p, IndexOf(p.repositories, id), role), p.version);
      }
    case OpRemove(id) =>
      if Detaches(p, id) {
        var spoiled := LeftBehind(p, op);
        assert !ValidRepository(spoiled[|spoiled| - 1], p.id);
      }
  }

  lemma OtherVersion(p: Project, version: int)
    requires Valid(p) && version > 0
    ensures Valid(p.(version := version))
  {
    hide Blank, Lower, ValidRole, Primaries;
  }

  // ----- every operation keeps the aggregate valid -----

  lemma NewIsValid(id: int, workspaceID: int, name: string, slug: string, primary: Repository)
    ensures var r := New(id, workspaceID, name, slug, primary); r.Ok? ==> Valid(r.value)
  {
    TrimSpaceIdempotent(name);
    TrimSpaceIdempotent(slug);
    hide TrimSpace, Lower;
    var r := New(id, workspaceID, name, slug, primary);
    if r.Ok? {
      var first := r.value.repositories[0];
      OnePrimary(first);
      assert r.value.repositories == [first];
    }
  }

  lemma OnePrimary(r: Repository)
    requires r.role == PRIMARY
    ensures Primaries([r]) == 1 && ValidRole(r.role)
  {
    PrimariesAppend([], r);
    assert [] + [r] == [r];
  }

  /** The closing validation of AddRepository never fails on a valid project. */
  lemma AttachedIsValid(p: Project, r: Repository)
    requires Valid(p) && p.state != Deleted && ValidRepository(r, p.id)
    requires forall i :: 0 <= i < |p.repositories| ==> !SameUrl(p.repositories[i], r)
    ensures Valid(Attached(p, r))
  {
    hide Blank, Lower;
    var kept := if r.role == PRIMARY then Demote(p.repositories) else p.repositories;
    DemoteLeavesNone(p.repositories);
    PrimariesAppend(kept, r.(version := Max(r.version, 1)));
    DemoteKeeps(p.repositories, p.id);
    forall i, j | 0 <= i < j < |kept| + 1 ensures Lower(Attached(p, r).repositories[i].url) != Lower(Attached(p, r).repositories[j].url) {
      assert kept[i].url == p.repositories[i].url && (j < |kept| ==> kept[j].url == p.repositories[j].url);
      assert !SameUrl(p.repositories[i], r);
    }
  }

  lemma DemoteKeeps(rs: seq<Repository>, projectID: int)
    requires forall i :: 0 <= i < |rs| ==> ValidRepository(rs[i], projectID)
    ensures forall i :: 0 <= i < |rs| ==> ValidRepository(Demote(rs)[i], projectID) && Demote(rs)[i].url == rs[i].url
  {
  }

  /** Nor does that of ChangeRepositoryRole. */
  lemma RecastIsValid(p: Project, i: nat, role: string)
    requires Valid(p) && p.state != Deleted && ValidRole(role) && i < |p.repositories| && p.repositories[i].role != role
    requires role != PRIMARY ==> p.repositories[i].role != PRIMARY
    ensures Valid(Recast(p, i, role))
  {
    hide Blank, Lower, ValidRole, Primaries;
    var kept := if role == PRIMARY then Demote(p.repositories) else p.repositories;
    var r := kept[i].(role := role, version := kept[i].version + 1);
    DemoteLeavesNone(p.repositories);
    DemoteKeeps(p.repositories, p.id);
    assert forall k :: 0 <= k < |kept| ==> ValidRepository(kept[k], p.id) && kept[k].url == p.repositories[k].url;
    PrimariesUpdate(kept, i, r);
    ReplaceKeeps(kept, i, r, p.id);
  }

  /** A repository may be replaced by one with the same URL. */
  lemma ReplaceKeeps(rs: seq<Repository>, i: nat, r: Repository, projectID: int)
    requires i < |rs| && r.url == rs[i].url && ValidRepository(r, projectID) && CaseDistinct(rs)
    requires forall k :: 0 <= k < |rs| ==> ValidRepository(rs[k], projectID)
    ensures var after := rs[i := r]; CaseDistinct(after) && forall k :: 0 <= k < |after| ==> ValidRepository(after[k], projectID)
  {
    hide Blank, Lower, ValidRole;
  }

  /** Nor does that of RemoveRepository. */
  lemma DetachedIsValid(p: Project, i: nat)
    requires Valid(p) && p.state != Deleted && i < |p.repositories| && p.repositories[i].role != PRIMARY
    ensures Valid(Detached(p, i))
  {
    hide Blank, Lower;
    PrimariesUpdate(p.repositories, i, p.repositories[i]);
  }

  datatype Op =
    | OpTransition(to: State, expectedVersion: int, admin: bool)
    | OpAdd(repository: Repository, limit: int)
    | OpRole(id: int, role: string)
    | OpRemove(id: int)

  function Apply(p: Project, op: Op): (r: Result<Project, Error>) {
    match op
    case OpTransition(to, expectedVersion, admin) => Transition(p, to, expectedVersion, admin)
    case OpAdd(repository, limit) => AddRepository(p, repository, limit)
    case OpRole(id, role) => ChangeRepositoryRole(p, id, role)
    case OpRemove(id) => RemoveRepository(p, id)
  }

  /** The refusals that an operation states up front; none of them is the closing validation. */
  predicate Refused(p: Project, op: Op) {
    match op
    case OpTransition(to, expectedVersion, admin) =>
      !admin || expectedVersion != p.version || !((p.state == to && (to == Paused || to == Archived)) || Allowed(p.state, to))
    case OpAdd(r, limit) => ReadOnly(p) || (limit > 0 && |p.repositories| >= limit) || !ValidRepository(r, p.id)
    case OpRole(id, role) =>
      ReadOnly(p) || !ValidRole(role) || IndexOf(p.repositories, id) < 0
      || (p.repositories[IndexOf(p.repositories, id)].role == PRIMARY && role != PRIMARY)
    case OpRemove(id) =>
      ReadOnly(p) || (IndexOf(p.repositories, id) >= 0 && p.repositories[IndexOf(p.repositories, id)].role == PRIMARY)
  }

  /** On a valid project an operation succeeds exactly when its guards let it, the result is valid again, and
      every change raises the version by one. */
  lemma ApplyKeepsValid(p: Project, op: Op)
    requires Valid(p)
    ensures Apply(p, op).Ok? <==> !Refused(p, op)
    ensures Apply(p, op).Ok? ==> Valid(Apply(p, op).value)
    ensures Apply(p, op).Ok? ==> Apply(p, op).value == p || Apply(p, op).value.version == p.version + 1
  {
    hide Blank, Lower;
    match op
    case OpTransition(to, expectedVersion, admin) =>
    case OpAdd(r, limit) =>
      if !Refused(p, op) && !(exists i :: 0 <= i < |p.repositories| && SameUrl(p.repositories[i], r)) { AttachedIsValid(p, r); }
    case OpRole(id, role) =>
      var i := IndexOf(p.repositories, id);
      if !Refused(p, op) && p.repositories[i].role != role { RecastIsValid(p, i, role); }
    case OpRemove(id) =>
      var i := IndexOf(p.repositories, id);
      if !Refused(p, op) && i >= 0 { DetachedIsValid(p, i); }
  }

  /** A transition leads to the requested state along the allowed ways, for an administrator who knows the version; only
      deletion takes the repositories away, and asking again for a pause or an archive changes nothing. */
  lemma TransitionEffects(p: Project, to: State, expectedVersion: int, admin: bool)
    ensures Transition(p, to, expectedVersion, admin).Ok? <==>
            && admin && expectedVersion == p.version
            && (|| (p.state == Active && to in {Paused, Archived, Deleting})
                || (p.state == Paused && to in {Paused, Active, Archived, Deleting})
                || (p.state == Archived && to in {Archived, Active, Paused, Deleting})
                || (p.state == Deleting && to == Deleted))
    ensures Transition(p, to, expectedVersion, admin).Ok? ==>
              var after := Transition(p, to, expectedVersion, admin).value;
              && after.state == to && after.version == (if p.state == to then p.version else p.version + 1)
              && after.repositories == (if to == Deleted then [] else p.repositories)
              && after.(state := p.state, version := p.version, repositories := p.repositories) == p
  {
  }

  /** A new project is active, at version 1, with the primary alone; it is refused only for bad identity or primary. */
  lemma NewEffects(id: int, workspaceID: int, name: string, slug: string, primary: Repository)
    ensures New(id, workspaceID, name, slug, primary).Ok? <==>
            && id > 0 && workspaceID > 0 && !Blank(name) && !Blank(slug)
            && primary.id > 0 && primary.projectID == id && primary.role == "primary" && !Blank(primary.url)
    ensures New(id, workspaceID, name, slug, primary).Ok? ==>
              var p := New(id, workspaceID, name, slug, primary).value;
              && p.id == id && p.workspaceID == workspaceID && p.name == TrimSpace(name) && p.slug == TrimSpace(slug)
              && p.state == Active && p.version == 1 && |p.repositories| == 1
              && p.repositories[0].(version := primary.version) == primary
              && p.repositories[0].version == if primary.version < 1 then 1 else primary.version
  {
    hide Blank, TrimSpace;
  }

  /** What a project must be, spelled out. */
  lemma ValidIs(p: Project)
    ensures Valid(p) <==>
            && p.id > 0 && p.workspaceID > 0 && !Blank(p.name) && !Blank(p.slug) && p.version > 0
            && (forall i :: 0 <= i < |p.repositories| ==>
                  var r := p.repositories[i];
                  && r.id > 0 && r.projectID == p.id && !Blank(r.url)
                  && r.role in {"primary", "core", "documentation", "examples", "sdk", "other"})
            && (forall i, j :: 0 <= i < j < |p.repositories| ==> Lower(p.repositories[i].url) != Lower(p.repositories[j].url))
            && (p.state != Deleted ==> exists i :: OnlyPrimary(p.repositories, i))
  {
    hide Blank, Lower;
    OnePrimaryIff(p.repositories);
  }

  predicate OnlyPrimary(rs: seq<Repository>, i: int) {
    0 <= i < |rs| && rs[i].role == "primary" && forall j :: 0 <= j < |rs| && j != i ==> rs[j].role != "primary"
  }

  lemma {:induction false} NoPrimaryIff(rs: seq<Repository>)
    ensures Primaries(rs) == 0 <==> forall j :: 0 <= j < |rs| ==> rs[j].role != "primary"
  {
    if rs != [] { NoPrimaryIff(rs[..|rs| - 1]); }
  }

  /** The count is one exactly when one repository, and no other, is primary. */
  lemma {:induction false} OnePrimaryIff(rs: seq<Repository>)
    ensures Primaries(rs) == 1 <==> exists i :: OnlyPrimary(rs, i)
  {
    if rs != [] {
      var n := |rs| - 1;
      var front := rs[..n];
      NoPrimaryIff(front);
      OnePrimaryIff(front);
      if rs[n].role == "primary" {
        if Primaries(front) == 0 { assert OnlyPrimary(rs, n); }
      } else {
        if exists i :: OnlyPrimary(front, i) {
          var i :| OnlyPrimary(front, i);
          assert OnlyPrimary(rs, i);
        }
        if exists i :: OnlyPrimary(rs, i) {
          var i :| OnlyPrimary(rs, i);
          assert OnlyPrimary(front, i);
        }
      }
    }
  }

  /** A repository is added while the project is open to changes, there is room and the repository is well formed. */
  lemma AddAccepted(p: Project, r: Repository, limit: int)
    requires Valid(p)
    ensures AddRepository(p, r, limit).Ok? <==>
            && p.state in {Active, Paused} && (limit <= 0 || |p.repositories| < limit)
            && r.id > 0 && r.projectID == p.id && !Blank(r.url)
            && r.role in {"primary", "core", "documentation", "examples", "sdk", "other"}
  {
    hide Blank, Lower, Valid, AddRepository;
    ApplyKeepsValid(p, OpAdd(r, limit));
    assert Apply(p, OpAdd(r, limit)) == AddRepository(p, r, limit);
  }

  /** A role is changed of a known repository, but the primary is not demoted without a replacement. */
  lemma RoleAccepted(p: Project, id: int, role: string)
    requires Valid(p)
    ensures ChangeRepositoryRole(p, id, role).Ok? <==>
            && p.state in {Active, Paused} && role in {"primary", "core", "documentation", "examples", "sdk", "other"}
            && var k := IndexOf(p.repositories, id); k >= 0 && (p.repositories[k].role == "primary" ==> role == "primary")
  {
    hide Blank, Lower, Valid, ChangeRepositoryRole;
    ApplyKeepsValid(p, OpRole(id, role));
    assert Apply(p, OpRole(id, role)) == ChangeRepositoryRole(p, id, role);
  }

  /** A repository is removed unless it is the primary; removing an unknown one changes nothing. */
  lemma RemoveAccepted(p: Project, id: int)
    requires Valid(p)
    ensures RemoveRepository(p, id).Ok? <==>
            && p.state in {Active, Paused}
            && var k := IndexOf(p.repositories, id); k >= 0 ==> p.repositories[k].role != "primary"
  {
    hide Blank, Lower, Valid, RemoveRepository;
    ApplyKeepsValid(p, OpRemove(id));
    assert Apply(p, OpRemove(id)) == RemoveRepository(p, id);
  }

  /** Why an operation on a valid project is refused, the first of several reasons. */
  lemma RefusalCodes(p: Project, op: Op)
    requires Valid(p) && Refused(p, op)
    ensures Apply(p, op) ==
            match op
            case OpTransition(_, expectedVersion, admin) =>
              Err(if !admin then ErrPermissionDenied else if expectedVersion != p.version then ErrVersionConflict else ErrConflict)
            case OpAdd(r, limit) =>
              Err(if p.state in {Archived, Deleting, Deleted} || (limit > 0 && |p.repositories| >= limit) then ErrConflict else ErrInvalid)
            case OpRole(id, role) =>
              Err(if p.state in {Archived, Deleting, Deleted} then ErrConflict
                  else if role !in {"primary", "core", "documentation", "examples", "sdk", "other"} then ErrInvalid
                  else if forall i :: 0 <= i < |p.repositories| ==> p.repositories[i].id != id then ErrNotFound else ErrConflict)
            case OpRemove(_) => Err(ErrConflict)
  {
    hide Blank, Lower, Valid;
  }

  /** A removal takes away that repository alone. */
  lemma RemoveEffects(p: Project, id: int)
    requires RemoveRepository(p, id).Ok?
    ensures var before, after := p.repositories, RemoveRepository(p, id).value.repositories;
            var k := IndexOf(before, id);
            if k < 0 then RemoveRepository(p, id).value == p
            else before[k].role != "primary" && after == before[..k] + before[k + 1..] && RemoveRepository(p, id).value.version == p.version + 1
  {
    hide Blank, Lower, ValidRole, Valid, Primaries;
  }

  /** After a successful add the URL is there, every earlier repository keeps its place and URL, and a primary
      that was added is the only one. */
  lemma AddEffects(p: Project, r: Repository, limit: int)
    requires AddRepository(p, r, limit).Ok?
    ensures var before, after := p.repositories, AddRepository(p, r, limit).value.repositories;
            && (exists i :: 0 <= i < |after| && SameUrl(after[i], r))
            && |before| <= |after| <= |before| + 1
            && (forall i :: 0 <= i < |before| ==> after[i].url == before[i].url && after[i].id == before[i].id)
            && (|after| > |before| ==>
                  && after[|before|].(version := r.version) == r
                  && after[|before|].version == (if r.version < 1 then 1 else r.version)
                  && if r.role == "primary"
                     then forall i :: 0 <= i < |before| ==>
                            after[i] == if before[i].role == "primary" then before[i].(role := "core", version := before[i].version + 1) else before[i]
                     else after[..|before|] == before)
            && (|after| == |before| <==> exists i :: 0 <= i < |before| && SameUrl(before[i], r))
  {
    hide Blank, Lower, ValidRole, Valid, Primaries;
    var after := AddRepository(p, r, limit).value.repositories;
    if |after| > |p.repositories| { assert SameUrl(after[|p.repositories|], r); }
  }

  /** After a successful role change the repository holds the role, a new primary is the only one, and all
      repositories keep their places and URLs. */
  lemma RoleEffects(p: Project, id: int, role: string)
    requires ChangeRepositoryRole(p, id, role).Ok?
    ensures var before, after := p.repositories, ChangeRepositoryRole(p, id, role).value.repositories;
            var k := IndexOf(before, id);
            && k >= 0 && |after| == |before| && after[k].id == id && after[k].role == role
            && (forall i :: 0 <= i < |before| ==> after[i].url == before[i].url && after[i].id == before[i].id)
            && (before[k].role != role ==>
                  && after[k].version == before[k].version + 1
                  && forall i :: 0 <= i < |before| && i != k ==>
                       after[i] == if role == "primary" && before[i].role == "primary"
                                   then before[i].(role := "core", version := before[i].version + 1) else before[i])
  {
    hide Blank, Lower, ValidRole, Valid, Primaries;
  }

  ghost predicate IsRun(ps: seq<Project>, ops: seq<Op>) {
    && |ps| == |ops| + 1 && Valid(ps[0])
    && forall i {:trigger ops[i]} :: 0 <= i < |ops| ==> Apply(ps[i], ops[i]) == Ok(ps[i + 1])
  }

  /** Every project reachable through successful operations has exactly one primary until it is deleted, and
      case-distinct URLs. */
  lemma {:induction false} ReachableIsValid(ps: seq<Project>, ops: seq<Op>, k: nat)
    requires IsRun(ps, ops) && k < |ps|
    ensures Valid(ps[k]) && (ps[k].state != Deleted ==> Primaries(ps[k].repositories) == 1) && CaseDistinct(ps[k].repositories)
  {
    if k > 0 {
      ReachableIsValid(ps, ops, k - 1);
      hide Apply;
      var op := ops[k - 1];
      ApplyKeepsValid(ps[k - 1], op);
    }
  }
}
